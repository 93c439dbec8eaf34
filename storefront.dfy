/**
 * The page's state (`lessons`, `cart`, `order`) and the three handlers that
 * change it: `addToCart`, `removeFromCart` and the local bookkeeping of
 * `submitForm`.
 */
module Storefront {
  import opened Catalog
  import opened Cart
  import opened Checkout
  import opened Submission

  /** Which alert the submission ends with, or none when the form is not valid. */
  datatype SubmitStatus = Invalid | Submitted | Failed

  class App {
    var lessons: seq<Lesson>
    var cart: seq<Id>
    var order: OrderForm

    /** The page once the catalogue has been loaded. */
    constructor (catalogue: seq<Lesson>)
      ensures lessons == catalogue && cart == [] && order == EmptyOrder
    {
      lessons := catalogue;
      cart := [];
      order := EmptyOrder;
    }

    /** `addToCart(lesson)`: `cart.push(lesson._id)` when a place is left. */
    method AddToCart(lesson: Lesson)
      modifies this`cart
      ensures cart == Added(old(cart), lesson)
      ensures lesson in lessons && UniqueIds(lessons) && WithinCapacity(lessons, old(cart)) ==>
                WithinCapacity(lessons, cart)
    {
      if CanAddToCart(lesson, cart) {
        cart := cart + [lesson.id];
      }
      if lesson in lessons && UniqueIds(lessons) && WithinCapacity(lessons, old(cart)) {
        AddKeepsWithinCapacity(lessons, old(cart), lesson);
      }
    }

    /** `removeFromCart(index)`: `cart.splice(index, 1)`. */
    method RemoveFromCart(index: int)
      modifies this`cart
      ensures cart == Spliced(old(cart), index)
      ensures WithinCapacity(lessons, old(cart)) ==> WithinCapacity(lessons, cart)
    {
      var s := SpliceStart(|cart|, index);
      if s < |cart| {
        cart := cart[..s] + cart[s + 1..];
      }
      if WithinCapacity(lessons, old(cart)) {
        RemoveKeepsWithinCapacity(lessons, old(cart), index);
      }
    }

    /**
     * `submitForm`, with the network calls replaced by their outcomes. Nothing
     * happens unless the form is valid. Then the order is posted and the
     * spaces are updated entry by entry. When every call returns the cart is
     * emptied; when one throws, the decrements already made stay and the cart
     * is kept.
     */
    method SubmitForm(outcomes: seq<bool>) returns (status: SubmitStatus)
      modifies this`lessons, this`cart
      ensures status == Invalid <==> !IsCheckoutValid(order, old(cart))
      ensures status == Invalid ==> lessons == old(lessons) && cart == old(cart)
      ensures status == Submitted <==>
                IsCheckoutValid(order, old(cart)) && !Throws(outcomes, 0)
                && PutsReturn(outcomes, old(lessons), old(cart), |old(cart)|)
      ensures status == Submitted ==> lessons == Decremented(old(lessons), old(cart)) && cart == []
      ensures status == Failed ==>
                cart == old(cart)
                && exists p :: 0 <= p <= |cart| && InterruptedAt(outcomes, old(lessons), cart, p)
                               && lessons == Decremented(old(lessons), cart[..p])
    {
      if !IsCheckoutValid(order, cart) {
        return Invalid;
      }
      // POST /orders
      if Throws(outcomes, 0) {
        assert cart[..0] == [];
        assert InterruptedAt(outcomes, lessons, cart, 0);
        return Failed;
      }
      var completed, stop := UpdateSpaces(outcomes);
      if !completed {
        return Failed;
      }
      cart := [];
      status := Submitted;
    }

    /**
     * The loop of `submitForm` after the POST has returned: every cart entry
     * in turn goes through `UpdateEntry`, until one PUT throws.
     */
    method UpdateSpaces(outcomes: seq<bool>) returns (completed: bool, ghost stop: nat)
      requires !Throws(outcomes, 0)
      modifies this`lessons
      ensures completed <==> PutsReturn(outcomes, old(lessons), cart, |cart|)
      ensures completed ==> lessons == Decremented(old(lessons), cart)
      ensures !completed ==>
                stop < |cart| && InterruptedAt(outcomes, old(lessons), cart, stop)
                && lessons == Decremented(old(lessons), cart[..stop])
    {
      stop := 0;
      var entries := cart;
      var i := 0;
      while i < |entries|
        invariant 0 <= i <= |entries|
        invariant lessons == Decremented(old(lessons), entries[..i])
        invariant PutsReturn(outcomes, old(lessons), entries, i)
      {
        SubmitStep(old(lessons), entries, i);
        var returned := UpdateEntry(entries[i], outcomes, i + 1);
        if !returned {
          assert InterruptedAt(outcomes, old(lessons), entries, i);
          return false, i;
        }
        PutsReturnStep(outcomes, old(lessons), entries, i);
        i := i + 1;
      }
      assert entries[..i] == entries;
      completed := true;
    }

    /**
     * One pass of the loop for cart entry `id`: when its lesson is in the
     * catalogue, the PUT (network call `call`) and, once it has returned, one
     * space less on the lesson. Reports whether the PUT threw.
     */
    method UpdateEntry(id: Id, outcomes: seq<bool>, call: nat) returns (returned: bool)
      modifies this`lessons
      ensures returned <==> !(Find(old(lessons), id).Some? && Throws(outcomes, call))
      ensures returned ==> lessons == DecrementOne(old(lessons), id)
      ensures !returned ==> lessons == old(lessons)
    {
      var found := Find(lessons, id);
      if found.Some? {
        var k := found.value;
        var newSpaces := lessons[k].spaces - 1;
        // PUT /lessons/{id}
        if Throws(outcomes, call) {
          return false;
        }
        lessons := lessons[k := lessons[k].(spaces := newSpaces)];
      }
      returned := true;
    }
  }
}
