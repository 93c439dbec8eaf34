/**
 * The cart: a list of lesson ids, one entry per reserved place, duplicates
 * allowed. Capacity questions (`itemsLeft`, `canAddToCart`), the item count,
 * the details view, and the two list edits `push` and `splice` used by
 * `addToCart` and `removeFromCart`.
 */
module Cart {
  import opened Wrappers
  import opened Catalog

  /** `cart.filter(id => id === x).length` */
  function Count(cart: seq<Id>, x: Id): (n: nat)
    ensures n == multiset(cart)[x]
  {
    if cart == [] then 0
    else
      assert cart == [cart[0]] + cart[1..];
      (if cart[0] == x then 1 else 0) + Count(cart[1..], x)
  }

  /** `cartItemCount`: the number of reserved places, whatever lessons they are for. */
  function CartItemCount(cart: seq<Id>): (n: nat)
    ensures n == |multiset(cart)|
  {
    |cart|
  }

  /** `itemsLeft(lesson)`: places not yet in the cart; negative when the cart holds more than `spaces`. */
  function ItemsLeft(lesson: Lesson, cart: seq<Id>): (n: int)
    ensures n == lesson.spaces - multiset(cart)[lesson.id]
  {
    lesson.spaces - Count(cart, lesson.id)
  }

  /** `canAddToCart(lesson)`: the cart holds the lesson fewer times than it has spaces. */
  predicate CanAddToCart(lesson: Lesson, cart: seq<Id>): (r: bool)
    ensures r <==> multiset(cart)[lesson.id] < lesson.spaces
  {
    ItemsLeft(lesson, cart) > 0
  }

  /**
   * The cart after `addToCart(lesson)`: the old entries in their order, then
   * one more entry for the lesson when a place is left.
   */
  function Added(cart: seq<Id>, lesson: Lesson): (r: seq<Id>)
    ensures |cart| <= |r| && r[..|cart|] == cart
    ensures multiset(r) == multiset(cart) + if CanAddToCart(lesson, cart) then multiset{lesson.id} else multiset{}
  {
    if CanAddToCart(lesson, cart) then
      assert (cart + [lesson.id])[..|cart|] == cart;
      cart + [lesson.id]
    else
      cart
  }

  /**
   * The position `splice(index, 1)` removes at: a negative index counts back
   * from the end (and stops at 0), a large one stops at the length.
   */
  function SpliceStart(len: nat, index: int): (s: nat)
    ensures s <= len
    ensures 0 <= index ==> s == if index < len then index else len
    ensures index < 0 ==> s == if len + index < 0 then 0 else len + index
  {
    if index < 0 then (if len + index < 0 then 0 else len + index)
    else if index < len then index else len
  }

  /**
   * The cart after `removeFromCart(index)`, that is `cart.splice(index, 1)`:
   * one entry fewer, the one at the splice position, when that position is in
   * the cart; otherwise the same cart.
   */
  function Spliced(cart: seq<Id>, index: int): (r: seq<Id>)
    ensures SpliceStart(|cart|, index) < |cart| ==>
              |r| == |cart| - 1 && multiset(r) + multiset{cart[SpliceStart(|cart|, index)]} == multiset(cart)
    ensures SpliceStart(|cart|, index) == |cart| ==> r == cart
  {
    var s := SpliceStart(|cart|, index);
    if s < |cart| then
      assert cart == cart[..s] + [cart[s]] + cart[s + 1..];
      cart[..s] + cart[s + 1..]
    else
      cart
  }

  /** `cartDetails`: the first catalogue lesson with each cart entry's id, or None when the id is unknown. */
  function CartDetails(lessons: seq<Lesson>, cart: seq<Id>): (r: seq<Option<Lesson>>)
    ensures |r| == |cart|
    ensures forall i :: 0 <= i < |cart| ==>
              (r[i].Some? <==> exists l :: l in lessons && l.id == cart[i])
    ensures forall i :: 0 <= i < |cart| && r[i].Some? ==> r[i].value in lessons && r[i].value.id == cart[i]
    ensures forall i :: 0 <= i < |cart| && r[i].Some? ==>
              exists k :: 0 <= k < |lessons| && lessons[k] == r[i].value
                          && forall j :: 0 <= j < k ==> lessons[j].id != cart[i]
  {
    seq(|cart|, i requires 0 <= i < |cart| =>
      match Find(lessons, cart[i])
      case None => None
      case Some(k) => Some(lessons[k]))
  }

  /** With unique ids, each detail is exactly the catalogue lesson carrying that id. */
  lemma CartDetailsUnique(lessons: seq<Lesson>, cart: seq<Id>, i: nat, k: nat)
    requires UniqueIds(lessons) && i < |cart| && k < |lessons| && lessons[k].id == cart[i]
    ensures CartDetails(lessons, cart)[i] == Some(lessons[k])
  {
    FindUnique(lessons, k);
  }

  // ---------------------------------------------------------------------------
  // What the two edits do

  /**
   * `addToCart` appends exactly one entry for the lesson when `canAddToCart`
   * holds and nothing otherwise; no other lesson's count moves.
   */
  lemma AddedCounts(cart: seq<Id>, lesson: Lesson, x: Id)
    ensures |Added(cart, lesson)| == |cart| + (if CanAddToCart(lesson, cart) then 1 else 0)
    ensures Count(Added(cart, lesson), x) ==
              Count(cart, x) + (if CanAddToCart(lesson, cart) && x == lesson.id then 1 else 0)
    ensures CanAddToCart(lesson, cart) ==> ItemsLeft(lesson, Added(cart, lesson)) == ItemsLeft(lesson, cart) - 1
    ensures !CanAddToCart(lesson, cart) ==> Added(cart, lesson) == cart
  {
  }

  /**
   * For an index inside the cart, `removeFromCart` takes out exactly the entry
   * at that position and keeps the others in their order; for an index at or
   * past the end it changes nothing.
   */
  lemma SplicedRemovesOne(cart: seq<Id>, index: int)
    ensures 0 <= index < |cart| ==>
              |Spliced(cart, index)| == |cart| - 1
              && multiset(Spliced(cart, index)) + multiset{cart[index]} == multiset(cart)
              && IsSubsequence(Spliced(cart, index), cart)
              && (forall j :: 0 <= j < index ==> Spliced(cart, index)[j] == cart[j])
              && (forall j :: index <= j < |cart| - 1 ==> Spliced(cart, index)[j] == cart[j + 1])
    ensures index >= |cart| ==> Spliced(cart, index) == cart
    ensures -|cart| <= index < 0 ==> Spliced(cart, index) == Spliced(cart, |cart| + index)
  {
    if 0 <= index < |cart| {
      SkipOne(cart, index);
    } else if -|cart| <= index < 0 {
      assert SpliceStart(|cart|, index) == SpliceStart(|cart|, |cart| + index);
    }
  }

  /** What is left after taking out the entry at `k`. */
  lemma SkipOne(cart: seq<Id>, k: nat)
    requires k < |cart|
    ensures var r := cart[..k] + cart[k + 1..];
            IsSubsequence(r, cart)
            && (forall j :: 0 <= j < k ==> r[j] == cart[j])
            && (forall j :: k <= j < |cart| - 1 ==> r[j] == cart[j + 1])
  {
    SkipOneIsSubsequence(cart, k);
  }

  /** Dropping the element at `k` leaves a subsequence. */
  lemma {:induction false} SkipOneIsSubsequence<T>(s: seq<T>, k: nat)
    requires k < |s|
    ensures IsSubsequence(s[..k] + s[k + 1..], s)
  {
    if k == 0 {
      assert s[..0] + s[1..] == s[1..];
      IsSubsequenceReflexive(s[1..]);
    } else {
      SkipOneIsSubsequence(s[1..], k - 1);
      var r := s[..k] + s[k + 1..];
      assert r[0] == s[0];
      assert r[1..] == s[1..][..k - 1] + s[1..][k..];
    }
  }

  // ---------------------------------------------------------------------------
  // The capacity invariant

  /** No lesson of the catalogue is in the cart more often than it has spaces. */
  predicate WithinCapacity(lessons: seq<Lesson>, cart: seq<Id>) {
    forall l :: l in lessons ==> Count(cart, l.id) <= l.spaces
  }

  /** An empty cart is within capacity of any catalogue whose spaces are not negative. */
  lemma EmptyCartWithinCapacity(lessons: seq<Lesson>)
    requires forall l :: l in lessons ==> l.spaces >= 0
    ensures WithinCapacity(lessons, [])
  {
  }

  /** `addToCart` on a catalogue lesson keeps the cart within capacity. */
  lemma AddKeepsWithinCapacity(lessons: seq<Lesson>, cart: seq<Id>, lesson: Lesson)
    requires UniqueIds(lessons) && lesson in lessons
    requires WithinCapacity(lessons, cart)
    ensures WithinCapacity(lessons, Added(cart, lesson))
  {
    forall l | l in lessons ensures Count(Added(cart, lesson), l.id) <= l.spaces {
      AddedCounts(cart, lesson, l.id);
      if l.id == lesson.id {
        var i :| 0 <= i < |lessons| && lessons[i] == l;
        var j :| 0 <= j < |lessons| && lessons[j] == lesson;
        assert i == j;
      }
    }
  }

  /** `removeFromCart` never raises a count, so it keeps the cart within capacity. */
  lemma RemoveKeepsWithinCapacity(lessons: seq<Lesson>, cart: seq<Id>, index: int)
    requires WithinCapacity(lessons, cart)
    ensures WithinCapacity(lessons, Spliced(cart, index))
  {
    var s := SpliceStart(|cart|, index);
    if s < |cart| {
      SplicedRemovesOne(cart, s);
      assert Spliced(cart, index) == Spliced(cart, s);
    }
  }

  /**
   * A lesson with two spaces: two adds go in, the third does nothing, and
   * no place is left.
   */
  lemma TwoSpacesScenario(m1: Lesson)
    requires m1.spaces == 2
    ensures Added([], m1) == [m1.id]
    ensures Added([m1.id], m1) == [m1.id, m1.id]
    ensures Added([m1.id, m1.id], m1) == [m1.id, m1.id]
    ensures ItemsLeft(m1, [m1.id, m1.id]) == 0
  {
    assert Count([m1.id, m1.id], m1.id) == 2;
  }
}
