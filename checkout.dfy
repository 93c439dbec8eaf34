/**
 * The order form and the checkout gate `isCheckoutValid`. The two regular
 * expressions it uses have the shape `^[class]{min,max}$`; they are modelled
 * as a pattern value and a matcher for that shape.
 */
module Checkout {
  import opened Wrappers
  import opened Text
  import opened Catalog

  /** The form bound to the checkout page (`method` is the delivery method). */
  datatype OrderForm = OrderForm(
    firstName: string,
    lastName: string,
    address: string,
    city: string,
    gift: bool,
    deliveryMethod: string,
    phone: string)

  /** The form as the page starts. */
  const EmptyOrder := OrderForm("", "", "", "", false, "", "")

  /** The two bracket classes used: `[A-Za-z]` and `[0-9]`. */
  datatype CharClass = Letters | Digits

  predicate InClass(c: char, k: CharClass) {
    match k
    case Letters => IsAsciiLetter(c)
    case Digits => IsAsciiDigit(c)
  }

  /** `^[cls]{min,max}$`; `max` is None for an unbounded repeat such as `+`. */
  datatype Pattern = Repeat(cls: CharClass, min: nat, max: Option<nat>)

  /** `/^[A-Za-z]+$/` */
  const NamePattern := Repeat(Letters, 1, None)

  /** `/^[0-9]{8,15}$/` */
  const PhonePattern := Repeat(Digits, 8, Some(15))

  /** Length of the longest prefix of `s` made of characters of the class. */
  function Run(s: string, k: CharClass): (n: nat)
    ensures n <= |s|
    ensures forall i :: 0 <= i < n ==> InClass(s[i], k)
    ensures n < |s| ==> !InClass(s[n], k)
  {
    if s == [] || !InClass(s[0], k) then 0 else 1 + Run(s[1..], k)
  }

  /**
   * `pattern.test(s)`: the class run must cover the whole string and have an
   * allowed length, so a match means the length is in range and every
   * character is in the class.
   */
  function Test(p: Pattern, s: string): (r: bool)
    ensures r <==>
              p.min <= |s| && (p.max.None? || |s| <= p.max.value)
              && forall i :: 0 <= i < |s| ==> InClass(s[i], p.cls)
  {
    var n := Run(s, p.cls);
    n == |s| && p.min <= n && (p.max.None? || n <= p.max.value)
  }

  /**
   * `isCheckoutValid`: names are non-empty and ASCII letters only, the phone
   * is 8 to 15 ASCII digits, address, city and method are non-empty and the
   * cart holds at least one entry.
   */
  predicate IsCheckoutValid(order: OrderForm, cart: seq<Id>): (r: bool)
    ensures r <==>
              (|order.firstName| > 0 && forall i :: 0 <= i < |order.firstName| ==> IsAsciiLetter(order.firstName[i]))
              && (|order.lastName| > 0 && forall i :: 0 <= i < |order.lastName| ==> IsAsciiLetter(order.lastName[i]))
              && (8 <= |order.phone| <= 15 && forall i :: 0 <= i < |order.phone| ==> IsAsciiDigit(order.phone[i]))
              && order.address != "" && order.city != "" && order.deliveryMethod != ""
              && cart != []
  {
    Test(NamePattern, order.firstName) && Test(NamePattern, order.lastName)
    && Test(PhonePattern, order.phone)
    && order.address != "" && order.city != "" && order.deliveryMethod != ""
    && |cart| > 0
  }

  /** A first name with digits in it is refused whatever the other fields hold. */
  lemma DigitsInNameRejected(order: OrderForm, cart: seq<Id>)
    requires order.firstName == "John123"
    ensures !IsCheckoutValid(order, cart)
  {
    assert !IsAsciiLetter(order.firstName[4]);
  }

  /** An empty cart is refused whatever the form holds. */
  lemma EmptyCartRejected(order: OrderForm)
    ensures !IsCheckoutValid(order, [])
  {
  }

  /** A complete form with letters-only names and an eight-digit phone passes with one lesson in the cart. */
  lemma CompleteFormAccepted(id: Id)
    ensures IsCheckoutValid(OrderForm("Ann", "Lee", "1 High St", "Leeds", false, "home", "07123456"), [id])
  {
    var phone := "07123456";
    assert forall i :: 0 <= i < |phone| ==> IsAsciiDigit(phone[i]) by {
      forall i | 0 <= i < |phone| ensures IsAsciiDigit(phone[i]) {
        assert phone[i] in "01234567";
      }
    }
  }
}
