/**
 * What a submission does to the local catalogue. After the order is posted,
 * each cart entry in turn whose lesson is in the catalogue gets one PUT, and
 * once that PUT has returned the lesson's local `spaces` drops by one. The
 * network calls are given as outcomes: call 0 is the POST, call i + 1 the PUT
 * for cart entry i; a call throws when its outcome is false.
 */
module Submission {
  import opened Wrappers
  import opened Catalog
  import opened Cart

  /** The local effect of one PUT for `id`: the first lesson with that id loses one space. */
  function DecrementOne(lessons: seq<Lesson>, id: Id): (r: seq<Lesson>)
    ensures |r| == |lessons|
  {
    match Find(lessons, id)
    case None => lessons
    case Some(k) => lessons[k := lessons[k].(spaces := lessons[k].spaces - 1)]
  }

  /** The catalogue after the PUTs for the entries of `ids`, in order, have all returned. */
  function Decremented(lessons: seq<Lesson>, ids: seq<Id>): (r: seq<Lesson>)
    ensures |r| == |lessons|
  {
    if ids == [] then lessons
    else DecrementOne(Decremented(lessons, ids[..|ids| - 1]), ids[|ids| - 1])
  }

  /** The decrements touch nothing but `spaces`. */
  lemma {:induction false} DecrementedKeepsRecords(lessons: seq<Lesson>, ids: seq<Id>, i: nat)
    requires i < |lessons|
    ensures Decremented(lessons, ids)[i] == lessons[i].(spaces := Decremented(lessons, ids)[i].spaces)
  {
    if ids != [] {
      DecrementedKeepsRecords(lessons, ids[..|ids| - 1], i);
    }
  }

  /**
   * Network call `k` throws: call 0 is the POST, call `i + 1` the PUT for cart
   * entry `i` (made only when its lesson is in the catalogue). Calls past the
   * end of the outcomes return.
   */
  predicate Throws(outcomes: seq<bool>, k: nat) {
    k < |outcomes| && !outcomes[k]
  }

  /**
   * Every cart entry before position `n` whose lesson is in the catalogue had
   * its PUT return.
   */
  predicate PutsReturn(outcomes: seq<bool>, lessons: seq<Lesson>, cart: seq<Id>, n: nat)
    requires n <= |cart|
  {
    forall q :: 0 <= q < n && Find(lessons, cart[q]).Some? ==> !Throws(outcomes, q + 1)
  }

  lemma PutsReturnStep(outcomes: seq<bool>, lessons: seq<Lesson>, cart: seq<Id>, i: nat)
    requires i < |cart| && PutsReturn(outcomes, lessons, cart, i)
    requires Find(lessons, cart[i]).Some? ==> !Throws(outcomes, i + 1)
    ensures PutsReturn(outcomes, lessons, cart, i + 1)
  {
  }

  /**
   * The submission stopped before cart entry `p` was applied: either the POST
   * threw (and `p` is 0), or entry `p` names a catalogue lesson and its PUT is
   * the first call to throw.
   */
  predicate InterruptedAt(outcomes: seq<bool>, lessons: seq<Lesson>, cart: seq<Id>, p: nat) {
    (p == 0 && Throws(outcomes, 0))
    || (p < |cart| && !Throws(outcomes, 0) && PutsReturn(outcomes, lessons, cart, p)
        && Find(lessons, cart[p]).Some? && Throws(outcomes, p + 1))
  }

  /** Lookups only see ids, so a catalogue with the same ids gives the same answers. */
  lemma {:induction false} FindSameIds(a: seq<Lesson>, b: seq<Lesson>, id: Id)
    requires |a| == |b| && forall i :: 0 <= i < |a| ==> a[i].id == b[i].id
    ensures Find(a, id) == Find(b, id)
  {
    if a != [] {
      FindSameIds(a[1..], b[1..], id);
    }
  }

  /** Decrements change no id, so they change no lookup. */
  lemma FindAfterDecrements(lessons: seq<Lesson>, ids: seq<Id>, id: Id)
    ensures Find(Decremented(lessons, ids), id) == Find(lessons, id)
  {
    forall i | 0 <= i < |lessons| ensures Decremented(lessons, ids)[i].id == lessons[i].id {
      DecrementedKeepsRecords(lessons, ids, i);
    }
    FindSameIds(Decremented(lessons, ids), lessons, id);
  }

  /** Applying cart entry `i` after the entries before it. */
  lemma SubmitStep(lessons: seq<Lesson>, ids: seq<Id>, i: nat)
    requires i < |ids|
    ensures Find(Decremented(lessons, ids[..i]), ids[i]) == Find(lessons, ids[i])
    ensures Decremented(lessons, ids[..i + 1]) == DecrementOne(Decremented(lessons, ids[..i]), ids[i])
  {
    assert ids[..i + 1][..i] == ids[..i];
    FindAfterDecrements(lessons, ids[..i], ids[i]);
  }

  /**
   * One decrement per entry adds up: with unique ids, every lesson ends with
   * its spaces reduced by the number of times its id is in `ids`, and ids that
   * name no lesson change nothing.
   */
  lemma {:induction false} DecrementedSpaces(lessons: seq<Lesson>, ids: seq<Id>, i: nat)
    requires UniqueIds(lessons) && i < |lessons|
    ensures Decremented(lessons, ids)[i].spaces == lessons[i].spaces - Count(ids, lessons[i].id)
  {
    if ids != [] {
      var init, last := ids[..|ids| - 1], ids[|ids| - 1];
      assert ids == init + [last];
      assert multiset(ids) == multiset(init) + multiset{last};
      DecrementedSpaces(lessons, init, i);
      var before := Decremented(lessons, init);
      FindAfterDecrements(lessons, init, last);
      FindUnique(lessons, i);
      if last != lessons[i].id {
        match Find(lessons, last)
        case None =>
        case Some(k) =>
          assert k != i;
      }
    }
  }

  /**
   * After a fully successful submission each lesson's local spaces equal the
   * `itemsLeft` shown for it beforehand; with the cart within capacity none is
   * negative.
   */
  lemma SubmittedSpacesAreItemsLeft(lessons: seq<Lesson>, cart: seq<Id>)
    requires UniqueIds(lessons)
    ensures forall i :: 0 <= i < |lessons| ==> Decremented(lessons, cart)[i].spaces == ItemsLeft(lessons[i], cart)
    ensures WithinCapacity(lessons, cart) ==> forall l :: l in Decremented(lessons, cart) ==> l.spaces >= 0
  {
    forall i | 0 <= i < |lessons| ensures Decremented(lessons, cart)[i].spaces == ItemsLeft(lessons[i], cart) {
      DecrementedSpaces(lessons, cart, i);
    }
    if WithinCapacity(lessons, cart) {
      forall l | l in Decremented(lessons, cart) ensures l.spaces >= 0 {
        var i :| 0 <= i < |lessons| && Decremented(lessons, cart)[i] == l;
        assert lessons[i] in lessons;
      }
    }
  }

  /**
   * A submission that throws part-way keeps the cart but not the catalogue as
   * it was: a lesson with two spaces and two cart entries whose second PUT
   * throws is left with one space and two entries, so `itemsLeft` goes
   * negative and the cart is no longer within capacity.
   */
  lemma PartialFailureOverdraws(m1: Lesson)
    requires m1.spaces == 2
    ensures InterruptedAt([true, true, false], [m1], [m1.id, m1.id], 1)
    ensures Decremented([m1], [m1.id, m1.id][..1]) == [m1.(spaces := 1)]
    ensures ItemsLeft(m1.(spaces := 1), [m1.id, m1.id]) == -1
    ensures !WithinCapacity(Decremented([m1], [m1.id, m1.id][..1]), [m1.id, m1.id])
  {
    var cart := [m1.id, m1.id];
    assert cart[..1] == [m1.id];
    assert [m1.id][..0] == [];
    assert Count(cart, m1.id) == 2;
    assert m1.(spaces := 1) in [m1.(spaces := 1)];
  }

  /** A cart entry whose id names no lesson makes no PUT and changes nothing. */
  lemma UnknownIdSkipped(lessons: seq<Lesson>, ids: seq<Id>, x: Id)
    requires forall l :: l in lessons ==> l.id != x
    ensures Decremented(lessons, ids + [x]) == Decremented(lessons, ids)
  {
    assert (ids + [x])[..|ids|] == ids;
    FindAfterDecrements(lessons, ids, x);
  }

  /**
   * Two different lessons, one entry each, every call returns: both lessons
   * end with one space less.
   */
  lemma TwoLessonsSubmitted(a: Lesson, b: Lesson)
    requires a.id != b.id
    ensures PutsReturn([true, true, true], [a, b], [a.id, b.id], 2)
    ensures Decremented([a, b], [a.id, b.id]) == [a.(spaces := a.spaces - 1), b.(spaces := b.spaces - 1)]
  {
    var lessons, cart := [a, b], [a.id, b.id];
    assert UniqueIds(lessons);
    DecrementedSpaces(lessons, cart, 0);
    DecrementedSpaces(lessons, cart, 1);
    DecrementedKeepsRecords(lessons, cart, 0);
    DecrementedKeepsRecords(lessons, cart, 1);
    assert Count(cart, a.id) == 1 && Count(cart, b.id) == 1;
  }
}
