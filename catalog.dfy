/**
 * The lesson catalogue and the two views derived from it: the search filter
 * (`filteredLessons`) and the sorted copy of the filtered list (`sortedLessons`).
 */
module Catalog {
  import opened Wrappers
  import opened Text

  /** A lesson's `_id` as the backend sends it. */
  type Id = string

  /** One lesson record. Prices are whole numbers in this model. */
  datatype Lesson = Lesson(id: Id, subject: string, location: string, price: int, spaces: int, image: string)

  /** The backend's `_id`s are unique. */
  predicate UniqueIds(lessons: seq<Lesson>) {
    forall i, j :: 0 <= i < j < |lessons| ==> lessons[i].id != lessons[j].id
  }

  /** `lessons.find(l => l._id === id)`, given as the position of the first lesson with that id. */
  function Find(lessons: seq<Lesson>, id: Id): (r: Option<nat>)
    ensures r.Some? ==> r.value < |lessons| && lessons[r.value].id == id
    ensures r.Some? ==> forall j :: 0 <= j < r.value ==> lessons[j].id != id
    ensures r.None? <==> forall j :: 0 <= j < |lessons| ==> lessons[j].id != id
  {
    if lessons == [] then None
    else if lessons[0].id == id then Some(0)
    else match Find(lessons[1..], id)
      case None => None
      case Some(k) => Some(k + 1)
  }

  /** With unique ids, looking up a lesson's id finds that very lesson. */
  lemma FindUnique(lessons: seq<Lesson>, i: nat)
    requires UniqueIds(lessons) && i < |lessons|
    ensures Find(lessons, lessons[i].id) == Some(i)
  {
  }

  // ---------------------------------------------------------------------------
  // filteredLessons

  /**
   * A lesson matches a lower-cased search term when its lower-cased subject or
   * location, or the decimal form of its price or spaces, contains the term.
   */
  predicate Matches(l: Lesson, term: string): (r: bool)
    ensures r <==> (exists i :: OccursAt(ToLower(l.subject), term, i))
                   || (exists i :: OccursAt(ToLower(l.location), term, i))
                   || (exists i :: OccursAt(IntToString(l.price), term, i))
                   || (exists i :: OccursAt(IntToString(l.spaces), term, i))
    ensures term == [] ==> r
    ensures r ==> |term| <= |l.subject| || |term| <= |l.location|
                  || |term| <= |IntToString(l.price)| || |term| <= |IntToString(l.spaces)|
  {
    assert OccursAt(ToLower(l.subject), term, 0) <== term == [];
    Contains(ToLower(l.subject), term) || Contains(ToLower(l.location), term)
    || Contains(IntToString(l.price), term) || Contains(IntToString(l.spaces), term)
  }

  /** `a` is `b` with some elements left out and the rest in their order. */
  predicate IsSubsequence<T(==)>(a: seq<T>, b: seq<T>) {
    a == [] || (b != [] && ((a[0] == b[0] && IsSubsequence(a[1..], b[1..])) || IsSubsequence(a, b[1..])))
  }

  /** `lessons.filter(l => Matches(l, term))` */
  function FilterMatching(lessons: seq<Lesson>, term: string): (r: seq<Lesson>)
    ensures IsSubsequence(r, lessons)
    ensures forall l :: l in r <==> l in lessons && Matches(l, term)
    ensures forall l :: multiset(r)[l] == if Matches(l, term) then multiset(lessons)[l] else 0
  {
    if lessons == [] then []
    else
      assert lessons == [lessons[0]] + lessons[1..];
      if Matches(lessons[0], term) then
        var rest := FilterMatching(lessons[1..], term);
        assert ([lessons[0]] + rest)[1..] == rest;
        [lessons[0]] + rest
      else
        FilterMatching(lessons[1..], term)
  }

  /**
   * `filteredLessons`: a blank search term (white space only) keeps the whole
   * catalogue in order; any other term, lower-cased but not trimmed, keeps
   * every copy of each lesson that matches it and nothing else, in catalogue
   * order.
   */
  function FilteredLessons(lessons: seq<Lesson>, searchTerm: string): (r: seq<Lesson>)
    ensures (forall i :: 0 <= i < |searchTerm| ==> IsWhitespace(searchTerm[i])) ==> r == lessons
    ensures IsSubsequence(r, lessons)
    ensures (exists i :: 0 <= i < |searchTerm| && !IsWhitespace(searchTerm[i])) ==>
              forall l :: multiset(r)[l] == if Matches(l, ToLower(searchTerm)) then multiset(lessons)[l] else 0
  {
    TrimEmptyIffBlank(searchTerm);
    if Trim(searchTerm) == [] then
      IsSubsequenceReflexive(lessons);
      lessons
    else
      FilterMatching(lessons, ToLower(searchTerm))
  }

  lemma {:induction false} IsSubsequenceReflexive<T>(s: seq<T>)
    ensures IsSubsequence(s, s)
  {
    if s != [] {
      IsSubsequenceReflexive(s[1..]);
    }
  }

  // ---------------------------------------------------------------------------
  // sortedLessons

  /** The keys the catalogue can be sorted by (`sortBy`). */
  datatype SortField = Subject | Location | Price | Spaces

  /** The two lessons have the same key: equal numbers, or text equal once lower-cased. */
  predicate SameKey(a: Lesson, b: Lesson, f: SortField) {
    match f
    case Subject => ToLower(a.subject) == ToLower(b.subject)
    case Location => ToLower(a.location) == ToLower(b.location)
    case Price => a.price == b.price
    case Spaces => a.spaces == b.spaces
  }

  /** `valA < valB` for the chosen key: lower-cased text or numbers. Equal keys are never less. */
  predicate KeyLess(a: Lesson, b: Lesson, f: SortField): (r: bool)
    ensures r ==> !SameKey(a, b, f)
  {
    StrLessIrreflexive(ToLower(a.subject));
    StrLessIrreflexive(ToLower(a.location));
    match f
    case Subject => StrLess(ToLower(a.subject), ToLower(b.subject))
    case Location => StrLess(ToLower(a.location), ToLower(b.location))
    case Price => a.price < b.price
    case Spaces => a.spaces < b.spaces
  }

  /**
   * `a` may stand before `b`: its key is not greater (ascending) or not smaller
   * (descending) than `b`'s. Lessons with the same key may stand either way.
   */
  predicate InOrder(a: Lesson, b: Lesson, f: SortField, ascending: bool): (r: bool)
    ensures SameKey(a, b, f) ==> r
  {
    if ascending then !KeyLess(b, a, f) else !KeyLess(a, b, f)
  }

  predicate Sorted(s: seq<Lesson>, f: SortField, ascending: bool) {
    forall i, j :: 0 <= i < j < |s| ==> InOrder(s[i], s[j], f, ascending)
  }

  /** Any two lessons can be placed one before the other. */
  lemma InOrderTotal(a: Lesson, b: Lesson, f: SortField, ascending: bool)
    ensures InOrder(a, b, f, ascending) || InOrder(b, a, f, ascending)
  {
    match f
    case Subject =>
      var x, y := ToLower(a.subject), ToLower(b.subject);
      if StrLess(x, y) && StrLess(y, x) {
        StrLessTransitive(x, y, x);
        StrLessIrreflexive(x);
      }
    case Location =>
      var x, y := ToLower(a.location), ToLower(b.location);
      if StrLess(x, y) && StrLess(y, x) {
        StrLessTransitive(x, y, x);
        StrLessIrreflexive(x);
      }
    case Price =>
    case Spaces =>
  }

  lemma InOrderTransitive(a: Lesson, b: Lesson, c: Lesson, f: SortField, ascending: bool)
    requires InOrder(a, b, f, ascending) && InOrder(b, c, f, ascending)
    ensures InOrder(a, c, f, ascending)
  {
    match f
    case Subject =>
      var x, y, z := ToLower(a.subject), ToLower(b.subject), ToLower(c.subject);
      if ascending { StrNotLessTransitive(x, y, z); } else { StrNotLessTransitive(z, y, x); }
    case Location =>
      var x, y, z := ToLower(a.location), ToLower(b.location), ToLower(c.location);
      if ascending { StrNotLessTransitive(x, y, z); } else { StrNotLessTransitive(z, y, x); }
    case Price =>
    case Spaces =>
  }

  /** Places `x` into an already sorted list. */
  function Insert(x: Lesson, s: seq<Lesson>, f: SortField, ascending: bool): (r: seq<Lesson>)
    requires Sorted(s, f, ascending)
    ensures multiset(r) == multiset(s) + multiset{x}
    ensures Sorted(r, f, ascending)
  {
    if s == [] then [x]
    else if InOrder(x, s[0], f, ascending) then
      SortedCons(x, s, f, ascending);
      [x] + s
    else
      InOrderTotal(x, s[0], f, ascending);
      assert s == [s[0]] + s[1..];
      var rest := Insert(x, s[1..], f, ascending);
      SortedConsHead(s, x, rest, f, ascending);
      [s[0]] + rest
  }

  /** A lesson that may stand before the head of a sorted list may stand before all of it. */
  lemma SortedCons(x: Lesson, s: seq<Lesson>, f: SortField, ascending: bool)
    requires s != [] && Sorted(s, f, ascending) && InOrder(x, s[0], f, ascending)
    ensures Sorted([x] + s, f, ascending)
  {
    forall j | 0 <= j < |s| ensures InOrder(x, s[j], f, ascending) {
      if j > 0 { InOrderTransitive(x, s[0], s[j], f, ascending); }
    }
  }

  /**
   * The head of a sorted list stays in front of the rest once `x` is inserted
   * there, provided it may stand before `x`.
   */
  lemma SortedConsHead(s: seq<Lesson>, x: Lesson, rest: seq<Lesson>, f: SortField, ascending: bool)
    requires s != [] && Sorted(s, f, ascending) && InOrder(s[0], x, f, ascending)
    requires Sorted(rest, f, ascending) && multiset(rest) == multiset(s[1..]) + multiset{x}
    ensures Sorted([s[0]] + rest, f, ascending)
  {
    forall k | 0 <= k < |rest| ensures InOrder(s[0], rest[k], f, ascending) {
      assert rest[k] in multiset(rest);
      if rest[k] != x {
        assert rest[k] in multiset(s[1..]);
        var j :| 0 <= j < |s[1..]| && s[1..][j] == rest[k];
        assert s[j + 1] == rest[k];
      }
    }
    var t := [s[0]] + rest;
    forall i, j | 0 <= i < j < |t| ensures InOrder(t[i], t[j], f, ascending) {
      if i > 0 { assert t[i] == rest[i - 1] && t[j] == rest[j - 1]; }
    }
  }

  /**
   * `[...list].sort(comparator)`: a permutation of `s` ordered by the key. The
   * comparator never reports two lessons as equal, so the order it leaves tied
   * lessons in is not specified; this model keeps them in input order.
   */
  function Sort(s: seq<Lesson>, f: SortField, ascending: bool): (r: seq<Lesson>)
    ensures multiset(r) == multiset(s)
    ensures Sorted(r, f, ascending)
  {
    if s == [] then []
    else
      assert s == [s[0]] + s[1..];
      Insert(s[0], Sort(s[1..], f, ascending), f, ascending)
  }

  /**
   * `sortedLessons`: a sorted copy of the filtered catalogue, ascending when
   * `sortOrder` is "asc" and descending for any other value.
   */
  function SortedLessons(lessons: seq<Lesson>, searchTerm: string, sortBy: SortField, sortOrder: string)
    : (r: seq<Lesson>)
    ensures multiset(r) == multiset(FilteredLessons(lessons, searchTerm))
    ensures Sorted(r, sortBy, sortOrder == "asc")
  {
    Sort(FilteredLessons(lessons, searchTerm), sortBy, sortOrder == "asc")
  }
}
