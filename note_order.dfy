/**
  The three orders in which notes are shown, as the comparators handed to
  `Array.prototype.sort`, and the sort itself. The repository and the card list
  order notes pinned first, then newest first; the table can instead order
  them by a column, ascending or descending.
*/
module NoteOrder {
  import opened Text
  import opened Notes

  datatype SortKey = Title | Objective | CreatedAt | IsPinned
  datatype Direction = Asc | Desc

  datatype Order =
    | PinnedFirstNewest
    | ByColumn(key: SortKey, direction: Direction)

  function Sign(x: int): int {
    if x < 0 then -1 else if x > 0 then 1 else 0
  }

  /** `new Date(b.createdAt).getTime() - new Date(a.createdAt).getTime()`, by its sign. */
  function NewestFirst(a: Note, b: Note): int {
    Sign(b.createdAt.time - a.createdAt.time)
  }

  /** The table compares a pin flag as 1 or 0 and the text columns lower-cased. */
  function ColumnCompare(key: SortKey, a: Note, b: Note): int {
    match key
    case IsPinned => Sign((if a.isPinned then 1 else 0) - (if b.isPinned then 1 else 0))
    case Title => StrCompare(Lower(a.title), Lower(b.title))
    case Objective => StrCompare(Lower(a.objective), Lower(b.objective))
    case CreatedAt => StrCompare(Lower(a.createdAt.iso), Lower(b.createdAt.iso))
  }

  /** The sign of the comparator: negative when `a` goes before `b`. */
  function Cmp(o: Order, a: Note, b: Note): int {
    match o
    case PinnedFirstNewest =>
      if a.isPinned && !b.isPinned then -1
      else if !a.isPinned && b.isPinned then 1
      else NewestFirst(a, b)
    case ByColumn(key, dir) =>
      var c := ColumnCompare(key, a, b);
      if c != 0 then (if dir == Asc then c else -c)
      else if key != CreatedAt then NewestFirst(a, b)
      else 0
  }

  /** Every note goes no later than the notes after it. */
  ghost predicate SortedBy(o: Order, s: seq<Note>) {
    forall i, j :: 0 <= i < j < |s| ==> Cmp(o, s[i], s[j]) <= 0
  }

  // ---------------------------------------------------------------- the comparators are consistent

  lemma CmpAntisymmetric(o: Order, a: Note, b: Note)
    ensures Cmp(o, a, b) == -Cmp(o, b, a)
  {
    if o.ByColumn? {
      match o.key
      case Title => StrCompareAntisymmetric(Lower(a.title), Lower(b.title));
      case Objective => StrCompareAntisymmetric(Lower(a.objective), Lower(b.objective));
      case CreatedAt => StrCompareAntisymmetric(Lower(a.createdAt.iso), Lower(b.createdAt.iso));
      case IsPinned =>
    }
  }

  /** Three-way facts about one string comparison: it is a strict total order. */
  lemma StrCompareTotalOrder(x: string, y: string, z: string)
    ensures StrCompare(x, y) == -StrCompare(y, x) && StrCompare(y, z) == -StrCompare(z, y)
    ensures StrCompare(x, z) == -StrCompare(z, x)
    ensures (StrCompare(x, y) == 0 <==> x == y) && (StrCompare(y, z) == 0 <==> y == z)
    ensures StrCompare(x, z) == 0 <==> x == z
    ensures StrCompare(x, y) < 0 && StrCompare(y, z) < 0 ==> StrCompare(x, z) < 0
    ensures StrCompare(z, y) < 0 && StrCompare(y, x) < 0 ==> StrCompare(z, x) < 0
  {
    StrCompareAntisymmetric(x, y);
    StrCompareAntisymmetric(y, z);
    StrCompareAntisymmetric(x, z);
    if StrCompare(x, y) < 0 && StrCompare(y, z) < 0 {
      StrCompareTransitive(x, y, z);
    }
    if StrCompare(z, y) < 0 && StrCompare(y, x) < 0 {
      StrCompareTransitive(z, y, x);
    }
  }

  lemma ColumnCompareTotalOrder(key: SortKey, a: Note, b: Note, c: Note)
    ensures ColumnCompare(key, a, b) == -ColumnCompare(key, b, a)
    ensures ColumnCompare(key, b, c) == -ColumnCompare(key, c, b)
    ensures ColumnCompare(key, a, c) == -ColumnCompare(key, c, a)
    ensures ColumnCompare(key, a, b) == 0 && ColumnCompare(key, b, c) == 0 ==> ColumnCompare(key, a, c) == 0
    ensures ColumnCompare(key, a, b) <= 0 && ColumnCompare(key, b, c) <= 0 ==> ColumnCompare(key, a, c) <= 0
    ensures ColumnCompare(key, a, b) >= 0 && ColumnCompare(key, b, c) >= 0 ==> ColumnCompare(key, a, c) >= 0
    ensures ColumnCompare(key, a, b) < 0 && ColumnCompare(key, b, c) <= 0 ==> ColumnCompare(key, a, c) < 0
    ensures ColumnCompare(key, a, b) <= 0 && ColumnCompare(key, b, c) < 0 ==> ColumnCompare(key, a, c) < 0
    ensures ColumnCompare(key, a, b) > 0 && ColumnCompare(key, b, c) >= 0 ==> ColumnCompare(key, a, c) > 0
    ensures ColumnCompare(key, a, b) >= 0 && ColumnCompare(key, b, c) > 0 ==> ColumnCompare(key, a, c) > 0
  {
    match key
    case Title => StrCompareTotalOrder(Lower(a.title), Lower(b.title), Lower(c.title));
    case Objective => StrCompareTotalOrder(Lower(a.objective), Lower(b.objective), Lower(c.objective));
    case CreatedAt => StrCompareTotalOrder(Lower(a.createdAt.iso), Lower(b.createdAt.iso), Lower(c.createdAt.iso));
    case IsPinned =>
  }

  /** "Goes no later than" is transitive, so sorting by any of the orders is well defined. */
  lemma CmpTransitive(o: Order, a: Note, b: Note, c: Note)
    requires Cmp(o, a, b) <= 0 && Cmp(o, b, c) <= 0
    ensures Cmp(o, a, c) <= 0
  {
    if o.ByColumn? {
      ColumnCompareTotalOrder(o.key, a, b, c);
    }
  }

  // ---------------------------------------------------------------- what sortedness means

  /** Pinned-first, newest-first order, spelled out. */
  lemma SortedPinnedFirstNewest(s: seq<Note>)
    ensures SortedBy(PinnedFirstNewest, s) <==>
      (forall i, j :: 0 <= i < j < |s| && s[j].isPinned ==> s[i].isPinned) &&
      (forall i, j :: 0 <= i < j < |s| && s[i].isPinned == s[j].isPinned ==>
         s[i].createdAt.time >= s[j].createdAt.time)
  {
    if SortedBy(PinnedFirstNewest, s) {
      forall i, j | 0 <= i < j < |s| && s[j].isPinned ensures s[i].isPinned {
        assert Cmp(PinnedFirstNewest, s[i], s[j]) <= 0;
      }
      forall i, j | 0 <= i < j < |s| && s[i].isPinned == s[j].isPinned
        ensures s[i].createdAt.time >= s[j].createdAt.time
      {
        assert Cmp(PinnedFirstNewest, s[i], s[j]) <= 0;
      }
    }
  }

  /** Column order, spelled out: the column's values never go backwards, and
      between equal values of a column other than the creation date the newer
      note comes first. */
  lemma SortedByColumn(key: SortKey, dir: Direction, s: seq<Note>)
    ensures SortedBy(ByColumn(key, dir), s) <==>
      (forall i, j :: 0 <= i < j < |s| ==>
         (if dir == Asc then ColumnCompare(key, s[i], s[j]) <= 0 else ColumnCompare(key, s[i], s[j]) >= 0)) &&
      (forall i, j :: 0 <= i < j < |s| && key != CreatedAt && ColumnCompare(key, s[i], s[j]) == 0 ==>
         s[i].createdAt.time >= s[j].createdAt.time)
  {
    var o := ByColumn(key, dir);
    if SortedBy(o, s) {
      forall i, j | 0 <= i < j < |s|
        ensures if dir == Asc then ColumnCompare(key, s[i], s[j]) <= 0 else ColumnCompare(key, s[i], s[j]) >= 0
      {
        assert Cmp(o, s[i], s[j]) <= 0;
      }
      forall i, j | 0 <= i < j < |s| && key != CreatedAt && ColumnCompare(key, s[i], s[j]) == 0
        ensures s[i].createdAt.time >= s[j].createdAt.time
      {
        assert Cmp(o, s[i], s[j]) <= 0;
      }
    }
  }

  /** A filter keeps a sorted collection sorted: it only leaves notes out. */
  lemma {:induction false} FilterKeepsSorted(o: Order, p: Note -> bool, s: seq<Note>)
    requires SortedBy(o, s)
    ensures SortedBy(o, FilterNotes(p, s))
  {
    if s != [] {
      FilterKeepsSorted(o, p, s[1..]);
      HeadBeforeRest(o, p, s);
      if p(s[0]) {
        SortedCons(o, s[0], FilterNotes(p, s[1..]));
      }
    }
  }

  /** In a sorted collection the first note goes no later than anything kept from the rest. */
  lemma HeadBeforeRest(o: Order, p: Note -> bool, s: seq<Note>)
    requires s != [] && SortedBy(o, s)
    ensures forall n :: n in FilterNotes(p, s[1..]) ==> Cmp(o, s[0], n) <= 0
  {
    forall n | n in FilterNotes(p, s[1..]) ensures Cmp(o, s[0], n) <= 0 {
      var k :| 0 <= k < |s[1..]| && s[1..][k] == n;
      assert s[k + 1] == n;
    }
  }

  /** A note that goes no later than every note of a sorted collection can lead it. */
  lemma SortedCons(o: Order, x: Note, r: seq<Note>)
    requires SortedBy(o, r) && forall n :: n in r ==> Cmp(o, x, n) <= 0
    ensures SortedBy(o, [x] + r)
  {
    var t := [x] + r;
    forall i, j | 0 <= i < j < |t| ensures Cmp(o, t[i], t[j]) <= 0 {
      assert t[j] == r[j - 1];
      if i > 0 {
        assert t[i] == r[i - 1];
      }
    }
  }

  // ---------------------------------------------------------------- the sort

  /** A comparator the sort can rely on: swapping the arguments flips the sign,
      and "goes no later than" is transitive. */
  ghost predicate Consistent(cmp: (Note, Note) -> int) {
    && (forall x, y :: cmp(x, y) == -cmp(y, x))
    && (forall x, y, z :: cmp(x, y) <= 0 && cmp(y, z) <= 0 ==> cmp(x, z) <= 0)
  }

  lemma OrdersAreConsistent(o: Order)
    ensures Consistent((x, y) => Cmp(o, x, y))
  {
    forall x, y ensures Cmp(o, x, y) == -Cmp(o, y, x) {
      CmpAntisymmetric(o, x, y);
    }
    forall x, y, z | Cmp(o, x, y) <= 0 && Cmp(o, y, z) <= 0 ensures Cmp(o, x, z) <= 0 {
      CmpTransitive(o, x, y, z);
    }
  }

  /** `a.sort(cmp)`: a stable insertion sort, in place. */
  method InsertionSort(a: array<Note>, cmp: (Note, Note) -> int)
    requires Consistent(cmp)
    modifies a
    ensures SortedPrefix(a[..], a.Length, cmp)
    ensures multiset(a[..]) == multiset(old(a[..]))
  {
    var i := 0;
    while i < a.Length
      invariant 0 <= i <= a.Length
      invariant SortedPrefix(a[..], i, cmp)
      invariant multiset(a[..]) == multiset(old(a[..]))
    {
      Insert(a, i, cmp);
      i := i + 1;
    }
  }

  /** The first `n` notes are in order. */
  ghost predicate SortedPrefix(s: seq<Note>, n: nat, cmp: (Note, Note) -> int)
    requires n <= |s|
  {
    forall p, q :: 0 <= p < q < n ==> cmp(s[p], s[q]) <= 0
  }

  /** Midway through inserting the note now at `j`: the other notes up to `i`
      are in order, and the note at `j` goes strictly before those after it. */
  ghost predicate Inserting(s: seq<Note>, i: nat, j: nat, cmp: (Note, Note) -> int) {
    && j <= i < |s|
    && (forall p, q :: 0 <= p < q <= i && p != j && q != j ==> cmp(s[p], s[q]) <= 0)
    && (forall q :: j < q <= i ==> cmp(s[j], s[q]) < 0)
  }

  lemma InsertStep(s: seq<Note>, i: nat, j: nat, cmp: (Note, Note) -> int)
    requires Inserting(s, i, j, cmp) && 0 < j && cmp(s[j], s[j - 1]) < 0
    ensures Inserting(s[j - 1 := s[j]][j := s[j - 1]], i, j - 1, cmp)
  {
  }

  lemma InsertDone(s: seq<Note>, i: nat, j: nat, cmp: (Note, Note) -> int)
    requires Consistent(cmp)
    requires Inserting(s, i, j, cmp) && (j == 0 || cmp(s[j], s[j - 1]) >= 0)
    ensures SortedPrefix(s, i + 1, cmp)
  {
    if j > 0 {
      assert cmp(s[j - 1], s[j]) <= 0;
      forall p | 0 <= p < j - 1 ensures cmp(s[p], s[j]) <= 0 {
        assert cmp(s[p], s[j - 1]) <= 0;
      }
    }
  }

  /** One step of the insertion sort: extends the sorted prefix by one note. */
  method Insert(a: array<Note>, i: nat, cmp: (Note, Note) -> int)
    requires Consistent(cmp)
    requires i < a.Length && SortedPrefix(a[..], i, cmp)
    modifies a
    ensures SortedPrefix(a[..], i + 1, cmp)
    ensures multiset(a[..]) == multiset(old(a[..]))
  {
    var j := ShiftBack(a, i, cmp);
    InsertDone(a[..], i, j, cmp);
  }

  /** Moves `a[i]` back past the notes before it that go strictly after it. */
  method ShiftBack(a: array<Note>, i: nat, cmp: (Note, Note) -> int) returns (j: nat)
    requires i < a.Length && SortedPrefix(a[..], i, cmp)
    modifies a
    ensures Inserting(a[..], i, j, cmp) && (j == 0 || cmp(a[j], a[j - 1]) >= 0)
    ensures multiset(a[..]) == multiset(old(a[..]))
  {
    j := i;
    InsertStart(a[..], i, cmp);
    while j > 0 && cmp(a[j], a[j - 1]) < 0
      invariant Inserting(a[..], i, j, cmp)
      invariant multiset(a[..]) == multiset(old(a[..]))
    {
      ghost var s := a[..];
      InsertStep(s, i, j, cmp);
      SwapKeepsNotes(s, j);
      a[j - 1], a[j] := a[j], a[j - 1];
      assert a[..] == s[j - 1 := s[j]][j := s[j - 1]];
      j := j - 1;
    }
  }

  lemma InsertStart(s: seq<Note>, i: nat, cmp: (Note, Note) -> int)
    requires i < |s| && SortedPrefix(s, i, cmp)
    ensures Inserting(s, i, i, cmp)
  {
  }

  /** Swapping two neighbours keeps the same notes. */
  lemma SwapKeepsNotes(s: seq<Note>, j: nat)
    requires 0 < j < |s|
    ensures multiset(s[j - 1 := s[j]][j := s[j - 1]]) == multiset(s)
  {
    var t := s[j - 1 := s[j]][j := s[j - 1]];
    assert s == s[..j - 1] + [s[j - 1], s[j]] + s[j + 1..];
    assert t == s[..j - 1] + [s[j], s[j - 1]] + s[j + 1..];
  }

  /** Sorting notes by one of the three orders. */
  method SortNotes(a: array<Note>, o: Order)
    modifies a
    ensures SortedBy(o, a[..])
    ensures multiset(a[..]) == multiset(old(a[..]))
  {
    OrdersAreConsistent(o);
    InsertionSort(a, (x, y) => Cmp(o, x, y));
    assert SortedPrefix(a[..], a.Length, (x, y) => Cmp(o, x, y));
  }

  /** A sorted copy of `s`: what `[...s].sort(comparator)` returns. */
  method SortedCopy(s: seq<Note>, o: Order) returns (r: seq<Note>)
    ensures SortedBy(o, r)
    ensures multiset(r) == multiset(s)
  {
    var a := new Note[|s|](i requires 0 <= i < |s| => s[i]);
    assert a[..] == s;
    SortNotes(a, o);
    r := a[..];
  }
}
