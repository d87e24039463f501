/**
  The note record and the list operations the application builds on
  (`Array.prototype.map`, `filter`, `find`), with the facts about them that the
  repository, the list and the table rely on.
*/
module Notes {
  import opened Wrappers

  /** A creation time: the ISO-8601 text the application stores and the
      millisecond time `new Date(text).getTime()` gives for it. */
  datatype Stamp = Stamp(iso: string, time: int)

  /** A note. `images` is optional in the source record; every reader treats a
      missing list like an empty one, so the model stores `[]` for it. */
  datatype Note = Note(
    id: string,
    title: string,
    objective: string,
    notesArea: string,
    createdAt: Stamp,
    isPinned: bool,
    images: seq<string>)

  // ---------------------------------------------------------------- ids

  predicate HasId(s: seq<Note>, id: string) {
    exists i :: 0 <= i < |s| && s[i].id == id
  }

  function IdSet(s: seq<Note>): set<string> {
    set i | 0 <= i < |s| :: s[i].id
  }

  /** No two notes of the collection share an id. */
  predicate UniqueIds(s: seq<Note>) {
    forall i, j :: 0 <= i < j < |s| ==> s[i].id != s[j].id
  }

  /** The index of the first note with this id. */
  function IndexOfId(s: seq<Note>, id: string): (r: Option<nat>)
    ensures r.Some? ==> r.value < |s| && s[r.value].id == id
    ensures r.Some? ==> forall j :: 0 <= j < r.value ==> s[j].id != id
    ensures r.None? <==> !HasId(s, id)
  {
    if s == [] then None
    else if s[0].id == id then Some(0)
    else match IndexOfId(s[1..], id)
      case None => None
      case Some(k) => Some(k + 1)
  }

  /** `notes.find(n => n.id === id)`: the first note with this id. */
  function FindById(s: seq<Note>, id: string): (r: Option<Note>)
    ensures r.Some? ==> r.value in s && r.value.id == id
    ensures r.None? <==> !HasId(s, id)
  {
    match IndexOfId(s, id)
    case None => None
    case Some(k) => Some(s[k])
  }

  /** Where the note found for an id sits. */
  lemma FoundAt(s: seq<Note>, id: string) returns (i: nat)
    requires HasId(s, id)
    ensures i < |s| && s[i].id == id && FindById(s, id) == Some(s[i])
  {
    i := IndexOfId(s, id).value;
  }

  /** With unique ids, the note found is the only note with that id. */
  lemma FindByIdUnique(s: seq<Note>, id: string, i: nat)
    requires UniqueIds(s) && i < |s| && s[i].id == id
    ensures FindById(s, id) == Some(s[i])
  {
  }

  /** A non-empty collection is its front followed by its last note. */
  lemma LastSplit(s: seq<Note>)
    requires s != []
    ensures s[..|s| - 1] + [s[|s| - 1]] == s
  {
  }

  // ---------------------------------------------------------------- map and filter

  /** `s.map(f)`. */
  function MapNotes(f: Note -> Note, s: seq<Note>): seq<Note> {
    seq(|s|, i requires 0 <= i < |s| => f(s[i]))
  }

  /** `s.filter(p)`. */
  function FilterNotes(p: Note -> bool, s: seq<Note>): (r: seq<Note>)
    ensures |r| <= |s|
    ensures forall n :: n in r <==> n in s && p(n)
  {
    if s == [] then []
    else (if p(s[0]) then [s[0]] else []) + FilterNotes(p, s[1..])
  }

  /** Filtering works note by note and keeps the order: filtering two runs
      one after the other is filtering each and joining the results. */
  lemma {:induction false} FilterConcat(p: Note -> bool, a: seq<Note>, b: seq<Note>)
    ensures FilterNotes(p, a + b) == FilterNotes(p, a) + FilterNotes(p, b)
    decreases |a|
  {
    if a == [] {
      assert a + b == b;
    } else {
      var rest := a[1..];
      FilterConcat(p, rest, b);
      ConsTail(a, b);
      FilterUnfold(p, a);
      FilterUnfold(p, a + b);
      JoinStep(if p(a[0]) then [a[0]] else [], FilterNotes(p, rest), FilterNotes(p, b),
        FilterNotes(p, a), FilterNotes(p, a + b));
    }
  }

  lemma ConsTail(a: seq<Note>, b: seq<Note>)
    requires a != []
    ensures (a + b)[0] == a[0] && (a + b)[1..] == a[1..] + b
  {
  }

  lemma FilterUnfold(p: Note -> bool, s: seq<Note>)
    requires s != []
    ensures FilterNotes(p, s) == (if p(s[0]) then [s[0]] else []) + FilterNotes(p, s[1..])
  {
  }

  lemma JoinStep(h: seq<Note>, fr: seq<Note>, fb: seq<Note>, fa: seq<Note>, fab: seq<Note>)
    requires fa == h + fr && fab == h + (fr + fb)
    ensures fab == fa + fb
  {
  }

  /** A single note is kept exactly when it passes the test. */
  lemma FilterSingle(p: Note -> bool, x: Note)
    ensures FilterNotes(p, [x]) == if p(x) then [x] else []
  {
    assert [x][1..] == [];
  }

  /** Filtering splits the collection: what is kept plus what is dropped is
      the whole, so a filter removes exactly the notes it rejects. */
  lemma {:induction false} FilterPartitions(p: Note -> bool, q: Note -> bool, s: seq<Note>)
    requires forall n :: q(n) == !p(n)
    ensures multiset(FilterNotes(p, s)) + multiset(FilterNotes(q, s)) == multiset(s)
  {
    if s != [] {
      FilterPartitions(p, q, s[1..]);
      if p(s[0]) {
        PartitionStep(p, q, s);
      } else {
        PartitionStep(q, p, s);
      }
    }
  }

  /** The head goes to the filter that accepts it and the tail is split as before. */
  lemma PartitionStep(p: Note -> bool, q: Note -> bool, s: seq<Note>)
    requires s != [] && p(s[0]) && !q(s[0])
    requires multiset(FilterNotes(p, s[1..])) + multiset(FilterNotes(q, s[1..])) == multiset(s[1..])
    ensures multiset(FilterNotes(p, s)) + multiset(FilterNotes(q, s)) == multiset(s)
  {
    assert s == [s[0]] + s[1..];
    assert FilterNotes(p, s) == [s[0]] + FilterNotes(p, s[1..]);
  }

  /** A filter that rejects nothing returns its input unchanged. */
  lemma {:induction false} FilterKeepsAll(p: Note -> bool, s: seq<Note>)
    requires forall n :: n in s ==> p(n)
    ensures FilterNotes(p, s) == s
  {
    if s != [] {
      FilterKeepsAll(p, s[1..]);
      assert s == [s[0]] + s[1..];
    }
  }

  /** A filter keeps ids unique. */
  lemma {:induction false} FilterKeepsUniqueIds(p: Note -> bool, s: seq<Note>)
    requires UniqueIds(s)
    ensures UniqueIds(FilterNotes(p, s))
  {
    if s != [] {
      FilterKeepsUniqueIds(p, s[1..]);
      var r := FilterNotes(p, s[1..]);
      forall n | n in r ensures n.id != s[0].id {
        var k :| 0 <= k < |s[1..]| && s[1..][k] == n;
        assert s[k + 1] == n;
      }
    }
  }

  /** Mapping the same function over two arrangements of the same notes gives
      two arrangements of the same results. */
  lemma {:induction false} MapNotesPermutation(f: Note -> Note, s: seq<Note>, t: seq<Note>)
    requires multiset(s) == multiset(t)
    ensures multiset(MapNotes(f, s)) == multiset(MapNotes(f, t))
    decreases |s|
  {
    if s == [] {
      assert |t| == |multiset(t)| == 0;
    } else {
      var k := MatchHead(s, t);
      MapNotesPermutation(f, s[1..], t[..k] + t[k + 1..]);
      MapMatchedHead(f, s, t, k);
    }
  }

  /** Where the first note of `s` sits in a rearrangement `t`, and what is left on both sides. */
  lemma MatchHead(s: seq<Note>, t: seq<Note>) returns (k: nat)
    requires s != [] && multiset(s) == multiset(t)
    ensures k < |t| && t[k] == s[0]
    ensures multiset(s[1..]) == multiset(t[..k] + t[k + 1..])
  {
    k := PositionOf(t, s[0]);
    WithoutAt(s, 0);
    WithoutAt(t, k);
    DropHead(s);
  }

  /** A note of the multiset occurs at some position. */
  lemma PositionOf(t: seq<Note>, x: Note) returns (k: nat)
    requires x in multiset(t)
    ensures k < |t| && t[k] == x
  {
    k :| 0 <= k < |t| && t[k] == x;
  }

  lemma DropHead(s: seq<Note>)
    requires s != []
    ensures s[..0] + s[1..] == s[1..]
  {
  }

  /** Removing the note at `k` removes one occurrence of it. */
  lemma WithoutAt(s: seq<Note>, k: nat)
    requires k < |s|
    ensures multiset(s[..k] + s[k + 1..]) == multiset(s) - multiset{s[k]}
  {
    RemoveAt(s, k);
  }

  lemma MapMatchedHead(f: Note -> Note, s: seq<Note>, t: seq<Note>, k: nat)
    requires s != [] && k < |t| && t[k] == s[0]
    requires multiset(MapNotes(f, s[1..])) == multiset(MapNotes(f, t[..k] + t[k + 1..]))
    ensures multiset(MapNotes(f, s)) == multiset(MapNotes(f, t))
  {
    MapRemoveAt(f, s, 0);
    MapRemoveAt(f, t, k);
    assert s[..0] + s[1..] == s[1..];
  }

  lemma RemoveAt(s: seq<Note>, k: nat)
    requires k < |s|
    ensures multiset(s) == multiset(s[..k] + s[k + 1..]) + multiset{s[k]}
  {
    assert s == s[..k] + [s[k]] + s[k + 1..];
  }

  lemma MapRemoveAt(f: Note -> Note, s: seq<Note>, k: nat)
    requires k < |s|
    ensures multiset(MapNotes(f, s)) == multiset(MapNotes(f, s[..k] + s[k + 1..])) + multiset{f(s[k])}
  {
    var m := MapNotes(f, s);
    assert m == m[..k] + [m[k]] + m[k + 1..];
    assert MapNotes(f, s[..k] + s[k + 1..]) == m[..k] + m[k + 1..];
  }

  // ---------------------------------------------------------------- permutations

  /** A note that occurs at two positions occurs at least twice. */
  lemma TwoPositions(s: seq<Note>, i: nat, j: nat)
    requires i < j < |s| && s[i] == s[j]
    ensures multiset(s)[s[i]] >= 2
  {
    assert s == s[..j] + [s[j]] + s[j + 1..];
    assert s[i] in s[..j];
  }

  /** A note that occurs at least twice occurs at two positions. */
  lemma TwiceAtTwoPositions(s: seq<Note>, x: Note) returns (i: nat, j: nat)
    requires multiset(s)[x] >= 2
    ensures i < j < |s| && s[i] == x && s[j] == x
  {
    var a := PositionOf(s, x);
    WithoutAt(s, a);
    var b := PositionOf(s[..a] + s[a + 1..], x);
    WithoutAtIndex(s, a, b);
    if b < a {
      i, j := b, a;
    } else {
      i, j := a, b + 1;
    }
  }

  /** The note at `b` once the note at `a` is removed. */
  lemma WithoutAtIndex(s: seq<Note>, a: nat, b: nat)
    requires a < |s| && b < |s| - 1
    ensures (s[..a] + s[a + 1..])[b] == if b < a then s[b] else s[b + 1]
  {
  }

  /** Unique ids survive any rearrangement of the collection. */
  lemma UniqueIdsPermutation(s: seq<Note>, t: seq<Note>)
    requires multiset(s) == multiset(t) && UniqueIds(s)
    ensures UniqueIds(t)
  {
    forall i, j | 0 <= i < j < |t| ensures t[i].id != t[j].id {
      if t[i] == t[j] {
        TwoPositions(t, i, j);
        var a, b := TwiceAtTwoPositions(s, t[i]);
      } else {
        assert t[i] in multiset(s) && t[j] in multiset(s);
        var a :| 0 <= a < |s| && s[a] == t[i];
        var b :| 0 <= b < |s| && s[b] == t[j];
        assert a != b;
      }
    }
  }
}
