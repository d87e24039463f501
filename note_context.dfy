/**
  The note repository: the collection of notes every view reads, the
  operations that change it, and the JSON import. The collection is kept
  pinned first, then newest first; deleting keeps the order it finds.
*/
module NoteContext {
  import opened Wrappers
  import opened Text
  import opened JsonValues
  import opened Notes
  import opened NoteOrder
  import opened NoteUtils

  // ---------------------------------------------------------------- update, delete, pin

  /** `prevNotes.map(note => note.id === updatedNote.id ? updatedNote : note)`. */
  function UpdateById(s: seq<Note>, updated: Note): (r: seq<Note>)
    ensures |r| == |s|
    ensures forall i :: 0 <= i < |s| ==> r[i] == if s[i].id == updated.id then updated else s[i]
  {
    MapNotes((n: Note) => if n.id == updated.id then updated else n, s)
  }

  /** Updating keeps every id where it was, so it keeps the ids distinct. */
  lemma UpdateByIdKeepsIds(s: seq<Note>, updated: Note)
    ensures IdSet(UpdateById(s, updated)) == IdSet(s)
    ensures UniqueIds(s) ==> UniqueIds(UpdateById(s, updated))
  {
    var r := UpdateById(s, updated);
    forall x ensures x in IdSet(r) <==> x in IdSet(s) {
      if x in IdSet(s) {
        var i :| 0 <= i < |s| && s[i].id == x;
        assert r[i].id == x;
      }
      if x in IdSet(r) {
        var i :| 0 <= i < |r| && r[i].id == x;
        assert s[i].id == x;
      }
    }
  }

  /** With no note of that id, updating changes nothing. */
  lemma UpdateByIdUnknown(s: seq<Note>, updated: Note)
    requires !HasId(s, updated.id)
    ensures UpdateById(s, updated) == s
  {
  }

  /** `prevNotes.filter(note => note.id !== id)`. */
  function DeleteById(s: seq<Note>, id: string): (r: seq<Note>)
    ensures forall n :: n in r <==> n in s && n.id != id
  {
    FilterNotes((n: Note) => n.id != id, s)
  }

  /** `prevNotes.filter(note => !ids.includes(note.id))`. */
  function DeleteByIds(s: seq<Note>, ids: seq<string>): (r: seq<Note>)
    ensures forall n :: n in r <==> n in s && n.id !in ids
  {
    FilterNotes((n: Note) => n.id !in ids, s)
  }

  /** Deleting removes exactly the notes with that id: the removed and the kept
      notes together are the old collection, and an unknown id changes nothing. */
  lemma DeleteByIdExact(s: seq<Note>, id: string)
    ensures !HasId(DeleteById(s, id), id)
    ensures multiset(DeleteById(s, id)) + multiset(FilterNotes((n: Note) => n.id == id, s)) == multiset(s)
    ensures !HasId(s, id) ==> DeleteById(s, id) == s
  {
    var p := (n: Note) => n.id != id;
    FilterPartitions(p, (n: Note) => n.id == id, s);
    if !HasId(s, id) {
      forall n | n in s ensures p(n) {
        var i :| 0 <= i < |s| && s[i] == n;
      }
      FilterKeepsAll(p, s);
    }
  }

  /** Deleting keeps the surviving notes in their old order: it works run by
      run, and a single note survives exactly when its id differs. */
  lemma DeleteByIdKeepsOrder(a: seq<Note>, b: seq<Note>, x: Note, id: string)
    ensures DeleteById(a + b, id) == DeleteById(a, id) + DeleteById(b, id)
    ensures DeleteById([x], id) == if x.id != id then [x] else []
  {
    FilterConcat((n: Note) => n.id != id, a, b);
    FilterSingle((n: Note) => n.id != id, x);
  }

  /** The bulk version removes exactly the notes whose id is listed. */
  lemma DeleteByIdsExact(s: seq<Note>, ids: seq<string>)
    ensures forall i :: 0 <= i < |DeleteByIds(s, ids)| ==> DeleteByIds(s, ids)[i].id !in ids
    ensures multiset(DeleteByIds(s, ids)) + multiset(FilterNotes((n: Note) => n.id in ids, s)) == multiset(s)
    ensures (forall i :: 0 <= i < |s| ==> s[i].id !in ids) ==> DeleteByIds(s, ids) == s
  {
    var p := (n: Note) => n.id !in ids;
    FilterPartitions(p, (n: Note) => n.id in ids, s);
    forall i | 0 <= i < |DeleteByIds(s, ids)| ensures DeleteByIds(s, ids)[i].id !in ids {
      assert DeleteByIds(s, ids)[i] in DeleteByIds(s, ids);
    }
    if forall i :: 0 <= i < |s| ==> s[i].id !in ids {
      forall n | n in s ensures p(n) {
        var i :| 0 <= i < |s| && s[i] == n;
      }
      FilterKeepsAll(p, s);
    }
  }

  /** The bulk version keeps the survivors' order in the same way. */
  lemma DeleteByIdsKeepsOrder(a: seq<Note>, b: seq<Note>, x: Note, ids: seq<string>)
    ensures DeleteByIds(a + b, ids) == DeleteByIds(a, ids) + DeleteByIds(b, ids)
    ensures DeleteByIds([x], ids) == if x.id !in ids then [x] else []
  {
    FilterConcat((n: Note) => n.id !in ids, a, b);
    FilterSingle((n: Note) => n.id !in ids, x);
  }

  /** The note with its pin flag flipped. */
  function FlipPin(n: Note): (r: Note)
    ensures r.isPinned == !n.isPinned && r.(isPinned := n.isPinned) == n
  {
    n.(isPinned := !n.isPinned)
  }

  /** `prevNotes.map(note => note.id === id ? { ...note, isPinned: !note.isPinned } : note)`. */
  function TogglePinById(s: seq<Note>, id: string): (r: seq<Note>)
    ensures |r| == |s|
    ensures forall i :: 0 <= i < |s| ==> r[i] == if s[i].id == id then FlipPin(s[i]) else s[i]
  {
    MapNotes((n: Note) => if n.id == id then FlipPin(n) else n, s)
  }

  /** Toggling the same id twice restores the collection. */
  lemma TogglePinByIdInvolution(s: seq<Note>, id: string)
    ensures TogglePinById(TogglePinById(s, id), id) == s
  {
    var r := TogglePinById(TogglePinById(s, id), id);
    forall i | 0 <= i < |s| ensures r[i] == s[i] {
      assert TogglePinById(s, id)[i].id == s[i].id;
    }
  }

  /** Toggling a re-sorted copy of a toggled collection restores the same
      notes: the repository re-sorts between two toggles. */
  lemma TogglePinTwiceRestores(s: seq<Note>, t: seq<Note>, id: string)
    requires multiset(t) == multiset(TogglePinById(s, id))
    ensures multiset(TogglePinById(t, id)) == multiset(s)
  {
    var f := (n: Note) => if n.id == id then FlipPin(n) else n;
    MapNotesPermutation(f, t, TogglePinById(s, id));
    assert TogglePinById(t, id) == MapNotes(f, t);
    assert TogglePinById(TogglePinById(s, id), id) == MapNotes(f, TogglePinById(s, id));
    TogglePinByIdInvolution(s, id);
  }

  /** `prevNotes.map(note => ids.includes(note.id) ? { ...note, isPinned: pin } : note)`. */
  function SetPinByIds(s: seq<Note>, ids: seq<string>, pin: bool): (r: seq<Note>)
    ensures |r| == |s|
    ensures forall i :: 0 <= i < |s| ==> r[i] == if s[i].id in ids then s[i].(isPinned := pin) else s[i]
  {
    MapNotes((n: Note) => if n.id in ids then n.(isPinned := pin) else n, s)
  }

  /** Setting the same pins twice is the same as setting them once, also
      across the re-sort in between. */
  lemma SetPinByIdsIdempotent(s: seq<Note>, t: seq<Note>, ids: seq<string>, pin: bool)
    requires multiset(t) == multiset(SetPinByIds(s, ids, pin))
    ensures SetPinByIds(SetPinByIds(s, ids, pin), ids, pin) == SetPinByIds(s, ids, pin)
    ensures multiset(SetPinByIds(t, ids, pin)) == multiset(t)
  {
    var once := SetPinByIds(s, ids, pin);
    var twice := SetPinByIds(once, ids, pin);
    forall i | 0 <= i < |s| ensures twice[i] == once[i] {
      assert once[i].id == s[i].id;
    }
    var f := (n: Note) => if n.id in ids then n.(isPinned := pin) else n;
    MapNotesPermutation(f, t, once);
    assert SetPinByIds(t, ids, pin) == MapNotes(f, t);
    assert twice == MapNotes(f, once);
  }

  /** Setting pins touches only the pin flags: ids and every other field stay. */
  lemma SetPinByIdsKeepsIds(s: seq<Note>, ids: seq<string>, pin: bool)
    ensures IdSet(SetPinByIds(s, ids, pin)) == IdSet(s)
    ensures UniqueIds(s) ==> UniqueIds(SetPinByIds(s, ids, pin))
  {
    var r := SetPinByIds(s, ids, pin);
    forall x ensures x in IdSet(r) <==> x in IdSet(s) {
      if x in IdSet(s) {
        var i :| 0 <= i < |s| && s[i].id == x;
        assert r[i].id == x;
      }
      if x in IdSet(r) {
        var i :| 0 <= i < |r| && r[i].id == x;
        assert s[i].id == x;
      }
    }
  }

  lemma TogglePinByIdKeepsIds(s: seq<Note>, id: string)
    ensures IdSet(TogglePinById(s, id)) == IdSet(s)
    ensures UniqueIds(s) ==> UniqueIds(TogglePinById(s, id))
  {
    var r := TogglePinById(s, id);
    forall x ensures x in IdSet(r) <==> x in IdSet(s) {
      if x in IdSet(s) {
        var i :| 0 <= i < |s| && s[i].id == x;
        assert r[i].id == x;
      }
      if x in IdSet(r) {
        var i :| 0 <= i < |r| && r[i].id == x;
        assert s[i].id == x;
      }
    }
  }

  // ---------------------------------------------------------------- import: validation

  /** `importedObj.images` is absent, or an array holding only strings. */
  predicate ImagesFieldValid(j: Json) {
    match Member(j, "images")
    case None => true
    case Some(v) => v.JArray? && forall k :: 0 <= k < |v.items| ==> v.items[k].JString?
  }

  /** The accepted shape of an imported record: five string fields, a boolean
      pin flag, a valid images field, and a creation date that parses. */
  predicate IsNoteRecord(j: Json, parseDate: string -> Option<int>) {
    && IsStringMember(j, "id")
    && IsStringMember(j, "title")
    && IsStringMember(j, "objective")
    && IsStringMember(j, "notesArea")
    && IsStringMember(j, "createdAt")
    && Member(j, "isPinned").Some? && Member(j, "isPinned").value.JBool?
    && ImagesFieldValid(j)
    && parseDate(j.fields["createdAt"].s).Some?
  }

  /** The note built from an accepted record, `images || []` for the images. */
  function ToNote(j: Json, parseDate: string -> Option<int>): (n: Note)
    requires IsNoteRecord(j, parseDate)
    ensures n.id == j.fields["id"].s && n.title == j.fields["title"].s
    ensures n.objective == j.fields["objective"].s && n.notesArea == j.fields["notesArea"].s
    ensures n.createdAt.iso == j.fields["createdAt"].s
    ensures Some(n.createdAt.time) == parseDate(n.createdAt.iso)
    ensures n.isPinned == j.fields["isPinned"].b
    ensures "images" !in j.fields ==> n.images == []
    ensures "images" in j.fields ==>
      (|n.images| == |j.fields["images"].items| &&
       forall k :: 0 <= k < |n.images| ==> j.fields["images"].items[k] == JString(n.images[k]))
  {
    var iso := j.fields["createdAt"].s;
    var images :=
      if "images" in j.fields then
        var items := j.fields["images"].items;
        seq(|items|, k requires 0 <= k < |items| => items[k].s)
      else [];
    Note(j.fields["id"].s, j.fields["title"].s, j.fields["objective"].s, j.fields["notesArea"].s,
         Stamp(iso, parseDate(iso).value), j.fields["isPinned"].b, images)
  }

  /** The notes built from the accepted candidates, in file order. */
  function ValidNotes(items: seq<Json>, parseDate: string -> Option<int>): seq<Note> {
    if items == [] then []
    else
      var last := items[|items| - 1];
      ValidNotes(items[..|items| - 1], parseDate) + (if IsNoteRecord(last, parseDate) then [ToNote(last, parseDate)] else [])
  }

  /** The number of rejected candidates. */
  function SkippedCount(items: seq<Json>, parseDate: string -> Option<int>): nat {
    if items == [] then 0
    else SkippedCount(items[..|items| - 1], parseDate) + (if IsNoteRecord(items[|items| - 1], parseDate) then 0 else 1)
  }

  /** Every candidate is either accepted or skipped. */
  lemma {:induction false} ValidPlusSkipped(items: seq<Json>, parseDate: string -> Option<int>)
    ensures |ValidNotes(items, parseDate)| + SkippedCount(items, parseDate) == |items|
  {
    if items != [] {
      ValidPlusSkipped(items[..|items| - 1], parseDate);
    }
  }

  /** The validation loop: walks the candidates, collecting the accepted notes
      and counting the rejected ones. Reading a field of a `null` candidate
      throws, which the caller reports as a critical error. */
  method ValidateCandidates(items: seq<Json>, parseDate: string -> Option<int>)
    returns (threw: bool, accepted: seq<Note>, skipped: nat)
    ensures threw <==> JNull in items
    ensures !threw ==> accepted == ValidNotes(items, parseDate) && skipped == SkippedCount(items, parseDate)
  {
    accepted := [];
    skipped := 0;
    var i := 0;
    while i < |items|
      invariant 0 <= i <= |items|
      invariant JNull !in items[..i]
      invariant accepted == ValidNotes(items[..i], parseDate)
      invariant skipped == SkippedCount(items[..i], parseDate)
    {
      var importedObj := items[i];
      assert items[..i + 1][..i] == items[..i];
      if importedObj == JNull {
        return true, accepted, skipped;
      }
      if IsNoteRecord(importedObj, parseDate) {
        accepted := accepted + [ToNote(importedObj, parseDate)];
      } else {
        skipped := skipped + 1;
      }
      i := i + 1;
    }
    assert items[..i] == items;
    threw := false;
  }

  // ---------------------------------------------------------------- import: upsert

  /** `map.set(n.id, n)` on a `Map` kept as its entries in insertion order:
      an existing key keeps its place and takes the new value, a new key goes last. */
  function Upsert(m: seq<Note>, n: Note): (r: seq<Note>)
    ensures HasId(m, n.id) ==> |r| == |m|
    ensures !HasId(m, n.id) ==> r == m + [n]
  {
    match IndexOfId(m, n.id)
    case Some(k) => m[k := n]
    case None => m + [n]
  }

  /** Setting every note of `s` in turn. */
  function UpsertAll(m: seq<Note>, s: seq<Note>): seq<Note> {
    if s == [] then m else Upsert(UpsertAll(m, s[..|s| - 1]), s[|s| - 1])
  }

  lemma IdSetSnoc(s: seq<Note>, n: Note)
    ensures IdSet(s + [n]) == IdSet(s) + {n.id}
  {
    var r := s + [n];
    forall x | x in IdSet(s) ensures x in IdSet(r) {
      var i :| 0 <= i < |s| && s[i].id == x;
      assert r[i].id == x;
    }
    assert r[|s|].id == n.id;
  }

  /** One `set` adds the key and keeps the keys distinct; the key now maps to
      the new note and every other key to what it mapped to before. */
  lemma UpsertFacts(m: seq<Note>, n: Note)
    requires UniqueIds(m)
    ensures IdSet(Upsert(m, n)) == IdSet(m) + {n.id}
    ensures UniqueIds(Upsert(m, n))
    ensures FindById(Upsert(m, n), n.id) == Some(n)
    ensures forall id :: id != n.id ==> FindById(Upsert(m, n), id) == FindById(m, id)
  {
    UpsertKeys(m, n);
    UpsertFinds(m, n);
  }

  lemma UpsertKeys(m: seq<Note>, n: Note)
    requires UniqueIds(m)
    ensures IdSet(Upsert(m, n)) == IdSet(m) + {n.id}
    ensures UniqueIds(Upsert(m, n))
  {
    var r := Upsert(m, n);
    match IndexOfId(m, n.id)
    case Some(k) =>
      assert r == m[k := n];
      forall i | 0 <= i < |r| ensures r[i].id == m[i].id { }
      SameIdsSameSet(m, r);
    case None =>
      IdSetSnoc(m, n);
  }

  /** Two collections with the same id at every position have the same ids. */
  lemma SameIdsSameSet(m: seq<Note>, r: seq<Note>)
    requires |m| == |r| && forall i :: 0 <= i < |r| ==> r[i].id == m[i].id
    ensures IdSet(r) == IdSet(m)
  {
    forall x ensures x in IdSet(r) <==> x in IdSet(m) {
      if x in IdSet(m) {
        var i :| 0 <= i < |m| && m[i].id == x;
        assert r[i].id == x;
      }
      if x in IdSet(r) {
        var i :| 0 <= i < |r| && r[i].id == x;
        assert m[i].id == x;
      }
    }
  }

  lemma UpsertFinds(m: seq<Note>, n: Note)
    requires UniqueIds(m)
    ensures FindById(Upsert(m, n), n.id) == Some(n)
    ensures forall id :: id != n.id ==> FindById(Upsert(m, n), id) == FindById(m, id)
  {
    UpsertKeys(m, n);
    var r := Upsert(m, n);
    var k := match IndexOfId(m, n.id) case Some(k) => k case None => |m|;
    assert k < |r| && r[k] == n;
    FindByIdUnique(r, n.id, k);
    forall id | id != n.id ensures FindById(r, id) == FindById(m, id) {
      UpsertOtherId(m, n, id);
    }
  }

  lemma UpsertOtherId(m: seq<Note>, n: Note, id: string)
    requires UniqueIds(m) && UniqueIds(Upsert(m, n)) && id != n.id
    ensures FindById(Upsert(m, n), id) == FindById(m, id)
  {
    var r := Upsert(m, n);
    assert forall i :: 0 <= i < |m| && m[i].id == id ==> r[i] == m[i];
    if HasId(m, id) {
      var i :| 0 <= i < |m| && m[i].id == id;
      FindByIdUnique(m, id, i);
      FindByIdUnique(r, id, i);
    } else {
      assert forall i :: 0 <= i < |r| ==> r[i].id != id;
    }
  }

  /** The last note of `s` with this id. */
  function LastWithId(s: seq<Note>, id: string): Option<Note> {
    if s == [] then None
    else if s[|s| - 1].id == id then Some(s[|s| - 1])
    else LastWithId(s[..|s| - 1], id)
  }

  /** The note an id should name after setting all of `s` into `m`: the last
      note of `s` with that id, or else the one `m` holds. */
  function LatestFor(m: seq<Note>, s: seq<Note>, id: string): Option<Note> {
    match LastWithId(s, id)
    case Some(n) => Some(n)
    case None => FindById(m, id)
  }

  /** After setting all of `s`, the keys are the old keys and the ids of `s`,
      still distinct, and each id of `s` maps to the last note of `s` with that id. */
  lemma UpsertAllFacts(m: seq<Note>, s: seq<Note>)
    requires UniqueIds(m)
    ensures IdSet(UpsertAll(m, s)) == IdSet(m) + IdSet(s)
    ensures UniqueIds(UpsertAll(m, s))
    ensures forall id :: FindById(UpsertAll(m, s), id) == LatestFor(m, s, id)
  {
    UpsertAllKeys(m, s);
    UpsertAllFinds(m, s);
  }

  lemma {:induction false} UpsertAllKeys(m: seq<Note>, s: seq<Note>)
    requires UniqueIds(m)
    ensures IdSet(UpsertAll(m, s)) == IdSet(m) + IdSet(s)
    ensures UniqueIds(UpsertAll(m, s))
  {
    if s != [] {
      var init := s[..|s| - 1];
      var last := s[|s| - 1];
      UpsertAllKeys(m, init);
      UpsertKeys(UpsertAll(m, init), last);
      LastSplit(s);
      IdSetSnoc(init, last);
    }
  }

  lemma {:induction false} UpsertAllFinds(m: seq<Note>, s: seq<Note>)
    requires UniqueIds(m)
    ensures forall id :: FindById(UpsertAll(m, s), id) == LatestFor(m, s, id)
  {
    if s != [] {
      var init := s[..|s| - 1];
      var last := s[|s| - 1];
      UpsertAllFinds(m, init);
      UpsertAllKeys(m, init);
      UpsertFinds(UpsertAll(m, init), last);
      forall id ensures FindById(UpsertAll(m, s), id) == LatestFor(m, s, id) {
        if id != last.id {
          assert LastWithId(s, id) == LastWithId(init, id);
        }
      }
    }
  }

  /** Rebuilding the map from a collection with distinct ids gives that collection back. */
  lemma {:induction false} UpsertAllDistinct(s: seq<Note>)
    requires UniqueIds(s)
    ensures UpsertAll([], s) == s
  {
    if s != [] {
      var init := s[..|s| - 1];
      UpsertAllDistinct(init);
      LastSplit(s);
    }
  }

  /** How many notes of `s` bring a key not yet in the map when they are set. */
  function CreatedCount(m: seq<Note>, s: seq<Note>): nat {
    if s == [] then 0
    else CreatedCount(m, s[..|s| - 1]) + (if HasId(UpsertAll(m, s[..|s| - 1]), s[|s| - 1].id) then 0 else 1)
  }

  /** How many notes of `s` replace a key already in the map when they are set. */
  function UpdatedCount(m: seq<Note>, s: seq<Note>): nat {
    if s == [] then 0
    else UpdatedCount(m, s[..|s| - 1]) + (if HasId(UpsertAll(m, s[..|s| - 1]), s[|s| - 1].id) then 1 else 0)
  }

  lemma IdSetHasId(s: seq<Note>, id: string)
    ensures id in IdSet(s) <==> HasId(s, id)
  {
    if HasId(s, id) {
      var i :| 0 <= i < |s| && s[i].id == id;
      assert s[i].id in IdSet(s);
    }
  }

  /** Every valid record counts once, as created or as updated. */
  lemma {:induction false} CreatedPlusUpdated(m: seq<Note>, s: seq<Note>)
    ensures CreatedCount(m, s) + UpdatedCount(m, s) == |s|
  {
    if s != [] {
      CreatedPlusUpdated(m, s[..|s| - 1]);
    }
  }

  lemma NewKeyDifference(a: set<string>, known: set<string>, x: string)
    ensures x in known || x in a ==> (a + {x}) - known == a - known
    ensures x !in known && x !in a ==> |(a + {x}) - known| == |a - known| + 1
  {
    if x !in known && x !in a {
      assert (a + {x}) - known == (a - known) + {x};
    }
  }

  /** The records counted as created are exactly the ids that were not there before. */
  lemma {:induction false} CreatedAreNewIds(m: seq<Note>, s: seq<Note>)
    requires UniqueIds(m)
    ensures CreatedCount(m, s) == |IdSet(s) - IdSet(m)|
  {
    if s != [] {
      var init := s[..|s| - 1];
      var last := s[|s| - 1];
      CreatedAreNewIds(m, init);
      UpsertAllKeys(m, init);
      IdSetHasId(UpsertAll(m, init), last.id);
      LastSplit(s);
      NewIdsStep(IdSet(m), init, last);
    }
  }

  /** Adding a record adds its id to the new ids exactly when it is neither an
      old key nor an id of the records before it. */
  lemma NewIdsStep(known: set<string>, init: seq<Note>, last: Note)
    ensures last.id in known || last.id in IdSet(init) ==> IdSet(init + [last]) - known == IdSet(init) - known
    ensures last.id !in known && last.id !in IdSet(init) ==> |IdSet(init + [last]) - known| == |IdSet(init) - known| + 1
  {
    IdSetSnoc(init, last);
    NewKeyDifference(IdSet(init), known, last.id);
  }

  /** Setting one more record: the map and the counts after `s[..i + 1]`
      follow from those after `s[..i]`. */
  lemma UpsertStep(m: seq<Note>, s: seq<Note>, i: nat, cur: seq<Note>, created: nat, updated: nat)
    requires i < |s| && cur == UpsertAll(m, s[..i])
    ensures UpsertAll(m, s[..i + 1]) == Upsert(cur, s[i])
    ensures created == CreatedCount(m, s[..i]) ==>
      CreatedCount(m, s[..i + 1]) == created + (if HasId(cur, s[i].id) then 0 else 1)
    ensures updated == UpdatedCount(m, s[..i]) ==>
      UpdatedCount(m, s[..i + 1]) == updated + (if HasId(cur, s[i].id) then 1 else 0)
  {
    var t := s[..i + 1];
    assert t[..|t| - 1] == s[..i] && t[|t| - 1] == s[i];
  }

  lemma WholePrefix(s: seq<Note>)
    ensures s[..|s|] == s
  {
  }

  /** `prevNotes` put into a `Map` and then every valid record set into it. */
  function Merged(prev: seq<Note>, valid: seq<Note>): seq<Note> {
    UpsertAll(UpsertAll([], prev), valid)
  }

  /** The upsert loop inside the state update: the map built from the current
      notes, then each valid record set into it, counting created and updated
      ones. */
  method MergeImported(prev: seq<Note>, valid: seq<Note>) returns (merged: seq<Note>, importedCount: nat, updatedCount: nat)
    ensures merged == Merged(prev, valid)
    ensures importedCount == CreatedCount(UpsertAll([], prev), valid)
    ensures updatedCount == UpdatedCount(UpsertAll([], prev), valid)
  {
    var start := UpsertAll([], prev);
    var currentNotesMap := start;
    importedCount, updatedCount := 0, 0;
    var i := 0;
    while i < |valid|
      invariant 0 <= i <= |valid|
      invariant currentNotesMap == UpsertAll(start, valid[..i])
      invariant importedCount == CreatedCount(start, valid[..i])
      invariant updatedCount == UpdatedCount(start, valid[..i])
    {
      UpsertStep(start, valid, i, currentNotesMap, importedCount, updatedCount);
      currentNotesMap, importedCount, updatedCount := SetRecord(currentNotesMap, valid[i], importedCount, updatedCount);
      i := i + 1;
    }
    WholePrefix(valid);
    merged := currentNotesMap;
  }

  /** The `forEach` callback: counts the record as an update when its id is
      already a key and as a creation otherwise, then sets it. */
  method SetRecord(m: seq<Note>, importedNote: Note, created: nat, updated: nat)
    returns (m': seq<Note>, created': nat, updated': nat)
    ensures m' == Upsert(m, importedNote)
    ensures created' == created + (if HasId(m, importedNote.id) then 0 else 1)
    ensures updated' == updated + (if HasId(m, importedNote.id) then 1 else 0)
  {
    created', updated' := created, updated;
    if HasId(m, importedNote.id) {
      updated' := updated + 1;
    } else {
      created' := created + 1;
    }
    m' := Upsert(m, importedNote);
  }

  /** The merged collection holds the old ids and the imported ones, distinct;
      each imported id holds the last valid record with that id, and every
      other old note is kept. */
  lemma MergedFacts(prev: seq<Note>, valid: seq<Note>)
    requires UniqueIds(prev)
    ensures IdSet(Merged(prev, valid)) == IdSet(prev) + IdSet(valid)
    ensures UniqueIds(Merged(prev, valid))
    ensures forall id :: FindById(Merged(prev, valid), id) == LatestFor(prev, valid, id)
    ensures CreatedCount(prev, valid) == |IdSet(valid) - IdSet(prev)|
    ensures CreatedCount(prev, valid) + UpdatedCount(prev, valid) == |valid|
  {
    UpsertAllDistinct(prev);
    UpsertAllFacts(prev, valid);
    CreatedPlusUpdated(prev, valid);
    CreatedAreNewIds(prev, valid);
  }

  // ---------------------------------------------------------------- import: outcome

  /** How an import ends; each ending shows its own message. */
  datatype ImportOutcome =
    | EmptyFile
    | CriticalError
    | NotAnArray
    | AllSkipped(skipped: nat)
    | NothingValid
    | Completed(imported: nat, updated: nat, skipped: nat)

  /** The candidates of a parsed file that is an array. */
  function Candidates(parsed: Option<Json>): seq<Json> {
    if parsed.Some? && parsed.value.JArray? then parsed.value.items else []
  }

  // ---------------------------------------------------------------- the repository

  /** What the note form hands to `addNote`. */
  datatype NoteData = NoteData(title: string, objective: string, notesArea: string, images: Option<seq<string>>)

  /** A note carrying the source's next id is new, and keeps the ids
      distinct when put in front, while today's maximum is at most 98. */
  lemma AddedIdFresh(n: Note, s: seq<Note>, today: string)
    requires |today| == 6 && n.id == NextNoteIdAsWritten(s, today)
    ensures MaxSeqAsWritten(s, today) <= 98 ==> !HasId(s, n.id)
    ensures MaxSeqAsWritten(s, today) <= 98 && UniqueIds(s) ==> UniqueIds([n] + s)
  {
    if MaxSeqAsWritten(s, today) <= 98 {
      NextNoteIdAsWrittenFreshBelow99(s, today);
      if UniqueIds(s) {
        PrependFreshId(n, s);
      }
    }
  }

  /** A note whose id is new keeps the ids distinct when put in front. */
  lemma PrependFreshId(n: Note, s: seq<Note>)
    requires UniqueIds(s) && !HasId(s, n.id)
    ensures UniqueIds([n] + s)
  {
    var r := [n] + s;
    forall i, j | 0 <= i < j < |r| ensures r[i].id != r[j].id {
      assert r[j] == s[j - 1];
      if i > 0 {
        assert r[i] == s[i - 1];
      }
    }
  }

  /** The repository: the current notes and the note chosen for AI suggestions. */
  class NoteRepository {
    var notes: seq<Note>
    var selectedNoteIdForAI: Option<string>

    /** What the repository's operations keep: pinned first then newest first,
        and no two notes with one id. */
    ghost predicate Valid()
      reads this
    {
      SortedBy(PinnedFirstNewest, notes) && UniqueIds(notes)
    }

    constructor ()
      ensures notes == [] && selectedNoteIdForAI == None
      ensures Valid()
    {
      notes := [];
      selectedNoteIdForAI := None;
    }

    /** `addNote`: a new unpinned note with the id `generateNoteId` gives and
        the current time, inserted and re-sorted. The id is new, and the ids
        stay distinct, while today's largest eight-character sequence number
        is at most 98; past 99 the generator repeats an id. */
    method AddNote(noteData: NoteData, today: string, now: Stamp) returns (newNote: Note)
      requires |today| == 6
      modifies this
      ensures newNote.id == NextNoteIdAsWritten(old(notes), today)
      ensures MaxSeqAsWritten(old(notes), today) <= 98 ==> !HasId(old(notes), newNote.id)
      ensures newNote.title == noteData.title && newNote.objective == noteData.objective
      ensures newNote.notesArea == noteData.notesArea && newNote.createdAt == now
      ensures !newNote.isPinned && newNote.images == noteData.images.GetOr([])
      ensures multiset(notes) == multiset(old(notes)) + multiset{newNote}
      ensures SortedBy(PinnedFirstNewest, notes)
      ensures old(UniqueIds(notes)) && MaxSeqAsWritten(old(notes), today) <= 98 ==> UniqueIds(notes)
      ensures selectedNoteIdForAI == old(selectedNoteIdForAI)
    {
      var id := GenerateNoteId(notes, today);
      newNote := Note(id, noteData.title, noteData.objective, noteData.notesArea, now, false, noteData.images.GetOr([]));
      var prevNotes := notes;
      AddedIdFresh(newNote, prevNotes, today);
      var withNew := [newNote] + prevNotes;
      notes := SortedCopy(withNew, PinnedFirstNewest);
      if UniqueIds(withNew) {
        UniqueIdsPermutation(withNew, notes);
      }
    }

    /** `updateNote`: every note with the updated note's id is replaced by it,
        then the collection is re-sorted. */
    method UpdateNote(updatedNote: Note)
      modifies this
      ensures multiset(notes) == multiset(UpdateById(old(notes), updatedNote))
      ensures |notes| == |old(notes)|
      ensures SortedBy(PinnedFirstNewest, notes)
      ensures old(UniqueIds(notes)) ==> UniqueIds(notes)
      ensures selectedNoteIdForAI == old(selectedNoteIdForAI)
    {
      var replaced := UpdateById(notes, updatedNote);
      UpdateByIdKeepsIds(notes, updatedNote);
      notes := SortedCopy(replaced, PinnedFirstNewest);
      assert |notes| == |multiset(notes)| == |multiset(replaced)| == |replaced|;
      if UniqueIds(replaced) {
        UniqueIdsPermutation(replaced, notes);
      }
    }

    /** `deleteNote`: drops the notes with this id, keeping the order of the
        rest, and clears the AI selection if it named this id. */
    method DeleteNote(id: string)
      modifies this
      ensures notes == DeleteById(old(notes), id)
      ensures selectedNoteIdForAI == if old(selectedNoteIdForAI) == Some(id) then None else old(selectedNoteIdForAI)
      ensures old(Valid()) ==> Valid()
    {
      if SortedBy(PinnedFirstNewest, notes) {
        FilterKeepsSorted(PinnedFirstNewest, (n: Note) => n.id != id, notes);
      }
      if UniqueIds(notes) {
        FilterKeepsUniqueIds((n: Note) => n.id != id, notes);
      }
      notes := DeleteById(notes, id);
      if selectedNoteIdForAI == Some(id) {
        selectedNoteIdForAI := None;
      }
    }

    /** `deleteMultipleNotes`: drops the notes whose id is listed, keeping the
        order of the rest; the AI selection is cleared when its id (or the
        empty string, for no selection) is listed. */
    method DeleteMultipleNotes(ids: seq<string>)
      modifies this
      ensures notes == DeleteByIds(old(notes), ids)
      ensures selectedNoteIdForAI == if old(selectedNoteIdForAI).GetOr("") in ids then None else old(selectedNoteIdForAI)
      ensures old(Valid()) ==> Valid()
    {
      if SortedBy(PinnedFirstNewest, notes) {
        FilterKeepsSorted(PinnedFirstNewest, (n: Note) => n.id !in ids, notes);
      }
      if UniqueIds(notes) {
        FilterKeepsUniqueIds((n: Note) => n.id !in ids, notes);
      }
      notes := DeleteByIds(notes, ids);
      if selectedNoteIdForAI.GetOr("") in ids {
        selectedNoteIdForAI := None;
      }
    }

    /** `togglePinNote`: flips the pin of the notes with this id, then re-sorts. */
    method TogglePinNote(id: string)
      modifies this
      ensures multiset(notes) == multiset(TogglePinById(old(notes), id))
      ensures SortedBy(PinnedFirstNewest, notes)
      ensures old(UniqueIds(notes)) ==> UniqueIds(notes)
      ensures selectedNoteIdForAI == old(selectedNoteIdForAI)
    {
      var toggled := TogglePinById(notes, id);
      TogglePinByIdKeepsIds(notes, id);
      notes := SortedCopy(toggled, PinnedFirstNewest);
      if UniqueIds(toggled) {
        UniqueIdsPermutation(toggled, notes);
      }
    }

    /** `togglePinMultipleNotes`: sets the pin of every listed note to `pin`, then re-sorts. */
    method TogglePinMultipleNotes(ids: seq<string>, pin: bool)
      modifies this
      ensures multiset(notes) == multiset(SetPinByIds(old(notes), ids, pin))
      ensures SortedBy(PinnedFirstNewest, notes)
      ensures old(UniqueIds(notes)) ==> UniqueIds(notes)
      ensures selectedNoteIdForAI == old(selectedNoteIdForAI)
    {
      var pinned := SetPinByIds(notes, ids, pin);
      SetPinByIdsKeepsIds(notes, ids, pin);
      notes := SortedCopy(pinned, PinnedFirstNewest);
      if UniqueIds(pinned) {
        UniqueIdsPermutation(pinned, notes);
      }
    }

    /** `getNoteById`: the first note with this id, if any. */
    function GetNoteById(id: string): (r: Option<Note>)
      reads this
      ensures r.Some? ==> r.value in notes && r.value.id == id
      ensures r.None? <==> !HasId(notes, id)
    {
      FindById(notes, id)
    }

    /** `clearAllNotes`: no notes and no AI selection. */
    method ClearAllNotes()
      modifies this
      ensures notes == [] && selectedNoteIdForAI == None
      ensures Valid()
    {
      notes := [];
      selectedNoteIdForAI := None;
    }

    /** `importNotes`, from the file's text and what `JSON.parse` made of it
        (nothing when it threw); `parseDate` stands for `new Date(text).getTime()`.
        Only a completed import changes the notes. */
    method ImportNotes(jsonString: string, parsed: Option<Json>, parseDate: string -> Option<int>)
      returns (outcome: ImportOutcome)
      modifies this
      ensures IsBlank(jsonString) ==> outcome == EmptyFile
      ensures !IsBlank(jsonString) && parsed.None? ==> outcome == CriticalError
      ensures !IsBlank(jsonString) && parsed.Some? && !parsed.value.JArray? ==> outcome == NotAnArray
      ensures !IsBlank(jsonString) && parsed.Some? && parsed.value.JArray? && JNull in parsed.value.items ==>
        outcome == CriticalError
      ensures outcome.AllSkipped? <==>
        !IsBlank(jsonString) && parsed.Some? && parsed.value.JArray? && JNull !in parsed.value.items &&
        ValidNotes(parsed.value.items, parseDate) == [] && SkippedCount(parsed.value.items, parseDate) > 0
      ensures outcome.AllSkipped? ==> outcome.skipped == SkippedCount(Candidates(parsed), parseDate)
      ensures outcome != NothingValid
      ensures outcome.Completed? <==>
        !IsBlank(jsonString) && parsed.Some? && parsed.value.JArray? && JNull !in parsed.value.items &&
        !(ValidNotes(parsed.value.items, parseDate) == [] && SkippedCount(parsed.value.items, parseDate) > 0)
      ensures outcome.Completed? ==>
        var valid := ValidNotes(Candidates(parsed), parseDate);
        && outcome.imported == CreatedCount(UpsertAll([], old(notes)), valid)
        && outcome.updated == UpdatedCount(UpsertAll([], old(notes)), valid)
        && outcome.skipped == SkippedCount(Candidates(parsed), parseDate)
        && multiset(notes) == multiset(Merged(old(notes), valid))
        && Valid()
      ensures !outcome.Completed? ==> notes == old(notes)
      ensures selectedNoteIdForAI == old(selectedNoteIdForAI)
    {
      if IsBlank(jsonString) {
        return EmptyFile;
      }
      if parsed.None? {
        return CriticalError;
      }
      var parsedNotes := parsed.value;
      if !parsedNotes.JArray? {
        return NotAnArray;
      }
      var threw, notesFromImportProcessing, skippedCount := ValidateCandidates(parsedNotes.items, parseDate);
      if threw {
        return CriticalError;
      }
      ValidPlusSkipped(parsedNotes.items, parseDate);
      if |notesFromImportProcessing| == 0 && skippedCount > 0 {
        return AllSkipped(skippedCount);
      }
      if |notesFromImportProcessing| == 0 && |parsedNotes.items| > 0 {
        assert false;
        return NothingValid;
      }
      var prevNotes := notes;
      var merged, importedCount, updatedCount := MergeImported(prevNotes, notesFromImportProcessing);
      UpsertAllFacts([], prevNotes);
      UpsertAllFacts(UpsertAll([], prevNotes), notesFromImportProcessing);
      notes := SortedCopy(merged, PinnedFirstNewest);
      UniqueIdsPermutation(merged, notes);
      outcome := Completed(importedCount, updatedCount, skippedCount);
    }
  }

  /** A completed import into a repository with distinct ids: the ids are the
      old ones and the valid imported ones, each imported id holds the last
      valid record with it, other notes are kept, and the counts split the
      valid records into new ids and replacements. */
  lemma CompletedImportFacts(prev: seq<Note>, items: seq<Json>, parseDate: string -> Option<int>)
    requires UniqueIds(prev)
    ensures var valid := ValidNotes(items, parseDate);
      && UpsertAll([], prev) == prev
      && IdSet(Merged(prev, valid)) == IdSet(prev) + IdSet(valid)
      && (forall id :: FindById(Merged(prev, valid), id) == LatestFor(prev, valid, id))
      && CreatedCount(prev, valid) == |IdSet(valid) - IdSet(prev)|
      && CreatedCount(prev, valid) + UpdatedCount(prev, valid) == |valid|
      && |valid| + SkippedCount(items, parseDate) == |items|
  {
    UpsertAllDistinct(prev);
    MergedFacts(prev, ValidNotes(items, parseDate));
    ValidPlusSkipped(items, parseDate);
  }
}
