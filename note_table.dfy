/**
  The table view: its own filter box, sorting by a clicked column, and the set
  of selected rows with the bulk pin and unpin buttons.
*/
module NoteTable {
  import opened Wrappers
  import opened Text
  import opened Notes
  import opened NoteOrder
  import opened NoteList
  import opened NoteContext

  /** The table's filter: title, objective, notes or id contains the trimmed,
      lower-cased filter text. */
  predicate MatchesTableFilter(tableFilter: string, note: Note)
    requires Lower(Trim(tableFilter)) != []
  {
    var t := Lower(Trim(tableFilter));
    Includes(Lower(note.title), t) || Includes(Lower(note.objective), t)
      || Includes(Lower(note.notesArea), t) || Includes(Lower(note.id), t)
  }

  /** The rows the table keeps: every note for a blank filter, else the matching ones. */
  function TableRows(notes: seq<Note>, tableFilter: string): seq<Note> {
    if Lower(Trim(tableFilter)) == [] then notes
    else FilterNotes((n: Note) => MatchesTableFilter(tableFilter, n), notes)
  }

  /** The table keeps exactly the notes the card list keeps for the same text. */
  lemma TableRowsAreListMatches(notes: seq<Note>, tableFilter: string)
    ensures TableRows(notes, tableFilter) == FilteredNotes(notes, tableFilter)
  {
    if Lower(Trim(tableFilter)) == [] {
      BlankSearchKeepsAll(notes, tableFilter);
    } else {
      SameFilter((n: Note) => MatchesTableFilter(tableFilter, n), (n: Note) => MatchesSearch(tableFilter, n), notes);
    }
  }

  lemma {:induction false} SameFilter(p: Note -> bool, q: Note -> bool, s: seq<Note>)
    requires forall n :: p(n) == q(n)
    ensures FilterNotes(p, s) == FilterNotes(q, s)
  {
    if s != [] {
      SameFilter(p, q, s[1..]);
    }
  }

  /** The clicked column and its direction. */
  datatype SortConfig = SortConfig(key: SortKey, direction: Direction)

  /** No sort chosen: pinned first then newest first; otherwise the column order. */
  function TableOrder(sortConfig: Option<SortConfig>): Order {
    match sortConfig
    case None => PinnedFirstNewest
    case Some(c) => ByColumn(c.key, c.direction)
  }

  /** `filteredAndSortedNotes`: a copy of the notes, filtered, then sorted by the chosen order. */
  method FilteredAndSortedNotes(notes: seq<Note>, tableFilter: string, sortConfig: Option<SortConfig>)
    returns (rows: seq<Note>)
    ensures SortedBy(TableOrder(sortConfig), rows)
    ensures multiset(rows) == multiset(FilteredNotes(notes, tableFilter))
  {
    var itemsToProcess := notes;
    var currentTableFilter := Lower(Trim(tableFilter));
    if currentTableFilter != [] {
      itemsToProcess := FilterNotes((n: Note) => MatchesTableFilter(tableFilter, n), itemsToProcess);
    }
    TableRowsAreListMatches(notes, tableFilter);
    rows := SortedCopy(itemsToProcess, TableOrder(sortConfig));
  }

  /** `requestSort(key)`: descending only after an ascending sort on the same
      column; every other click sorts the column ascending. */
  function NextSortConfig(current: Option<SortConfig>, key: SortKey): (r: SortConfig)
    ensures r.key == key
    ensures r.direction == Desc <==> current == Some(SortConfig(key, Asc))
  {
    var direction := if current.Some? && current.value.key == key && current.value.direction == Asc then Desc else Asc;
    SortConfig(key, direction)
  }

  /** Clicking the same column again flips the direction. */
  lemma RequestSortAlternates(current: Option<SortConfig>, key: SortKey)
    ensures NextSortConfig(Some(NextSortConfig(current, key)), key).direction
      != NextSortConfig(current, key).direction
    ensures NextSortConfig(Some(NextSortConfig(Some(NextSortConfig(current, key)), key)), key)
      == NextSortConfig(current, key)
  {
  }

  /** Adds the id if it is absent, removes it if it is present. */
  function ToggleMember(selection: set<string>, id: string): (r: set<string>)
    ensures id in r <==> id !in selection
    ensures forall x :: x != id ==> (x in r <==> x in selection)
  {
    if id in selection then selection - {id} else selection + {id}
  }

  /** Toggling one row twice restores the selection. */
  lemma ToggleMemberTwice(selection: set<string>, id: string)
    ensures ToggleMember(ToggleMember(selection, id), id) == selection
  {
  }

  /** The selection kept after the visible rows change: the selected ids still visible. */
  function Pruned(selection: set<string>, visible: seq<Note>): (r: set<string>)
    ensures r <= selection && r <= IdSet(visible)
    ensures forall id :: id in selection && id in IdSet(visible) ==> id in r
  {
    set id | id in selection && id in IdSet(visible)
  }

  /** Pruning twice is pruning once. */
  lemma PrunedIdempotent(selection: set<string>, visible: seq<Note>)
    ensures Pruned(Pruned(selection, visible), visible) == Pruned(selection, visible)
  {
  }

  /** The pin flag `notes.find(n => n.id === id)?.isPinned`, false for a missing note. */
  function PinnedFlag(notes: seq<Note>, id: string): bool {
    match FindById(notes, id)
    case Some(n) => n.isPinned
    case None => false
  }

  /** `canPinSelection`: something is selected and some selected id has no pinned note. */
  predicate CanPinSelection(selection: set<string>, notes: seq<Note>) {
    selection != {} && exists id :: id in selection && !PinnedFlag(notes, id)
  }

  /** `canUnpinSelection`: some selected id names a pinned note. */
  predicate CanUnpinSelection(selection: set<string>, notes: seq<Note>) {
    selection != {} && exists id :: id in selection && PinnedFlag(notes, id)
  }

  /** With distinct ids, "Unpin" is offered iff a selected row is pinned, and
      "Pin" iff a selected id is unpinned or names no note. */
  lemma PinButtonsByRows(selection: set<string>, notes: seq<Note>)
    requires UniqueIds(notes)
    ensures CanUnpinSelection(selection, notes) <==>
      exists i :: 0 <= i < |notes| && notes[i].id in selection && notes[i].isPinned
    ensures CanPinSelection(selection, notes) <==>
      (exists i :: 0 <= i < |notes| && notes[i].id in selection && !notes[i].isPinned)
      || (exists id :: id in selection && !HasId(notes, id))
  {
    forall i | 0 <= i < |notes| ensures PinnedFlag(notes, notes[i].id) == notes[i].isPinned {
      FindByIdUnique(notes, notes[i].id, i);
    }
    if CanUnpinSelection(selection, notes) {
      var id :| id in selection && PinnedFlag(notes, id);
      var i := FoundAt(notes, id);
    }
    if CanPinSelection(selection, notes) {
      var id :| id in selection && !PinnedFlag(notes, id);
      if HasId(notes, id) {
        var i := FoundAt(notes, id);
      }
    }
  }

  /** After "Unpin" on the selection, "Unpin" is no longer offered. */
  lemma UnpinSelectionDisablesUnpin(selection: set<string>, ids: seq<string>, notes: seq<Note>)
    requires forall id :: id in selection ==> id in ids
    ensures !CanUnpinSelection(selection, SetPinByIds(notes, ids, false))
  {
    var r := SetPinByIds(notes, ids, false);
    forall id | id in selection ensures !PinnedFlag(r, id) {
      if HasId(r, id) {
        var i := FoundAt(r, id);
      }
    }
  }

  /** After "Pin" on a selection whose ids all name notes, "Pin" is no longer offered. */
  lemma PinSelectionDisablesPin(selection: set<string>, ids: seq<string>, notes: seq<Note>)
    requires forall id :: id in selection ==> id in ids && HasId(notes, id)
    ensures !CanPinSelection(selection, SetPinByIds(notes, ids, true))
  {
    forall id | id in selection ensures PinnedFlag(SetPinByIds(notes, ids, true), id) {
      PinnedAfterPin(ids, notes, id);
    }
  }

  /** A listed id that names a note is pinned after "Pin". */
  lemma PinnedAfterPin(ids: seq<string>, notes: seq<Note>, id: string)
    requires id in ids && HasId(notes, id)
    ensures PinnedFlag(SetPinByIds(notes, ids, true), id)
  {
    var r := SetPinByIds(notes, ids, true);
    var j :| 0 <= j < |notes| && notes[j].id == id;
    assert r[j].id == id;
    var i := FoundAt(r, id);
  }

  /** What the header checkbox passes to `handleSelectAll`. */
  datatype CheckedState = Checked | Unchecked | Indeterminate

  /** The table's own state: the selected row ids and the chosen sort. */
  class NoteTableState {
    var selectedRowIds: set<string>
    var sortConfig: Option<SortConfig>

    constructor ()
      ensures selectedRowIds == {} && sortConfig == None
    {
      selectedRowIds := {};
      sortConfig := None;
    }

    /** `handleSelectRow`: toggles one row's membership. */
    method HandleSelectRow(noteId: string)
      modifies this
      ensures selectedRowIds == ToggleMember(old(selectedRowIds), noteId)
      ensures sortConfig == old(sortConfig)
    {
      var newSelection := selectedRowIds;
      if noteId in newSelection {
        newSelection := newSelection - {noteId};
      } else {
        newSelection := newSelection + {noteId};
      }
      selectedRowIds := newSelection;
    }

    /** `handleSelectAll`: checked selects every visible row, anything else clears. */
    method HandleSelectAll(checked: CheckedState, visible: seq<Note>)
      modifies this
      ensures checked == Checked ==> selectedRowIds == IdSet(visible)
      ensures checked != Checked ==> selectedRowIds == {}
      ensures sortConfig == old(sortConfig)
    {
      if checked == Checked {
        selectedRowIds := IdSet(visible);
      } else {
        selectedRowIds := {};
      }
    }

    /** The effect run when the visible rows change: keeps only visible selected ids. */
    method PruneSelection(visible: seq<Note>)
      modifies this
      ensures selectedRowIds == Pruned(old(selectedRowIds), visible)
      ensures sortConfig == old(sortConfig)
    {
      var currentVisibleIds := IdSet(visible);
      selectedRowIds := set id | id in selectedRowIds && id in currentVisibleIds;
    }

    /** `requestSort`. */
    method RequestSort(key: SortKey)
      modifies this
      ensures sortConfig == Some(NextSortConfig(old(sortConfig), key))
      ensures selectedRowIds == old(selectedRowIds)
    {
      var direction := Asc;
      if sortConfig.Some? && sortConfig.value.key == key && sortConfig.value.direction == Asc {
        direction := Desc;
      }
      sortConfig := Some(SortConfig(key, direction));
    }
  }
}
