/**
  The card list: the notes matching the search box, pinned first then newest
  first, and which of its three faces the list shows.
*/
module NoteList {
  import opened Text
  import opened Notes
  import opened NoteOrder

  /** The search term as the list uses it: trimmed and lower-cased. */
  function NormalizedTerm(searchTerm: string): (t: string)
    ensures t == [] <==> IsBlank(searchTerm)
  {
    Lower(Trim(searchTerm))
  }

  /** The list's filter: a blank term keeps every note; otherwise the term must
      occur, ignoring case, in the id, the title, the objective or the notes. */
  predicate MatchesSearch(searchTerm: string, note: Note) {
    var t := NormalizedTerm(searchTerm);
    t == [] || Includes(Lower(note.id), t) || Includes(Lower(note.title), t)
      || Includes(Lower(note.objective), t) || Includes(Lower(note.notesArea), t)
  }

  function FilteredNotes(notes: seq<Note>, searchTerm: string): (r: seq<Note>)
    ensures forall n :: n in r <==> n in notes && MatchesSearch(searchTerm, n)
  {
    FilterNotes((n: Note) => MatchesSearch(searchTerm, n), notes)
  }

  /** A blank search keeps the whole collection, in its order. */
  lemma BlankSearchKeepsAll(notes: seq<Note>, searchTerm: string)
    requires IsBlank(searchTerm)
    ensures FilteredNotes(notes, searchTerm) == notes
  {
    FilterKeepsAll((n: Note) => MatchesSearch(searchTerm, n), notes);
  }

  /** Filtering only drops notes: the kept ones are part of the collection and
      what it drops are exactly the notes that do not match. */
  lemma FilteredNotesSplit(notes: seq<Note>, searchTerm: string)
    ensures multiset(FilteredNotes(notes, searchTerm))
      + multiset(FilterNotes((n: Note) => !MatchesSearch(searchTerm, n), notes)) == multiset(notes)
    ensures multiset(FilteredNotes(notes, searchTerm)) <= multiset(notes)
  {
    FilterPartitions((n: Note) => MatchesSearch(searchTerm, n), (n: Note) => !MatchesSearch(searchTerm, n), notes);
  }

  /** `filteredNotes`: the matching notes, sorted pinned first then newest first. */
  method VisibleNotes(notes: seq<Note>, searchTerm: string) returns (r: seq<Note>)
    ensures SortedBy(PinnedFirstNewest, r)
    ensures multiset(r) == multiset(FilteredNotes(notes, searchTerm))
  {
    var matching := FilteredNotes(notes, searchTerm);
    r := SortedCopy(matching, PinnedFirstNewest);
  }

  /** What the list shows. */
  datatype ListFace = EmptyNotebook | NoResults | Cards(cards: seq<Note>)

  /** The list: an empty notebook, "no notes found" when a non-empty search
      matches nothing, or the cards. */
  method ShowList(notes: seq<Note>, searchTerm: string) returns (face: ListFace)
    ensures face == EmptyNotebook <==> notes == []
    ensures face == NoResults <==> notes != [] && FilteredNotes(notes, searchTerm) == [] && searchTerm != []
    ensures face.Cards? ==> SortedBy(PinnedFirstNewest, face.cards)
    ensures face.Cards? ==> multiset(face.cards) == multiset(FilteredNotes(notes, searchTerm))
  {
    var filteredNotes := VisibleNotes(notes, searchTerm);
    if |notes| == 0 {
      return EmptyNotebook;
    }
    if |filteredNotes| == 0 && |searchTerm| > 0 {
      assert |multiset(FilteredNotes(notes, searchTerm))| == 0;
      return NoResults;
    }
    if FilteredNotes(notes, searchTerm) == [] {
      assert |multiset(filteredNotes)| == 0;
    }
    face := Cards(filteredNotes);
  }

  /** "No notes found" needs a search that is not blank: a blank one keeps
      every note of a non-empty collection. */
  lemma NoResultsNeedsSearch(notes: seq<Note>, searchTerm: string)
    requires notes != [] && FilteredNotes(notes, searchTerm) == []
    ensures !IsBlank(searchTerm)
  {
    if IsBlank(searchTerm) {
      BlankSearchKeepsAll(notes, searchTerm);
    }
  }

  /** A note holding the term in its title (in any letter case) is never
      filtered out. */
  lemma TitleMatchIsKept(notes: seq<Note>, searchTerm: string, i: nat, k: nat)
    requires i < |notes| && OccursAt(Lower(notes[i].title), NormalizedTerm(searchTerm), k)
    ensures notes[i] in FilteredNotes(notes, searchTerm)
  {
    assert Includes(Lower(notes[i].title), NormalizedTerm(searchTerm));
  }
}
