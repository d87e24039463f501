/**
  Helpers shared by the repository and the views: the day-and-sequence note id,
  escaping a search term for use inside a regular expression, and wrapping the
  case-insensitive occurrences of a search term in `<mark>` tags.
*/
module NoteUtils {
  import opened Wrappers
  import opened Text
  import opened Notes

  // ---------------------------------------------------------------- note ids

  /** An id that takes part in today's sequence: today's date followed by at
      least two decimal digits. */
  predicate CountsToward(id: string, today: string)
    requires |today| == 6
  {
    |id| >= 8 && StartsWith(id, today) && AllDigits(id[6..])
  }

  /** The filter as the source writes it: only ids of exactly eight characters. */
  predicate CountsTowardAsWritten(id: string, today: string)
    requires |today| == 6
  {
    |id| == 8 && StartsWith(id, today) && AllDigits(id[6..])
  }

  /** `parseInt(id.substring(6), 10)` for an id that counts toward today's sequence. */
  function SeqNumber(id: string): nat
    requires |id| >= 6 && AllDigits(id[6..])
  {
    DigitsValue(id[6..])
  }

  /** `m` is the largest sequence number among the notes that count, or 0 if none does. */
  ghost predicate IsMaxSeq(notes: seq<Note>, today: string, m: nat)
    requires |today| == 6
  {
    && (forall i :: 0 <= i < |notes| && CountsToward(notes[i].id, today) ==> SeqNumber(notes[i].id) <= m)
    && (m == 0 || exists i :: 0 <= i < |notes| && CountsToward(notes[i].id, today) && SeqNumber(notes[i].id) == m)
  }

  /** The largest sequence number among the notes whose ids count toward today. */
  function MaxSeq(notes: seq<Note>, today: string): (m: nat)
    requires |today| == 6
    ensures IsMaxSeq(notes, today, m)
  {
    if notes == [] then 0
    else
      var init := notes[..|notes| - 1];
      var last := notes[|notes| - 1];
      var m := MaxSeq(init, today);
      assert forall i :: 0 <= i < |init| ==> init[i] == notes[i];
      if CountsToward(last.id, today) && SeqNumber(last.id) > m then SeqNumber(last.id) else m
  }

  /** There is only one largest sequence number. */
  lemma IsMaxSeqUnique(notes: seq<Note>, today: string, m: nat)
    requires |today| == 6 && IsMaxSeq(notes, today, m)
    ensures m == MaxSeq(notes, today)
  {
  }

  /** Today's date followed by the next sequence number, zero-padded to two digits. */
  function NextNoteId(notes: seq<Note>, today: string): string
    requires |today| == 6
  {
    today + PadStart2(MaxSeq(notes, today) + 1)
  }

  /** The source's `notesFromToday`: the notes whose ids start with today's
      date, have exactly eight characters and end in digits. */
  function NotesFromToday(notes: seq<Note>, today: string): (r: seq<Note>)
    requires |today| == 6
    ensures forall n :: n in r <==> n in notes && CountsTowardAsWritten(n.id, today)
    ensures forall k :: 0 <= k < |r| ==> |r[k].id| == 8 && CountsToward(r[k].id, today)
  {
    var r := FilterNotes((n: Note) => CountsTowardAsWritten(n.id, today), notes);
    assert forall k :: 0 <= k < |r| ==> r[k] in r;
    r
  }

  /** `generateNoteId(existingNotes)`, with today's `yyMMdd` given: keeps the
      notes whose eight-character ids count toward today, then takes the
      largest sequence number among them in one pass. The id is fresh while
      that number is at most 98 (`NextNoteIdAsWrittenFreshBelow99`) and repeats
      after 99 (`NextNoteIdAsWrittenRepeats`); `NextNoteId` is the corrected
      generator. */
  method GenerateNoteId(existingNotes: seq<Note>, today: string) returns (id: string)
    requires |today| == 6
    ensures id == NextNoteIdAsWritten(existingNotes, today)
  {
    var notesFromToday := NotesFromToday(existingNotes, today);
    var maxSeq: nat := 0;
    var i := 0;
    while i < |notesFromToday|
      invariant 0 <= i <= |notesFromToday|
      invariant forall k :: 0 <= k < i ==> SeqNumber(notesFromToday[k].id) <= maxSeq
      invariant maxSeq == 0 || exists k :: 0 <= k < i && SeqNumber(notesFromToday[k].id) == maxSeq
    {
      var seqPart := SeqNumber(notesFromToday[i].id);
      if seqPart > maxSeq {
        maxSeq := seqPart;
      }
      i := i + 1;
    }
    FilteredMaxIsMax(EightCharIds(existingNotes), today, notesFromToday, maxSeq);
    id := today + PadStart2(maxSeq + 1);
  }

  /** The largest sequence number among the notes kept by the filter is the
      largest among all the notes that count toward today. */
  lemma FilteredMaxIsMax(notes: seq<Note>, today: string, kept: seq<Note>, maxSeq: nat)
    requires |today| == 6
    requires forall n :: n in kept <==> n in notes && CountsToward(n.id, today)
    requires forall k :: 0 <= k < |kept| ==> CountsToward(kept[k].id, today) && SeqNumber(kept[k].id) <= maxSeq
    requires maxSeq == 0 || exists k :: 0 <= k < |kept| && CountsToward(kept[k].id, today) && SeqNumber(kept[k].id) == maxSeq
    ensures maxSeq == MaxSeq(notes, today)
  {
    forall j | 0 <= j < |notes| && CountsToward(notes[j].id, today)
      ensures SeqNumber(notes[j].id) <= maxSeq
    {
      assert notes[j] in kept;
    }
    if maxSeq != 0 {
      var k :| 0 <= k < |kept| && CountsToward(kept[k].id, today) && SeqNumber(kept[k].id) == maxSeq;
      assert kept[k] in notes;
    }
    IsMaxSeqUnique(notes, today, maxSeq);
  }

  /** The generated id starts with today's date, carries at least two digits
      after it, and belongs to no existing note. */
  lemma NextNoteIdFresh(notes: seq<Note>, today: string)
    requires |today| == 6
    ensures StartsWith(NextNoteId(notes, today), today)
    ensures CountsToward(NextNoteId(notes, today), today)
    ensures SeqNumber(NextNoteId(notes, today)) == MaxSeq(notes, today) + 1
    ensures !HasId(notes, NextNoteId(notes, today))
  {
    var m := MaxSeq(notes, today);
    DayIdShape(today, m + 1);
    AboveMaxIsFresh(notes, today, NextNoteId(notes, today));
  }

  /** Today's date followed by the padded number is an id of today's sequence with that number. */
  lemma DayIdShape(today: string, n: nat)
    requires |today| == 6
    ensures StartsWith(today + PadStart2(n), today)
    ensures CountsToward(today + PadStart2(n), today)
    ensures SeqNumber(today + PadStart2(n)) == n
  {
    var id := today + PadStart2(n);
    assert id[6..] == PadStart2(n);
    assert id[..6] == today;
  }

  /** An id of today's sequence numbered above the maximum belongs to no note. */
  lemma AboveMaxIsFresh(notes: seq<Note>, today: string, id: string)
    requires |today| == 6 && CountsToward(id, today) && SeqNumber(id) > MaxSeq(notes, today)
    ensures !HasId(notes, id)
  {
    forall i | 0 <= i < |notes| ensures notes[i].id != id {
      if CountsToward(notes[i].id, today) {
        assert SeqNumber(notes[i].id) <= MaxSeq(notes, today);
      }
    }
  }

  /** With no note of today's sequence yet, the first id is today's date followed by "01". */
  lemma FirstIdOfTheDay(notes: seq<Note>, today: string)
    requires |today| == 6
    requires forall i :: 0 <= i < |notes| ==> !CountsToward(notes[i].id, today)
    ensures NextNoteId(notes, today) == today + "01"
  {
    assert MaxSeq(notes, today) == 0;
    assert NatToString(1) == "1";
  }

  // ---------------------------------------------------------------- the source's filter

  /** The sequence number the source computes: only ids of exactly eight characters count. */
  function MaxSeqAsWritten(notes: seq<Note>, today: string): nat
    requires |today| == 6
  {
    MaxSeq(EightCharIds(notes), today)
  }

  /** The notes the source's filter keeps: ids of exactly eight characters. */
  function EightCharIds(notes: seq<Note>): (r: seq<Note>)
    ensures forall n :: n in r <==> n in notes && |n.id| == 8
  {
    FilterNotes((n: Note) => |n.id| == 8, notes)
  }

  function NextNoteIdAsWritten(notes: seq<Note>, today: string): string
    requires |today| == 6
  {
    today + PadStart2(MaxSeqAsWritten(notes, today) + 1)
  }

  /** While today's largest sequence number is at most 98, the source's id
      has eight characters and is new. */
  lemma NextNoteIdAsWrittenFreshBelow99(notes: seq<Note>, today: string)
    requires |today| == 6 && MaxSeqAsWritten(notes, today) <= 98
    ensures |NextNoteIdAsWritten(notes, today)| == 8
    ensures !HasId(notes, NextNoteIdAsWritten(notes, today))
  {
    var id := NextNoteIdAsWritten(notes, today);
    var eights := EightCharIds(notes);
    assert id[6..] == PadStart2(MaxSeqAsWritten(notes, today) + 1);
    assert id[..6] == today;
    forall i | 0 <= i < |notes| ensures notes[i].id != id {
      if |notes[i].id| == 8 && CountsToward(notes[i].id, today) {
        assert notes[i] in eights;
        var k :| 0 <= k < |eights| && eights[k] == notes[i];
        assert SeqNumber(eights[k].id) <= MaxSeqAsWritten(notes, today);
      }
    }
  }

  /** After sequence 99 the source's id is nine characters long, its own filter
      no longer sees it, and the next note receives the same id again. */
  lemma NextNoteIdAsWrittenRepeats(today: string, n99: Note, n100: Note)
    requires |today| == 6 && n99.id == today + "99" && n100.id == NextNoteIdAsWritten([n99], today)
    ensures n100.id == today + "100"
    ensures NextNoteIdAsWritten([n100, n99], today) == n100.id
  {
    AfterNinetyNine(today, n99);
    EightCharIdsSkipLong(n100, n99);
  }

  /** A single note with sequence number 99 makes the source's next id end in "100". */
  lemma AfterNinetyNine(today: string, n99: Note)
    requires |today| == 6 && n99.id == today + "99"
    ensures EightCharIds([n99]) == [n99]
    ensures NextNoteIdAsWritten([n99], today) == today + "100"
  {
    EightCharIdsKeep(n99);
    SeqNumberNinetyNine(today, n99.id);
    MaxSeqSingle([n99], today);
    PadHundred();
  }

  lemma EightCharIdsKeep(n: Note)
    requires |n.id| == 8
    ensures EightCharIds([n]) == [n]
  {
    assert [n][1..] == [];
  }

  /** The source's filter drops a nine-character id in front of an eight-character one. */
  lemma EightCharIdsSkipLong(long: Note, n: Note)
    requires |long.id| == 9 && |n.id| == 8
    ensures EightCharIds([long, n]) == [n]
  {
    assert [long, n][1..] == [n];
    EightCharIdsKeep(n);
  }

  lemma SeqNumberNinetyNine(today: string, id: string)
    requires |today| == 6 && id == today + "99"
    ensures CountsToward(id, today) && SeqNumber(id) == 99
  {
    assert id[6..] == "99";
    assert id[..6] == today;
    assert DigitsValue("99") == 99 by {
      assert "99"[..1] == "9";
      assert "9"[..0] == "";
    }
  }

  /** The largest sequence number of one note that counts is its own. */
  lemma MaxSeqSingle(notes: seq<Note>, today: string)
    requires |today| == 6 && |notes| == 1 && CountsToward(notes[0].id, today)
    ensures MaxSeq(notes, today) == SeqNumber(notes[0].id)
  {
    assert notes[..0] == [];
  }

  lemma PadHundred()
    ensures PadStart2(100) == "100"
  {
    assert NatToString(10) == "10";
  }

  // ---------------------------------------------------------------- regular expression escaping

  /** The characters `escapeRegExp` escapes: `. * + ? ^ $ { } ( ) | [ ] \`. */
  predicate IsRegExpSpecial(c: char) {
    c == '.' || c == '*' || c == '+' || c == '?' || c == '^' || c == '$' || c == '{' || c == '}'
    || c == '(' || c == ')' || c == '|' || c == '[' || c == ']' || c == '\\'
  }

  function CountSpecial(s: string): nat {
    if s == [] then 0 else (if IsRegExpSpecial(s[0]) then 1 else 0) + CountSpecial(s[1..])
  }

  /** `escapeRegExp(s)`: a backslash before every special character. */
  function EscapeRegExp(s: string): (r: string)
    ensures |r| == |s| + CountSpecial(s)
  {
    if s == [] then []
    else (if IsRegExpSpecial(s[0]) then ['\\', s[0]] else [s[0]]) + EscapeRegExp(s[1..])
  }

  /** Reads a regular-expression source made only of literal atoms (an ordinary
      character, or a backslash before a special character) back into the
      string it matches; anything else is not a literal pattern. */
  function PatternLiteral(p: string): Option<string>
  {
    if p == [] then Some([])
    else if p[0] == '\\' then
      if |p| >= 2 && IsRegExpSpecial(p[1]) then
        match PatternLiteral(p[2..])
        case Some(rest) => Some([p[1]] + rest)
        case None => None
      else None
    else if IsRegExpSpecial(p[0]) then None
    else
      match PatternLiteral(p[1..])
      case Some(rest) => Some([p[0]] + rest)
      case None => None
  }

  /** Escaping turns any search term into a pattern that matches that term literally. */
  lemma {:induction false} EscapeRegExpIsLiteral(s: string)
    ensures PatternLiteral(EscapeRegExp(s)) == Some(s)
  {
    if s != [] {
      EscapeRegExpIsLiteral(s[1..]);
      var e := EscapeRegExp(s);
      if IsRegExpSpecial(s[0]) {
        assert e[2..] == EscapeRegExp(s[1..]);
      } else {
        assert e[1..] == EscapeRegExp(s[1..]);
      }
      assert s == [s[0]] + s[1..];
    }
  }

  /** A term with no special character is left as it is. */
  lemma {:induction false} EscapeRegExpPlain(s: string)
    requires forall i :: 0 <= i < |s| ==> !IsRegExpSpecial(s[i])
    ensures EscapeRegExp(s) == s
  {
    if s != [] {
      EscapeRegExpPlain(s[1..]);
      assert s == [s[0]] + s[1..];
    }
  }

  // ---------------------------------------------------------------- case-insensitive matches

  /** `term` occurs at `k` in `text`, ignoring case. */
  predicate MatchesAt(text: string, term: string, k: int) {
    OccursAt(Lower(text), Lower(term), k)
  }

  function Concat(parts: seq<string>): string {
    if parts == [] then [] else parts[0] + Concat(parts[1..])
  }

  /** `text.split(new RegExp('(' + escapeRegExp(term) + ')', 'gi'))` for a non-empty term:
      the text between matches and the matches themselves, alternately,
      scanning left to right without overlap. */
  function SplitMatches(text: string, term: string): (parts: seq<string>)
    requires term != []
    ensures |parts| % 2 == 1
    decreases |text|
  {
    match IndexOf(Lower(text), Lower(term))
    case None => [text]
    case Some(k) => [text[..k], text[k..k + |term|]] + SplitMatches(text[k + |term|..], term)
  }

  /** The parts put back together give the text. */
  lemma {:induction false} SplitMatchesConcat(text: string, term: string)
    requires term != []
    ensures Concat(SplitMatches(text, term)) == text
    decreases |text|
  {
    match IndexOf(Lower(text), Lower(term))
    case None =>
    case Some(k) =>
      var rest := text[k + |term|..];
      SplitMatchesConcat(rest, term);
      ConcatTwoMore(text[..k], text[k..k + |term|], SplitMatches(rest, term));
      ThreeSlices(text, k, k + |term|);
  }

  lemma ConcatTwoMore(a: string, b: string, tail: seq<string>)
    ensures Concat([a, b] + tail) == a + b + Concat(tail)
  {
    assert ([a, b] + tail)[1..][1..] == tail;
  }

  lemma ThreeSlices(text: string, i: nat, j: nat)
    requires i <= j <= |text|
    ensures text[..i] + text[i..j] + text[j..] == text
  {
  }

  lemma LowerSlice(s: string, a: nat, b: nat)
    requires a <= b <= |s|
    ensures Lower(s[a..b]) == Lower(s)[a..b]
  {
  }

  /** Every part at an odd position is an occurrence of the term, ignoring
      case; no part at an even position contains one (SplitMatchesLeftmost
      adds that no occurrence even starts inside one). */
  lemma {:induction false} SplitMatchesParts(text: string, term: string)
    requires term != []
    ensures forall i :: 0 <= i < |SplitMatches(text, term)| && i % 2 == 1 ==>
      Lower(SplitMatches(text, term)[i]) == Lower(term)
    ensures forall i, k :: 0 <= i < |SplitMatches(text, term)| && i % 2 == 0 ==>
      !MatchesAt(SplitMatches(text, term)[i], term, k)
    decreases |text|
  {
    match IndexOf(Lower(text), Lower(term))
    case None =>
      forall k' ensures !MatchesAt(text, term, k') { }
    case Some(k) =>
      var rest := text[k + |term|..];
      SplitMatchesParts(rest, term);
      FirstMatch(text, term, k);
      ShiftedParts(text, term, k);
  }

  /** Scanning from the start of an even part, the first occurrence is not
      inside that part: the split takes the leftmost occurrence each time. */
  lemma {:induction false} SplitMatchesLeftmost(text: string, term: string)
    requires term != []
    ensures var parts := SplitMatches(text, term);
      forall i, k :: 0 <= i < |parts| && i % 2 == 0 && 0 <= k < |parts[i]| ==>
        !MatchesAt(Concat(parts[i..]), term, k)
    decreases |text|
  {
    var parts := SplitMatches(text, term);
    match IndexOf(Lower(text), Lower(term))
    case None =>
      NoMatchUpTo(text, term, |text|);
      assert parts == [text];
      assert Concat(parts[0..]) == text;
    case Some(k0) =>
      var rest := text[k0 + |term|..];
      var tail := SplitMatches(rest, term);
      SplitMatchesLeftmost(rest, term);
      SplitMatchesConcat(text, term);
      ShiftedParts(text, term, k0);
      NoMatchUpTo(text, term, k0);
      forall i, k | 0 <= i < |parts| && i % 2 == 0 && 0 <= k < |parts[i]|
        ensures !MatchesAt(Concat(parts[i..]), term, k)
      {
        if i == 0 {
          assert parts[0..] == parts;
        } else {
          ShiftedSuffix(text, term, k0, i);
          assert (i - 2) % 2 == 0 && parts[i] == tail[i - 2];
        }
      }
  }

  /** No occurrence starts before the first one found (or anywhere, when none is found). */
  lemma NoMatchUpTo(text: string, term: string, k0: nat)
    requires IndexOf(Lower(text), Lower(term)) == Some(k0) ||
      (IndexOf(Lower(text), Lower(term)).None? && k0 == |text|)
    ensures forall k :: 0 <= k < k0 ==> !MatchesAt(text, term, k)
  {
  }

  /** After the first match, each remaining suffix of the parts is a suffix
      of the parts of the rest of the text. */
  lemma ShiftedSuffix(text: string, term: string, k: nat, i: nat)
    requires term != [] && IndexOf(Lower(text), Lower(term)) == Some(k)
    requires 2 <= i <= |SplitMatches(text, term)|
    ensures SplitMatches(text, term)[i..] == SplitMatches(text[k + |term|..], term)[i - 2..]
  {
    var tail := SplitMatches(text[k + |term|..], term);
    var pair := [text[..k], text[k..k + |term|]];
    assert SplitMatches(text, term) == pair + tail;
    assert (pair + tail)[i..] == (pair + tail)[2..][i - 2..];
  }

  /** Before the first match there is none, and the match is the term ignoring case. */
  lemma FirstMatch(text: string, term: string, k: nat)
    requires term != [] && IndexOf(Lower(text), Lower(term)) == Some(k)
    ensures Lower(text[k..k + |term|]) == Lower(term)
    ensures forall k' :: !MatchesAt(text[..k], term, k')
  {
    LowerSlice(text, k, k + |term|);
    forall k' ensures !MatchesAt(text[..k], term, k') {
      PrefixMatch(text, term, k, k');
    }
  }

  /** A match inside a prefix of the text is a match in the text, ending within the prefix. */
  lemma PrefixMatch(text: string, term: string, k: nat, k': int)
    requires k <= |text|
    ensures MatchesAt(text[..k], term, k') ==> MatchesAt(text, term, k') && k' + |term| <= k
  {
    if MatchesAt(text[..k], term, k') {
      LowerSlice(text, 0, k);
      assert Lower(text[..k])[k'..k' + |term|] == Lower(text)[k'..k' + |term|];
    }
  }

  /** After the first match, the parts are those of the rest of the text, two places on. */
  lemma ShiftedParts(text: string, term: string, k: nat)
    requires term != [] && IndexOf(Lower(text), Lower(term)) == Some(k)
    ensures var parts := SplitMatches(text, term);
      && parts[0] == text[..k] && parts[1] == text[k..k + |term|]
      && forall i :: 2 <= i < |parts| ==> parts[i] == SplitMatches(text[k + |term|..], term)[i - 2]
  {
    SplitLength(text, term, k);
    SplitUnfold(text, term, k);
    PairIndex(text[..k], text[k..k + |term|], SplitMatches(text[k + |term|..], term));
  }

  /** One step of the split: the text before the first match, the match, and
      the parts of the rest (given the count of parts `SplitLength` states). */
  lemma SplitUnfold(text: string, term: string, k: nat)
    requires term != [] && IndexOf(Lower(text), Lower(term)) == Some(k) && k + |term| <= |text|
    requires |SplitMatches(text, term)| == |SplitMatches(text[k + |term|..], term)| + 2
    ensures SplitMatches(text, term) == [text[..k], text[k..k + |term|]] + SplitMatches(text[k + |term|..], term)
  {
    var tail := SplitMatches(text[k + |term|..], term);
    var pair := [text[..k], text[k..k + |term|]];
    assert SplitMatches(text, term) == pair + tail;
  }

  /** A found match adds two parts. */
  lemma SplitLength(text: string, term: string, k: nat)
    requires term != [] && IndexOf(Lower(text), Lower(term)) == Some(k)
    ensures k + |term| <= |text|
    ensures |SplitMatches(text, term)| == |SplitMatches(text[k + |term|..], term)| + 2
  {
    MatchInText(text, term, k);
  }

  /** The first match lies inside the text. */
  lemma MatchInText(text: string, term: string, k: nat)
    requires IndexOf(Lower(text), Lower(term)) == Some(k)
    ensures k + |term| <= |text|
  {
  }

  lemma PairIndex(x: string, y: string, tail: seq<string>)
    ensures ([x, y] + tail)[0] == x && ([x, y] + tail)[1] == y
    ensures forall i :: 2 <= i < |tail| + 2 ==> ([x, y] + tail)[i] == tail[i - 2]
  {
  }


  /** An even part never equals the term, ignoring case, so the parts that
      equal the term are exactly the matches. */
  lemma SplitMatchesMarked(text: string, term: string)
    requires term != []
    ensures var parts := SplitMatches(text, term);
      forall i :: 0 <= i < |parts| ==> (Lower(parts[i]) == Lower(term) <==> i % 2 == 1)
  {
    SplitMatchesParts(text, term);
    var parts := SplitMatches(text, term);
    forall i | 0 <= i < |parts| && i % 2 == 0 ensures Lower(parts[i]) != Lower(term) {
      if Lower(parts[i]) == Lower(term) {
        assert Lower(parts[i])[0..|Lower(term)|] == Lower(parts[i]);
        assert MatchesAt(parts[i], term, 0);
      }
    }
  }

  // ---------------------------------------------------------------- highlighting in markdown

  const MarkOpen: string := "<mark class=\"bg-yellow-300 text-black p-0.5 rounded-sm\">"
  const MarkClose: string := "</mark>"

  /** The parts with every match wrapped in the mark tags: the `$1` replacement. */
  function WrapMatches(parts: seq<string>): string
    decreases |parts|
  {
    if |parts| < 2 then Concat(parts)
    else parts[0] + MarkOpen + parts[1] + MarkClose + WrapMatches(parts[2..])
  }

  /** The parts with the tags left out again: what a reader of the markdown sees as text. */
  function UnwrapMatches(parts: seq<string>): string
    decreases |parts|
  {
    if |parts| < 2 then Concat(parts)
    else parts[0] + parts[1] + UnwrapMatches(parts[2..])
  }

  lemma {:induction false} UnwrapIsConcat(parts: seq<string>)
    ensures UnwrapMatches(parts) == Concat(parts)
    decreases |parts|
  {
    if |parts| >= 2 {
      UnwrapIsConcat(parts[2..]);
      assert parts[1..][1..] == parts[2..];
    }
  }

  /** `highlightTextInMarkdown(text, highlight)`. */
  function HighlightTextInMarkdown(text: string, highlight: Option<string>): (r: string)
    ensures highlight.None? || text == [] || IsBlank(highlight.value) ==> r == text
  {
    if highlight.None? || text == [] || IsBlank(highlight.value) then text
    else
      var searchTerm := Trim(highlight.value);
      WrapMatches(SplitMatches(text, searchTerm))
  }

  /** Dropping the inserted tags from the highlighted markdown gives back the
      text, and what the tags enclose are exactly the case-insensitive
      occurrences of the trimmed term, found left to right without overlap. */
  lemma HighlightTextInMarkdownRoundTrip(text: string, highlight: string)
    requires text != [] && !IsBlank(highlight)
    ensures var parts := SplitMatches(text, Trim(highlight));
      && HighlightTextInMarkdown(text, Some(highlight)) == WrapMatches(parts)
      && UnwrapMatches(parts) == text
      && (forall i :: 0 <= i < |parts| ==> (i % 2 == 1 <==> Lower(parts[i]) == Lower(Trim(highlight))))
      && forall i, k :: 0 <= i < |parts| && i % 2 == 0 && 0 <= k < |parts[i]| ==>
        !MatchesAt(Concat(parts[i..]), Trim(highlight), k)
  {
    SplitFacts(text, Trim(highlight));
  }

  /** The facts about the parts that the round trip collects, for any term. */
  lemma SplitFacts(text: string, term: string)
    requires term != []
    ensures var parts := SplitMatches(text, term);
      && UnwrapMatches(parts) == text
      && (forall i :: 0 <= i < |parts| ==> (i % 2 == 1 <==> Lower(parts[i]) == Lower(term)))
      && forall i, k :: 0 <= i < |parts| && i % 2 == 0 && 0 <= k < |parts[i]| ==>
        !MatchesAt(Concat(parts[i..]), term, k)
  {
    UnwrapIsConcat(SplitMatches(text, term));
    SplitMatchesConcat(text, term);
    SplitMatchesMarked(text, term);
    SplitMatchesLeftmost(text, term);
  }
}
