/**
  The note editor: the field rules, what submitting hands to the repository,
  the markdown toolbar's text edits, and the image previews.
*/
module NoteForm {
  import opened Wrappers
  import opened Text
  import opened Notes
  import opened NoteContext

  // ---------------------------------------------------------------- schema and submit

  /** The form's fields. */
  datatype FormData = FormData(title: string, objective: string, notesArea: string, images: Option<seq<string>>)

  /** The schema's messages, one per violated rule. */
  datatype SchemaError = TitleRequired | TitleTooLong | ObjectiveRequired | ObjectiveTooLong | NotesAreaRequired

  /** `noteSchema`: the rules a submitted form breaks, in field order. */
  function SchemaErrors(data: FormData): (errors: seq<SchemaError>)
    ensures errors == [] <==> 1 <= |data.title| <= 100 && 1 <= |data.objective| <= 200 && 1 <= |data.notesArea|
    ensures |errors| <= 3
  {
    (if |data.title| < 1 then [TitleRequired] else [])
    + (if |data.title| > 100 then [TitleTooLong] else [])
    + (if |data.objective| < 1 then [ObjectiveRequired] else [])
    + (if |data.objective| > 200 then [ObjectiveTooLong] else [])
    + (if |data.notesArea| < 1 then [NotesAreaRequired] else [])
  }

  /** What submitting does: replace the note being edited, or add a new one. */
  datatype Submission = UpdateExisting(note: Note) | AddNew(data: NoteData)

  /** `onSubmit`: `{ ...noteToEdit, ...data, images: imagePreviews }` for an
      edit, the form data with the previews for a new note. */
  function OnSubmit(data: FormData, imagePreviews: seq<string>, noteToEdit: Option<Note>): (r: Submission)
    ensures noteToEdit.Some? ==> (
      && r.UpdateExisting?
      && r.note.id == noteToEdit.value.id && r.note.createdAt == noteToEdit.value.createdAt
      && r.note.isPinned == noteToEdit.value.isPinned
      && r.note.title == data.title && r.note.objective == data.objective
      && r.note.notesArea == data.notesArea && r.note.images == imagePreviews)
    ensures noteToEdit.None? ==> r == AddNew(NoteData(data.title, data.objective, data.notesArea, Some(imagePreviews)))
  {
    match noteToEdit
    case Some(n) => UpdateExisting(n.(title := data.title, objective := data.objective, notesArea := data.notesArea, images := imagePreviews))
    case None => AddNew(NoteData(data.title, data.objective, data.notesArea, Some(imagePreviews)))
  }

  /** Saving an edit of a note in a collection with distinct ids replaces
      exactly that note: its id now finds the edited version, and every other
      id finds what it found before. */
  lemma SubmitEditReplacesNote(notes: seq<Note>, data: FormData, imagePreviews: seq<string>, edited: Note)
    requires UniqueIds(notes) && edited in notes
    ensures var u := OnSubmit(data, imagePreviews, Some(edited)).note;
      && FindById(UpdateById(notes, u), edited.id) == Some(u)
      && (forall id :: id != edited.id ==> FindById(UpdateById(notes, u), id) == FindById(notes, id))
      && IdSet(UpdateById(notes, u)) == IdSet(notes)
  {
    var u := OnSubmit(data, imagePreviews, Some(edited)).note;
    var r := UpdateById(notes, u);
    UpdateByIdKeepsIds(notes, u);
    var k :| 0 <= k < |notes| && notes[k] == edited;
    FindByIdUnique(r, u.id, k);
    forall id | id != edited.id ensures FindById(r, id) == FindById(notes, id) {
      if HasId(notes, id) {
        var i :| 0 <= i < |notes| && notes[i].id == id;
        FindByIdUnique(notes, id, i);
        FindByIdUnique(r, id, i);
      }
    }
  }

  // ---------------------------------------------------------------- markdown toolbar

  /** A text with the selection the textarea gets afterwards. */
  datatype TextEdit = TextEdit(text: string, selectionStart: nat, selectionEnd: nat)

  /** `applyMarkdownFormatting`: wraps the selection in the syntax and puts the
      cursor after it, or inserts the placeholder wrapped in the syntax and
      selects the placeholder. */
  function ApplyMarkdownFormatting(currentText: string, start: nat, end: nat,
                                   syntaxStart: string, syntaxEnd: string, placeholderText: string): (r: TextEdit)
    requires start <= end <= |currentText|
    ensures r.selectionStart <= r.selectionEnd <= |r.text|
    ensures start <= r.selectionStart && r.text[..start] == currentText[..start]
    ensures start < end ==>
      && r.selectionStart == r.selectionEnd
      && r.text[start..r.selectionEnd] == syntaxStart + currentText[start..end] + syntaxEnd
      && r.text[r.selectionEnd..] == currentText[end..]
    ensures start == end ==>
      && r.text[start..r.selectionStart] == syntaxStart
      && r.text[r.selectionStart..r.selectionEnd] == placeholderText
      && r.text[r.selectionEnd..] == syntaxEnd + currentText[end..]
  {
    var selectedText := currentText[start..end];
    if selectedText != [] then
      var cursor := start + |syntaxStart| + |selectedText| + |syntaxEnd|;
      Wrapped(currentText[..start], syntaxStart, selectedText, syntaxEnd, currentText[end..]);
      TextEdit(currentText[..start] + syntaxStart + selectedText + syntaxEnd + currentText[end..], cursor, cursor)
    else
      var cursorStart := start + |syntaxStart|;
      Wrapped(currentText[..start], syntaxStart, placeholderText, syntaxEnd, currentText[end..]);
      TextEdit(currentText[..start] + syntaxStart + placeholderText + syntaxEnd + currentText[end..],
               cursorStart, cursorStart + |placeholderText|)
  }

  /** Where the pieces sit in a text wrapped as `pre + open + x + close + post`. */
  lemma Wrapped(pre: string, open: string, x: string, close: string, post: string)
    ensures var t := pre + open + x + close + post;
      var i, j, k := |pre| + |open|, |pre| + |open| + |x|, |pre| + |open| + |x| + |close|;
      && |t| == k + |post|
      && t[..|pre|] == pre
      && t[|pre|..i] == open
      && t[i..j] == x
      && t[|pre|..k] == open + x + close
      && t[j..] == close + post
      && t[k..] == post
  {
    var t := pre + open + x + close + post;
    var i, j, k := |pre| + |open|, |pre| + |open| + |x|, |pre| + |open| + |x| + |close|;
    assert t[|pre|..k] == open + x + close;
    assert t[j..] == close + post;
  }

  // ---------------------------------------------------------------- lines

  /** `s.split('\n')`. */
  function SplitLines(s: string): (lines: seq<string>)
    ensures |lines| >= 1
    ensures forall i :: 0 <= i < |lines| ==> '\n' !in lines[i]
  {
    if s == [] then [[]]
    else
      var rest := SplitLines(s[1..]);
      if s[0] == '\n' then [[]] + rest else [[s[0]] + rest[0]] + rest[1..]
  }

  /** `lines.join('\n')`. */
  function JoinLines(lines: seq<string>): string {
    if lines == [] then []
    else if |lines| == 1 then lines[0]
    else lines[0] + "\n" + JoinLines(lines[1..])
  }

  /** Splitting and joining again gives back the text. */
  lemma {:induction false} JoinSplitLines(s: string)
    ensures JoinLines(SplitLines(s)) == s
  {
    if s != [] {
      var rest := SplitLines(s[1..]);
      JoinSplitLines(s[1..]);
      if s[0] == '\n' {
        assert SplitLines(s) == [[]] + rest;
        assert s == "\n" + s[1..];
      } else {
        var lines := SplitLines(s);
        assert lines == [[s[0]] + rest[0]] + rest[1..];
        if |rest| == 1 {
          assert s == [s[0]] + rest[0];
        } else {
          assert lines[1..] == rest[1..];
          assert JoinLines(rest) == rest[0] + "\n" + JoinLines(rest[1..]);
          assert s == [s[0]] + s[1..];
        }
      }
    }
  }

  lemma {:induction false} SplitLineThenMore(line: string, more: string)
    requires '\n' !in line
    ensures SplitLines(line + "\n" + more) == [line] + SplitLines(more)
    ensures SplitLines(line) == [line]
  {
    if line != [] {
      SplitLineThenMore(line[1..], more);
      assert (line + "\n" + more)[1..] == line[1..] + "\n" + more;
      assert line == [line[0]] + line[1..];
    }
  }

  /** Joining lines without line breaks and splitting again gives back the lines. */
  lemma {:induction false} SplitJoinLines(lines: seq<string>)
    requires |lines| >= 1 && forall i :: 0 <= i < |lines| ==> '\n' !in lines[i]
    ensures SplitLines(JoinLines(lines)) == lines
  {
    if |lines| == 1 {
      SplitLineThenMore(lines[0], []);
    } else {
      SplitJoinLines(lines[1..]);
      SplitLineThenMore(lines[0], JoinLines(lines[1..]));
    }
  }

  /** The length of the run of decimal digits `s` starts with. */
  function LeadingDigits(s: string): (k: nat)
    ensures k <= |s| && forall i :: 0 <= i < k ==> IsDigit(s[i])
    ensures k < |s| ==> !IsDigit(s[k])
  {
    if s != [] && IsDigit(s[0]) then 1 + LeadingDigits(s[1..]) else 0
  }

  /** A line that already is a list item: after leading blanks it starts with
      "- ", or with digits, a dot and a blank (`/^\d+\.\s/`). */
  predicate IsListLine(line: string) {
    var t := TrimStart(line);
    StartsWith(t, "- ")
    || (var k := LeadingDigits(t); 1 <= k && k + 1 < |t| && t[k] == '.' && IsWhitespace(t[k + 1]))
  }

  /** One selected line after list formatting. */
  function FormatLine(prefix: string, line: string): string {
    if IsListLine(line) then line else prefix + line
  }

  function FormatLines(prefix: string, lines: seq<string>): (r: seq<string>)
    ensures |r| == |lines|
    ensures forall i :: 0 <= i < |lines| ==> r[i] == FormatLine(prefix, lines[i])
  {
    seq(|lines|, i requires 0 <= i < |lines| => FormatLine(prefix, lines[i]))
  }

  /** The toolbar's two prefixes make list items, so formatting a line twice
      is formatting it once. */
  lemma FormatLineIdempotent(prefix: string, line: string)
    requires prefix == "- " || prefix == "1. "
    ensures FormatLine(prefix, FormatLine(prefix, line)) == FormatLine(prefix, line)
  {
    if !IsListLine(line) {
      if prefix == "- " {
        DashItem(line);
      } else {
        NumberedItem(line);
      }
    }
  }

  lemma TrimStartKeeps(t: string)
    requires t != [] && !IsWhitespace(t[0])
    ensures TrimStart(t) == t
  {
  }

  lemma DashItem(line: string)
    ensures IsListLine("- " + line)
  {
    var t := "- " + line;
    TrimStartKeeps(t);
    assert t[..2] == "- ";
  }

  lemma NumberedItem(line: string)
    ensures IsListLine("1. " + line)
  {
    var t := "1. " + line;
    TrimStartKeeps(t);
    assert LeadingDigits(t[1..]) == 0;
    assert LeadingDigits(t) == 1;
  }

  /** The start of the line holding position `pos`. */
  function LineStart(text: string, pos: nat): (ls: nat)
    requires pos <= |text|
    ensures ls <= pos && (ls == 0 || text[ls - 1] == '\n')
    ensures forall k :: ls <= k < pos ==> text[k] != '\n'
  {
    if pos == 0 || text[pos - 1] == '\n' then pos else LineStart(text, pos - 1)
  }

  /** The line from `ls` up to the next line break: `text.substring(ls).split('\n')[0]`. */
  lemma CurrentLineFacts(text: string, ls: nat)
    requires ls <= |text|
    ensures var line := SplitLines(text[ls..])[0];
      && ls + |line| <= |text| && text[ls..ls + |line|] == line
      && '\n' !in line
      && (ls + |line| == |text| || text[ls + |line|] == '\n')
  {
    var rest := text[ls..];
    JoinSplitLines(rest);
    var lines := SplitLines(rest);
    if |lines| == 1 {
      assert rest == lines[0];
    } else {
      assert rest == lines[0] + "\n" + JoinLines(lines[1..]);
    }
  }

  /** The cursor the source sets after starting a new list item below the
      current one: `start + prefix.length + 1`. */
  function NewItemCursorAsWritten(start: nat, prefix: string): nat {
    start + |prefix| + 1
  }

  /** The cursor after starting a new list item below the current line: just
      after the inserted line break and prefix. */
  function NewItemCursor(lineStart: nat, line: string, prefix: string): nat {
    lineStart + |line| + 1 + |prefix|
  }

  /** The source's cursor is the intended one only when the cursor was at
      the end of its line. */
  lemma NewItemCursorAsWrittenAgreesAtLineEnd(text: string, start: nat, prefix: string)
    requires start <= |text|
    ensures var ls := LineStart(text, start);
      NewItemCursorAsWritten(start, prefix) == NewItemCursor(ls, CurrentLine(text, start), prefix)
      <==> start == ls + |CurrentLine(text, start)|
  {
  }

  /** On an item line "- " + item with the cursor just after the marker, the
      list button "- " starts a new item on the next line, so the cursor
      belongs after the new prefix, at |item| + 5; the source's cursor stays
      at 5, before that prefix. For "- ab": 7 against 5. */
  lemma NewItemCursorAsWrittenMisplaced(item: string)
    requires item != [] && '\n' !in item
    ensures var r := FormatCursorLine("- " + item, 2, "- ");
      && r.text == "- " + item + "\n- "
      && r.selectionEnd == |item| + 5
      && NewItemCursorAsWritten(2, "- ") == 5 < r.selectionEnd
  {
    ItemLine(item);
    LastLineNewItem("- " + item, 2, "- ");
    NewLineDash();
  }

  /** "- " + item is one list line, and position 2 lies on it. */
  lemma ItemLine(item: string)
    requires '\n' !in item
    ensures var text := "- " + item;
      LineStart(text, 2) == 0 && CurrentLine(text, 2) == text && IsListLine(text)
  {
    var text := "- " + item;
    assert LineStart(text, 1) == 0;
    assert text[0..] == text;
    SplitLineThenMore(text, []);
    DashItem(item);
  }

  /** On a text that is one list line, a new item is appended after it. */
  lemma LastLineNewItem(text: string, start: nat, prefix: string)
    requires start <= |text| && LineStart(text, start) == 0 && CurrentLine(text, start) == text && IsListLine(text)
    ensures FormatCursorLine(text, start, prefix).text == text + ("\n" + prefix)
    ensures FormatCursorLine(text, start, prefix).selectionEnd == |text| + 1 + |prefix|
  {
    EditCursorLineAt(text, start, prefix, true, 0, text);
    assert text[..|text|] == text;
    assert text[|text|..] == [];
  }

  lemma NewLineDash()
    ensures "\n" + "- " == "\n- "
  {
  }

  /** List formatting with a selection: every selected line that is not yet a
      list item gets the prefix, and the cursor goes after the formatted lines. */
  function FormatSelection(currentText: string, start: nat, end: nat, prefix: string): (r: TextEdit)
    requires start < end <= |currentText|
    ensures start <= r.selectionStart == r.selectionEnd <= |r.text|
    ensures r.text[..start] == currentText[..start]
    ensures r.text[start..r.selectionEnd] == JoinLines(FormatLines(prefix, SplitLines(currentText[start..end])))
    ensures r.text[r.selectionEnd..] == currentText[end..]
  {
    var formattedLines := JoinLines(FormatLines(prefix, SplitLines(currentText[start..end])));
    var cursor := start + |formattedLines|;
    Splice(currentText[..start], formattedLines, currentText[end..]);
    TextEdit(currentText[..start] + formattedLines + currentText[end..], cursor, cursor)
  }

  /** The line holding the cursor: from its start up to the next line break. */
  function CurrentLine(text: string, pos: nat): string
    requires pos <= |text|
  {
    SplitLines(text[LineStart(text, pos)..])[0]
  }

  /** List formatting without a selection. When the cursor's line already is a
      list item, a line break and the prefix are inserted after it and the
      cursor goes after the prefix; otherwise the prefix is inserted at the
      line's start and the cursor stays on the character it was on. */
  function FormatCursorLine(currentText: string, start: nat, prefix: string): (r: TextEdit)
    requires start <= |currentText|
    ensures r.selectionStart == r.selectionEnd
  {
    EditCursorLine(currentText, start, prefix, IsListLine(CurrentLine(currentText, start)))
  }

  /** The edit of the cursor's line, once it is known whether that line is a list item. */
  function EditCursorLine(currentText: string, start: nat, prefix: string, onListLine: bool): (r: TextEdit)
    requires start <= |currentText|
    ensures r.selectionStart == r.selectionEnd
  {
    var ls := LineStart(currentText, start);
    var line := CurrentLine(currentText, start);
    CurrentLineFacts(currentText, ls);
    if onListLine then
      InsertAt(currentText, ls + |line|, "\n" + prefix)
    else
      var r := InsertAt(currentText, ls, prefix);
      TextEdit(r.text, start + |prefix|, start + |prefix|)
  }

  /** Without a selection, on a list line: a line break and the prefix are
      inserted after the line, and the cursor goes after the prefix. */
  lemma FormatCursorLineNewItem(currentText: string, start: nat, prefix: string)
    requires start <= |currentText| && IsListLine(CurrentLine(currentText, start))
    ensures var r := FormatCursorLine(currentText, start, prefix);
      var ls := LineStart(currentText, start);
      var line := CurrentLine(currentText, start);
      && ls + |line| <= |currentText| && r.selectionEnd == NewItemCursor(ls, line, prefix)
      && |r.text| == |currentText| + 1 + |prefix|
      && r.text[..ls + |line|] == currentText[..ls + |line|]
      && r.text[ls + |line|..r.selectionEnd] == "\n" + prefix
      && r.text[r.selectionEnd..] == currentText[ls + |line|..]
  {
    var ls := LineStart(currentText, start);
    var line := CurrentLine(currentText, start);
    EditCursorLineAt(currentText, start, prefix, true, ls, line);
    InsertAtPieces(currentText, ls + |line|, "\n" + prefix);
  }

  /** Without a selection, on any other line: the prefix is inserted at the
      line's start and the cursor stays on the character it was on. */
  lemma FormatCursorLinePrefix(currentText: string, start: nat, prefix: string)
    requires start <= |currentText| && !IsListLine(CurrentLine(currentText, start))
    ensures var r := FormatCursorLine(currentText, start, prefix);
      r.selectionEnd == start + |prefix| && InsertedAt(currentText, LineStart(currentText, start), prefix, r.text)
  {
    PrefixEditPieces(currentText, start, prefix);
  }

  /** The edit of a line that is not a list item, in pieces. */
  lemma PrefixEditPieces(text: string, start: nat, prefix: string)
    requires start <= |text|
    ensures var r := EditCursorLine(text, start, prefix, false);
      r.selectionEnd == start + |prefix| && InsertedAt(text, LineStart(text, start), prefix, r.text)
  {
    var ls := LineStart(text, start);
    EditCursorLineAt(text, start, prefix, false, ls, CurrentLine(text, start));
    InsertAtPieces(text, ls, prefix);
  }

  /** `t` is `text` with `mid` inserted at `at`: the text before `at`, then
      `mid`, then the rest of the text. */
  predicate InsertedAt(text: string, at: nat, mid: string, t: string)
    requires at <= |text|
  {
    && |t| == |text| + |mid|
    && t[..at] == text[..at]
    && t[at..at + |mid|] == mid
    && t[at + |mid|..] == text[at..]
  }

  /** Inserts `mid` at position `at` and puts the cursor right after it. */
  function InsertAt(text: string, at: nat, mid: string): (r: TextEdit)
    requires at <= |text|
    ensures r.selectionStart == r.selectionEnd == at + |mid|
  {
    TextEdit(text[..at] + mid + text[at..], at + |mid|, at + |mid|)
  }

  /** The inserted text sits between the kept parts. */
  lemma InsertAtPieces(text: string, at: nat, mid: string)
    requires at <= |text|
    ensures var r := InsertAt(text, at, mid);
      && |r.text| == |text| + |mid|
      && r.text[..at] == text[..at]
      && r.text[at..at + |mid|] == mid
      && r.text[at + |mid|..] == text[at..]
  {
    Splice(text[..at], mid, text[at..]);
  }

  /** `applyListFormatting`: formats the selected lines, or, without a
      selection, walks back from the cursor to the start of its line and
      formats that line. On a list line the text is the intended one, but the
      cursor is the source's `start + prefix.length + 1`, which lands before
      the new prefix unless the cursor was at the line end
      (`NewItemCursorAsWrittenMisplaced`). */
  method ApplyListFormatting(currentText: string, start: nat, end: nat, prefix: string) returns (r: TextEdit)
    requires start <= end <= |currentText|
    ensures start < end ==> r == FormatSelection(currentText, start, end, prefix)
    ensures start == end ==> r.text == FormatCursorLine(currentText, start, prefix).text
    ensures start == end && IsListLine(CurrentLine(currentText, start)) ==>
      r.selectionStart == r.selectionEnd == NewItemCursorAsWritten(start, prefix)
    ensures start == end && !IsListLine(CurrentLine(currentText, start)) ==>
      r == FormatCursorLine(currentText, start, prefix)
  {
    var selectedText := currentText[start..end];
    if selectedText != [] {
      var formattedLines := JoinLines(FormatLines(prefix, SplitLines(selectedText)));
      var finalCursorPosition := start + |formattedLines|;
      r := TextEdit(currentText[..start] + formattedLines + currentText[end..], finalCursorPosition, finalCursorPosition);
    } else {
      var lineStartIndex := FindLineStart(currentText, start);
      var textBeforeCursorLine := currentText[..lineStartIndex];
      var textAfterCursorLine := currentText[lineStartIndex..];
      var currentLineContent := SplitLines(textAfterCursorLine)[0];
      if IsListLine(currentLineContent) {
        NewItemBranch(currentText, start, prefix, lineStartIndex, currentLineContent);
        var finalCursorPosition := start + |prefix| + 1;
        r := TextEdit(textBeforeCursorLine + currentLineContent + "\n" + prefix + textAfterCursorLine[|currentLineContent|..],
                      finalCursorPosition, finalCursorPosition);
      } else {
        PrefixBranch(currentText, start, prefix, lineStartIndex, currentLineContent);
        var finalCursorPosition := lineStartIndex + |prefix| + (start - lineStartIndex);
        r := TextEdit(textBeforeCursorLine + prefix + textAfterCursorLine, finalCursorPosition, finalCursorPosition);
      }
    }
  }

  /** Walks back from `pos` to the start of its line. */
  method FindLineStart(currentText: string, pos: nat) returns (lineStartIndex: nat)
    requires pos <= |currentText|
    ensures lineStartIndex == LineStart(currentText, pos)
  {
    lineStartIndex := pos;
    while lineStartIndex > 0 && currentText[lineStartIndex - 1] != '\n'
      invariant lineStartIndex <= pos
      invariant LineStart(currentText, lineStartIndex) == LineStart(currentText, pos)
      decreases lineStartIndex
    {
      lineStartIndex := lineStartIndex - 1;
    }
  }

  /** `EditCursorLine` once its line start and line are known. */
  lemma EditCursorLineAt(text: string, start: nat, prefix: string, onListLine: bool, ls: nat, line: string)
    requires start <= |text| && ls == LineStart(text, start) && line == CurrentLine(text, start)
    ensures ls + |line| <= |text|
    ensures onListLine ==> EditCursorLine(text, start, prefix, onListLine) == InsertAt(text, ls + |line|, "\n" + prefix)
    ensures !onListLine ==>
      EditCursorLine(text, start, prefix, onListLine) == TextEdit(InsertAt(text, ls, prefix).text, start + |prefix|, start + |prefix|)
  {
    CurrentLineFacts(text, ls);
  }

  /** `FormatCursorLine` on a list line, in the pieces the editor builds it from. */
  lemma NewItemBranch(text: string, start: nat, prefix: string, ls: nat, line: string)
    requires start <= |text| && ls == LineStart(text, start) && line == SplitLines(text[ls..])[0] && IsListLine(line)
    ensures |line| <= |text[ls..]|
    ensures FormatCursorLine(text, start, prefix)
      == TextEdit(text[..ls] + line + "\n" + prefix + text[ls..][|line|..],
                  NewItemCursor(ls, line, prefix), NewItemCursor(ls, line, prefix))
  {
    CurrentLineFacts(text, ls);
    EditCursorLineAt(text, start, prefix, true, ls, line);
    NewItemPieces(text, ls, line, prefix);
  }

  /** `FormatCursorLine` on any other line, in the pieces the editor builds it from. */
  lemma PrefixBranch(text: string, start: nat, prefix: string, ls: nat, line: string)
    requires start <= |text| && ls == LineStart(text, start) && line == SplitLines(text[ls..])[0] && !IsListLine(line)
    ensures FormatCursorLine(text, start, prefix)
      == TextEdit(text[..ls] + prefix + text[ls..], ls + |prefix| + (start - ls), ls + |prefix| + (start - ls))
  {
    EditCursorLineAt(text, start, prefix, false, ls, line);
    PrefixPieces(text, ls, start, prefix);
  }

  lemma NewItemPieces(text: string, ls: nat, line: string, prefix: string)
    requires ls + |line| <= |text| && text[ls..ls + |line|] == line
    ensures |line| <= |text[ls..]|
    ensures InsertAt(text, ls + |line|, "\n" + prefix)
      == TextEdit(text[..ls] + line + "\n" + prefix + text[ls..][|line|..],
                  NewItemCursor(ls, line, prefix), NewItemCursor(ls, line, prefix))
  {
    SplitAtLineEnd(text, ls, line);
    var a := text[..ls + |line|];
    assert a + "\n" + prefix + text[ls + |line|..] == a + ("\n" + prefix) + text[ls + |line|..];
  }

  lemma PrefixPieces(text: string, ls: nat, start: nat, prefix: string)
    requires ls <= start <= |text|
    ensures var r := InsertAt(text, ls, prefix);
      TextEdit(r.text, start + |prefix|, start + |prefix|)
      == TextEdit(text[..ls] + prefix + text[ls..], start + |prefix|, start + |prefix|)
  {
  }

  lemma Splice(a: string, mid: string, b: string)
    ensures (a + mid + b)[..|a|] == a
    ensures (a + mid + b)[|a|..|a| + |mid|] == mid
    ensures (a + mid + b)[|a| + |mid|..] == b
  {
  }

  lemma SplitAtLineEnd(text: string, ls: nat, line: string)
    requires ls + |line| <= |text| && text[ls..ls + |line|] == line
    ensures text[..ls] + line == text[..ls + |line|]
    ensures text[ls..][|line|..] == text[ls + |line|..]
  {
  }

  /** With a prefix that has no line break, list formatting keeps the number
      of selected lines, and line i of the result is line i of the selection
      after formatting. */
  lemma ListFormattingKeepsLines(selected: string, prefix: string)
    requires '\n' !in prefix
    ensures var before := SplitLines(selected);
      var after := SplitLines(JoinLines(FormatLines(prefix, before)));
      |after| == |before| && forall i :: 0 <= i < |before| ==> after[i] == FormatLine(prefix, before[i])
  {
    var before := SplitLines(selected);
    var formatted := FormatLines(prefix, before);
    forall i | 0 <= i < |formatted| ensures '\n' !in formatted[i] {
      assert '\n' !in before[i];
    }
    SplitJoinLines(formatted);
  }

  // ---------------------------------------------------------------- image previews

  const MaxImages: nat := 5
  const MaxImageBytes: nat := 2 * 1024 * 1024

  /** A chosen or pasted file: its size and the data URL a `FileReader` makes of it. */
  datatype ImageFile = ImageFile(size: nat, dataUrl: string)

  /** The previews a batch adds: the data URLs of the files of at most 2 MiB,
      in batch order (an empty read result adds nothing). */
  function Admitted(files: seq<ImageFile>): (r: seq<string>)
    ensures |r| <= |files|
  {
    if files == [] then []
    else
      var last := files[|files| - 1];
      Admitted(files[..|files| - 1]) + (if last.size <= MaxImageBytes && last.dataUrl != [] then [last.dataUrl] else [])
  }

  /** A file over the size limit never becomes a preview. */
  lemma {:induction false} AdmittedOnlySmall(files: seq<ImageFile>)
    ensures forall u :: u in Admitted(files) ==>
      exists i :: 0 <= i < |files| && files[i].dataUrl == u && files[i].size <= MaxImageBytes
  {
    if files != [] {
      var init := files[..|files| - 1];
      AdmittedOnlySmall(init);
      forall u | u in Admitted(files)
        ensures exists i :: 0 <= i < |files| && files[i].dataUrl == u && files[i].size <= MaxImageBytes
      {
        if u in Admitted(init) {
          var i :| 0 <= i < |init| && init[i].dataUrl == u && init[i].size <= MaxImageBytes;
          assert files[i] == init[i];
        } else {
          assert files[|files| - 1].dataUrl == u;
        }
      }
    }
  }

  /** `imagePreviews.filter((_, index) => index !== indexToRemove)`. */
  function WithoutIndex(s: seq<string>, indexToRemove: int): (r: seq<string>)
    ensures 0 <= indexToRemove < |s| ==>
      && |r| == |s| - 1
      && (forall k :: 0 <= k < indexToRemove ==> r[k] == s[k])
      && (forall k :: indexToRemove <= k < |r| ==> r[k] == s[k + 1])
    ensures !(0 <= indexToRemove < |s|) ==> r == s
  {
    if 0 <= indexToRemove < |s| then s[..indexToRemove] + s[indexToRemove + 1..] else s
  }

  /** The previews of the note being edited. */
  class ImagePreviews {
    var imagePreviews: seq<string>

    constructor ()
      ensures imagePreviews == []
    {
      imagePreviews := [];
    }

    /** Opening the editor shows the edited note's images, or none for a new note. */
    method Open(noteToEdit: Option<Note>)
      modifies this
      ensures imagePreviews == if noteToEdit.Some? then noteToEdit.value.images else []
    {
      if noteToEdit.Some? {
        imagePreviews := noteToEdit.value.images;
      } else {
        imagePreviews := [];
      }
    }

    /** Closing the editor drops the previews. */
    method Close()
      modifies this
      ensures imagePreviews == []
    {
      imagePreviews := [];
    }

    /** `processFiles`: a batch that would pass five images is refused whole;
        otherwise each file of at most 2 MiB is added, in order. */
    method ProcessFiles(files: seq<ImageFile>) returns (refused: bool)
      modifies this
      ensures refused <==> |old(imagePreviews)| + |files| > MaxImages
      ensures refused ==> imagePreviews == old(imagePreviews)
      ensures !refused ==> imagePreviews == old(imagePreviews) + Admitted(files)
      ensures !refused ==> |imagePreviews| <= MaxImages
    {
      var currentImageCount := |imagePreviews|;
      if currentImageCount + |files| > MaxImages {
        return true;
      }
      var imagesProcessedInBatch := 0;
      var added: seq<string> := [];
      var i := 0;
      while i < |files|
        invariant i <= |files|
        invariant imagesProcessedInBatch <= i
        invariant added == Admitted(files[..i])
      {
        var file := files[i];
        assert files[..i + 1][..i] == files[..i];
        if currentImageCount + imagesProcessedInBatch >= MaxImages {
          assert false;
        }
        if file.size <= MaxImageBytes {
          if file.dataUrl != [] {
            added := added + [file.dataUrl];
          }
          imagesProcessedInBatch := imagesProcessedInBatch + 1;
        }
        i := i + 1;
      }
      assert files[..i] == files;
      imagePreviews := imagePreviews + added;
      refused := false;
    }

    /** `removeImage`: drops the preview at that index; any other index changes nothing. */
    method RemoveImage(indexToRemove: int)
      modifies this
      ensures imagePreviews == WithoutIndex(old(imagePreviews), indexToRemove)
    {
      imagePreviews := WithoutIndex(imagePreviews, indexToRemove);
    }
  }
}
