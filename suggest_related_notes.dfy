/**
  The suggestion flow's handling of what the language model returns: any
  error, missing output or output without an `ideas` array becomes
  `{ideas: []}`, a well-formed output passes through, and an empty answer is
  only logged, classified by the title-only pattern.
*/
module SuggestRelatedNotes {
  import opened Wrappers
  import opened Text
  import opened JsonValues

  // ---------------------------------------------------------------- the idea shape

  /** One suggestion: a title, its details, and an optional category (`type`). */
  datatype Idea = Idea(title: string, details: string, category: Option<string>)

  function IdeaToJson(idea: Idea): Json {
    var fields := map["title" := JString(idea.title), "details" := JString(idea.details)];
    JObject(if idea.category.Some? then fields["type" := JString(idea.category.value)] else fields)
  }

  /** The idea a parsed value describes, when it fits the schema: string
      `title` and `details`, and `type` absent or a string. */
  function IdeaFromJson(j: Json): (r: Option<Idea>)
    ensures r.Some? <==> (
      && IsStringMember(j, "title") && IsStringMember(j, "details")
      && (Member(j, "type").None? || Member(j, "type").value.JString?))
    ensures r.Some? ==> r.value.title == Member(j, "title").value.s && r.value.details == Member(j, "details").value.s
  {
    if IsStringMember(j, "title") && IsStringMember(j, "details")
       && (Member(j, "type").None? || Member(j, "type").value.JString?)
    then
      var category := if Member(j, "type").Some? then Some(Member(j, "type").value.s) else None;
      Some(Idea(Member(j, "title").value.s, Member(j, "details").value.s, category))
    else None
  }

  /** Every idea survives being written out and read back. */
  lemma IdeaRoundTrip(idea: Idea)
    ensures IdeaFromJson(IdeaToJson(idea)) == Some(idea)
  {
    var j := IdeaToJson(idea);
    assert Member(j, "title") == Some(JString(idea.title));
    assert Member(j, "details") == Some(JString(idea.details));
    if idea.category.Some? {
      assert Member(j, "type") == Some(JString(idea.category.value));
    } else {
      assert "type" !in j.fields;
    }
  }

  // ---------------------------------------------------------------- the title-only pattern

  /** Case folding under the pattern's `i` flag: ASCII letters and the
      accented capital of "Título". */
  function FoldChar(c: char): char {
    if c == 'Í' then 'í' else LowerChar(c)
  }

  function Fold(s: string): (r: string)
    ensures |r| == |s| && forall i :: 0 <= i < |s| ==> r[i] == FoldChar(s[i])
  {
    seq(|s|, i requires 0 <= i < |s| => FoldChar(s[i]))
  }

  /** `s` starts with `marker`, ignoring case; `marker` is written folded. */
  predicate StartsWithFolded(s: string, marker: string) {
    |marker| <= |s| && Fold(s[..|marker|]) == marker
  }

  const TitleLabel: string := "título: "
  const ObjectiveLabel: string := "\nobjetivo:"
  const NotesLabel: string := "\nnotas:"

  /** The length of the first line. */
  function LineLength(s: string): (k: nat)
    ensures k <= |s| && '\n' !in s[..k] && (k == |s| || s[k] == '\n')
  {
    if s == [] || s[0] == '\n' then 0
    else
      var k := 1 + LineLength(s[1..]);
      assert s[..k] == [s[0]] + s[1..][..k - 1];
      k
  }

  /** `(\s*)\nNotas:(\s*)$`: blanks, which may include line breaks, then the
      notes marker, then blanks to the end. */
  predicate BlankNotesTail(u: string) {
    exists j :: 0 <= j && j + |NotesLabel| <= |u| && AllWhitespace(u[..j])
      && Fold(u[j..j + |NotesLabel|]) == NotesLabel && AllWhitespace(u[j + |NotesLabel|..])
  }

  /** `(\nObjetivo:(\s*)\nNotas:(\s*))?$` after the title line. */
  predicate EmptyFieldsTail(t: string) {
    t == [] || (StartsWithFolded(t, ObjectiveLabel) && BlankNotesTail(t[|ObjectiveLabel|..]))
  }

  /** `/^Título: [^\n]+(\nObjetivo:(\s*)\nNotas:(\s*))?$/i.test(s)`: the title
      marker, a non-empty rest of the line, and then either nothing or the
      objective and notes labels with nothing but blanks after them. */
  predicate TitleOnlyPattern(s: string) {
    StartsWithFolded(s, TitleLabel)
    && (var rest := s[|TitleLabel|..];
        var k := LineLength(rest);
        1 <= k && EmptyFieldsTail(rest[k..]))
  }

  /** `isLikelyDirectQuery`: the pattern matched against the trimmed note content. */
  predicate IsLikelyDirectQuery(noteContent: string) {
    TitleOnlyPattern(Trim(noteContent))
  }

  lemma FoldLabel(s: string, marker: string, more: string)
    requires Fold(s) == marker
    ensures StartsWithFolded(s + more, marker) && (s + more)[|marker|..] == more
  {
    assert (s + more)[..|marker|] == s;
  }

  /** A title line on its own, in any case, is a direct query. */
  lemma TitleLineIsDirectQuery(marker: string, title: string)
    requires Fold(marker) == TitleLabel && title != [] && '\n' !in title
    ensures TitleOnlyPattern(marker + title)
  {
    FoldLabel(marker, TitleLabel, title);
    LineLengthOf(title, []);
    assert title + [] == title;
  }

  /** A title line followed by an objective line and a notes line holding
      nothing but blanks is a direct query. */
  lemma EmptyFieldsIsDirectQuery(title: string, objectiveGap: string, notesGap: string)
    requires title != [] && '\n' !in title && AllWhitespace(objectiveGap) && AllWhitespace(notesGap)
    ensures TitleOnlyPattern(TitleLabel + (title + ("\nObjetivo:" + objectiveGap + "\nNotas:" + notesGap)))
  {
    var tail := "\nObjetivo:" + objectiveGap + "\nNotas:" + notesGap;
    FoldLabel(TitleLabel, TitleLabel, title + tail);
    LineLengthOf(title, tail);
    assert (title + tail)[|title|..] == tail;
    EmptyFieldsLines(objectiveGap, notesGap);
  }

  lemma EmptyFieldsLines(objectiveGap: string, notesGap: string)
    requires AllWhitespace(objectiveGap) && AllWhitespace(notesGap)
    ensures EmptyFieldsTail("\nObjetivo:" + objectiveGap + "\nNotas:" + notesGap)
  {
    var tail := "\nObjetivo:" + objectiveGap + "\nNotas:" + notesGap;
    assert tail[..|ObjectiveLabel|] == "\nObjetivo:";
    assert Fold("\nObjetivo:") == ObjectiveLabel;
    var u := tail[|ObjectiveLabel|..];
    var j := |objectiveGap|;
    assert u == objectiveGap + "\nNotas:" + notesGap;
    assert u[..j] == objectiveGap;
    assert u[j..j + |NotesLabel|] == "\nNotas:";
    assert Fold("\nNotas:") == NotesLabel;
    assert u[j + |NotesLabel|..] == notesGap;
  }

  /** Note content with a title and empty objective and notes, written with the
      labels the pattern reads, is a direct query. */
  lemma TitleOnlyContentIsDirectQuery(title: string)
    requires title != [] && '\n' !in title
    ensures IsLikelyDirectQuery("Título: " + title + "\nObjetivo: \nNotas: ")
  {
    ContentTrimmed(title);
    TrimmedContentMatches(title);
  }

  lemma TrimmedContentMatches(title: string)
    requires title != [] && '\n' !in title
    ensures TitleOnlyPattern("Título: " + title + "\nObjetivo: \nNotas:")
  {
    var tail := "\nObjetivo:" + " " + "\nNotas:" + "";
    ContentPieces(title);
    CapitalTitleLabel();
    EmptyFieldsIsDirectQuery(title, " ", "");
    TitleWithAnyCase("Título: ", title + tail);
  }

  lemma ContentPieces(title: string)
    ensures "Título: " + title + "\nObjetivo: \nNotas:" == "Título: " + (title + ("\nObjetivo:" + " " + "\nNotas:" + ""))
  {
    EmptyFieldsText();
  }

  lemma EmptyFieldsText()
    ensures "\nObjetivo:" + " " + "\nNotas:" + "" == "\nObjetivo: \nNotas:"
  {
    var whole := "\nObjetivo: \nNotas:";
    var pieces := "\nObjetivo:" + " " + "\nNotas:" + "";
    assert |pieces| == |whole|;
    forall i | 0 <= i < |whole| ensures pieces[i] == whole[i] {
    }
  }

  /** Trimming drops the blank after the notes label and nothing else. */
  lemma ContentTrimmed(title: string)
    ensures Trim("Título: " + title + "\nObjetivo: \nNotas: ") == "Título: " + title + "\nObjetivo: \nNotas:"
  {
    var content := "Título: " + title + "\nObjetivo: \nNotas: ";
    var trimmed := "Título: " + title + "\nObjetivo: \nNotas:";
    TrailingBlank();
    assert content == trimmed + " ";
    assert content[0] == 'T';
    assert TrimStart(content) == content;
    assert content[..|content| - 1] == trimmed;
    assert trimmed[|trimmed| - 1] == ':';
    assert TrimEnd(trimmed) == trimmed;
  }

  lemma TrailingBlank()
    ensures "\nObjetivo: \nNotas: " == "\nObjetivo: \nNotas:" + " "
  {
    var whole := "\nObjetivo: \nNotas: ";
    var pieces := "\nObjetivo: \nNotas:" + " ";
    assert |pieces| == |whole|;
    forall i | 0 <= i < |whole| ensures pieces[i] == whole[i] {
    }
  }

  /** The suggestion panel labels the note content in English ("Title: …"),
      which the Spanish title pattern never matches: the panel's requests are
      never classified as direct queries. */
  lemma PanelContentIsNeverDirectQuery(title: string, objective: string, notes: string)
    ensures !IsLikelyDirectQuery("Title: " + title + "\nObjective: " + objective + "\nNotes: " + notes)
  {
    var content := "Title: " + title + "\nObjective: " + objective + "\nNotes: " + notes;
    assert content[0] == 'T' && content[1] == 'i';
    SecondCharNotTitle(content);
  }

  /** Content whose second character is a plain 'i' does not start with "título: " in any case. */
  lemma SecondCharNotTitle(content: string)
    requires |content| >= 2 && content[0] == 'T' && content[1] == 'i'
    ensures !IsLikelyDirectQuery(content)
  {
    TrimKeepsSecond(content);
    PlainINotTitle(Trim(content));
  }

  /** Trimming content that starts with "Ti" leaves that 'i' in second place. */
  lemma TrimKeepsSecond(content: string)
    requires |content| >= 2 && content[0] == 'T' && content[1] == 'i'
    ensures |Trim(content)| < 2 || Trim(content)[1] == 'i'
  {
    assert TrimStart(content) == content;
  }

  /** A plain 'i' in second place does not fold to the 'í' of the title label. */
  lemma PlainINotTitle(t: string)
    requires |t| < 2 || t[1] == 'i'
    ensures !StartsWithFolded(t, TitleLabel)
  {
    if |TitleLabel| <= |t| {
      assert Fold(t[..|TitleLabel|])[1] == FoldChar('i') == 'i';
      assert TitleLabel[1] == 'í';
    }
  }

  lemma CapitalTitleLabel()
    ensures Fold("Título: ") == TitleLabel
  {
  }

  /** The pattern reads the title label ignoring case. */
  lemma TitleWithAnyCase(marker: string, rest: string)
    requires Fold(marker) == TitleLabel
    ensures TitleOnlyPattern(marker + rest) == TitleOnlyPattern(TitleLabel + rest)
  {
    FoldLabel(marker, TitleLabel, rest);
    FoldLabel(TitleLabel, TitleLabel, rest);
  }

  /** An objective with something in it makes the note an elaborate one. */
  lemma FilledObjectiveIsNotDirectQuery(title: string, objective: string, notes: string)
    requires '\n' !in title && '\n' !in objective && !AllWhitespace(objective)
    ensures !TitleOnlyPattern(TitleLabel + title + "\nObjetivo:" + objective + "\nNotas:" + notes)
  {
    var tail := "\nObjetivo:" + objective + "\nNotas:" + notes;
    assert TitleLabel + title + "\nObjetivo:" + objective + "\nNotas:" + notes == TitleLabel + title + tail;
    TitleLineThen(title, tail);
    FilledObjectiveTail(objective, notes);
  }

  /** After the title line, the pattern is decided by what follows it. */
  lemma TitleLineThen(title: string, tail: string)
    requires '\n' !in title && tail != [] && tail[0] == '\n'
    ensures TitleOnlyPattern(TitleLabel + title + tail) ==> EmptyFieldsTail(tail)
  {
    var s := TitleLabel + title + tail;
    assert s[|TitleLabel|..] == title + tail;
    LineLengthOf(title, tail);
    assert (title + tail)[|title|..] == tail;
  }

  lemma FilledObjectiveTail(objective: string, notes: string)
    requires '\n' !in objective && !AllWhitespace(objective)
    ensures !EmptyFieldsTail("\nObjetivo:" + objective + "\nNotas:" + notes)
  {
    var tail := "\nObjetivo:" + objective + "\nNotas:" + notes;
    assert tail[|ObjectiveLabel|..] == objective + ("\nNotas:" + notes);
    FilledBeforeNotes(objective, "\nNotas:" + notes);
  }

  /** The length of a line followed by a line break or nothing. */
  lemma {:induction false} LineLengthOf(line: string, more: string)
    requires '\n' !in line && (more == [] || more[0] == '\n')
    ensures LineLength(line + more) == |line|
  {
    if line == [] {
      assert line + more == more;
    } else {
      LineLengthOf(line[1..], more);
      assert (line + more)[1..] == line[1..] + more;
    }
  }

  /** A line with something in it is not blanks before the notes label. */
  lemma FilledBeforeNotes(objective: string, more: string)
    requires '\n' !in objective && !AllWhitespace(objective)
    ensures !BlankNotesTail(objective + more)
  {
    var u := objective + more;
    var p :| 0 <= p < |objective| && !IsWhitespace(objective[p]);
    forall j | 0 <= j && j + |NotesLabel| <= |u|
      ensures !(AllWhitespace(u[..j]) && Fold(u[j..j + |NotesLabel|]) == NotesLabel)
    {
      if j <= p {
        assert u[j] == objective[j];
        assert Fold(u[j..j + |NotesLabel|])[0] == FoldChar(u[j]);
      } else {
        assert u[..j][p] == objective[p];
      }
    }
  }

  // ---------------------------------------------------------------- the flow

  /** What the model call does: throws, or returns an output that may be missing. */
  datatype ModelReply = Threw | Returned(output: Option<Json>)

  /** The warning the flow logs, if any. */
  datatype FlowLog = NoWarning | InvalidOutput | EmptyForDirectQuery | EmptyForElaborateNote | CriticalError

  datatype FlowResult = FlowResult(output: Json, log: FlowLog)

  /** `{ ideas: [] }`. */
  function NoIdeas(): Json {
    JObject(map["ideas" := JArray([])])
  }

  /** `output && Array.isArray(output.ideas)`. */
  predicate HasIdeasArray(output: Option<Json>) {
    output.Some? && Truthy(output.value)
    && Member(output.value, "ideas").Some? && Member(output.value, "ideas").value.JArray?
  }

  /** `output.ideas.length`, for an output that has an ideas array. */
  function IdeasCount(output: Option<Json>): nat
    requires HasIdeasArray(output)
  {
    |Member(output.value, "ideas").value.items|
  }

  /** `suggestRelatedNotesFlow` after the model call. */
  function SuggestRelatedNotesFlow(noteContent: string, reply: ModelReply): (r: FlowResult)
    ensures HasIdeasArray(Some(r.output))
    ensures reply.Returned? && HasIdeasArray(reply.output) ==> r.output == reply.output.value
    ensures !(reply.Returned? && HasIdeasArray(reply.output)) ==> r.output == NoIdeas()
    ensures r.log == CriticalError <==> reply.Threw?
    ensures r.log == InvalidOutput <==> reply.Returned? && !HasIdeasArray(reply.output)
    ensures r.log == EmptyForDirectQuery <==>
      reply.Returned? && HasIdeasArray(reply.output) && IdeasCount(reply.output) == 0 && IsLikelyDirectQuery(noteContent)
    ensures r.log == EmptyForElaborateNote <==>
      reply.Returned? && HasIdeasArray(reply.output) && IdeasCount(reply.output) == 0 && !IsLikelyDirectQuery(noteContent)
    ensures r.log == NoWarning <==> reply.Returned? && HasIdeasArray(reply.output) && IdeasCount(reply.output) > 0
  {
    match reply
    case Threw => FlowResult(NoIdeas(), CriticalError)
    case Returned(output) =>
      if !HasIdeasArray(output) then
        assert Member(NoIdeas(), "ideas") == Some(JArray([]));
        FlowResult(NoIdeas(), InvalidOutput)
      else if IdeasCount(output) == 0 then
        FlowResult(output.value, if IsLikelyDirectQuery(noteContent) then EmptyForDirectQuery else EmptyForElaborateNote)
      else FlowResult(output.value, NoWarning)
  }

  /** The classification only chooses the warning: what the flow returns does
      not depend on the note's content. */
  lemma FlowOutputIgnoresNoteContent(a: string, b: string, reply: ModelReply)
    ensures SuggestRelatedNotesFlow(a, reply).output == SuggestRelatedNotesFlow(b, reply).output
  {
  }

  /** The flow's result is itself a well-formed output: feeding it back
      returns it unchanged. */
  lemma FlowIdempotent(noteContent: string, reply: ModelReply)
    ensures var r := SuggestRelatedNotesFlow(noteContent, reply).output;
      SuggestRelatedNotesFlow(noteContent, Returned(Some(r))).output == r
  {
  }
}
