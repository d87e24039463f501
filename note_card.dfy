/**
  What a note card shows: the notes preview and its expansion, the highlighted
  search matches, and the attached images.
*/
module NoteCard {
  import opened Wrappers
  import opened Text
  import opened Notes
  import opened NoteUtils

  // ---------------------------------------------------------------- trimming twice

  /** Trimming a trimmed string changes nothing. */
  lemma TrimIdempotent(s: string)
    ensures Trim(Trim(s)) == Trim(s)
  {
    var r := Trim(s);
    if r != [] {
      assert TrimStart(r) == r;
      assert TrimEnd(r) == r;
    }
  }

  /** `searchTerm?.trim()`. */
  function DisplaySearchTerm(searchTerm: Option<string>): (r: Option<string>)
    ensures r.Some? <==> searchTerm.Some?
    ensures r.Some? ==> r.value == Trim(searchTerm.value)
  {
    match searchTerm
    case None => None
    case Some(t) => Some(Trim(t))
  }

  /** The card trims the search term before highlighting, and highlighting
      trims it again: the highlighted markdown is the one the untrimmed term
      gives. */
  lemma CardHighlightIgnoresTrim(text: string, searchTerm: Option<string>)
    ensures HighlightTextInMarkdown(text, DisplaySearchTerm(searchTerm)) == HighlightTextInMarkdown(text, searchTerm)
  {
    if searchTerm.Some? {
      TrimIdempotent(searchTerm.value);
    }
  }

  // ---------------------------------------------------------------- notes preview

  const NotesPreviewLength: nat := 180

  /** The notes shown before expanding: the first 180 characters, followed by
      "..." when something was cut. */
  function NotesPreviewText(notesArea: string): (r: string)
    ensures |notesArea| <= NotesPreviewLength ==> r == notesArea
    ensures |notesArea| > NotesPreviewLength ==>
      |r| == NotesPreviewLength + 3 && r[..NotesPreviewLength] == notesArea[..NotesPreviewLength]
      && r[NotesPreviewLength..] == "..."
  {
    var shown := if |notesArea| <= NotesPreviewLength then notesArea else notesArea[..NotesPreviewLength];
    shown + (if |notesArea| > NotesPreviewLength then "..." else "")
  }

  /** The "show more" button appears only when the preview cut something. */
  predicate CanExpand(note: Note) {
    |note.notesArea| > NotesPreviewLength
  }

  /** The card shows the preview until expanded, the whole notes afterwards. */
  function ShownNotes(note: Note, isExpanded: bool): string {
    if isExpanded then note.notesArea else NotesPreviewText(note.notesArea)
  }

  /** A card whose notes cannot be expanded already shows the whole notes,
      and a collapsed card that can be expanded shows a strict beginning of
      them followed by "...". */
  lemma ExpandShowsWholeNotes(note: Note, isExpanded: bool)
    ensures !CanExpand(note) ==> ShownNotes(note, isExpanded) == note.notesArea
    ensures CanExpand(note) && !isExpanded ==>
      var shown := ShownNotes(note, isExpanded);
      shown[..NotesPreviewLength] == note.notesArea[..NotesPreviewLength]
      && NotesPreviewLength < |note.notesArea| && shown[NotesPreviewLength..] == "..."
  {
  }

  // ---------------------------------------------------------------- highlighted text

  /** A piece of `HighlightedText`: plain text or a marked match. */
  datatype Piece = Plain(text: string) | Marked(text: string)

  function PiecesText(pieces: seq<Piece>): string {
    if pieces == [] then [] else pieces[0].text + PiecesText(pieces[1..])
  }

  /** `HighlightedText`: the text split around the case-insensitive matches of
      the trimmed term, each part marked when it equals the term ignoring
      case. Without a usable term the text comes back as one plain piece. */
  function HighlightedText(text: string, highlight: Option<string>): (r: seq<Piece>)
    ensures highlight.None? || highlight.value == [] || text == [] || IsBlank(highlight.value) ==> r == [Plain(text)]
    ensures highlight.Some? && text != [] && !IsBlank(highlight.value) ==>
      var parts := SplitMatches(text, Trim(highlight.value));
      |r| == |parts| && forall i :: 0 <= i < |r| ==> r[i].text == parts[i]
  {
    if highlight.None? || highlight.value == [] || text == [] || IsBlank(highlight.value) then [Plain(text)]
    else
      var term := Trim(highlight.value);
      var parts := SplitMatches(text, term);
      seq(|parts|, i requires 0 <= i < |parts| =>
        if Lower(parts[i]) == Lower(term) then Marked(parts[i]) else Plain(parts[i]))
  }

  lemma {:induction false} PiecesTextOfParts(pieces: seq<Piece>, parts: seq<string>)
    requires |pieces| == |parts| && forall i :: 0 <= i < |pieces| ==> pieces[i].text == parts[i]
    ensures PiecesText(pieces) == Concat(parts)
  {
    if pieces != [] {
      PiecesTextOfParts(pieces[1..], parts[1..]);
    }
  }

  /** The pieces read back as the text, and the marked ones are exactly the
      matches: every other piece, starting with the second. */
  lemma HighlightedTextFacts(text: string, highlight: string)
    requires text != [] && !IsBlank(highlight)
    ensures var r := HighlightedText(text, Some(highlight));
      && PiecesText(r) == text
      && forall i :: 0 <= i < |r| ==> (r[i].Marked? <==> i % 2 == 1)
  {
    var term := Trim(highlight);
    var parts := SplitMatches(text, term);
    var r := HighlightedText(text, Some(highlight));
    PiecesTextOfParts(r, parts);
    SplitMatchesConcat(text, term);
    SplitMatchesMarked(text, term);
  }

  /** The card's markdown marks the same parts that `HighlightedText` marks. */
  lemma HighlightedTextAgreesWithMarkdown(text: string, highlight: string)
    requires text != [] && !IsBlank(highlight)
    ensures var parts := SplitMatches(text, Trim(highlight));
      var r := HighlightedText(text, Some(highlight));
      && HighlightTextInMarkdown(text, Some(highlight)) == WrapMatches(parts)
      && forall i :: 0 <= i < |r| ==> (r[i].Marked? <==> i % 2 == 1) && r[i].text == parts[i]
  {
    HighlightedTextFacts(text, highlight);
  }

  // ---------------------------------------------------------------- images

  const MaxThumbnails: nat := 6

  /** The images shown as thumbnails: the first six. */
  function ShownImages(images: seq<string>): (r: seq<string>)
    ensures |r| == if |images| < MaxThumbnails then |images| else MaxThumbnails
    ensures forall i :: 0 <= i < |r| ==> r[i] == images[i]
  {
    if |images| <= MaxThumbnails then images else images[..MaxThumbnails]
  }

  /** The "...and n more" count, present only when images are hidden. */
  function HiddenImages(images: seq<string>): (r: Option<nat>)
    ensures r.Some? <==> |images| > MaxThumbnails
  {
    if |images| > MaxThumbnails then Some(|images| - MaxThumbnails) else None
  }

  /** Thumbnails and the "more" count together account for every image. */
  lemma ImagesAccounted(images: seq<string>)
    ensures |ShownImages(images)| + HiddenImages(images).GetOr(0) == |images|
  {
  }

  /** A source the card and the editor will open in the preview: a data URL of
      an image or a web address. */
  predicate IsPreviewableSource(src: string) {
    StartsWith(src, "data:image") || StartsWith(src, "http")
  }

  /** `openImageInModal` (and `openImagePreviewModal` in the editor): the
      source opened in the preview, or nothing and an error toast. */
  function OpenImageInModal(src: string): (r: Option<string>)
    ensures r.Some? ==> r.value == src && |src| >= 4
    ensures r.None? <==> !IsPreviewableSource(src)
  {
    if IsPreviewableSource(src) then Some(src) else None
  }

  /** A thumbnail shows its image exactly when clicking it opens the preview. */
  lemma ThumbnailMatchesPreview(src: string)
    ensures IsPreviewableSource(src) <==> OpenImageInModal(src) == Some(src)
  {
  }
}
