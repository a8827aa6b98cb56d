/** How the chat client renders one message (src/components/ChatMessage.jsx):
    a user message as its raw text; a bot message as an inline document
    image if it holds an `![alt](image:id)` marker, otherwise as a document
    reference if it holds a `| name.docx | type |` table row, otherwise as
    plain markdown. Every bot view ends with the follow-up buttons. The
    markdown renderer itself is outside the model: a view records the
    strings handed to it. */
module ChatMessage {
  import opened JsText
  import opened JsValue
  import ImageMarker
  import DocxRow
  import Markdown

  datatype Metadata = Metadata(title: Option<string>)

  /** A retrieved source attached to a bot reply. */
  datatype Source = Source(id: Option<string>, title: Option<string>, metadata: Option<Metadata>)

  /** A chat message as the component receives it; every field but `from`
      may be missing. */
  datatype Message = Message(
    from: string,
    text: Option<string>,
    sources: Option<seq<Source>>,
    followUps: Option<seq<string>>)

  /** What the component shows. Optional strings are the markdown blocks
      that are only rendered when their text is non-empty. */
  datatype View =
    | UserBubble(raw: Option<string>)
    | ImageView(before: Option<string>, documentId: string, alt: string, after: Option<string>, followUps: seq<string>)
    | DocumentView(body: string, title: string, kind: string, documentId: string, followUps: seq<string>)
    | MarkdownView(body: string, followUps: seq<string>)

  /** The literal between `](` and the document id of an inline image. */
  const ImageTail: string := "image:"

  /** The full text of an inline-image marker. */
  function MarkerText(alt: string, id: string): string {
    "![" + alt + ImageMarker.Opener(ImageTail) + id + ")"
  }

  /** Some offset starts a match of `/!\[(.*?)\]\(image:(.*?)\)/`. */
  ghost predicate HasImageMarker(text: string) {
    exists p: nat :: !ImageMarker.NoMatchAt(text, p, ImageTail)
  }

  /** Some offset starts a match of the document table-row pattern. */
  ghost predicate HasDocRow(text: string) {
    exists i: nat :: !DocxRow.NoRowAt(text, i)
  }

  /** The message text, `""` when it is missing. */
  function TextOf(m: Message): string {
    OrElse(m.text, "")
  }

  /** The pieces of a text around its first inline-image marker. */
  datatype ImageSplit = ImageSplit(before: string, alt: string, documentId: string, after: string)

  /** The text has an image marker, and `s` holds its pieces: the alt text
      and document id of the leftmost, lazy match, the text before the first
      occurrence of the matched text, and the second piece of the split at it. */
  ghost predicate IsImageSplit(text: string, s: ImageSplit) {
    var w := MarkerText(s.alt, s.documentId);
    && ImageMarker.LazyMatch(text, |s.before|, ImageTail, |s.before| + 2 + |s.alt|, |s.before| + |w| - 1)
    && (forall p: nat :: p < |s.before| ==> ImageMarker.NoMatchAt(text, p, ImageTail))
    && IndexOf(text, w, 0) == |s.before| && s.before == text[..|s.before|]
    && |Split(text, w)| >= 2 && s.after == Split(text, w)[1]
    && NoLineTerminator(s.alt) && NoLineTerminator(s.documentId) && ImageMarker.NoCloseParen(s.documentId)
  }

  /** `text.match(imageRegex)` and `text.split(fullMatch)`: the alt text and
      document id of the leftmost match, the text before the first
      occurrence of the matched text, and the text from there to the next
      occurrence (or to the end). */
  function SplitAtImage(text: string): (r: Option<ImageSplit>)
    ensures r.None? <==> !HasImageMarker(text)
    ensures r.Some? ==> IsImageSplit(text, r.value)
  {
    match ImageMarker.Find(text, ImageTail, 0)
    case None =>
      assert !HasImageMarker(text);
      None
    case Some(mk) =>
      ImageMarker.ShapeRefutesNoMatch(text, mk.start, ImageTail, mk.altEnd, mk.close);
      Some(ImageSplitAt(text, mk))
  }

  /** The pieces of `text` around the leftmost match `mk`. */
  function ImageSplitAt(text: string, mk: ImageMarker.Marker): (s: ImageSplit)
    requires ImageMarker.LazyMatch(text, mk.start, ImageTail, mk.altEnd, mk.close)
    requires forall p: nat :: p < mk.start ==> ImageMarker.NoMatchAt(text, p, ImageTail)
    ensures IsImageSplit(text, s)
  {
    var alt := ImageMarker.AltText(text, ImageTail, mk);
    var id := ImageMarker.Target(text, ImageTail, mk);
    ImageSplitParts(text, mk);
    ImageSplit(text[..mk.start], alt, id, Split(text, MarkerText(alt, id))[1])
  }

  /** The matched text is the marker of its alt text and id; it first
      occurs where the match starts, so the split has a second piece. */
  lemma {:induction false} ImageSplitParts(text: string, mk: ImageMarker.Marker)
    requires ImageMarker.LazyMatch(text, mk.start, ImageTail, mk.altEnd, mk.close)
    requires forall p: nat :: p < mk.start ==> ImageMarker.NoMatchAt(text, p, ImageTail)
    ensures var alt, id := ImageMarker.AltText(text, ImageTail, mk), ImageMarker.Target(text, ImageTail, mk);
            var m := MarkerText(alt, id);
            && mk.start + 2 + |alt| == mk.altEnd && mk.start + |m| - 1 == mk.close
            && IndexOf(text, m, 0) == mk.start && |Split(text, m)| >= 2
            && NoLineTerminator(alt) && NoLineTerminator(id) && ImageMarker.NoCloseParen(id)
  {
    var m := MarkerText(ImageMarker.AltText(text, ImageTail, mk), ImageMarker.Target(text, ImageTail, mk));
    ImageMarker.MatchParts(text, ImageTail, mk);
    ImageMarker.FirstOccurrenceIsMatch(text, ImageTail, mk);
    assert ImageMarker.Matched(text, ImageTail, mk) == m;
    SecondPiece(text, m, mk.start);
  }

  /** When the marker occurs only once, the text is exactly what precedes
      it, the marker, and what follows it. */
  lemma {:induction false} ImageSplitReconstructs(text: string)
    requires SplitAtImage(text).Some?
    requires var s := SplitAtImage(text).value;
             IndexOf(text, MarkerText(s.alt, s.documentId), |s.before| + |MarkerText(s.alt, s.documentId)|) == -1
    ensures var s := SplitAtImage(text).value;
            s.before + MarkerText(s.alt, s.documentId) + s.after == text
  {
    var s := SplitAtImage(text).value;
    var w := MarkerText(s.alt, s.documentId);
    SplitOnce(text, w, |s.before|);
  }

  /** A source names the document when its title or its metadata title is
      the trimmed cell title. */
  predicate NamesDocument(src: Source, title: string) {
    src.title == Some(title) || (src.metadata.Some? && src.metadata.value.title == Some(title))
  }

  /** `sources.find(...)` from index `from`: the first source naming the document. */
  function FindSource(sources: seq<Source>, title: string, from: nat): (r: Option<nat>)
    requires from <= |sources|
    ensures r.Some? ==> from <= r.value < |sources| && NamesDocument(sources[r.value], title)
    ensures r.Some? ==> forall k :: from <= k < r.value ==> !NamesDocument(sources[k], title)
    ensures r.None? ==> forall k :: from <= k < |sources| ==> !NamesDocument(sources[k], title)
    decreases |sources| - from
  {
    if from == |sources| then None
    else if NamesDocument(sources[from], title) then Some(from)
    else FindSource(sources, title, from + 1)
  }

  /** `matchingSource?.id || cleanTitle`: the id of the first source naming
      the document when that id is truthy, the title itself otherwise. */
  function ResolveDocumentId(sources: Option<seq<Source>>, title: string): (id: string)
    ensures sources.Some? ==>
      forall k :: 0 <= k < |sources.value| && NamesDocument(sources.value[k], title)
                  && (forall j :: 0 <= j < k ==> !NamesDocument(sources.value[j], title))
                  ==> id == OrElse(sources.value[k].id, title)
    ensures (sources.None? || forall k :: 0 <= k < |sources.value| ==> !NamesDocument(sources.value[k], title))
            ==> id == title
  {
    if sources.None? then title
    else
      match FindSource(sources.value, title, 0)
      case Some(k) => OrElse(sources.value[k].id, title)
      case None => title
  }

  /** The follow-up buttons: the questions in list order, and none at all
      when the list is missing or empty. */
  function FollowUpButtons(followUps: Option<seq<string>>): (r: seq<string>)
    ensures |r| > 0 <==> followUps.Some? && |followUps.value| > 0
    ensures |r| > 0 ==> r == followUps.value
  {
    if followUps.Some? && |followUps.value| > 0 then followUps.value else []
  }

  /** Clicking button `idx` hands its question, unchanged, to the handler,
      if the parent supplied one. */
  function ClickFollowUp(buttons: seq<string>, idx: nat, hasHandler: bool): (r: Option<string>)
    requires idx < |buttons|
    ensures r.Some? <==> hasHandler
    ensures r.Some? ==> r.value == buttons[idx] && r.value in buttons
  {
    if hasHandler then Some(buttons[idx]) else None
  }

  /** The `img` override: a truthy `src` that starts with `image:` names a
      document image, whose id is `src` with that prefix removed once. */
  function ImageSourceId(src: Option<string>): (r: Option<string>)
    ensures r.Some? <==> TruthyString(src) && StartsWith(src.value, ImageTail)
    ensures r.Some? ==> ImageTail + r.value == src.value
  {
    if TruthyString(src) && StartsWith(src.value, ImageTail) then
      ReplacePrefixStrips(src.value, ImageTail);
      Some(ReplaceFirst(src.value, ImageTail, ""))
    else None
  }

  /** A markdown block that is only rendered when its text is non-empty. */
  function Block(s: string): (r: Option<string>)
    ensures r.Some? <==> s != ""
    ensures r.Some? ==> r.value == Markdown.Normalize(Some(s))
  {
    if s != "" then Some(Markdown.Normalize(Some(s))) else None
  }

  /** The component's render decision for one message. */
  function Render(m: Message): (v: View)
    ensures m.from == "user" <==> v.UserBubble?
    ensures v.UserBubble? ==> v.raw == m.text
    ensures v.MarkdownView? ==> v.body == Markdown.Normalize(m.text)
    ensures v.DocumentView? ==> v.body == Markdown.Normalize(Some(TextOf(m)))
    ensures !v.UserBubble? ==> v.followUps == FollowUpButtons(m.followUps)
    ensures v.ImageView? ==>
      && SplitAtImage(TextOf(m)).Some?
      && var s := SplitAtImage(TextOf(m)).value;
      && v.documentId == s.documentId && v.alt == s.alt
      && v.before == Block(s.before) && v.after == Block(s.after)
      && (v.before.Some? <==> s.before != "") && (v.after.Some? <==> s.after != "")
    ensures v.DocumentView? ==>
      && DocxRow.Find(TextOf(m), 0).Some?
      && var row := DocxRow.Find(TextOf(m), 0).value;
      && v.title == Trim(DocxRow.TitleCell(TextOf(m), row))
      && v.kind == Trim(DocxRow.TypeCell(TextOf(m), row))
    ensures v.DocumentView? ==> v.documentId == ResolveDocumentId(m.sources, v.title)
  {
    if m.from == "user" then UserBubble(m.text)
    else
      var text := TextOf(m);
      var buttons := FollowUpButtons(m.followUps);
      match SplitAtImage(text)
      case Some(s) => ImageView(Block(s.before), s.documentId, s.alt, Block(s.after), buttons)
      case None =>
        match DocxRow.Find(text, 0)
        case Some(row) =>
          var title := Trim(DocxRow.TitleCell(text, row));
          var kind := Trim(DocxRow.TypeCell(text, row));
          DocumentView(Markdown.Normalize(Some(text)), title, kind, ResolveDocumentId(m.sources, title), buttons)
        case None =>
          assert m.text.None? ==> Markdown.Normalize(m.text) == Markdown.Normalize(Some(text));
          MarkdownView(Markdown.Normalize(m.text), buttons)
  }

  /** Which view a bot message gets: the image marker is looked for first,
      the table row only when there is no image marker, and plain markdown
      when there is neither. */
  lemma {:induction false} RenderRoute(m: Message)
    requires m.from != "user"
    ensures Render(m).ImageView? <==> HasImageMarker(TextOf(m))
    ensures Render(m).DocumentView? <==> !HasImageMarker(TextOf(m)) && HasDocRow(TextOf(m))
    ensures Render(m).MarkdownView? <==> !HasImageMarker(TextOf(m)) && !HasDocRow(TextOf(m))
  {
    var text := TextOf(m);
    if SplitAtImage(text).None? {
      match DocxRow.Find(text, 0)
      case Some(row) =>
        assert !DocxRow.NoRowAt(text, row.start);
      case None =>
    }
  }

  /** The document reference carries the trimmed cells of the leftmost table
      row: a title ending in `.docx` in any letter case, and a type, neither
      holding a bar or a line feed, both already trimmed. */
  lemma {:induction false} DocumentViewCells(m: Message)
    ensures Render(m).DocumentView? ==> DocxRow.Find(TextOf(m), 0).Some?
    ensures var v := Render(m);
            v.DocumentView? ==>
            var row := DocxRow.Find(TextOf(m), 0).value;
            && v.title == Trim(DocxRow.TitleCell(TextOf(m), row))
            && v.kind == Trim(DocxRow.TypeCell(TextOf(m), row))
    ensures var v := Render(m);
            v.DocumentView? ==>
            && DocxRow.EndsWithDocx(v.title) && DocxRow.CellText(v.title) && DocxRow.CellText(v.kind)
            && Trim(v.title) == v.title && Trim(v.kind) == v.kind
            && v.documentId == ResolveDocumentId(m.sources, v.title)
  {
    if Render(m).DocumentView? {
      var text := TextOf(m);
      CardCells(text, DocxRow.Find(text, 0).value, Render(m));
    }
  }

  /** A card whose title and type are the trimmed cells of a table row. */
  lemma {:induction false} CardCells(text: string, row: DocxRow.Row, v: View)
    requires DocxRow.RowShape(text, row.start, row.mid, row.end)
    requires v.DocumentView?
    requires v.title == Trim(DocxRow.TitleCell(text, row)) && v.kind == Trim(DocxRow.TypeCell(text, row))
    ensures DocxRow.EndsWithDocx(v.title) && DocxRow.CellText(v.title) && DocxRow.CellText(v.kind)
    ensures Trim(v.title) == v.title && Trim(v.kind) == v.kind
  {
    DocxRow.CleanCells(text, row);
    DocxRow.TrimIdempotent(DocxRow.TitleCell(text, row));
    DocxRow.TrimIdempotent(DocxRow.TypeCell(text, row));
  }
}
