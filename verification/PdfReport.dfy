/** The hand-written PDF file: pages of text lines, numbered objects, and a byte-exact cross-reference table. */
module PdfReport {
  import opened Common
  import opened Text

  const PAGE_WIDTH := 612
  const PAGE_HEIGHT := 792
  const MARGIN := 54
  const FONT_SIZE := 10
  const LINE_HEIGHT := 14
  const LINES_PER_PAGE := (PAGE_HEIGHT - 2 * MARGIN) / LINE_HEIGHT

  // ---------- text operands ----------

  /** `text.replace(/u/g, "\\u")` for one special unit. */
  function EscapeUnit(t: Text, u: Unit): Text {
    if t == [] then []
    else (if t[0] == u then [BACKSLASH, u] else [t[0]]) + EscapeUnit(t[1..], u)
  }

  /** The three passes in their order: backslashes first. */
  function EscapePdfText(t: Text): Text {
    EscapeUnit(EscapeUnit(EscapeUnit(t, BACKSLASH), LEFT_PAREN), RIGHT_PAREN)
  }

  // ---------- pages ----------

  function Chunks(items: seq<Text>, size: nat): seq<seq<Text>>
    requires size > 0
  {
    if |items| <= size then [items] else [items[..size]] + Chunks(items[size..], size)
  }

  function Shown(line: Text): Text {
    [LEFT_PAREN] + EscapePdfText(line) + [RIGHT_PAREN] + Ascii(" Tj T*")
  }

  function ShownLines(lines: seq<Text>): seq<Text> {
    seq(|lines|, i requires 0 <= i < |lines| => Shown(lines[i]))
  }

  function Prologue(): Text {
    Ascii("BT\n/F1 ") + Decimal(FONT_SIZE) + Ascii(" Tf\n") + Decimal(LINE_HEIGHT) + Ascii(" TL\n")
    + Decimal(MARGIN) + [SPACE] + Decimal(PAGE_HEIGHT - MARGIN) + Ascii(" Td\n")
  }

  function ContentStreamFor(lines: seq<Text>): Text {
    Prologue() + Join(ShownLines(lines), [LF]) + Ascii("\nET")
  }

  // ---------- objects ----------

  function Ref(n: nat): Text {
    Decimal(n) + Ascii(" 0 R")
  }

  function PageNumbers(count: nat): seq<nat> {
    seq(count, i => 4 + 2 * i)
  }

  function Refs(numbers: seq<nat>): seq<Text> {
    seq(|numbers|, i requires 0 <= i < |numbers| => Ref(numbers[i]))
  }

  function CatalogBody(): Text {
    Ascii("<< /Type /Catalog /Pages 2 0 R >>")
  }

  function PagesBody(count: nat): Text {
    Ascii("<< /Type /Pages /Kids [") + Join(Refs(PageNumbers(count)), [SPACE]) + Ascii("] /Count ") + Decimal(count) + Ascii(" >>")
  }

  function FontBody(): Text {
    Ascii("<< /Type /Font /Subtype /Type1 /BaseFont /Helvetica >>")
  }

  function PagePrefix(): Text {
    Ascii("<< /Type /Page /Parent 2 0 R /MediaBox [0 0 ") + Decimal(PAGE_WIDTH) + [SPACE] + Decimal(PAGE_HEIGHT)
    + Ascii("] /Resources << /Font << /F1 3 0 R >> >> /Contents ")
  }

  function PageBody(contentNumber: nat): Text {
    PagePrefix() + Decimal(contentNumber) + Ascii(" 0 R >>")
  }

  function StreamBody(stream: Text): Text {
    Ascii("<< /Length ") + Decimal(|stream|) + Ascii(" >>\nstream\n") + stream + Ascii("\nendstream")
  }

  function ObjectCount(pages: seq<seq<Text>>): nat {
    3 + |pages| * 2
  }

  /** The body of object `k`, whichever it is. */
  function Body(pages: seq<seq<Text>>, k: nat): Text
    requires 1 <= k <= ObjectCount(pages)
  {
    if k == 1 then CatalogBody()
    else if k == 2 then PagesBody(|pages|)
    else if k == 3 then FontBody()
    else if k % 2 == 0 then PageBody(k + 1)
    else StreamBody(ContentStreamFor(pages[(k - 5) / 2]))
  }

  function Bodies(pages: seq<seq<Text>>): seq<Text> {
    seq(ObjectCount(pages), i requires 0 <= i < ObjectCount(pages) => Body(pages, i + 1))
  }

  // ---------- the file ----------

  /** The version line and a comment of four bytes above 127. */
  function Header(): Text {
    Ascii("%PDF-1.4\n%") + [0xE2, 0xE3, 0xCF, 0xD3] + [LF]
  }

  function ObjectText(k: nat, body: Text): Text {
    Decimal(k) + Ascii(" 0 obj\n") + body + Ascii("\nendobj\n")
  }

  /** The first `n` objects. */
  function Objects(bodies: seq<Text>, n: nat): Text
    requires n <= |bodies|
  {
    if n == 0 then [] else Objects(bodies, n - 1) + ObjectText(n, bodies[n - 1])
  }

  /** Where object `k` starts. */
  function Offset(bodies: seq<Text>, k: nat): nat
    requires 1 <= k <= |bodies| + 1
  {
    |Header()| + |Objects(bodies, k - 1)|
  }

  function EntryLine(offset: nat): Text {
    PadStart(Decimal(offset), 10) + Ascii(" 00000 n ")
  }

  function EntryLines(bodies: seq<Text>, n: nat): seq<Text>
    requires n <= |bodies|
  {
    seq(n, i requires 0 <= i < n => EntryLine(Offset(bodies, i + 1)))
  }

  function XrefLines(count: nat, entries: seq<Text>): seq<Text> {
    [Ascii("xref"), Ascii("0 ") + Decimal(count + 1), Ascii("0000000000 65535 f ")] + entries
  }

  function TrailerLines(count: nat, xrefOffset: nat): seq<Text> {
    [Ascii("trailer"), Ascii("<< /Size ") + Decimal(count + 1) + Ascii(" /Root 1 0 R >>"),
     Ascii("startxref"), Decimal(xrefOffset), Ascii("%%EOF")]
  }

  function Xref(bodies: seq<Text>): Text {
    Terminated(XrefLines(|bodies|, EntryLines(bodies, |bodies|)), [LF])
  }

  function Trailer(bodies: seq<Text>): Text {
    Terminated(TrailerLines(|bodies|, Offset(bodies, |bodies| + 1)), [LF])
  }

  function Document(bodies: seq<Text>): Text {
    Header() + Objects(bodies, |bodies|) + Xref(bodies) + Trailer(bodies)
  }

  /** The bytes of the report over these lines. */
  function ReportBytes(lines: seq<Text>): Text {
    Latin1(Document(Bodies(Chunks(lines, LINES_PER_PAGE))))
  }

  // ---------- the loops that build it ----------

  method Chunk(items: seq<Text>, size: nat) returns (chunks: seq<seq<Text>>)
    requires size > 0
    ensures chunks == Chunks(items, size)
  {
    if |items| == 0 {
      return [[]];
    }
    chunks := [];
    var i := 0;
    while i < |items|
      invariant 0 <= i
      invariant i < |items| ==> chunks + Chunks(items[i..], size) == Chunks(items, size)
      invariant i >= |items| ==> chunks == Chunks(items, size)
    {
      var end := if i + size < |items| then i + size else |items|;
      var piece := items[i..end];
      if i + size < |items| {
        assert items[i..][..size] == piece && items[i..][size..] == items[i + size..];
        assert chunks + ([piece] + Chunks(items[i + size..], size)) == chunks + [piece] + Chunks(items[i + size..], size);
      } else {
        assert items[i..] == piece;
      }
      chunks := chunks + [piece];
      i := i + size;
    }
  }

  lemma FixedBodies(pages: seq<seq<Text>>)
    ensures |Bodies(pages)| == ObjectCount(pages)
    ensures Bodies(pages)[0] == CatalogBody() && Bodies(pages)[1] == PagesBody(|pages|) && Bodies(pages)[2] == FontBody()
  {
    hide CatalogBody, PagesBody, FontBody, PageBody, StreamBody, ContentStreamFor;
  }

  lemma BodiesOfPage(pages: seq<seq<Text>>, i: nat)
    requires i < |pages|
    ensures Bodies(pages)[3 + 2 * i] == PageBody(5 + 2 * i)
    ensures Bodies(pages)[4 + 2 * i] == StreamBody(ContentStreamFor(pages[i]))
  {
    hide CatalogBody, PagesBody, FontBody, PageBody, StreamBody, ContentStreamFor;
    assert (4 + 2 * i) % 2 == 0 && (5 + 2 * i) % 2 == 1 && (5 + 2 * i - 5) / 2 == i;
  }

  /** Fills the object table: fixed objects, then two per page. */
  method FillBodies(pages: seq<seq<Text>>) returns (bodies: seq<Text>)
    ensures bodies == Bodies(pages)
  {
    hide CatalogBody, PagesBody, FontBody, PageBody, StreamBody, ContentStreamFor;
    var slots := new Option<Text>[ObjectCount(pages)](_ => None);
    FixedBodies(pages);
    slots[0] := Some(CatalogBody());
    slots[1] := Some(PagesBody(|pages|));
    slots[2] := Some(FontBody());
    forall i | 0 <= i < |pages|
      ensures Bodies(pages)[3 + 2 * i] == PageBody(5 + 2 * i) && Bodies(pages)[4 + 2 * i] == StreamBody(ContentStreamFor(pages[i]))
    {
      BodiesOfPage(pages, i);
    }
    FillPages(pages, Bodies(pages), slots);
    bodies := seq(slots.Length, j requires 0 <= j < slots.Length && slots[j].Some? reads slots => slots[j].value);
  }

  /** Every slot is empty when it is written, and none is left empty. */
  method FillPages(pages: seq<seq<Text>>, ghost goal: seq<Text>, slots: array<Option<Text>>)
    requires |goal| == slots.Length == 3 + 2 * |pages|
    requires forall j :: 0 <= j < 3 ==> slots[j] == Some(goal[j])
    requires forall j :: 3 <= j < slots.Length ==> slots[j] == None
    requires forall i :: 0 <= i < |pages| ==> goal[3 + 2 * i] == PageBody(5 + 2 * i)
    requires forall i :: 0 <= i < |pages| ==> goal[4 + 2 * i] == StreamBody(ContentStreamFor(pages[i]))
    modifies slots
    ensures forall j :: 0 <= j < slots.Length ==> slots[j] == Some(goal[j])
  {
    hide PageBody, StreamBody, ContentStreamFor;
    for i := 0 to |pages|
      invariant forall j :: 0 <= j < 3 + 2 * i ==> slots[j] == Some(goal[j])
      invariant forall j :: 3 + 2 * i <= j < slots.Length ==> slots[j] == None
    {
      var pageNumber, contentNumber := 4 + 2 * i, 5 + 2 * i;
      assert slots[pageNumber - 1] == None && slots[contentNumber - 1] == None;
      slots[pageNumber - 1] := Some(PageBody(contentNumber));
      slots[contentNumber - 1] := Some(StreamBody(ContentStreamFor(pages[i])));
    }
  }

  method BuildTextReportPdf(lines: seq<Text>) returns (pdf: Text)
    ensures pdf == ReportBytes(lines)
  {
    var pages := Chunk(lines, LINES_PER_PAGE);
    var bodies := FillBodies(pages);
    var text := AssembleDocument(bodies);
    pdf := Latin1(text);
  }

  lemma LayoutNotEmpty(count: nat, entries: seq<Text>, xrefOffset: nat)
    ensures XrefLines(count, entries) != [] && TrailerLines(count, xrefOffset) != []
  {
  }

  method AssembleDocument(bodies: seq<Text>) returns (text: Text)
    ensures text == Document(bodies)
  {
    hide Header, EntryLine, ObjectText, XrefLines, TrailerLines;
    text := Header();
    var entries: seq<Text> := [];
    var cursor := |text|;
    for i := 0 to |bodies|
      invariant text == Header() + Objects(bodies, i)
      invariant cursor == |text|
      invariant entries == EntryLines(bodies, i)
    {
      entries := entries + [EntryLine(cursor)];
      var objText := ObjectText(i + 1, bodies[i]);
      assert Header() + Objects(bodies, i + 1) == text + objText;
      text := text + objText;
      cursor := cursor + |objText|;
    }
    var xrefLines := XrefLines(|bodies|, entries);
    var trailer := TrailerLines(|bodies|, cursor);
    assert xrefLines != [] && trailer != [] by {
      LayoutNotEmpty(|bodies|, entries, cursor);
    }
    JoinTerminates(xrefLines, [LF]);
    JoinTerminates(trailer, [LF]);
    text := text + (Join(xrefLines, [LF]) + [LF]) + (Join(trailer, [LF]) + [LF]);
  }
}
