/** From the bytes of a report back to its lines. */
module PdfRoundTrip {
  import opened Common
  import opened Text
  import opened PdfReport
  import opened PdfReader
  import opened PdfText

  // ---------- reading the objects' contents ----------

  /** A stream object: exactly `/Length` bytes, then `endstream`. */
  function ReadStream(body: Text): Option<Text> {
    match Skip(body, Ascii("<< /Length "))
    case None => None
    case Some(t) =>
      match ReadNumber(t)
      case None => None
      case Some((n, after)) =>
        match Skip(after, Ascii(" >>\nstream\n"))
        case None => None
        case Some(bytes) =>
          if n > |bytes| || Skip(bytes[n..], Ascii("\nendstream")).None? then None else Some(bytes[..n])
  }

  function EndText(): Text {
    Ascii("\nET")
  }

  /** Shown strings up to the end of the text object. */
  function ReadShows(t: Text): Option<seq<Text>>
    decreases |t|
  {
    if t == EndText() then Some([])
    else
      match Skip(t, [LEFT_PAREN])
      case None => None
      case Some(inside) =>
        match ReadLiteral(inside, 0)
        case None => None
        case Some((line, after)) =>
          match Skip(after, Ascii(" Tj T*"))
          case None => None
          case Some(rest) =>
            if rest == EndText() then Some([line])
            else
              match Skip(rest, [LF])
              case None => None
              case Some(next) =>
                if |next| >= |t| then None
                else
                  match ReadShows(next)
                  case None => None
                  case Some(lines) => Some([line] + lines)
  }

  /** Ten-point type on fourteen-point lines, starting 54 points from the left and 738 from the bottom of the page. */
  function TextStart(): Text {
    Ascii("BT\n/F1 10 Tf\n14 TL\n54 738 Td\n")
  }

  function ReadPage(stream: Text): Option<seq<Text>> {
    match Skip(stream, TextStart())
    case None => None
    case Some(t) => ReadShows(t)
  }

  /** References up to the closing bracket. */
  function ReadRefs(t: Text): Option<(seq<nat>, Text)>
    decreases |t|
  {
    match ReadNumber(t)
    case None => None
    case Some((n, after)) =>
      match Skip(after, Ascii(" 0 R"))
      case None => None
      case Some(rest) =>
        if rest == [] then None
        else if rest[0] != SPACE then Some(([n], rest))
        else if |rest| > |t| then None
        else
          match ReadRefs(rest[1..])
          case None => None
          case Some((more, end)) => Some(([n] + more, end))
  }

  function ReadKids(body: Text): Option<seq<nat>> {
    match Skip(body, Ascii("<< /Type /Pages /Kids ["))
    case None => None
    case Some(t) =>
      match ReadRefs(t)
      case None => None
      case Some((kids, after)) =>
        match Skip(after, Ascii("] /Count "))
        case None => None
        case Some(c) =>
          match ReadNumber(c)
          case None => None
          case Some((count, rest)) => if count != |kids| || Skip(rest, Ascii(" >>")).None? then None else Some(kids)
  }

  /** A letter-sized page of the one page tree, with the font of object 3. */
  function PageStart(): Text {
    Ascii("<< /Type /Page /Parent 2 0 R /MediaBox [0 0 612 792") + Ascii("] /Resources << /Font << /F1 3 0 R >> >> /Contents ")
  }

  function ReadContents(body: Text): Option<nat> {
    match Skip(body, PageStart())
    case None => None
    case Some(t) => match ReadNumber(t) case None => None case Some((n, _)) => Some(n)
  }

  function ReadPagesRef(body: Text): Option<nat> {
    match Skip(body, Ascii("<< /Type /Catalog /Pages "))
    case None => None
    case Some(t) => match ReadNumber(t) case None => None case Some((n, _)) => Some(n)
  }

  /** The lines of one page, found through its page object and that page's content stream. */
  function ReadPageObject(b: Text, k: nat): Option<seq<Text>> {
    match ReadObject(b, k)
    case None => None
    case Some(page) =>
      match ReadContents(page)
      case None => None
      case Some(content) =>
        match ReadObject(b, content)
        case None => None
        case Some(body) => match ReadStream(body) case None => None case Some(stream) => ReadPage(stream)
  }

  function ReadPages(b: Text, kids: seq<nat>): Option<seq<Text>> {
    if kids == [] then Some([])
    else
      match ReadPageObject(b, kids[0])
      case None => None
      case Some(lines) => match ReadPages(b, kids[1..]) case None => None case Some(more) => Some(lines + more)
  }

  /** The root of the page tree. */
  function ReadTree(b: Text): Option<seq<nat>> {
    match ReadRoot(b)
    case None => None
    case Some(root) =>
      match ReadObject(b, root)
      case None => None
      case Some(catalog) =>
        match ReadPagesRef(catalog)
        case None => None
        case Some(tree) => match ReadObject(b, tree) case None => None case Some(body) => ReadKids(body)
  }

  function ReadReport(b: Text): Option<seq<Text>> {
    match ReadTree(b) case None => None case Some(kids) => ReadPages(b, kids)
  }

  // ---------- each reader undoes its printer ----------

  lemma FiveParts(a: Text, b: Text, c: Text, d: Text, e: Text, rest: Text)
    ensures a + b + c + d + e + rest == a + (b + (c + (d + (e + rest))))
  {
  }

  lemma StreamShape(stream: Text, rest: Text)
    ensures StreamBody(stream) + rest
         == Ascii("<< /Length ") + (Decimal(|stream|) + (Ascii(" >>\nstream\n") + (stream + (Ascii("\nendstream") + rest))))
  {
    hide Ascii, Decimal;
    FiveParts(Ascii("<< /Length "), Decimal(|stream|), Ascii(" >>\nstream\n"), stream, Ascii("\nendstream"), rest);
  }

  lemma StreamLabel()
    ensures Ascii(" >>\nstream\n") != [] && !IsDigit(Ascii(" >>\nstream\n")[0])
  {
  }

  /** `/Length` is the stream's byte count: the reader cuts out exactly the stream. */
  lemma StreamReadsBack(stream: Text, rest: Text)
    ensures ReadStream(StreamBody(stream) + rest) == Some(stream)
  {
    hide StreamBody, Ascii;
    StreamShape(stream, rest);
    StreamLabel();
    var tail := Ascii("\nendstream") + rest;
    var after := Ascii(" >>\nstream\n") + (stream + tail);
    Skips(Ascii("<< /Length "), Decimal(|stream|) + after);
    ReadsNumber(|stream|, after);
    Skips(Ascii(" >>\nstream\n"), stream + tail);
    assert (stream + tail)[|stream|..] == tail && (stream + tail)[..|stream|] == stream;
    Skips(Ascii("\nendstream"), rest);
  }

  function OneBreaks(lines: seq<Text>): seq<Text> {
    seq(|lines|, i requires 0 <= i < |lines| => OneBreak(lines[i]))
  }

  lemma ShownShape(line: Text, rest: Text)
    ensures Shown(line) + rest == [LEFT_PAREN] + (EscapePdfText(line) + ([RIGHT_PAREN] + (Ascii(" Tj T*") + rest)))
  {
  }

  lemma EndTextIs()
    ensures |EndText()| == 3 && EndText()[0] == LF && EndText()[1] != LEFT_PAREN
  {
  }

  lemma OneShowReads(line: Text, rest: Text)
    ensures Shown(line) + rest != EndText()
    ensures Skip(Shown(line) + rest, [LEFT_PAREN]).Some?
    ensures ReadLiteral(Skip(Shown(line) + rest, [LEFT_PAREN]).value, 0) == Some((OneBreak(line), Ascii(" Tj T*") + rest))
    ensures Skip(Ascii(" Tj T*") + rest, Ascii(" Tj T*")) == Some(rest)
  {
    hide EscapePdfText, Ascii, Shown, ReadLiteral, OneBreak, EndText;
    EndTextIs();
    ShownShape(line, rest);
    var inside := EscapePdfText(line) + ([RIGHT_PAREN] + (Ascii(" Tj T*") + rest));
    Skips([LEFT_PAREN], inside);
    LiteralReadsBack(line, Ascii(" Tj T*") + rest);
    Skips(Ascii(" Tj T*"), rest);
    assert (Shown(line) + rest)[0] == LEFT_PAREN;
  }

  lemma JoinCons(lines: seq<Text>)
    requires |lines| > 1
    ensures Join(ShownLines(lines), [LF]) == Shown(lines[0]) + [LF] + Join(ShownLines(lines[1..]), [LF])
  {
    hide Shown;
    assert ShownLines(lines)[1..] == ShownLines(lines[1..]);
  }

  lemma JoinOne(lines: seq<Text>)
    requires |lines| == 1
    ensures Join(ShownLines(lines), [LF]) == Shown(lines[0])
  {
  }

  lemma MoreIsNotTheEnd(lines: seq<Text>)
    requires lines != []
    ensures [LF] + (Join(ShownLines(lines), [LF]) + EndText()) != EndText()
  {
  }

  lemma {:induction false} ShowsReadBack(lines: seq<Text>)
    ensures ReadShows(Join(ShownLines(lines), [LF]) + EndText()) == Some(OneBreaks(lines))
    decreases |lines|
  {
    hide Shown, EndText, ReadLiteral, OneBreak, Ascii;
    var t := Join(ShownLines(lines), [LF]) + EndText();
    if lines == [] {
      assert t == EndText();
    } else if |lines| == 1 {
      JoinOne(lines);
      OneShowReads(lines[0], EndText());
      assert OneBreaks(lines) == [OneBreak(lines[0])];
    } else {
      JoinCons(lines);
      var next := Join(ShownLines(lines[1..]), [LF]) + EndText();
      var rest := [LF] + next;
      assert t == Shown(lines[0]) + rest;
      OneShowReads(lines[0], rest);
      MoreIsNotTheEnd(lines[1..]);
      Skips([LF], next);
      ShowsReadBack(lines[1..]);
      assert OneBreaks(lines) == [OneBreak(lines[0])] + OneBreaks(lines[1..]);
    }
  }

  lemma AsciiJoins(a: string, b: string, whole: string)
    requires a + b == whole
    ensures Ascii(a) + Ascii(b) == Ascii(whole)
  {
  }

  lemma SpaceIs()
    ensures Ascii(" ") == [SPACE]
  {
  }

  lemma TwoDigits()
    ensures Decimal(10) == Ascii("10") && Decimal(14) == Ascii("14") && Decimal(54) == Ascii("54")
  {
    assert Decimal(1) == [49] && Decimal(5) == [53];
  }

  lemma ThreeDigits()
    ensures Decimal(738) == Ascii("738") && Decimal(612) == Ascii("612") && Decimal(792) == Ascii("792")
  {
    assert Decimal(7) == [55] && Decimal(6) == [54];
    assert Decimal(73) == [55, 51] && Decimal(61) == [54, 49] && Decimal(79) == [55, 57];
  }

  lemma PrologueIs()
    ensures Prologue() == TextStart()
  {
    hide Ascii, Decimal;
    TwoDigits();
    ThreeDigits();
    SpaceIs();
    AsciiJoins("BT\n/F1 ", "10", "BT\n/F1 10");
    AsciiJoins("BT\n/F1 10", " Tf\n", "BT\n/F1 10 Tf\n");
    AsciiJoins("BT\n/F1 10 Tf\n", "14", "BT\n/F1 10 Tf\n14");
    AsciiJoins("BT\n/F1 10 Tf\n14", " TL\n", "BT\n/F1 10 Tf\n14 TL\n");
    AsciiJoins("BT\n/F1 10 Tf\n14 TL\n", "54", "BT\n/F1 10 Tf\n14 TL\n54");
    AsciiJoins("BT\n/F1 10 Tf\n14 TL\n54", " ", "BT\n/F1 10 Tf\n14 TL\n54 ");
    AsciiJoins("BT\n/F1 10 Tf\n14 TL\n54 ", "738", "BT\n/F1 10 Tf\n14 TL\n54 738");
    AsciiJoins("BT\n/F1 10 Tf\n14 TL\n54 738", " Td\n", "BT\n/F1 10 Tf\n14 TL\n54 738 Td\n");
  }

  lemma PageReadsBack(lines: seq<Text>)
    ensures ReadPage(ContentStreamFor(lines)) == Some(OneBreaks(lines))
  {
    hide Prologue, TextStart, ReadShows, Join, ShownLines, OneBreaks;
    ShowsReadBack(lines);
    PrologueIs();
    assert ContentStreamFor(lines) == TextStart() + (Join(ShownLines(lines), [LF]) + EndText());
    Skips(TextStart(), Join(ShownLines(lines), [LF]) + EndText());
  }

  lemma RefShape(n: nat, rest: Text)
    ensures Ref(n) + rest == Decimal(n) + (Ascii(" 0 R") + rest)
    ensures Ascii(" 0 R") != [] && !IsDigit(Ascii(" 0 R")[0])
  {
  }

  lemma {:induction false} RefsReadBack(numbers: seq<nat>, rest: Text)
    requires numbers != [] && rest != [] && rest[0] != SPACE
    ensures ReadRefs(Join(Refs(numbers), [SPACE]) + rest) == Some((numbers, rest))
    decreases |numbers|
  {
    hide Ref, Ascii, ReadNumber;
    var t := Join(Refs(numbers), [SPACE]) + rest;
    var n := numbers[0];
    if |numbers| == 1 {
      assert t == Ref(n) + rest by {
        assert Refs(numbers) == [Ref(n)];
      }
      RefShape(n, rest);
      ReadsNumber(n, Ascii(" 0 R") + rest);
      Skips(Ascii(" 0 R"), rest);
      assert numbers == [n];
    } else {
      assert Refs(numbers)[1..] == Refs(numbers[1..]);
      var tail := Join(Refs(numbers[1..]), [SPACE]) + rest;
      assert t == Ref(n) + ([SPACE] + tail);
      RefShape(n, [SPACE] + tail);
      ReadsNumber(n, Ascii(" 0 R") + ([SPACE] + tail));
      Skips(Ascii(" 0 R"), [SPACE] + tail);
      RefsReadBack(numbers[1..], rest);
      assert ([SPACE] + tail)[1..] == tail;
      assert [n] + numbers[1..] == numbers;
    }
  }

  lemma PagesShape(count: nat, rest: Text) returns (after: Text)
    ensures PagesBody(count) + rest == Ascii("<< /Type /Pages /Kids [") + (Join(Refs(PageNumbers(count)), [SPACE]) + after)
    ensures after == Ascii("] /Count ") + (Decimal(count) + (Ascii(" >>") + rest))
  {
    hide Join, Refs, PageNumbers, Ascii;
    after := Ascii("] /Count ") + (Decimal(count) + (Ascii(" >>") + rest));
    FiveParts(Ascii("<< /Type /Pages /Kids ["), Join(Refs(PageNumbers(count)), [SPACE]), Ascii("] /Count "), Decimal(count), Ascii(" >>"), rest);
  }

  lemma PagesLabels()
    ensures Ascii("] /Count ") != [] && Ascii("] /Count ")[0] != SPACE && Ascii(" >>") != [] && !IsDigit(Ascii(" >>")[0])
  {
  }

  lemma KidsReadBack(count: nat, rest: Text)
    requires count > 0
    ensures ReadKids(PagesBody(count) + rest) == Some(PageNumbers(count))
  {
    hide PagesBody, Join, Refs, ReadRefs, Ascii;
    var after := PagesShape(count, rest);
    PagesLabels();
    Skips(Ascii("] /Count "), Decimal(count) + (Ascii(" >>") + rest));
    ReadsNumber(count, Ascii(" >>") + rest);
    Skips(Ascii(" >>"), rest);
    Skips(Ascii("<< /Type /Pages /Kids ["), Join(Refs(PageNumbers(count)), [SPACE]) + after);
    RefsReadBack(PageNumbers(count), after);
  }

  lemma PagePrefixIs()
    ensures PagePrefix() == PageStart()
  {
    hide Ascii, Decimal;
    ThreeDigits();
    SpaceIs();
    AsciiJoins("<< /Type /Page /Parent 2 0 R /MediaBox [0 0 ", "612", "<< /Type /Page /Parent 2 0 R /MediaBox [0 0 612");
    AsciiJoins("<< /Type /Page /Parent 2 0 R /MediaBox [0 0 612", " ", "<< /Type /Page /Parent 2 0 R /MediaBox [0 0 612 ");
    AsciiJoins("<< /Type /Page /Parent 2 0 R /MediaBox [0 0 612 ", "792", "<< /Type /Page /Parent 2 0 R /MediaBox [0 0 612 792");
  }

  lemma PageShape(n: nat, rest: Text) returns (after: Text)
    ensures PageBody(n) + rest == PageStart() + (Decimal(n) + after)
    ensures after != [] && !IsDigit(after[0])
  {
    hide PagePrefix, PageStart;
    PagePrefixIs();
    after := Ascii(" 0 R >>") + rest;
    assert after[0] == Ascii(" 0 R >>")[0];
  }

  lemma ContentsReadBack(n: nat, rest: Text)
    ensures ReadContents(PageBody(n) + rest) == Some(n)
  {
    hide PageBody, PageStart;
    var after := PageShape(n, rest);
    Skips(PageStart(), Decimal(n) + after);
    ReadsNumber(n, after);
  }

  lemma CatalogShape(rest: Text) returns (after: Text)
    ensures CatalogBody() + rest == Ascii("<< /Type /Catalog /Pages ") + ([50] + after)
    ensures after != [] && !IsDigit(after[0])
  {
    after := Ascii(" 0 R >>") + rest;
    assert CatalogBody() == Ascii("<< /Type /Catalog /Pages ") + [50] + Ascii(" 0 R >>");
    assert after[0] == Ascii(" 0 R >>")[0];
  }

  lemma CatalogReadsBack(rest: Text)
    ensures ReadPagesRef(CatalogBody() + rest) == Some(2)
  {
    hide CatalogBody, Ascii;
    var after := CatalogShape(rest);
    assert Decimal(2) == [50];
    Skips(Ascii("<< /Type /Catalog /Pages "), [50] + after);
    ReadsNumber(2, after);
  }

  // ---------- the file is bytes ----------

  function Latins(bodies: seq<Text>): seq<Text> {
    seq(|bodies|, i requires 0 <= i < |bodies| => Latin1(bodies[i]))
  }

  lemma AsciiIsLatin1(s: string)
    ensures IsLatin1(Ascii(s))
  {
  }

  lemma Latin1Object(k: nat, body: Text)
    ensures Latin1(ObjectText(k, body)) == ObjectText(k, Latin1(body))
  {
    hide Ascii;
    AsciiIsLatin1(" 0 obj\n");
    AsciiIsLatin1("\nendobj\n");
    var front, back := Decimal(k) + Ascii(" 0 obj\n"), Ascii("\nendobj\n");
    Latin1Fixed(front);
    Latin1Fixed(back);
    Latin1Joins(front, body);
    Latin1Joins(front + body, back);
  }

  lemma {:induction false} Latin1Objects(bodies: seq<Text>, n: nat)
    requires n <= |bodies|
    ensures Latin1(Objects(bodies, n)) == Objects(Latins(bodies), n)
    decreases n
  {
    hide ObjectText;
    if n > 0 {
      Latin1Objects(bodies, n - 1);
      Latin1Object(n, bodies[n - 1]);
      Latin1Joins(Objects(bodies, n - 1), ObjectText(n, bodies[n - 1]));
    }
  }

  lemma {:induction false} TerminatedIsLatin1(lines: seq<Text>)
    requires forall i :: 0 <= i < |lines| ==> IsLatin1(lines[i])
    ensures IsLatin1(Terminated(lines, [LF]))
  {
    if lines != [] {
      TerminatedIsLatin1(lines[1..]);
    }
  }

  lemma SameOffsets(bodies: seq<Text>, k: nat)
    requires 1 <= k <= |bodies| + 1
    ensures Offset(Latins(bodies), k) == Offset(bodies, k)
  {
    hide Header, Objects, Latin1;
    Latin1Objects(bodies, k - 1);
    assert |Latin1(Objects(bodies, k - 1))| == |Objects(bodies, k - 1)|;
  }

  lemma EntryIsLatin1(offset: nat)
    ensures IsLatin1(EntryLine(offset))
  {
  }

  lemma Latin1Xref(bodies: seq<Text>)
    ensures IsLatin1(Xref(bodies)) && Xref(Latins(bodies)) == Xref(bodies)
  {
    hide Ascii, EntryLine, Offset, Terminated;
    var lines := XrefLines(|bodies|, EntryLines(bodies, |bodies|));
    forall i | 0 <= i < |bodies| ensures IsLatin1(EntryLines(bodies, |bodies|)[i]) {
      EntryIsLatin1(Offset(bodies, i + 1));
    }
    AsciiIsLatin1("xref");
    AsciiIsLatin1("0 ");
    AsciiIsLatin1("0000000000 65535 f ");
    TerminatedIsLatin1(lines);
    forall i | 0 <= i < |bodies| ensures EntryLines(Latins(bodies), |bodies|)[i] == EntryLines(bodies, |bodies|)[i] {
      SameOffsets(bodies, i + 1);
    }
    assert EntryLines(Latins(bodies), |bodies|) == EntryLines(bodies, |bodies|);
  }

  lemma Latin1Trailer(bodies: seq<Text>)
    ensures IsLatin1(Trailer(bodies)) && Trailer(Latins(bodies)) == Trailer(bodies)
  {
    hide Ascii, Offset, Terminated;
    AsciiIsLatin1("trailer");
    AsciiIsLatin1("<< /Size ");
    AsciiIsLatin1(" /Root 1 0 R >>");
    AsciiIsLatin1("startxref");
    AsciiIsLatin1("%%EOF");
    TerminatedIsLatin1(TrailerLines(|bodies|, Offset(bodies, |bodies| + 1)));
    SameOffsets(bodies, |bodies| + 1);
  }

  lemma HeaderIsLatin1()
    ensures IsLatin1(Header())
  {
  }

  /** Encoding the whole text is the same as encoding each object body: the layout does not move. */
  lemma Latin1Document(bodies: seq<Text>)
    ensures Latin1(Document(bodies)) == Document(Latins(bodies))
  {
    hide Header, Objects, Xref, Trailer, Latin1;
    HeaderIsLatin1();
    Latin1Xref(bodies);
    Latin1Trailer(bodies);
    Latin1Objects(bodies, |bodies|);
    Latin1Fixed(Header());
    Latin1Fixed(Xref(bodies));
    Latin1Fixed(Trailer(bodies));
    Latin1Joins(Header(), Objects(bodies, |bodies|));
    Latin1Joins(Header() + Objects(bodies, |bodies|), Xref(bodies));
    Latin1Joins(Header() + Objects(bodies, |bodies|) + Xref(bodies), Trailer(bodies));
  }

  lemma Latin1Stream(stream: Text)
    ensures Latin1(StreamBody(stream)) == StreamBody(Latin1(stream))
  {
    hide Ascii;
    AsciiIsLatin1("<< /Length ");
    AsciiIsLatin1(" >>\nstream\n");
    AsciiIsLatin1("\nendstream");
    var front, back := Ascii("<< /Length ") + Decimal(|stream|) + Ascii(" >>\nstream\n"), Ascii("\nendstream");
    Latin1Fixed(front);
    Latin1Fixed(back);
    Latin1Joins(front, stream);
    Latin1Joins(front + stream, back);
  }

  /** Objects of any report, whatever its lines: the table leads to each. */
  lemma ReportObjects(lines: seq<Text>, k: nat) returns (rest: Text)
    requires |ReportBytes(lines)| <= Pow10(10)
    requires 1 <= k <= ObjectCount(Chunks(lines, LINES_PER_PAGE))
    ensures ReadObject(ReportBytes(lines), k) == Some(Latin1(Body(Chunks(lines, LINES_PER_PAGE), k)) + rest)
  {
    hide Document, Body, ReadObject, Ascii, Latin1;
    var pages := Chunks(lines, LINES_PER_PAGE);
    var bodies := Bodies(pages);
    Latin1Document(bodies);
    var tail := XrefLandsOnObject(Latins(bodies), k);
    rest := Ascii("\nendobj\n") + tail;
    assert Latins(bodies)[k - 1] == Latin1(Body(pages, k));
  }

  lemma OddObject(pages: seq<seq<Text>>, i: nat)
    requires i < |pages|
    ensures Body(pages, 5 + 2 * i) == StreamBody(ContentStreamFor(pages[i]))
  {
    hide StreamBody, ContentStreamFor, CatalogBody, PagesBody, FontBody, PageBody;
    assert (5 + 2 * i) % 2 == 1 && (5 + 2 * i - 5) / 2 == i;
  }

  lemma EvenObject(pages: seq<seq<Text>>, i: nat)
    requires i < |pages|
    ensures Body(pages, 4 + 2 * i) == PageBody(5 + 2 * i)
  {
    hide StreamBody, ContentStreamFor, CatalogBody, PagesBody, FontBody, PageBody;
    assert (4 + 2 * i) % 2 == 0;
  }

  /** The stream object of page `i` holds exactly that page's content, as bytes. */
  lemma StreamObjects(lines: seq<Text>, i: nat) returns (body: Text)
    requires |ReportBytes(lines)| <= Pow10(10)
    requires i < |Chunks(lines, LINES_PER_PAGE)|
    ensures ReadObject(ReportBytes(lines), 5 + 2 * i) == Some(body)
    ensures ReadStream(body) == Some(Latin1(ContentStreamFor(Chunks(lines, LINES_PER_PAGE)[i])))
  {
    hide ReportBytes, Body, ReadObject, ReadStream, StreamBody, ContentStreamFor, Latin1;
    var pages := Chunks(lines, LINES_PER_PAGE);
    var rest := ReportObjects(lines, 5 + 2 * i);
    OddObject(pages, i);
    body := Latin1(StreamBody(ContentStreamFor(pages[i]))) + rest;
    Latin1Stream(ContentStreamFor(pages[i]));
    StreamReadsBack(Latin1(ContentStreamFor(pages[i])), rest);
  }
}
