/** Which lines a report gives back: reading the whole file, from `startxref` to the last shown string. */
module PdfLines {
  import opened Common
  import opened Text
  import opened PdfReport
  import opened PdfReader
  import opened PdfText
  import opened PdfRoundTrip

  predicate AllLatin1(lines: seq<Text>) {
    forall i :: 0 <= i < |lines| ==> IsLatin1(lines[i])
  }

  /** Every line is made of bytes and has no carriage return. */
  predicate Printable(lines: seq<Text>) {
    forall i :: 0 <= i < |lines| ==> IsLatin1(lines[i]) && HasNoCR(lines[i])
  }

  // ---------- printing bytes gives bytes ----------

  lemma {:induction false} EscapedUnitIsLatin1(t: Text, u: Unit)
    requires IsLatin1(t) && u < 256
    ensures IsLatin1(EscapeUnit(t, u))
    decreases |t|
  {
    if t != [] {
      EscapedUnitIsLatin1(t[1..], u);
    }
  }

  lemma ShownIsLatin1(line: Text)
    requires IsLatin1(line)
    ensures IsLatin1(Shown(line))
  {
    hide EscapeUnit, Ascii;
    EscapedUnitIsLatin1(line, BACKSLASH);
    EscapedUnitIsLatin1(EscapeUnit(line, BACKSLASH), LEFT_PAREN);
    EscapedUnitIsLatin1(EscapeUnit(EscapeUnit(line, BACKSLASH), LEFT_PAREN), RIGHT_PAREN);
    AsciiIsLatin1(" Tj T*");
  }

  lemma {:induction false} JoinIsLatin1(parts: seq<Text>, separator: Text)
    requires AllLatin1(parts) && IsLatin1(separator)
    ensures IsLatin1(Join(parts, separator))
    decreases |parts|
  {
    if |parts| > 1 {
      JoinIsLatin1(parts[1..], separator);
    }
  }

  lemma ProloguesAreLatin1()
    ensures IsLatin1(Prologue()) && IsLatin1(PagePrefix())
  {
    hide Ascii, Decimal;
    AsciiIsLatin1("BT\n/F1 ");
    AsciiIsLatin1(" Tf\n");
    AsciiIsLatin1(" TL\n");
    AsciiIsLatin1(" Td\n");
    AsciiIsLatin1("<< /Type /Page /Parent 2 0 R /MediaBox [0 0 ");
    AsciiIsLatin1("] /Resources << /Font << /F1 3 0 R >> >> /Contents ");
  }

  lemma ContentIsLatin1(lines: seq<Text>)
    requires AllLatin1(lines)
    ensures IsLatin1(ContentStreamFor(lines))
  {
    hide Ascii, Shown, Join, Prologue;
    ProloguesAreLatin1();
    forall i | 0 <= i < |lines| ensures IsLatin1(ShownLines(lines)[i]) {
      ShownIsLatin1(lines[i]);
    }
    JoinIsLatin1(ShownLines(lines), [LF]);
    AsciiIsLatin1("\nET");
  }

  lemma PageBodyIsLatin1(n: nat)
    ensures IsLatin1(PageBody(n))
  {
    hide Ascii, PagePrefix, Decimal;
    ProloguesAreLatin1();
    AsciiIsLatin1(" 0 R >>");
  }

  lemma RootsAreLatin1(count: nat)
    ensures IsLatin1(CatalogBody()) && IsLatin1(PagesBody(count))
  {
    hide Ascii, Join, Decimal;
    AsciiIsLatin1("<< /Type /Catalog /Pages 2 0 R >>");
    AsciiIsLatin1("<< /Type /Pages /Kids [");
    AsciiIsLatin1("] /Count ");
    AsciiIsLatin1(" >>");
    AsciiIsLatin1(" 0 R");
    JoinIsLatin1(Refs(PageNumbers(count)), [SPACE]);
  }

  // ---------- the pages hold the lines in order ----------

  function Flat(pages: seq<seq<Text>>): seq<Text> {
    if pages == [] then [] else pages[0] + Flat(pages[1..])
  }

  lemma {:induction false} ChunksKeepTheLines(items: seq<Text>, size: nat)
    requires size > 0
    ensures Chunks(items, size) != [] && Flat(Chunks(items, size)) == items
    decreases |items|
  {
    var pages := Chunks(items, size);
    if |items| <= size {
      assert pages[1..] == [];
    } else {
      ChunksKeepTheLines(items[size..], size);
      assert pages[1..] == Chunks(items[size..], size);
      assert items[..size] + items[size..] == items;
    }
  }

  /** Every page but the last holds 48 lines, and the last no more. */
  lemma {:induction false} PagesAreFull(lines: seq<Text>, i: nat)
    requires i < |Chunks(lines, LINES_PER_PAGE)|
    ensures var pages := Chunks(lines, LINES_PER_PAGE);
      if i < |pages| - 1 then |pages[i]| == 48 else |pages[i]| <= 48
    decreases i
  {
    if |lines| > LINES_PER_PAGE && i > 0 {
      PagesAreFull(lines[LINES_PER_PAGE..], i - 1);
    }
  }

  lemma {:induction false} PagesOfLatin1(pages: seq<seq<Text>>, i: nat)
    requires i < |pages| && AllLatin1(Flat(pages))
    ensures AllLatin1(pages[i])
    decreases |pages|
  {
    var rest := Flat(pages[1..]);
    if i == 0 {
      forall j | 0 <= j < |pages[0]| ensures IsLatin1(pages[0][j]) {
        assert Flat(pages)[j] == pages[0][j];
      }
    } else {
      forall j | 0 <= j < |rest| ensures IsLatin1(rest[j]) {
        assert Flat(pages)[|pages[0]| + j] == rest[j];
      }
      PagesOfLatin1(pages[1..], i - 1);
    }
  }

  lemma OneBreaksJoin(a: seq<Text>, b: seq<Text>)
    ensures OneBreaks(a + b) == OneBreaks(a) + OneBreaks(b)
  {
  }

  // ---------- reading the file ----------

  /** Ten digits are enough for every offset of the file. */
  predicate Fits(lines: seq<Text>) {
    |ReportBytes(lines)| <= Pow10(10)
  }

  lemma RootIsOne(lines: seq<Text>)
    ensures Fits(lines) ==> ReadRoot(ReportBytes(lines)) == Some(1)
  {
    hide Document, Body, ReadRoot, Latin1;
    if Fits(lines) {
      var bodies := Bodies(Chunks(lines, LINES_PER_PAGE));
      Latin1Document(bodies);
      OffsetIsInside(Latins(bodies));
      RootReads(Latins(bodies));
    }
  }

  lemma TreeReadsBack(lines: seq<Text>)
    ensures Fits(lines) ==> ReadTree(ReportBytes(lines)) == Some(PageNumbers(|Chunks(lines, LINES_PER_PAGE)|))
  {
    hide ReportBytes, ReadRoot, ReadObject, CatalogBody, PagesBody, PageNumbers, ReadPagesRef, ReadKids, Latin1;
    if Fits(lines) {
      var pages := Chunks(lines, LINES_PER_PAGE);
      ChunksKeepTheLines(lines, LINES_PER_PAGE);
      RootIsOne(lines);
      RootsAreLatin1(|pages|);
      Latin1Fixed(CatalogBody());
      Latin1Fixed(PagesBody(|pages|));
      var afterCatalog := ReportObjects(lines, 1);
      CatalogReadsBack(afterCatalog);
      var afterPages := ReportObjects(lines, 2);
      KidsReadBack(|pages|, afterPages);
    }
  }

  lemma PageObjectReadsBack(lines: seq<Text>, i: nat)
    requires Fits(lines) && AllLatin1(lines)
    requires i < |Chunks(lines, LINES_PER_PAGE)|
    ensures ReadPageObject(ReportBytes(lines), 4 + 2 * i) == Some(OneBreaks(Chunks(lines, LINES_PER_PAGE)[i]))
  {
    hide ReportBytes, ReadObject, ReadContents, ReadStream, ReadPage, Body, PageBody, ContentStreamFor, OneBreaks, Latin1, Flat, Chunks, AllLatin1;
    var pages := Chunks(lines, LINES_PER_PAGE);
    ChunksKeepTheLines(lines, LINES_PER_PAGE);
    PagesOfLatin1(pages, i);
    var afterPage := ReportObjects(lines, 4 + 2 * i);
    EvenObject(pages, i);
    PageBodyIsLatin1(5 + 2 * i);
    Latin1Fixed(PageBody(5 + 2 * i));
    ContentsReadBack(5 + 2 * i, afterPage);
    var body := StreamObjects(lines, i);
    ContentIsLatin1(pages[i]);
    Latin1Fixed(ContentStreamFor(pages[i]));
    PageReadsBack(pages[i]);
  }

  lemma {:induction false} PagesReadBack(lines: seq<Text>, i: nat)
    requires Fits(lines) && AllLatin1(lines)
    requires i <= |Chunks(lines, LINES_PER_PAGE)|
    ensures var pages := Chunks(lines, LINES_PER_PAGE);
      ReadPages(ReportBytes(lines), PageNumbers(|pages|)[i..]) == Some(OneBreaks(Flat(pages[i..])))
    decreases |Chunks(lines, LINES_PER_PAGE)| - i
  {
    hide ReportBytes, ReadPageObject, Chunks, OneBreak, AllLatin1;
    var pages := Chunks(lines, LINES_PER_PAGE);
    var kids := PageNumbers(|pages|);
    if i == |pages| {
      assert kids[i..] == [] && pages[i..] == [] && OneBreaks([]) == [];
    } else {
      PageObjectReadsBack(lines, i);
      PagesReadBack(lines, i + 1);
      assert kids[i..][0] == 4 + 2 * i && kids[i..][1..] == kids[i + 1..];
      assert pages[i..][0] == pages[i] && pages[i..][1..] == pages[i + 1..];
      OneBreaksJoin(pages[i], Flat(pages[i + 1..]));
    }
  }

  /** Lines of bytes come back in order, each line break inside one read as LF. */
  lemma ReportReadsBack(lines: seq<Text>)
    ensures Fits(lines) && AllLatin1(lines) ==> ReadReport(ReportBytes(lines)) == Some(OneBreaks(lines))
  {
    hide Fits, ReportBytes, ReadTree, ReadPages, Chunks, OneBreaks, AllLatin1, PageNumbers, Flat;
    if Fits(lines) && AllLatin1(lines) {
      var pages := Chunks(lines, LINES_PER_PAGE);
      TreeReadsBack(lines);
      PagesReadBack(lines, 0);
      ChunksKeepTheLines(lines, LINES_PER_PAGE);
      assert pages[0..] == pages && PageNumbers(|pages|)[0..] == PageNumbers(|pages|);
    }
  }

  // ---------- a file of bytes yields only bytes ----------

  lemma {:induction false} LiteralsAreLatin1(t: Text, depth: nat)
    requires IsLatin1(t)
    ensures ReadLiteral(t, depth).Some? ==> IsLatin1(ReadLiteral(t, depth).value.0) && IsLatin1(ReadLiteral(t, depth).value.1)
    decreases |t|
  {
    if t == [] {
    } else if t[0] == RIGHT_PAREN {
      if depth > 0 {
        LiteralsAreLatin1(t[1..], depth - 1);
      }
    } else if t[0] == LEFT_PAREN {
      LiteralsAreLatin1(t[1..], depth + 1);
    } else if t[0] == BACKSLASH {
      EscapesAreLatin1(t[1..]);
      LiteralsAreLatin1(t[1 + EscapeSequence(t[1..]).1..], depth);
    } else if t[0] == CR {
      LiteralsAreLatin1(if |t| > 1 && t[1] == LF then t[2..] else t[1..], depth);
    } else {
      LiteralsAreLatin1(t[1..], depth);
    }
  }

  lemma EscapesAreLatin1(t: Text)
    requires IsLatin1(t)
    ensures IsLatin1(EscapeSequence(t).0)
  {
  }

  lemma {:induction false} ShowsAreLatin1(t: Text)
    requires IsLatin1(t) && ReadShows(t).Some?
    ensures AllLatin1(ReadShows(t).value)
    decreases |t|
  {
    hide ReadLiteral, EndText, Ascii;
    if t != EndText() {
      var inside := Skip(t, [LEFT_PAREN]).value;
      LiteralsAreLatin1(inside, 0);
      var after := ReadLiteral(inside, 0).value.1;
      var rest := Skip(after, Ascii(" Tj T*")).value;
      if rest != EndText() {
        ShowsAreLatin1(Skip(rest, [LF]).value);
      }
    }
  }

  lemma ObjectsAreLatin1(b: Text, k: nat)
    requires IsLatin1(b)
    ensures ReadObject(b, k).Some? ==> IsLatin1(ReadObject(b, k).value)
  {
    hide ReadTable, Ascii;
  }

  lemma PageObjectIsLatin1(b: Text, k: nat)
    requires IsLatin1(b)
    ensures ReadPageObject(b, k).Some? ==> AllLatin1(ReadPageObject(b, k).value)
  {
    hide ReadObject, ReadShows, Ascii, TextStart, PageStart;
    if ReadPageObject(b, k).Some? {
      var content := ReadContents(ReadObject(b, k).value).value;
      ObjectsAreLatin1(b, content);
      var stream := ReadStream(ReadObject(b, content).value).value;
      assert IsLatin1(stream);
      ShowsAreLatin1(Skip(stream, TextStart()).value);
    }
  }

  lemma {:induction false} PagesAreLatin1(b: Text, kids: seq<nat>)
    requires IsLatin1(b) && ReadPages(b, kids).Some?
    ensures AllLatin1(ReadPages(b, kids).value)
    decreases |kids|
  {
    hide ReadPageObject;
    if kids != [] {
      PageObjectIsLatin1(b, kids[0]);
      PagesAreLatin1(b, kids[1..]);
    }
  }

  /** A line with a unit above 255 is never read back, however short the file. */
  lemma WideUnitsAreLost(lines: seq<Text>)
    requires !AllLatin1(lines)
    ensures ReadReport(ReportBytes(lines)) != Some(lines)
  {
    hide Document, ReadTree, ReadPages, AllLatin1;
    var b := ReportBytes(lines);
    if ReadReport(b).Some? {
      PagesAreLatin1(b, ReadTree(b).value);
    }
  }

  lemma OneBreaksFix(lines: seq<Text>)
    ensures OneBreaks(lines) == lines <==> forall i :: 0 <= i < |lines| ==> HasNoCR(lines[i])
  {
    hide HasNoCR, OneBreak;
    forall i | 0 <= i < |lines| ensures OneBreak(lines[i]) == lines[i] <==> HasNoCR(lines[i]) {
      OneBreakExactly(lines[i]);
    }
    if OneBreaks(lines) == lines {
      forall i | 0 <= i < |lines| ensures HasNoCR(lines[i]) {
        assert OneBreaks(lines)[i] == OneBreak(lines[i]);
      }
    }
  }

  /**
   * A report under ten billion bytes is read back as the very lines it was built from exactly when every
   * line is made of Latin-1 units and has no carriage return.
   */
  lemma ReportReadsBackExactlyWhen(lines: seq<Text>)
    ensures Fits(lines) ==> (ReadReport(ReportBytes(lines)) == Some(lines) <==> Printable(lines))
  {
    hide Fits, ReportBytes, ReadReport, OneBreaks, IsLatin1, HasNoCR;
    if AllLatin1(lines) {
      ReportReadsBack(lines);
      OneBreaksFix(lines);
    } else {
      WideUnitsAreLost(lines);
    }
  }
}
