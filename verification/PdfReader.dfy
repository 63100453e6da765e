/** An independent reader of such files (sections 7.3.4.2, 7.5.4 and 7.5.5 of ISO 32000-1), and what it finds in a report. */
module PdfReader {
  import opened Common
  import opened Text
  import opened PdfReport

  // ---------- the cross-reference table ----------

  /** Where the digits that end the text begin. */
  function TrailingDigits(t: Text): (k: nat)
    ensures k <= |t| && AllDigits(t[k..]) && (k > 0 ==> !IsDigit(t[k - 1]))
  {
    if t == [] || !IsDigit(t[|t| - 1]) then |t|
    else
      var k := TrailingDigits(t[..|t| - 1]);
      assert t[k..] == t[..|t| - 1][k..] + [t[|t| - 1]];
      k
  }

  function EndMark(): Text {
    Ascii("\n%%EOF\n")
  }

  /** The number on the last line before the end mark. */
  function StartXref(b: Text): Option<nat> {
    var n := |EndMark()|;
    if |b| < n || b[|b| - n..] != EndMark() then None
    else
      var t := b[..|b| - n];
      var k := TrailingDigits(t);
      if k == |t| then None else Some(DigitsValue(t[k..]))
  }

  /** The end of the count's line, and the entry of object 0, the head of the free list. */
  function FreeHead(): Text {
    Ascii("\n0000000000 65535 f \n")
  }

  /** The table's entry count and its entries, 20 bytes each. */
  function ReadTable(b: Text): Option<(nat, Text)> {
    match StartXref(b)
    case None => None
    case Some(at) =>
      if at > |b| then None
      else
        match Skip(b[at..], Ascii("xref\n0 "))
        case None => None
        case Some(t) =>
          match ReadNumber(t)
          case None => None
          case Some((count, rest)) => if Skip(rest, FreeHead()).None? then None else Some((count, rest[1..]))
  }

  function EntryEnd(): Text {
    Ascii(" 00000 n \n")
  }

  /** The ten digits at the front of the k-th entry, which must be one of an object in use. */
  function EntryOffset(entries: Text, k: nat): Option<nat> {
    if 20 * k + 20 > |entries| || !AllDigits(entries[20 * k..20 * k + 10]) || entries[20 * k + 10..20 * k + 20] != EntryEnd() then None
    else Some(DigitsValue(entries[20 * k..20 * k + 10]))
  }

  /** The root object named by the trailer after the table, whose size must be the table's. */
  function ReadRoot(b: Text): Option<nat> {
    match ReadTable(b)
    case None => None
    case Some((count, entries)) =>
      if 20 * count > |entries| then None
      else
        match Skip(entries[20 * count..], Ascii("trailer\n<< /Size "))
        case None => None
        case Some(t) =>
          match ReadNumber(t)
          case None => None
          case Some((size, after)) =>
            if size != count then None
            else
              match Skip(after, Ascii(" /Root "))
              case None => None
              case Some(r) =>
                match ReadNumber(r)
                case None => None
                case Some((root, rest)) => if Skip(rest, Ascii(" 0 R >>\nstartxref\n")).None? then None else Some(root)
  }

  /** What the file holds where the table says object `k` is, after `k 0 obj`. */
  function ReadObject(b: Text, k: nat): Option<Text> {
    match ReadTable(b)
    case None => None
    case Some((count, entries)) =>
      if k >= count then None
      else
        match EntryOffset(entries, k)
        case None => None
        case Some(at) =>
          if at > |b| then None
          else
            match ReadNumber(b[at..])
            case None => None
            case Some((number, rest)) => if number != k then None else Skip(rest, Ascii(" 0 obj\n"))
  }

  // ---------- finding the objects of a file ----------

  /** The file with everything but the objects abstracted: what the proofs below need of its shape. */
  lemma {:induction false} ObjectIsThere(bodies: seq<Text>, n: nat, k: nat) returns (tail: Text)
    requires 1 <= k <= n <= |bodies|
    ensures Objects(bodies, n) == Objects(bodies, k - 1) + ObjectText(k, bodies[k - 1]) + tail
    decreases n
  {
    hide ObjectText;
    if n == k {
      tail := [];
    } else {
      var before := ObjectIsThere(bodies, n - 1, k);
      tail := before + ObjectText(n, bodies[n - 1]);
    }
  }

  /** Entry lines are 20 bytes with their line break exactly while the offset has at most ten digits. */
  lemma EntryWidth(offset: nat)
    ensures |EntryLine(offset) + [LF]| == 20 <==> offset < Pow10(10)
  {
    DecimalLength(offset, 10);
  }

  lemma EntryReadsBack(offset: nat)
    requires offset < Pow10(10)
    ensures |EntryLine(offset)| == 19
    ensures AllDigits(EntryLine(offset)[..10]) && DigitsValue(EntryLine(offset)[..10]) == offset
  {
    DecimalLength(offset, 10);
    var d := Decimal(offset);
    DecimalReadsBack(offset);
    ZerosAddNothing(10 - |d|, d);
    assert Zeros(0) + d == d;
    assert EntryLine(offset)[..10] == PadStart(d, 10);
  }

  lemma EntryEndIs()
    ensures Ascii(" 00000 n ") + [LF] == EntryEnd()
  {
  }

  lemma EntryLineEnds(offset: nat)
    requires |EntryLine(offset)| == 19
    ensures EntryLine(offset)[10..] + [LF] == EntryEnd()
  {
    hide Ascii, Decimal, EntryEnd;
    EntryEndIs();
    assert |PadStart(Decimal(offset), 10)| == 10;
  }

  function EntryBytes(bodies: seq<Text>, n: nat): Text
    requires n <= |bodies|
  {
    Terminated(EntryLines(bodies, n), [LF])
  }

  lemma {:induction false} OffsetsGrow(bodies: seq<Text>, k: nat, n: nat)
    requires 1 <= k <= n <= |bodies| + 1
    ensures Offset(bodies, k) <= Offset(bodies, n)
    decreases n
  {
    hide ObjectText, Header;
    if k < n {
      OffsetsGrow(bodies, k, n - 1);
    }
  }

  lemma EntryBytesSnoc(bodies: seq<Text>, n: nat)
    requires 0 < n <= |bodies|
    ensures EntryBytes(bodies, n) == EntryBytes(bodies, n - 1) + (EntryLine(Offset(bodies, n)) + [LF])
  {
    hide EntryLine, Offset;
    TerminatedSnoc(EntryLines(bodies, n - 1), EntryLine(Offset(bodies, n)), [LF]);
    assert EntryLines(bodies, n - 1) + [EntryLine(Offset(bodies, n))] == EntryLines(bodies, n);
  }

  /** The k-th 20-byte slot holds object `k + 1`'s entry line. */
  lemma {:induction false} EntrySlot(bodies: seq<Text>, n: nat, k: nat)
    requires k < n <= |bodies| && Offset(bodies, n) < Pow10(10)
    ensures |EntryBytes(bodies, n)| == 20 * n
    ensures EntryBytes(bodies, n)[20 * k..20 * k + 20] == EntryLine(Offset(bodies, k + 1)) + [LF]
    decreases n
  {
    hide EntryLine, EntryBytes, Offset;
    OffsetsGrow(bodies, n, n);
    EntryBytesSnoc(bodies, n);
    EntryLineWidth(Offset(bodies, n));
    if n == 1 {
      NoEntries(bodies);
    } else {
      OffsetsGrow(bodies, n - 1, n);
      if k < n - 1 {
        EntrySlot(bodies, n - 1, k);
      } else {
        EntrySlot(bodies, n - 1, n - 2);
      }
    }
  }

  lemma EntryLineWidth(offset: nat)
    requires offset < Pow10(10)
    ensures |EntryLine(offset)| == 19
  {
    EntryReadsBack(offset);
  }

  lemma NoEntries(bodies: seq<Text>)
    ensures EntryBytes(bodies, 0) == []
  {
  }

  // ---------- following startxref ----------

  lemma {:induction false} TrailingDigitsAre(p: Text, d: Text)
    requires AllDigits(d) && p != [] && !IsDigit(p[|p| - 1])
    ensures TrailingDigits(p + d) == |p|
    decreases |d|
  {
    var t := p + d;
    if d == [] {
      assert t == p;
    } else {
      assert t[..|t| - 1] == p + d[..|d| - 1];
      TrailingDigitsAre(p, d[..|d| - 1]);
    }
  }

  /** Everything before the number on the last line. */
  function BeforeNumber(bodies: seq<Text>): Text {
    Header() + Objects(bodies, |bodies|) + Xref(bodies)
    + (Ascii("trailer") + [LF] + (Ascii("<< /Size ") + Decimal(|bodies| + 1) + Ascii(" /Root 1 0 R >>") + [LF] + (Ascii("startxref") + [LF])))
  }

  lemma EndMarkIs()
    ensures [LF] + (Ascii("%%EOF") + [LF]) == EndMark()
  {
  }

  lemma FiveLines(a: Text, b: Text, c: Text, d: Text, e: Text)
    ensures Terminated([a, b, c, d, e], [LF]) == (a + [LF] + (b + [LF] + (c + [LF]))) + d + ([LF] + (e + [LF]))
  {
    assert [a, b, c, d, e][1..] == [b, c, d, e] && [b, c, d, e][1..] == [c, d, e] && [c, d, e][1..] == [d, e] && [d, e][1..] == [e];
    assert Terminated([e], [LF]) == e + [LF] by {
      assert [e][1..] == [];
    }
    assert Terminated([d, e], [LF]) == d + [LF] + (e + [LF]);
    assert Terminated([c, d, e], [LF]) == c + [LF] + (d + [LF] + (e + [LF]));
    assert Terminated([b, c, d, e], [LF]) == b + [LF] + (c + [LF] + (d + [LF] + (e + [LF])));
  }

  lemma DocumentEnds(bodies: seq<Text>)
    ensures Document(bodies) == BeforeNumber(bodies) + Decimal(Offset(bodies, |bodies| + 1)) + EndMark()
    ensures BeforeNumber(bodies) != [] && !IsDigit(BeforeNumber(bodies)[|BeforeNumber(bodies)| - 1])
  {
    hide Header, Objects, Xref, Ascii, EndMark, Offset;
    var number := Decimal(Offset(bodies, |bodies| + 1));
    FiveLines(Ascii("trailer"), Ascii("<< /Size ") + Decimal(|bodies| + 1) + Ascii(" /Root 1 0 R >>"), Ascii("startxref"), number, Ascii("%%EOF"));
    EndMarkIs();
  }

  lemma StartXrefReads(bodies: seq<Text>)
    ensures StartXref(Document(bodies)) == Some(Offset(bodies, |bodies| + 1))
  {
    hide Document, BeforeNumber, Offset, EndMark;
    DocumentEnds(bodies);
    var b, p, d := Document(bodies), BeforeNumber(bodies), Decimal(Offset(bodies, |bodies| + 1));
    var n := |EndMark()|;
    assert b[|b| - n..] == EndMark() && b[..|b| - n] == p + d;
    TrailingDigitsAre(p, d);
    DecimalReadsBack(Offset(bodies, |bodies| + 1));
    assert (p + d)[|p|..] == d;
  }

  // ---------- the table ----------

  function FreeEntry(): Text {
    Ascii("0000000000 65535 f ") + [LF]
  }

  /** What follows the line with the entry count. */
  function Entries(bodies: seq<Text>): Text {
    FreeEntry() + EntryBytes(bodies, |bodies|) + Trailer(bodies)
  }

  lemma Regroup(a: Text, b: Text, c: Text, d: Text)
    ensures a + ((b + c) + d) == (a + b) + (c + d)
  {
  }

  lemma XrefIs(bodies: seq<Text>)
    ensures Xref(bodies) == Terminated([Ascii("xref"), Ascii("0 ") + Decimal(|bodies| + 1), Ascii("0000000000 65535 f ")]
                                       + EntryLines(bodies, |bodies|), [LF])
  {
  }

  lemma XrefStarts(bodies: seq<Text>)
    ensures Xref(bodies) == Ascii("xref\n0 ") + (Decimal(|bodies| + 1) + ([LF] + (FreeEntry() + EntryBytes(bodies, |bodies|))))
  {
    hide Ascii, EntryLines, EntryBytes, Terminated, Xref;
    var entries, count := EntryLines(bodies, |bodies|), Decimal(|bodies| + 1);
    XrefIs(bodies);
    ThreeThen(Ascii("xref"), Ascii("0 ") + count, Ascii("0000000000 65535 f "), entries);
    EntryBytesAre(bodies);
    Regroup(Ascii("xref") + [LF], Ascii("0 "), count, [LF] + (FreeEntry() + EntryBytes(bodies, |bodies|)));
    XrefLabel();
  }

  lemma EntryBytesAre(bodies: seq<Text>)
    ensures EntryBytes(bodies, |bodies|) == Terminated(EntryLines(bodies, |bodies|), [LF])
  {
  }

  lemma ThreeThen(a: Text, b: Text, c: Text, rest: seq<Text>)
    ensures Terminated([a, b, c] + rest, [LF]) == (a + [LF]) + (b + ([LF] + ((c + [LF]) + Terminated(rest, [LF]))))
  {
    var lines := [a, b, c] + rest;
    assert lines[1..] == [b, c] + rest && ([b, c] + rest)[1..] == [c] + rest && ([c] + rest)[1..] == rest;
    assert Terminated([c] + rest, [LF]) == c + [LF] + Terminated(rest, [LF]);
    assert Terminated([b, c] + rest, [LF]) == b + [LF] + Terminated([c] + rest, [LF]);
  }

  lemma XrefLabel()
    ensures Ascii("xref") + [LF] + Ascii("0 ") == Ascii("xref\n0 ")
  {
  }

  lemma FreeHeadIs()
    ensures [LF] + FreeEntry() == FreeHead()
  {
  }

  lemma FreeHeadReads(bodies: seq<Text>)
    ensures Skip([LF] + Entries(bodies), FreeHead()).Some?
  {
    hide FreeEntry, FreeHead, EntryBytes, Trailer;
    FreeHeadIs();
    var more := EntryBytes(bodies, |bodies|) + Trailer(bodies);
    assert [LF] + Entries(bodies) == ([LF] + FreeEntry()) + more;
    Skips(FreeHead(), more);
  }

  lemma TableReads(bodies: seq<Text>)
    ensures ReadTable(Document(bodies)) == Some((|bodies| + 1, Entries(bodies)))
  {
    hide Header, Objects, Xref, Trailer, Ascii, StartXref, FreeEntry, FreeHead, EntryBytes;
    StartXrefReads(bodies);
    XrefStarts(bodies);
    var b, at := Document(bodies), Offset(bodies, |bodies| + 1);
    assert b[at..] == Xref(bodies) + Trailer(bodies);
    var after := [LF] + Entries(bodies);
    assert [LF] + (FreeEntry() + EntryBytes(bodies, |bodies|)) + Trailer(bodies) == after;
    assert b[at..] == Ascii("xref\n0 ") + (Decimal(|bodies| + 1) + after);
    Skips(Ascii("xref\n0 "), Decimal(|bodies| + 1) + after);
    ReadsNumber(|bodies| + 1, after);
    assert after[1..] == Entries(bodies);
    FreeHeadReads(bodies);
  }

  lemma FreeEntryWidth()
    ensures |FreeEntry()| == 20
  {
  }

  lemma EntryTail(slot: Text, line: Text, k: nat)
    requires 1 <= k && 20 * k <= |slot| && |line| == 19 && slot[20 * (k - 1)..20 * (k - 1) + 20] == line + [LF]
    ensures slot[20 * (k - 1) + 10..20 * (k - 1) + 20] == line[10..] + [LF]
  {
    assert slot[20 * (k - 1) + 10..20 * (k - 1) + 20] == slot[20 * (k - 1)..20 * (k - 1) + 20][10..];
  }

  lemma EntryReads(bodies: seq<Text>, k: nat)
    requires 1 <= k <= |bodies| && Offset(bodies, |bodies|) < Pow10(10)
    ensures EntryOffset(Entries(bodies), k) == Some(Offset(bodies, k))
  {
    hide FreeEntry, EntryBytes, Trailer, EntryLine, Offset, EntryEnd;
    FreeEntryWidth();
    EntrySlot(bodies, |bodies|, k - 1);
    OffsetsGrow(bodies, k, |bodies|);
    EntryReadsBack(Offset(bodies, k));
    var slot, line := EntryBytes(bodies, |bodies|), EntryLine(Offset(bodies, k));
    assert slot[20 * (k - 1)..20 * (k - 1) + 20][..10] == line[..10];
    assert slot[20 * (k - 1)..20 * (k - 1) + 10] == slot[20 * (k - 1)..20 * (k - 1) + 20][..10];
    assert Entries(bodies)[20 * k..20 * k + 10] == slot[20 * (k - 1)..20 * (k - 1) + 10];
    EntryTail(slot, line, k);
    EntryLineEnds(Offset(bodies, k));
    assert Entries(bodies)[20 * k + 10..20 * k + 20] == slot[20 * (k - 1) + 10..20 * (k - 1) + 20];
  }

  /** The bytes at an object's offset, in a file with these objects. */
  lemma BytesAtOffset(bodies: seq<Text>, k: nat) returns (rest: Text)
    requires 1 <= k <= |bodies|
    ensures Offset(bodies, k) <= |Document(bodies)|
    ensures Document(bodies)[Offset(bodies, k)..] == ObjectText(k, bodies[k - 1]) + rest
  {
    hide Header, ObjectText, Xref, Trailer;
    var tail := ObjectIsThere(bodies, |bodies|, k);
    rest := tail + Xref(bodies) + Trailer(bodies);
    var start := Header() + Objects(bodies, k - 1);
    assert Document(bodies) == start + (ObjectText(k, bodies[k - 1]) + rest);
    assert |start| == Offset(bodies, k);
  }

  lemma ObjectTextSplits(k: nat, body: Text, rest: Text)
    ensures ObjectText(k, body) + rest == Decimal(k) + (Ascii(" 0 obj\n") + (body + (Ascii("\nendobj\n") + rest)))
    ensures Ascii(" 0 obj\n") != [] && !IsDigit(Ascii(" 0 obj\n")[0])
  {
  }

  lemma OffsetIsInside(bodies: seq<Text>)
    requires |bodies| > 0
    ensures Offset(bodies, |bodies|) < |Document(bodies)|
  {
  }

  /**
   * Following `startxref`, taking the k-th 20-byte entry and decoding its ten digits lands exactly on
   * `k 0 obj` and that object's body, for every object of every file under ten billion bytes.
   */
  lemma XrefLandsOnObject(bodies: seq<Text>, k: nat) returns (rest: Text)
    requires 1 <= k <= |bodies| && |Document(bodies)| <= Pow10(10)
    ensures ReadObject(Document(bodies), k) == Some(bodies[k - 1] + (Ascii("\nendobj\n") + rest))
  {
    hide Document, Entries, Ascii, ObjectText, Offset, ReadTable;
    TableReads(bodies);
    OffsetIsInside(bodies);
    EntryReads(bodies, k);
    rest := BytesAtOffset(bodies, k);
    ObjectTextSplits(k, bodies[k - 1], rest);
    var body := bodies[k - 1] + (Ascii("\nendobj\n") + rest);
    ReadsNumber(k, Ascii(" 0 obj\n") + body);
    Skips(Ascii(" 0 obj\n"), body);
  }

  // ---------- the trailer ----------

  lemma SizeLabel()
    ensures Ascii("trailer") + [LF] + Ascii("<< /Size ") == Ascii("trailer\n<< /Size ")
  {
  }

  lemma StartLabel()
    ensures Ascii(" 0 R >>") + ([LF] + (Ascii("startxref") + [LF])) == Ascii(" 0 R >>\nstartxref\n")
  {
  }

  lemma RootLabel()
    ensures Ascii(" /Root 1 0 R >>") == Ascii(" /Root ") + (Decimal(1) + Ascii(" 0 R >>"))
    ensures !IsDigit(Ascii(" /Root ")[0]) && !IsDigit(Ascii(" 0 R >>\nstartxref\n")[0])
  {
    assert Decimal(1) == [49];
  }

  lemma TrailerLabels()
    ensures Ascii("trailer") + [LF] + Ascii("<< /Size ") == Ascii("trailer\n<< /Size ")
    ensures Ascii(" /Root 1 0 R >>") + ([LF] + (Ascii("startxref") + [LF])) == Ascii(" /Root ") + (Decimal(1) + Ascii(" 0 R >>\nstartxref\n"))
    ensures !IsDigit(Ascii(" /Root ")[0]) && !IsDigit(Ascii(" 0 R >>\nstartxref\n")[0])
  {
    hide Ascii, Decimal;
    SizeLabel();
    StartLabel();
    RootLabel();
    var tail := [LF] + (Ascii("startxref") + [LF]);
    ConcatAssociative(Ascii(" /Root "), Decimal(1) + Ascii(" 0 R >>"), tail);
    ConcatAssociative(Decimal(1), Ascii(" 0 R >>"), tail);
  }

  lemma TrailerStarts(bodies: seq<Text>) returns (rest: Text)
    ensures Trailer(bodies) == Ascii("trailer\n<< /Size ") + (Decimal(|bodies| + 1) +
              (Ascii(" /Root ") + (Decimal(1) + (Ascii(" 0 R >>\nstartxref\n") + rest))))
  {
    hide Ascii, Decimal, Offset, Terminated;
    var number := Decimal(Offset(bodies, |bodies| + 1));
    rest := number + ([LF] + (Ascii("%%EOF") + [LF]));
    var size, last := Decimal(|bodies| + 1), Ascii(" /Root 1 0 R >>") + ([LF] + (Ascii("startxref") + [LF]));
    FiveLines(Ascii("trailer"), Ascii("<< /Size ") + size + Ascii(" /Root 1 0 R >>"), Ascii("startxref"), number, Ascii("%%EOF"));
    TrailerLabels();
    TrailerGroups(Ascii("trailer"), Ascii("<< /Size "), size, Ascii(" /Root 1 0 R >>"), Ascii("startxref"), rest);
    assert last + rest == Ascii(" /Root ") + (Decimal(1) + (Ascii(" 0 R >>\nstartxref\n") + rest)) by {
      ConcatAssociative(Ascii(" /Root "), Decimal(1) + Ascii(" 0 R >>\nstartxref\n"), rest);
      ConcatAssociative(Decimal(1), Ascii(" 0 R >>\nstartxref\n"), rest);
    }
  }

  lemma TrailerGroups(t: Text, head: Text, size: Text, root: Text, start: Text, rest: Text)
    ensures (t + [LF] + ((head + size + root) + [LF] + (start + [LF]))) + rest
         == (t + [LF] + head) + (size + ((root + ([LF] + (start + [LF]))) + rest))
  {
    var tail := root + ([LF] + (start + [LF]));
    assert (head + size + root) + [LF] + (start + [LF]) == head + (size + tail);
    ConcatAssociative(t + [LF], head + (size + tail), rest);
    ConcatAssociative(head, size + tail, rest);
    ConcatAssociative(size, tail, rest);
    ConcatAssociative(t + [LF], head, size + (tail + rest));
  }

  /** The trailer follows the entries, gives the table's size, and names object 1 as the root. */
  lemma RootReads(bodies: seq<Text>)
    requires |bodies| > 0 && Offset(bodies, |bodies|) < Pow10(10)
    ensures ReadRoot(Document(bodies)) == Some(1)
  {
    hide Document, ReadTable, FreeEntry, EntryBytes, Trailer, Ascii, Offset;
    TableReads(bodies);
    FreeEntryWidth();
    EntrySlot(bodies, |bodies|, |bodies| - 1);
    var size := |bodies| + 1;
    assert Entries(bodies)[20 * size..] == Trailer(bodies);
    var rest := TrailerStarts(bodies);
    TrailerLabels();
    var afterRoot := Ascii(" 0 R >>\nstartxref\n") + rest;
    var afterSize := Ascii(" /Root ") + (Decimal(1) + afterRoot);
    Skips(Ascii("trailer\n<< /Size "), Decimal(size) + afterSize);
    ReadsNumber(size, afterSize);
    Skips(Ascii(" /Root "), Decimal(1) + afterRoot);
    ReadsNumber(1, afterRoot);
    Skips(Ascii(" 0 R >>\nstartxref\n"), rest);
  }
}
