/** Reading a whole report back: from the file's bytes through its page tree to the lines of text. */
module PdfText {
  import opened Common
  import opened Text
  import opened PdfReport
  import opened PdfReader

  // ---------- literal strings (section 7.3.4.2 of ISO 32000-1) ----------

  predicate IsOctal(u: Unit) {
    48 <= u <= 55
  }

  function OctalRun(t: Text): (k: nat)
    ensures k <= |t| && k <= 3
  {
    if t == [] || !IsOctal(t[0]) then 0
    else if |t| == 1 || !IsOctal(t[1]) then 1
    else if |t| == 2 || !IsOctal(t[2]) then 2
    else 3
  }

  function OctalValue(t: Text): int {
    if t == [] then 0 else 8 * OctalValue(t[..|t| - 1]) + t[|t| - 1] - 48
  }

  /** What the units after a backslash stand for, and how many of them are used up. */
  function EscapeSequence(t: Text): (r: (Text, nat))
    ensures r.1 <= |t|
  {
    if t == [] then ([], 0)
    else if t[0] == 110 then ([LF], 1)
    else if t[0] == 114 then ([CR], 1)
    else if t[0] == 116 then ([9], 1)
    else if t[0] == 98 then ([8], 1)
    else if t[0] == 102 then ([12], 1)
    else if t[0] == LEFT_PAREN || t[0] == RIGHT_PAREN || t[0] == BACKSLASH then ([t[0]], 1)
    else if IsOctal(t[0]) then ([OctalValue(t[..OctalRun(t)]) % 256], OctalRun(t))
    else if t[0] == CR && |t| > 1 && t[1] == LF then ([], 2)
    else if t[0] == CR || t[0] == LF then ([], 1)
    else ([], 0)
  }

  function Prepend(front: Text, r: Option<(Text, Text)>): Option<(Text, Text)> {
    match r case None => None case Some((text, rest)) => Some((front + text, rest))
  }

  /** The text of a literal string whose opening parenthesis has been read, and what follows it. */
  function ReadLiteral(t: Text, depth: nat): Option<(Text, Text)>
    decreases |t|
  {
    if t == [] then None
    else if t[0] == RIGHT_PAREN then
      if depth == 0 then Some(([], t[1..])) else Prepend([t[0]], ReadLiteral(t[1..], depth - 1))
    else if t[0] == LEFT_PAREN then Prepend([t[0]], ReadLiteral(t[1..], depth + 1))
    else if t[0] == BACKSLASH then
      var r := EscapeSequence(t[1..]);
      Prepend(r.0, ReadLiteral(t[1 + r.1..], depth))
    else if t[0] == CR then
      Prepend([LF], ReadLiteral(if |t| > 1 && t[1] == LF then t[2..] else t[1..], depth))
    else Prepend([t[0]], ReadLiteral(t[1..], depth))
  }

  /** A reader takes any line break inside a string for a single LF. */
  function OneBreak(line: Text): Text {
    if line == [] then []
    else if line[0] == CR then [LF] + OneBreak(if |line| > 1 && line[1] == LF then line[2..] else line[1..])
    else [line[0]] + OneBreak(line[1..])
  }

  predicate IsSpecial(u: Unit) {
    u == BACKSLASH || u == LEFT_PAREN || u == RIGHT_PAREN
  }

  function EscapeOne(u: Unit): Text {
    if IsSpecial(u) then [BACKSLASH, u] else [u]
  }

  lemma {:induction false} EscapeUnitJoins(a: Text, b: Text, u: Unit)
    ensures EscapeUnit(a + b, u) == EscapeUnit(a, u) + EscapeUnit(b, u)
    decreases |a|
  {
    if a == [] {
      assert a + b == b;
    } else {
      assert (a + b)[1..] == a[1..] + b;
      EscapeUnitJoins(a[1..], b, u);
    }
  }

  lemma EscapeUnitOfOne(u: Unit, x: Unit)
    ensures EscapeUnit([x], u) == if x == u then [BACKSLASH, u] else [x]
    ensures x != u && BACKSLASH != u ==> EscapeUnit([BACKSLASH, x], u) == [BACKSLASH, x]
    ensures BACKSLASH != u ==> EscapeUnit([BACKSLASH, u], u) == [BACKSLASH, BACKSLASH, u]
  {
    assert [x][1..] == [] && [BACKSLASH, x][1..] == [x] && [BACKSLASH, u][1..] == [u] && [u][1..] == [];
    assert EscapeUnit([u], u) == [BACKSLASH, u];
  }

  /** The three passes together escape each special unit once. */
  lemma EscapeIsUnitwise(x: Unit, rest: Text)
    ensures EscapePdfText([]) == []
    ensures EscapePdfText([x] + rest) == EscapeOne(x) + EscapePdfText(rest)
  {
    var a, b := EscapeUnit([x], BACKSLASH), EscapeUnit(rest, BACKSLASH);
    EscapeUnitJoins([x], rest, BACKSLASH);
    EscapeUnitOfOne(BACKSLASH, x);
    var c, d := EscapeUnit(a, LEFT_PAREN), EscapeUnit(b, LEFT_PAREN);
    EscapeUnitJoins(a, b, LEFT_PAREN);
    EscapeUnitOfOne(LEFT_PAREN, x);
    EscapeUnitOfOne(LEFT_PAREN, BACKSLASH);
    EscapeUnitJoins(c, d, RIGHT_PAREN);
    EscapeUnitOfOne(RIGHT_PAREN, x);
    EscapeUnitOfOne(RIGHT_PAREN, BACKSLASH);
    EscapeUnitOfOne(RIGHT_PAREN, LEFT_PAREN);
    assert c == EscapeOne(x) || x == RIGHT_PAREN;
    assert EscapeUnit(c, RIGHT_PAREN) == EscapeOne(x);
  }

  /** Unescaping an escaped line gives the line back, line breaks read as one LF each. */
  lemma {:induction false} LiteralReadsBack(line: Text, rest: Text)
    ensures ReadLiteral(EscapePdfText(line) + ([RIGHT_PAREN] + rest), 0) == Some((OneBreak(line), rest))
    decreases |line|
  {
    hide EscapePdfText;
    var closing := [RIGHT_PAREN] + rest;
    if line == [] {
      EscapeIsUnitwise(LF, []);
      assert EscapePdfText([]) + closing == closing && closing[1..] == rest;
    } else {
      var x, more := line[0], line[1..];
      assert line == [x] + more;
      EscapeIsUnitwise(x, more);
      var t := EscapePdfText(line) + closing;
      var tail := EscapePdfText(more) + closing;
      assert t == EscapeOne(x) + tail;
      LiteralReadsBack(more, rest);
      if IsSpecial(x) {
        assert t[1..] == [x] + tail && t[2..] == tail;
        assert EscapeSequence(t[1..]) == ([x], 1);
      } else if x == CR && |line| > 1 && line[1] == LF {
        assert more == [LF] + line[2..];
        EscapeIsUnitwise(LF, line[2..]);
        assert tail == [LF] + (EscapePdfText(line[2..]) + closing);
        assert t[2..] == EscapePdfText(line[2..]) + closing;
        LiteralReadsBack(line[2..], rest);
      } else {
        assert t[1..] == tail;
        if x == CR {
          NoFalseBreak(more, closing);
        }
      }
    }
  }

  /** What follows a lone CR never starts with LF. */
  lemma NoFalseBreak(more: Text, closing: Text)
    requires (more == [] || more[0] != LF) && closing != [] && closing[0] != LF
    ensures EscapePdfText(more) + closing != [] && (EscapePdfText(more) + closing)[0] != LF
  {
  }

  predicate HasNoCR(line: Text) {
    forall i :: 0 <= i < |line| ==> line[i] != CR
  }

  lemma {:induction false} OneBreakExactly(line: Text)
    ensures HasNoCR(OneBreak(line)) && (OneBreak(line) == line <==> HasNoCR(line))
    decreases |line|
  {
    if line != [] {
      if line[0] == CR {
        OneBreakExactly(if |line| > 1 && line[1] == LF then line[2..] else line[1..]);
        assert OneBreak(line)[0] == LF;
      } else {
        OneBreakExactly(line[1..]);
        assert line == [line[0]] + line[1..];
        assert OneBreak(line)[1..] == OneBreak(line[1..]);
      }
    }
  }
}
