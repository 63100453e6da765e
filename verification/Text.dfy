/** Text as UTF-16 code units, and decimal numerals. */
module Text {
  import opened Common

  type Unit = u: int | 0 <= u < 0x1_0000
  type Text = seq<Unit>

  const LF: Unit := 10
  const CR: Unit := 13
  const SPACE: Unit := 32
  const QUOTE: Unit := 34
  const LEFT_PAREN: Unit := 40
  const RIGHT_PAREN: Unit := 41
  const COMMA: Unit := 44
  const POINT: Unit := 46
  const ZERO: Unit := 48
  const BACKSLASH: Unit := 92

  /** A literal written in this model; only ASCII characters occur in them. */
  function Ascii(s: string): (t: Text)
    ensures |t| == |s|
    ensures forall i :: 0 <= i < |t| ==> t[i] < 128
    ensures forall i :: 0 <= i < |s| && s[i] < 128 as char ==> t[i] == s[i] as int
  {
    seq(|s|, i requires 0 <= i < |s| => if s[i] < 128 as char then s[i] as int else 63)
  }

  // ---------- decimal numerals ----------

  predicate IsDigit(u: Unit) {
    48 <= u <= 57
  }

  predicate AllDigits(t: Text) {
    forall i :: 0 <= i < |t| ==> IsDigit(t[i])
  }

  function Decimal(n: nat): (t: Text)
    ensures |t| > 0 && AllDigits(t)
  {
    if n < 10 then [48 + n] else Decimal(n / 10) + [48 + n % 10]
  }

  /** The value of a run of digits, most significant first. */
  function DigitsValue(t: Text): nat
    requires AllDigits(t)
  {
    if t == [] then 0 else 10 * DigitsValue(t[..|t| - 1]) + (t[|t| - 1] - 48)
  }

  lemma {:induction false} DecimalReadsBack(n: nat)
    ensures DigitsValue(Decimal(n)) == n
  {
    if n >= 10 {
      DecimalReadsBack(n / 10);
      var t := Decimal(n);
      assert t[..|t| - 1] == Decimal(n / 10);
    } else {
      assert Decimal(n)[..0] == [];
    }
  }

  function Zeros(k: nat): (t: Text)
    ensures |t| == k && AllDigits(t)
  {
    seq(k, i => ZERO)
  }

  /** `padStart(width, "0")`. */
  function PadStart(t: Text, width: nat): Text {
    if |t| >= width then t else Zeros(width - |t|) + t
  }

  lemma {:induction false} ZerosAddNothing(k: nat, t: Text)
    requires AllDigits(t)
    ensures AllDigits(Zeros(k) + t) && DigitsValue(Zeros(k) + t) == DigitsValue(t)
    decreases |t|, k
  {
    var all := Zeros(k) + t;
    if t != [] {
      ZerosAddNothing(k, t[..|t| - 1]);
      assert all[..|all| - 1] == Zeros(k) + t[..|t| - 1];
    } else if k > 0 {
      ZerosAddNothing(k - 1, []);
      assert all[..|all| - 1] == Zeros(k - 1) + [];
    }
  }

  function Pow10(k: nat): nat {
    if k == 0 then 1 else 10 * Pow10(k - 1)
  }

  lemma {:induction false} DecimalLength(n: nat, k: nat)
    requires k > 0
    ensures |Decimal(n)| <= k <==> n < Pow10(k)
    decreases k
  {
    if k == 1 {
      assert Pow10(1) == 10 * Pow10(0);
    } else if n >= 10 {
      DecimalLength(n / 10, k - 1);
      assert n / 10 < Pow10(k - 1) <==> n < 10 * Pow10(k - 1);
    } else {
      TenAtLeast(k);
    }
  }

  lemma {:induction false} TenAtLeast(k: nat)
    requires k > 0
    ensures Pow10(k) >= 10
  {
    if k > 1 {
      TenAtLeast(k - 1);
    } else {
      assert Pow10(1) == 10 * Pow10(0);
    }
  }

  // ---------- reading ----------

  /** The longest run of digits at the front. */
  function DigitRun(t: Text): (k: nat)
    ensures k <= |t| && AllDigits(t[..k]) && (k < |t| ==> !IsDigit(t[k]))
  {
    if t == [] || !IsDigit(t[0]) then 0
    else
      var k := 1 + DigitRun(t[1..]);
      assert t[..k] == [t[0]] + t[1..][..k - 1];
      k
  }

  /** A numeral, and what follows it. */
  function ReadNumber(t: Text): Option<(nat, Text)> {
    var k := DigitRun(t);
    if k == 0 then None else Some((DigitsValue(t[..k]), t[k..]))
  }

  lemma {:induction false} DigitRunIs(d: Text, rest: Text)
    requires AllDigits(d) && (rest == [] || !IsDigit(rest[0]))
    ensures DigitRun(d + rest) == |d|
  {
    if d != [] {
      assert (d + rest)[1..] == d[1..] + rest;
      DigitRunIs(d[1..], rest);
    } else {
      assert d + rest == rest;
    }
  }

  lemma ReadsNumber(n: nat, rest: Text)
    requires rest == [] || !IsDigit(rest[0])
    ensures ReadNumber(Decimal(n) + rest) == Some((n, rest))
  {
    var d := Decimal(n);
    DigitRunIs(d, rest);
    DecimalReadsBack(n);
    assert (d + rest)[..|d|] == d && (d + rest)[|d|..] == rest;
  }

  /** What follows a fixed prefix. */
  function Skip(t: Text, prefix: Text): Option<Text> {
    if prefix <= t then Some(t[|prefix|..]) else None
  }

  lemma Skips(prefix: Text, rest: Text)
    ensures Skip(prefix + rest, prefix) == Some(rest)
  {
  }

  // ---------- lines ----------

  function Join(parts: seq<Text>, separator: Text): Text {
    if parts == [] then []
    else if |parts| == 1 then parts[0]
    else parts[0] + separator + Join(parts[1..], separator)
  }

  /** Every line followed by the terminator. */
  function Terminated(lines: seq<Text>, terminator: Text): Text {
    if lines == [] then [] else lines[0] + terminator + Terminated(lines[1..], terminator)
  }

  lemma {:induction false} JoinTerminates(lines: seq<Text>, separator: Text)
    requires lines != []
    ensures Join(lines, separator) + separator == Terminated(lines, separator)
  {
    if |lines| == 1 {
      assert Terminated(lines[1..], separator) == [];
    } else {
      JoinTerminates(lines[1..], separator);
    }
  }

  lemma {:induction false} TerminatedSnoc(lines: seq<Text>, last: Text, terminator: Text)
    ensures Terminated(lines + [last], terminator) == Terminated(lines, terminator) + last + terminator
  {
    if lines == [] {
      assert Terminated([last][1..], terminator) == [];
    } else {
      TerminatedSnoc(lines[1..], last, terminator);
      assert (lines + [last])[1..] == lines[1..] + [last];
    }
  }

  // ---------- bytes ----------

  /** Text whose every unit is a byte. */
  predicate IsLatin1(t: Text) {
    forall i :: 0 <= i < |t| ==> t[i] < 256
  }

  /** `Buffer.from(text, "latin1")`: each unit gives its low byte, so the byte length is the text length. */
  function Latin1(t: Text): (b: Text)
    ensures |b| == |t| && IsLatin1(b)
    ensures forall i :: 0 <= i < |t| ==> b[i] == t[i] % 256
  {
    seq(|t|, i requires 0 <= i < |t| => t[i] % 256)
  }

  lemma Latin1Joins(a: Text, b: Text)
    ensures Latin1(a + b) == Latin1(a) + Latin1(b)
  {
  }

  lemma Latin1Fixed(t: Text)
    requires IsLatin1(t)
    ensures Latin1(t) == t
  {
  }
}
