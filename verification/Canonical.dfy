// Canonical text: line endings, decimal numbers and digests (canonical.go).
module Canonical {
  import opened Utf8

  const CR: Byte := 0x0D
  const LF: Byte := 0x0A

  // SHA-256 of a byte string, as a symbolic digest.
  datatype Digest = Digest(bytes: seq<Byte>)

  // strings.ReplaceAll(value, "\r\n", "\n")
  function ReplaceCrLf(s: seq<Byte>): seq<Byte> {
    if s == [] then []
    else if |s| >= 2 && s[0] == CR && s[1] == LF then [LF] + ReplaceCrLf(s[2..])
    else [s[0]] + ReplaceCrLf(s[1..])
  }

  // strings.ReplaceAll(value, "\r", "\n")
  function ReplaceCr(s: seq<Byte>): seq<Byte> {
    if s == [] then [] else [if s[0] == CR then LF else s[0]] + ReplaceCr(s[1..])
  }

  function NormalizeLineEndings(s: seq<Byte>): seq<Byte> {
    ReplaceCr(ReplaceCrLf(s))
  }

  predicate NoCr(s: seq<Byte>) {
    CR !in s
  }

  lemma {:induction false} ReplaceCrRemoves(s: seq<Byte>)
    ensures NoCr(ReplaceCr(s)) && |ReplaceCr(s)| == |s|
  {
    if s != [] {
      ReplaceCrRemoves(s[1..]);
    }
  }

  lemma {:induction false} NoCrUnchanged(s: seq<Byte>)
    requires NoCr(s)
    ensures ReplaceCrLf(s) == s && ReplaceCr(s) == s
  {
    if s != [] {
      NoCrUnchanged(s[1..]);
      assert s == [s[0]] + s[1..];
    }
  }

  // Normal form: no carriage return is left, and normalising again changes
  // nothing, so offsets into the normal form survive a second normalisation.
  lemma NormalizeIsStable(s: seq<Byte>)
    ensures NoCr(NormalizeLineEndings(s))
    ensures NormalizeLineEndings(NormalizeLineEndings(s)) == NormalizeLineEndings(s)
    ensures NormalizeLineEndings(s) == [] <==> s == []
  {
    ReplaceCrRemoves(ReplaceCrLf(s));
    NoCrUnchanged(NormalizeLineEndings(s));
  }

  lemma {:induction false} ReplaceCrLfSkips(a: seq<Byte>, b: seq<Byte>)
    requires NoCr(a)
    ensures ReplaceCrLf(a + b) == a + ReplaceCrLf(b)
  {
    if a == [] {
      assert a + b == b;
    } else {
      ReplaceCrLfSkips(a[1..], b);
      assert (a + b)[1..] == a[1..] + b;
    }
  }

  lemma {:induction false} ReplaceCrSkips(a: seq<Byte>, b: seq<Byte>)
    requires NoCr(a)
    ensures ReplaceCr(a + b) == a + ReplaceCr(b)
  {
    if a == [] {
      assert a + b == b;
    } else {
      ReplaceCrSkips(a[1..], b);
      assert (a + b)[1..] == a[1..] + b;
    }
  }

  // What normalising does to each kind of line break: a carriage return with its
  // line feed, or alone, becomes one line feed, and nothing else changes.
  lemma NormalizeBreaks(a: seq<Byte>, b: seq<Byte>)
    requires NoCr(a)
    ensures NormalizeLineEndings(a) == a
    ensures NormalizeLineEndings(a + [CR, LF] + b) == a + [LF] + NormalizeLineEndings(b)
    ensures b == [] || b[0] != LF ==> NormalizeLineEndings(a + [CR] + b) == a + [LF] + NormalizeLineEndings(b)
  {
    hide ReplaceCr, ReplaceCrLf;
    NoCrUnchanged(a);
    HeadBreaks(b);
    assert a + [CR, LF] + b == a + ([CR, LF] + b) && a + [CR] + b == a + ([CR] + b);
    ReplaceCrLfSkips(a, [CR, LF] + b);
    ReplaceCrLfSkips(a, [CR] + b);
    ReplaceCrSkips(a, ReplaceCrLf([CR, LF] + b));
    ReplaceCrSkips(a, ReplaceCrLf([CR] + b));
    assert a + ([LF] + NormalizeLineEndings(b)) == a + [LF] + NormalizeLineEndings(b);
  }

  lemma HeadBreaks(b: seq<Byte>)
    ensures ReplaceCr(ReplaceCrLf([CR, LF] + b)) == [LF] + NormalizeLineEndings(b)
    ensures b == [] || b[0] != LF ==> ReplaceCr(ReplaceCrLf([CR] + b)) == [LF] + NormalizeLineEndings(b)
  {
    assert ([CR, LF] + b)[2..] == b && ([CR] + b)[1..] == b;
    var rest := ReplaceCrLf(b);
    assert ([LF] + rest)[1..] == rest && ([CR] + rest)[1..] == rest;
  }

  // A rune holds a carriage return only if it is one.
  lemma RuneWithoutCr(s: seq<Byte>)
    requires Valid(s) && s != [] && s[0] != CR
    ensures NoCr(s[..HeadSize(s)])
  {
    HeadShape(s);
  }

  lemma AsciiHead(s: seq<Byte>)
    requires s != [] && s[0] <= 0x7F
    ensures HeadSize(s) == 1 && (Valid(s) ==> Valid(s[1..]))
  {
  }

  lemma ConsAscii(b: Byte, rest: seq<Byte>)
    requires b <= 0x7F && Valid(rest)
    ensures Valid([b] + rest)
  {
    ConsValid([b], rest);
  }

  lemma {:induction false} ReplaceCrLfValid(s: seq<Byte>)
    requires Valid(s)
    ensures Valid(ReplaceCrLf(s))
    decreases |s|
  {
    hide Valid, HeadSize;
    if s == [] {
    } else if s[0] == CR {
      AsciiHead(s);
      if |s| >= 2 && s[1] == LF {
        AsciiHead(s[1..]);
        assert s[1..][1..] == s[2..];
        ReplaceCrLfValid(s[2..]);
        ConsAscii(LF, ReplaceCrLf(s[2..]));
      } else {
        ReplaceCrLfValid(s[1..]);
        ConsAscii(CR, ReplaceCrLf(s[1..]));
      }
    } else {
      UnconsValid(s);
      RuneWithoutCr(s);
      var k := HeadSize(s);
      Regroup(s, [], k);
      ReplaceCrLfSkips(s[..k], s[k..]);
      ReplaceCrLfValid(s[k..]);
      ConsValid(s[..k], ReplaceCrLf(s[k..]));
    }
  }

  lemma {:induction false} ReplaceCrValid(s: seq<Byte>)
    requires Valid(s)
    ensures Valid(ReplaceCr(s))
    decreases |s|
  {
    hide Valid, HeadSize;
    if s == [] {
    } else if s[0] == CR {
      AsciiHead(s);
      ReplaceCrValid(s[1..]);
      ConsAscii(LF, ReplaceCr(s[1..]));
    } else {
      UnconsValid(s);
      RuneWithoutCr(s);
      var k := HeadSize(s);
      Regroup(s, [], k);
      ReplaceCrSkips(s[..k], s[k..]);
      ReplaceCrValid(s[k..]);
      ConsValid(s[..k], ReplaceCr(s[k..]));
    }
  }

  // Normalising keeps text valid.
  lemma NormalizeKeepsValid(s: seq<Byte>)
    requires Valid(s)
    ensures Valid(NormalizeLineEndings(s))
  {
    ReplaceCrLfValid(s);
    ReplaceCrValid(ReplaceCrLf(s));
  }

  // ---- fmt.Sprintf("%d", id) -------------------------------------------------

  type Int64 = x: int | -0x8000_0000_0000_0000 <= x < 0x8000_0000_0000_0000

  function Digits(n: nat): seq<Byte> {
    if n < 10 then [0x30 + n] else Digits(n / 10) + [0x30 + n % 10]
  }

  function Decimal(n: int): seq<Byte> {
    if n < 0 then [0x2D] + Digits(-n) else Digits(n)
  }

  function Pow10(k: nat): nat {
    if k == 0 then 1 else 10 * Pow10(k - 1)
  }

  lemma {:induction false} DigitsShape(n: nat, k: nat)
    requires n < Pow10(k) && k > 0
    ensures |Digits(n)| <= k
    ensures forall i | 0 <= i < |Digits(n)| :: 0x30 <= Digits(n)[i] <= 0x39
    decreases n
  {
    if n >= 10 {
      assert n / 10 < Pow10(k - 1);
      DigitsShape(n / 10, k - 1);
    }
  }

  // A 64-bit number prints as at most twenty ASCII bytes.
  lemma DecimalShape(n: Int64)
    ensures |Decimal(n)| <= 20
    ensures forall i | 0 <= i < |Decimal(n)| :: 0x2D <= Decimal(n)[i] <= 0x39
  {
    var v: int := n;
    var m: nat := if v < 0 then -v else v;
    assert Pow10(5) == 100000;
    assert Pow10(10) == 10000000000;
    assert Pow10(15) == 1000000000000000;
    assert Pow10(19) == 10000000000000000000;
    DigitsShape(m, 19);
  }

  // The number a decimal text stands for.
  function ReadDigits(s: seq<Byte>): int {
    if s == [] then 0 else 10 * ReadDigits(s[..|s| - 1]) + s[|s| - 1] - 0x30
  }

  function ReadDecimal(s: seq<Byte>): int {
    if s != [] && s[0] == 0x2D then -ReadDigits(s[1..]) else ReadDigits(s)
  }

  lemma {:induction false} DigitsReadBack(n: nat)
    ensures Digits(n) != [] && ReadDigits(Digits(n)) == n
    ensures forall i | 0 <= i < |Digits(n)| :: 0x30 <= Digits(n)[i] <= 0x39
    ensures n > 0 ==> Digits(n)[0] != 0x30
    ensures n == 0 ==> Digits(n) == [0x30]
  {
    if n >= 10 {
      DigitsReadBack(n / 10);
      var front := Digits(n / 10);
      assert Digits(n)[..|front|] == front;
    } else {
      assert ReadDigits([]) == 0 && [0x30 + n][..0] == [];
    }
  }

  // A printed number reads back: digits without leading zeros, after a minus
  // sign for a negative one.
  lemma DecimalReadsBack(n: int)
    ensures ReadDecimal(Decimal(n)) == n
    ensures n < 0 <==> Decimal(n)[0] == 0x2D
    ensures var digits := if n < 0 then Decimal(n)[1..] else Decimal(n);
            && digits != [] && (forall i | 0 <= i < |digits| :: 0x30 <= digits[i] <= 0x39)
            && (n != 0 ==> digits[0] != 0x30) && (n == 0 ==> digits == [0x30])
  {
    if n < 0 {
      DigitsReadBack(-n);
      assert Decimal(n)[1..] == Digits(-n);
    } else {
      DigitsReadBack(n);
    }
  }

  // ASCII text as bytes.
  function Ascii(s: string): seq<Byte> {
    seq(|s|, k requires 0 <= k < |s| => if s[k] as int < 128 then s[k] as int else 0x3F)
  }
}
