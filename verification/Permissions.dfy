/** Permissions.c: eight bytes of permission bits and their hexadecimal form. */
module Permissions {
  import opened Wrappers
  import opened Bytes

  type Bits = p: seq<byte> | |p| == 8 witness [0, 0, 0, 0, 0, 0, 0, 0]

  const NONE: Bits := [0, 0, 0, 0, 0, 0, 0, 0]
  const SUPERUSER: Bits := [255, 243, 207, 255, 255, 128, 0, 0]

  // hexbuf
  function Digit(n: nat): byte
    requires n < 16
  {
    if n < 10 then 48 + n else 55 + n
  }

  // A digit in either case, as strtol reads it.
  function Value(c: byte): Option<nat> {
    if 48 <= c <= 57 then Some(c - 48)
    else if 65 <= c <= 70 then Some(c - 55)
    else if 97 <= c <= 102 then Some(c - 87)
    else None
  }

  predicate Space(c: byte) {
    c == 32 || 9 <= c <= 13
  }

  // strtol on two characters in base 16: blanks and a sign may come first, anything after the
  // digits is ignored ("0x" is the digit 0 and an ignored x), and no digit is 0. The result is
  // cut to a byte.
  function Pair(a: byte, b: byte): byte {
    match (Value(a), Value(b))
    case (Some(x), Some(y)) => 16 * x + y
    case (Some(x), None) => x
    case (None, Some(y)) => if a == 45 then (256 - y) % 256 else if a == 43 || Space(a) then y else 0
    case (None, None) => 0
  }

  // permissions_to_ascii
  function ToAscii(p: seq<byte>): (s: seq<byte>)
    ensures |s| == 2 * |p|
  {
    if p == [] then [] else [Digit(p[0] / 16), Digit(p[0] % 16)] + ToAscii(p[1..])
  }

  function Pairs(s: seq<byte>): (p: seq<byte>)
    requires |s| % 2 == 0
    ensures |p| == |s| / 2
  {
    if s == [] then [] else [Pair(s[0], s[1])] + Pairs(s[2..])
  }

  // permissions_create_from_ascii: text of any other length gives no permissions.
  function FromAscii(s: seq<byte>): Bits {
    if |s| == 16 then Pairs(s) else NONE
  }

  lemma {:induction false} PairsToAscii(p: seq<byte>)
    ensures Pairs(ToAscii(p)) == p
  {
    if p != [] {
      assert ToAscii(p)[2..] == ToAscii(p[1..]);
      PairsToAscii(p[1..]);
    }
  }

  // Printing and reading gives every set of permissions back.
  lemma HexRoundTrip(p: Bits)
    ensures FromAscii(ToAscii(p)) == p
  {
    PairsToAscii(p);
  }

  // The digits are those of hexbuf, in their order, and no other character is one; reading also takes
  // the lower-case letters.
  lemma HexDigits(n: nat)
    requires n < 16
    ensures Digit(n) == "0123456789ABCDEF"[n] as int
    ensures Value("0123456789ABCDEF"[n] as int) == Value("0123456789abcdef"[n] as int) == Some(n)
    ensures forall c: byte :: Value(c) == Some(n) ==>
              c == "0123456789ABCDEF"[n] as int || c == "0123456789abcdef"[n] as int
  {
    assert "0123456789ABCDEF"[n] as int == if n < 10 then 48 + n else 55 + n by {
      assert "0123456789ABCDEF"[9] as int == 57 && "0123456789ABCDEF"[15] as int == 70;
    }
    assert "0123456789abcdef"[n] as int == if n < 10 then 48 + n else 87 + n;
  }

  // Two digits stand for one byte, the high four bits first.
  lemma PairOfDigits(x: nat, y: nat)
    requires x < 16 && y < 16
    ensures Pair("0123456789ABCDEF"[x] as int, "0123456789ABCDEF"[y] as int) == 16 * x + y
    ensures Pair("0123456789abcdef"[x] as int, "0123456789abcdef"[y] as int) == 16 * x + y
  {
    HexDigits(x);
    HexDigits(y);
  }

  // Off the digits: a digit and anything else is the digit; a blank, plus or minus sign may stand
  // before a digit; everything else is 0.
  lemma PairOffDigits(a: byte, b: byte)
    ensures Value(a).Some? && Value(b).None? ==> Pair(a, b) == Value(a).value
    ensures Value(a).None? && Value(b).None? ==> Pair(a, b) == 0
    ensures Value(a).None? && Value(b).Some? && a in {9, 10, 11, 12, 13, 32, 43} ==> Pair(a, b) == Value(b).value
    ensures Value(a).None? && Value(b).Some? && a == 45 ==> (Pair(a, b) + Value(b).value) % 256 == 0
    ensures Value(a).None? && Value(b).Some? && a !in {9, 10, 11, 12, 13, 32, 43, 45} ==> Pair(a, b) == 0
  {
  }

  // What any text gives: byte by byte its pairs when it has sixteen characters, nothing at all when
  // it has any other number.
  lemma FromAsciiExact(s: seq<byte>)
    ensures forall i :: 0 <= i < 8 ==>
              FromAscii(s)[i] == if |s| == 16 then Pair(s[2 * i], s[2 * i + 1]) else 0
  {
    if |s| == 16 { PairsAt(s); }
  }

  // The text of a byte is its two digits.
  lemma {:induction false} ToAsciiDigits(p: seq<byte>, i: nat)
    requires i < |p|
    ensures ToAscii(p)[2 * i] == "0123456789ABCDEF"[p[i] / 16] as int
    ensures ToAscii(p)[2 * i + 1] == "0123456789ABCDEF"[p[i] % 16] as int
  {
    if i > 0 {
      ToAsciiDigits(p[1..], i - 1);
      assert ToAscii(p)[2..] == ToAscii(p[1..]);
    } else {
      HexDigits(p[0] / 16);
      HexDigits(p[0] % 16);
    }
  }

  predicate Upper(c: byte) {
    48 <= c <= 57 || 65 <= c <= 70
  }

  lemma PairDigits(a: byte, b: byte)
    ensures Digit(Pair(a, b) / 16) == a && Digit(Pair(a, b) % 16) == b <==> Upper(a) && Upper(b)
  {
  }

  lemma {:induction false} ToAsciiPairs(s: seq<byte>)
    requires |s| % 2 == 0
    ensures ToAscii(Pairs(s)) == s <==> forall i :: 0 <= i < |s| ==> Upper(s[i])
  {
    if s != [] {
      ToAsciiPairs(s[2..]);
      assert s == [s[0], s[1]] + s[2..];
      var q := Pair(s[0], s[1]);
      assert ToAscii(Pairs(s)) == [Digit(q / 16), Digit(q % 16)] + ToAscii(Pairs(s[2..]));
      PairDigits(s[0], s[1]);
      hide Digit, Pair, Upper, ToAscii, Pairs;
      assert forall i :: 2 <= i < |s| ==> s[i] == s[2..][i - 2];
      assert forall i :: 0 <= i < |s| - 2 ==> s[2..][i] == s[i + 2];
    }
  }

  // Reading and printing gives a text back exactly when it is sixteen upper-case digits.
  lemma TextRoundTrip(s: seq<byte>)
    ensures ToAscii(FromAscii(s)) == s <==> |s| == 16 && forall i :: 0 <= i < |s| ==> Upper(s[i])
  {
    if |s| == 16 { ToAsciiPairs(s); }
  }

  // "FFF3CFFFFF800000", the permissions of the fallback account.
  const FALLBACK: seq<byte> := [70, 70, 70, 51, 67, 70, 70, 70, 70, 70, 56, 48, 48, 48, 48, 48]

  // They are those permissions_is_superuser looks for.
  lemma FallbackIsSuperuser()
    ensures FromAscii(FALLBACK) == SUPERUSER
  {
    var s := FALLBACK;
    assert s[2..] == [70, 51, 67, 70, 70, 70, 70, 70, 56, 48, 48, 48, 48, 48];
    assert s[4..] == [67, 70, 70, 70, 70, 70, 56, 48, 48, 48, 48, 48];
    assert s[6..] == [70, 70, 70, 70, 56, 48, 48, 48, 48, 48];
    assert s[8..] == [70, 70, 56, 48, 48, 48, 48, 48];
    assert s[10..] == [56, 48, 48, 48, 48, 48];
    assert s[12..] == [48, 48, 48, 48];
    assert s[14..] == [48, 48];
  }

  // The conversions as written, a byte of the buffer at a time.
  method Print(p: array<byte>) returns (ret: array<byte>)
    requires p.Length == 8
    ensures fresh(ret) && ret[..] == ToAscii(p[..]) + [0]
  {
    ret := new byte[17];
    var i := 0;
    assert p[..0] == [] && ret[..0] == [];
    while i < 8
      invariant 0 <= i <= 8 && ret[..2 * i] == ToAscii(p[..i])
    {
      ToAsciiAppend(p[..i], p[i]);
      assert p[..i + 1] == p[..i] + [p[i]];
      ret[2 * i] := Digit(p[i] / 16);
      ret[2 * i + 1] := Digit(p[i] % 16);
      assert ret[..2 * (i + 1)] == ret[..2 * i] + [Digit(p[i] / 16), Digit(p[i] % 16)];
      i := i + 1;
    }
    ret[16] := 0;
    assert p[..i] == p[..];
    assert ret[..] == ret[..16] + [0];
  }

  lemma {:induction false} ToAsciiAppend(p: seq<byte>, b: byte)
    ensures ToAscii(p + [b]) == ToAscii(p) + [Digit(b / 16), Digit(b % 16)]
  {
    if p == [] {
      assert p + [b] == [b] && [b][1..] == [];
    } else {
      assert (p + [b])[1..] == p[1..] + [b];
      ToAsciiAppend(p[1..], b);
    }
  }

  method Parse(permbuf: Option<seq<byte>>) returns (p: array<byte>)
    ensures fresh(p) && p[..] == if permbuf.None? then NONE else FromAscii(permbuf.value)
    ensures p.Length == 8 && forall i :: 0 <= i < 8 ==>
              p[i] == if permbuf.Some? && |permbuf.value| == 16 then Pair(permbuf.value[2 * i], permbuf.value[2 * i + 1])
                      else 0
  {
    p := new byte[8](_ => 0);
    if permbuf.None? || |permbuf.value| != 16 {
      assert p[..] == NONE;
      return;
    }
    var s := permbuf.value;
    var i := 0;
    while i < 8
      invariant 0 <= i <= 8
      invariant forall k :: 0 <= k < i ==> p[k] == Pair(s[2 * k], s[2 * k + 1])
    {
      p[i] := Pair(s[2 * i], s[2 * i + 1]);
      i := i + 1;
    }
    PairsAt(s);
  }

  lemma {:induction false} PairsAt(s: seq<byte>)
    requires |s| % 2 == 0
    ensures forall k :: 0 <= k < |s| / 2 ==> Pairs(s)[k] == Pair(s[2 * k], s[2 * k + 1])
  {
    if s != [] {
      hide Pair;
      var rest := s[2..];
      PairsAt(rest);
      assert Pairs(s) == [Pair(s[0], s[1])] + Pairs(rest);
      hide Pairs;
      forall k | 0 < k < |s| / 2 ensures Pairs(s)[k] == Pair(s[2 * k], s[2 * k + 1]) {
        assert Pairs(s)[k] == Pairs(rest)[k - 1] == Pair(rest[2 * (k - 1)], rest[2 * (k - 1) + 1]);
        assert rest[2 * (k - 1)] == s[2 * k] && rest[2 * (k - 1) + 1] == s[2 * k + 1];
      }
    }
  }
}
