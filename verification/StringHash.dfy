/** The string hash of HashTable.c: `char` is signed and `unsigned` has 32 bits. */
module StringHash {
  import opened Bytes

  const WORD := 0x1_0000_0000

  function Power(e: nat): (p: nat)
    ensures p >= 1
  {
    if e == 0 then 1 else 31 * Power(e - 1)
  }

  // The key read as a number in base 31, its first character the highest digit.
  function Number(s: seq<byte>): int {
    if s == [] then 0 else Signed(s[0]) * Power(|s| - 1) + Number(s[1..])
  }

  function Hash(s: seq<byte>): (h: nat)
    ensures h < WORD
  {
    Number(s) % WORD
  }

  lemma {:induction false} NumberConcat(a: seq<byte>, b: seq<byte>)
    ensures Number(a + b) == Number(a) * Power(|b|) + Number(b)
  {
    if a == [] {
      assert a + b == b;
    } else {
      assert (a + b)[1..] == a[1..] + b;
      NumberConcat(a[1..], b);
      PowerSum(|a| - 1, |b|);
      Factor(Signed(a[0]), Power(|a| - 1), Power(|b|), Number(a[1..]));
      NumberFirst(a + b);
      NumberFirst(a);
      hide Number, Power, Signed;
    }
  }

  // One character counts as a signed number.
  lemma NumberOfOne(c: byte)
    ensures Number([]) == 0
    ensures -128 <= Number([c]) <= 127 && (c - Number([c])) % 256 == 0
  {
    assert [c][1..] == [];
  }

  lemma NumberFirst(s: seq<byte>)
    requires s != []
    ensures Number(s) == Signed(s[0]) * Power(|s| - 1) + Number(s[1..])
  {
  }

  lemma Factor(c: int, p: int, q: int, n: int)
    ensures c * (p * q) + n * q == (c * p + n) * q
  {
  }

  lemma {:induction false} PowerSum(d: nat, e: nat)
    ensures Power(d + e) == Power(d) * Power(e)
  {
    if d > 0 { PowerSum(d - 1, e); }
  }

  // One turn of the loop: h << 5 may lose its high bits before h is taken off again.
  lemma Turn(h: nat, n: int, c: int)
    requires h == n % WORD
    ensures (h * 32 % WORD - h + c) % WORD == (31 * n + c) % WORD
  {
    var k := n / WORD;
    assert n == k * WORD + h;
    var j := h * 32 / WORD;
    assert h * 32 % WORD - h + c == 31 * n + c + (-31 * k - j) * WORD;
    Shift(31 * n + c, -31 * k - j);
  }

  lemma Shift(x: int, k: int)
    ensures (x + k * WORD) % WORD == x % WORD
  {
    assert (x + k * WORD) == (x / WORD + k) * WORD + x % WORD;
  }

  method Compute(key: seq<byte>) returns (h: nat)
    ensures h == Hash(key)
  {
    h := 0;
    var i := 0;
    while i < |key|
      invariant 0 <= i <= |key| && h == Number(key[..i]) % WORD
    {
      assert key[..i + 1] == key[..i] + [key[i]];
      NumberConcat(key[..i], [key[i]]);
      assert Number([key[i]]) == Signed(key[i]) by { assert [key[i]][1..] == []; }
      Turn(h, Number(key[..i]), Signed(key[i]));
      h := (h * 32 % WORD - h + Signed(key[i])) % WORD;
      i := i + 1;
    }
    assert key[..i] == key;
  }
}
