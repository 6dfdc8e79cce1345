/** C strings: bytes up to the first NUL. */
module CString {
  import opened Bytes

  const NUL: byte := 0
  const NEWLINE: byte := 10
  const COLON: byte := 58

  // The first position of c, or the length.
  function IndexOf(s: seq<byte>, c: byte): (i: nat)
    ensures i <= |s|
    ensures forall j :: 0 <= j < i ==> s[j] != c
    ensures i < |s| ==> s[i] == c
  {
    if s == [] || s[0] == c then 0 else 1 + IndexOf(s[1..], c)
  }

  predicate Has(s: seq<byte>, c: byte) {
    IndexOf(s, c) < |s|
  }

  lemma IndexUnique(s: seq<byte>, c: byte, i: nat)
    requires i <= |s| && (forall j :: 0 <= j < i ==> s[j] != c)
    requires i < |s| ==> s[i] == c
    ensures IndexOf(s, c) == i
  {
  }

  // What the C string functions see of a buffer.
  function Text(s: seq<byte>): seq<byte> {
    s[..IndexOf(s, NUL)]
  }

  // Searching past a part without c.
  lemma IndexSkip(a: seq<byte>, b: seq<byte>, c: byte)
    requires !Has(a, c)
    ensures IndexOf(a + b, c) == |a| + IndexOf(b, c)
  {
    IndexUnique(a + b, c, |a| + IndexOf(b, c));
  }
}
