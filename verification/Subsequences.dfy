/** Subsequences: same elements, same order, some left out. */
module Subsequences {
  ghost predicate Subseq<T>(a: seq<T>, b: seq<T>) {
    if a == [] then true
    else if b == [] then false
    else (a[0] == b[0] && Subseq(a[1..], b[1..])) || Subseq(a, b[1..])
  }

  lemma {:induction false} SubseqRefl<T>(a: seq<T>)
    ensures Subseq(a, a)
  {
    if a != [] { SubseqRefl(a[1..]); }
  }

  lemma {:induction false} SubseqTrans<T>(a: seq<T>, b: seq<T>, c: seq<T>)
    requires Subseq(a, b) && Subseq(b, c)
    ensures Subseq(a, c)
    decreases |b| + |c|
  {
    if a != [] && c != [] {
      if b[0] == c[0] && Subseq(b[1..], c[1..]) {
        if a[0] == b[0] && Subseq(a[1..], b[1..]) {
          SubseqTrans(a[1..], b[1..], c[1..]);
        } else {
          SubseqTrans(a, b[1..], c[1..]);
        }
      } else {
        SubseqTrans(a, b, c[1..]);
      }
    }
  }

  lemma {:induction false} SubseqConcat<T>(a: seq<T>, b: seq<T>, x: seq<T>, y: seq<T>)
    requires Subseq(a, b) && Subseq(x, y)
    ensures Subseq(a + x, b + y)
    decreases |a| + |b|
  {
    if b == [] {
      assert a + x == x && b + y == y;
    } else {
      assert (b + y)[1..] == b[1..] + y;
      if a != [] && a[0] == b[0] && Subseq(a[1..], b[1..]) {
        SubseqConcat(a[1..], b[1..], x, y);
        assert (a + x)[1..] == a[1..] + x;
      } else {
        SubseqConcat(a, b[1..], x, y);
      }
    }
  }

  // Leaving one element out.
  lemma SubseqCut<T>(a: seq<T>, i: nat)
    requires i < |a|
    ensures Subseq(a[..i] + a[i + 1..], a)
  {
    var tail := [a[i]] + a[i + 1..];
    assert a == a[..i] + tail;
    assert tail[1..] == a[i + 1..];
    SubseqRefl(a[..i]);
    SubseqRefl(a[i + 1..]);
    assert Subseq(a[i + 1..], tail);
    SubseqConcat(a[..i], a[..i], a[i + 1..], tail);
  }

  lemma {:induction false} SubseqMember<T>(a: seq<T>, b: seq<T>, x: T)
    requires Subseq(a, b) && x in a
    ensures x in b
  {
    if a[0] == b[0] && Subseq(a[1..], b[1..]) {
      if x != a[0] { SubseqMember(a[1..], b[1..], x); }
    } else {
      SubseqMember(a, b[1..], x);
    }
  }

  // Two steps of a queue: what comes out first, what then waits, and what is let in.
  lemma Relay<T>(out: seq<T>, outs: seq<T>, last: seq<T>, mid: seq<T>, first: seq<T>, inn: seq<T>, ins: seq<T>)
    requires Subseq(out + mid, first + inn) && Subseq(outs + last, mid + ins)
    ensures Subseq(out + outs + last, first + (inn + ins))
  {
    hide Subseq;
    SubseqRefl(out);
    SubseqRefl(ins);
    SubseqConcat(out, out, outs + last, mid + ins);
    SubseqConcat(out + mid, first + inn, ins, ins);
    Regroup(out, mid, ins);
    Regroup(out, outs, last);
    Regroup(first, inn, ins);
    SubseqTrans(out + outs + last, out + mid + ins, first + (inn + ins));
  }

  lemma Regroup<T>(a: seq<T>, b: seq<T>, c: seq<T>)
    ensures a + (b + c) == a + b + c
  {
  }
}
