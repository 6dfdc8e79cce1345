/** The table of bucket counts that Collection.c and HashTable.c share word for word. */
module Primes {
  const INT_MAX := 0x7fff_ffff

  // Entry 24 is out of order: 21803 stands after 145513.
  const PRIMES: seq<int> := [
    19, 31, 43, 73, 103, 193, 229, 349, 463, 523, 811, 1153,
    1699, 2689, 3673, 5653, 8539, 12843, 19149, 28753, 43051, 64663, 97003,
    145513, 21803, 327211, 490969, 736363, 1104559, 1656829, 2485123,
    INT_MAX]

  const MISPLACED := 21803

  lemma SortedButOne()
    ensures forall j, k :: 0 <= j < k < |PRIMES| && k != 24 && j != 24 ==> PRIMES[j] < PRIMES[k]
  {
  }

  lemma TableFacts()
    ensures |PRIMES| == 32 && PRIMES[24] == MISPLACED < PRIMES[23] && PRIMES[31] == INT_MAX
    ensures forall k :: 0 <= k < |PRIMES| ==> 19 <= PRIMES[k] <= INT_MAX
  {
  }

  // The least entry that is large enough, the misplaced one set aside.
  ghost predicate Selected(p: int, r: int) {
    r in PRIMES && r != MISPLACED && p <= r && forall q :: q in PRIMES && q != MISPLACED && p <= q ==> r <= q
  }

  // next_prime: the first entry, in table order, that is large enough. It is the least such
  // entry once the misplaced one, which no argument selects, is set aside.
  method NextPrime(p: int) returns (r: int)
    requires p <= INT_MAX
    ensures Selected(p, r) && 19 <= r <= INT_MAX
  {
    hide PRIMES;
    TableFacts();
    var i := 0;
    while PRIMES[i] < p
      invariant 0 <= i < |PRIMES|
      invariant forall k :: 0 <= k < i ==> PRIMES[k] < p
      decreases |PRIMES| - i
    {
      i := i + 1;
    }
    FirstIsLeast(p, i);
    r := PRIMES[i];
  }

  lemma FirstIsLeast(p: int, i: nat)
    requires i < |PRIMES| && p <= PRIMES[i] && forall k :: 0 <= k < i ==> PRIMES[k] < p
    ensures Selected(p, PRIMES[i])
  {
    hide PRIMES;
    TableFacts();
    SortedButOne();
    assert i > 23 ==> PRIMES[23] < p;
    assert PRIMES[i] != MISPLACED by { OnlyMisplaced(i); }
    forall q | q in PRIMES && q != MISPLACED && p <= q ensures PRIMES[i] <= q {
      var k :| 0 <= k < |PRIMES| && PRIMES[k] == q;
    }
  }

  lemma OnlyMisplaced(i: nat)
    requires i < |PRIMES|
    ensures PRIMES[i] == MISPLACED <==> i == 24
  {
  }
}
