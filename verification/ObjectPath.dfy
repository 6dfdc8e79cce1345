/** transaction_object_path: a counted list of path entries turned into a slash-terminated path,
    checked in a first pass and built in a second. */
module ObjectPath {
  import opened Bytes

  const SLASH: byte := 47
  const DOT: byte := 46

  // `Wild`: a length byte of 128 or more, a negative number to the C code, was reached, with `rest`
  // bytes and `left` entries still to go.
  datatype Scan = Refused | Wild(rest: nat, left: nat) | Entries(parts: seq<seq<byte>>)

  predicate Forbidden(part: seq<byte>) {
    part == [DOT, DOT] || SLASH in part
  }

  // An entry is two ignored bytes, a length and the name.
  function ScanEntries(d: seq<byte>, n: nat): Scan
    decreases n
  {
    if n == 0 then Entries([])
    else if |d| < 3 then Refused
    else
      var len: int := d[2];
      if len >= 128 then Wild(|d|, n)
      else if |d| < len + 3 || Forbidden(d[3..3 + len]) then Refused
      else
        Joined(d[3..3 + len], ScanEntries(d[len + 3..], n - 1))
  }

  // The count is a signed 16-bit number: from 0x8000 up it is negative and no loop is entered.
  function ScanObject(data: seq<byte>): Scan {
    if |data| < 2 || Get16(data, 0) == 0 then Refused
    else ScanEntries(data[2..], if Get16(data, 0) < 0x8000 then Get16(data, 0) else 0)
  }

  function Join(parts: seq<seq<byte>>): seq<byte> {
    if parts == [] then [] else parts[0] + [SLASH] + Join(parts[1..])
  }

  lemma {:induction false} JoinAppend(parts: seq<seq<byte>>, part: seq<byte>)
    ensures Join([]) == [] && Join(parts + [part]) == Join(parts) + part + [47]
  {
    if parts == [] {
      assert parts + [part] == [part];
      assert Join([part]) == part + [SLASH] + Join([]);
    } else {
      assert (parts + [part])[1..] == parts[1..] + [part];
      JoinAppend(parts[1..], part);
    }
  }

  // A negative length moves the pointer backwards, and pass 1 goes on from there. It may still
  // refuse the path; if it does not, or if it comes to read in front of the object, nothing bounds
  // what follows: pass 2 copies a negative number of bytes.
  predicate RefusedLater(data: seq<byte>, p: int, n: nat)
    decreases n
  {
    n > 0
    && (|data| - p < 3
        || (p + 2 >= 0
            && var len := Signed(data[p + 2]);
               || |data| - p < len + 3
               || (len >= 0 && Forbidden(data[p + 3..p + 3 + len]))
               || RefusedLater(data, p + len + 3, n - 1)))
  }

  // Pass 1 up to the first negative length: the length of the path, or where it stopped.
  datatype Pass1 = Stopped | Negative(at: nat, left: nat) | Length(retLen: nat)

  // One entry of pass 1: the remaining data starts at l, n entries to go.
  method CheckEntry(data: seq<byte>, l: nat, n: nat) returns (r: Pass1, part: seq<byte>)
    requires l <= |data| && n > 0
    ensures r.Length? ==> r == Length(|part| + 1) && l + |part| + 3 <= |data|
    ensures r.Negative? ==> r == Negative(l, n)
    ensures ScanEntries(data[l..], n) ==
            match r {
              case Stopped => Refused
              case Negative(at, left) => Wild(|data| - at, left)
              case Length(_) => Joined(part, ScanEntries(data[l + |part| + 3..], n - 1))
            }
  {
    ghost var d := data[l..];
    part := [];
    if |data| - l < 3 {
      return Stopped, part;
    }
    var entryLen: int := data[l + 2];
    if entryLen >= 128 {
      return Negative(l, n), part;
    }
    if |data| - l < entryLen + 3 {
      return Stopped, part;
    }
    part := data[l + 3..l + 3 + entryLen];
    assert part == d[3..3 + entryLen];
    var slash := HasSlash(part);
    if (entryLen == 2 && part == [DOT, DOT]) || slash {
      return Stopped, [];
    }
    assert d[entryLen + 3..] == data[l + entryLen + 3..];
    r := Length(entryLen + 1);
  }

  method CheckEntries(data: seq<byte>, n: nat) returns (r: Pass1)
    ensures match ScanEntries(data, n) {
              case Refused => r == Stopped
              case Wild(rest, left) => r.Negative? && r.at <= |data| && rest == |data| - r.at && left == r.left
              case Entries(parts) => r == Length(|Join(parts)|)
            }
  {
    hide ScanEntries, Join;
    var i, l, retLen := 0, 0, 0;
    ghost var seen: seq<seq<byte>> := [];
    NothingScanned(data);
    assert data[0..] == data;
    Resume([], ScanEntries(data, n));
    while i < n
      invariant 0 <= i <= n && 0 <= l <= |data| && retLen == |Join(seen)|
      invariant ScanEntries(data, n) == Resumed(seen, ScanEntries(data[l..], n - i))
    {
      var entry, part := CheckEntry(data, l, n - i);
      if !entry.Length? {
        return entry;
      }
      ResumeOne(seen, part, ScanEntries(data[l + |part| + 3..], n - i - 1));
      JoinAppend(seen, part);
      seen := seen + [part];
      retLen := retLen + entry.retLen;
      l := l + |part| + 3;
      i := i + 1;
    }
    NothingScanned(data[l..]);
    assert seen + [] == seen;
    r := Length(retLen);
  }

  lemma NothingScanned(d: seq<byte>)
    ensures ScanEntries(d, 0) == Entries([]) && Join([]) == []
  {
  }

  // The same loop once a negative length has been met.
  method CheckOn(data: seq<byte>, at: int, left: nat) returns (refused: bool)
    ensures refused <==> RefusedLater(data, at, left)
  {
    var p, n := at, left;
    while n > 0
      invariant n >= 0 && (RefusedLater(data, at, left) <==> RefusedLater(data, p, n))
    {
      if |data| - p < 3 {
        return true;
      }
      if p + 2 < 0 {
        return false;
      }
      var entryLen := Signed(data[p + 2]);
      if |data| - p < entryLen + 3 {
        return true;
      }
      if entryLen >= 0 {
        var part := data[p + 3..p + 3 + entryLen];
        var slash := HasSlash(part);
        if (entryLen == 2 && part == [DOT, DOT]) || slash {
          return true;
        }
      }
      p := p + entryLen + 3;
      n := n - 1;
    }
    refused := false;
  }

  method HasSlash(part: seq<byte>) returns (found: bool)
    ensures found <==> SLASH in part
  {
    var j := 0;
    while j < |part|
      invariant 0 <= j <= |part| && SLASH !in part[..j]
    {
      if part[j] == SLASH {
        return true;
      }
      j := j + 1;
    }
    found := false;
  }

  function Joined(part: seq<byte>, more: Scan): Scan {
    if more.Entries? then Entries([part] + more.parts) else more
  }

  ghost function Resumed(seen: seq<seq<byte>>, more: Scan): Scan {
    if more.Entries? then Entries(seen + more.parts) else more
  }

  lemma Resume(seen: seq<seq<byte>>, more: Scan)
    ensures seen == [] ==> Resumed(seen, more) == more
  {
    if more.Entries? { assert [] + more.parts == more.parts; }
  }

  lemma ResumeOne(seen: seq<seq<byte>>, part: seq<byte>, more: Scan)
    ensures Resumed(seen, Joined(part, more)) == Resumed(seen + [part], more)
  {
    if more.Entries? { assert seen + ([part] + more.parts) == seen + [part] + more.parts; }
  }

  // What pass 2 finds at its pointer.
  lemma NextEntry(rest: seq<byte>, n: nat, left: seq<seq<byte>>)
    requires n > 0 && ScanEntries(rest, n) == Entries(left)
    ensures |rest| >= 3 && |rest| >= rest[2] + 3 && left != [] && left[0] == rest[3..rest[2] + 3]
    ensures ScanEntries(rest[rest[2] + 3..], n - 1) == Entries(left[1..])
    ensures Join(left) == left[0] + [SLASH] + Join(left[1..])
  {
  }

  lemma NoEntry(rest: seq<byte>, left: seq<seq<byte>>)
    requires ScanEntries(rest, 0) == Entries(left)
    ensures left == [] && Join(left) == []
  {
  }

  // Pass 2 over data that pass 1 accepted: it stays in bounds and fills exactly the bytes that
  // pass 1 counted.
  method BuildPath(data: seq<byte>, n: nat, ret: array<byte>)
    requires ScanEntries(data, n).Entries? && ret.Length == |Join(ScanEntries(data, n).parts)| + 1
    modifies ret
    ensures ret[..] == Join(ScanEntries(data, n).parts) + [0]
  {
    hide ScanEntries, Join;
    ghost var parts := ScanEntries(data, n).parts;
    var rest := data;
    var i, l := 0, 0;
    ghost var left := parts;
    ghost var done: seq<byte> := [];
    assert done + Join(left) == Join(parts);
    while i < n
      invariant 0 <= i <= n && 0 <= l <= |Join(parts)|
      invariant ScanEntries(rest, n - i) == Entries(left)
      invariant done + Join(left) == Join(parts) && ret[..l] == done
    {
      NextEntry(rest, n - i, left);
      var entryLen: int := rest[2];
      CopyEntry(ret, l, rest[3..3 + entryLen]);
      done := done + rest[3..3 + entryLen] + [SLASH];
      left := left[1..];
      rest := rest[entryLen + 3..];
      l := l + entryLen + 1;
      i := i + 1;
    }
    NoEntry(rest, left);
    ret[l] := 0;
    assert ret[..] == ret[..l] + [0];
  }

  // One memcpy and its slash.
  method CopyEntry(ret: array<byte>, at: nat, part: seq<byte>)
    requires at + |part| < ret.Length
    modifies ret
    ensures ret[..at + |part| + 1] == old(ret[..at]) + part + [SLASH]
  {
    var j := 0;
    while j < |part|
      invariant 0 <= j <= |part| && ret[..at] == old(ret[..at])
      invariant ret[at..at + j] == part[..j]
    {
      ret[at + j] := part[j];
      j := j + 1;
    }
    ret[at + |part|] := SLASH;
    assert ret[..at + |part| + 1] == ret[..at] + ret[at..at + |part|] + [SLASH];
  }

  // The C string: the bytes up to the terminator. Unbounded: see RefusedLater.
  datatype PathResult = Null | Unbounded | Path(bytes: seq<byte>)

  method ObjectPath(data: seq<byte>) returns (r: PathResult)
    ensures match ScanObject(data) {
              case Refused => r == Null
              case Wild(rest, left) => r == if RefusedLater(data, |data| - rest, left) then Null else Unbounded
              case Entries(parts) => r == Path(Join(parts))
            }
  {
    if |data| < 2 {
      return Null;
    }
    var count: int := Get16(data, 0);
    if count == 0 {
      return Null;
    }
    var n := if count < 0x8000 then count else 0;
    var body := data[2..];
    var pass1 := CheckEntries(body, n);
    if pass1.Stopped? {
      return Null;
    }
    if pass1.Negative? {
      var refused := CheckOn(data, 2 + pass1.at, pass1.left);
      return if refused then Null else Unbounded;
    }
    var ret := new byte[pass1.retLen + 1];
    BuildPath(body, n, ret);
    r := Path(ret[..pass1.retLen]);
    assert ret[..pass1.retLen] == Join(ScanEntries(body, n).parts);
  }

  // ---- what an accepted path is ----

  lemma {:induction false} AcceptedParts(d: seq<byte>, n: nat)
    requires ScanEntries(d, n).Entries?
    ensures var parts := ScanEntries(d, n).parts;
            |parts| == n && forall i :: 0 <= i < |parts| ==> |parts[i]| < 128 && !Forbidden(parts[i])
    decreases n
  {
    if n > 0 {
      AcceptedParts(d[(d[2] as int) + 3..], n - 1);
    }
  }

  // Cutting a path at its slashes.
  function Split(s: seq<byte>): (parts: seq<seq<byte>>)
    ensures parts != []
  {
    if s == [] then [[]]
    else if s[0] == SLASH then [[]] + Split(s[1..])
    else
      var more := Split(s[1..]);
      [[s[0]] + more[0]] + more[1..]
  }

  lemma {:induction false} SplitFirst(part: seq<byte>, rest: seq<byte>)
    requires SLASH !in part
    ensures Split(part + [SLASH] + rest) == [part] + Split(rest)
  {
    var s := part + [SLASH] + rest;
    if part == [] {
      assert s[1..] == rest;
    } else {
      assert s[1..] == part[1..] + [SLASH] + rest;
      assert part[0] in part && SLASH !in part[1..];
      SplitFirst(part[1..], rest);
      assert [part[0]] + part[1..] == part;
    }
  }

  lemma {:induction false} SplitJoin(parts: seq<seq<byte>>)
    requires forall i :: 0 <= i < |parts| ==> SLASH !in parts[i]
    ensures Split(Join(parts)) == parts + [[]]
  {
    if parts != [] {
      SplitJoin(parts[1..]);
      SplitFirst(parts[0], Join(parts[1..]));
      assert parts == [parts[0]] + parts[1..];
    } else {
      assert parts + [[]] == [[]];
    }
  }

  // Splitting an accepted path gives back its entries, none of which is "..".
  lemma AcceptedPath(data: seq<byte>)
    requires ScanObject(data).Entries?
    ensures var parts := ScanObject(data).parts;
            && Split(Join(parts)) == parts + [[]]
            && (Get16(data, 0) < 0x8000 ==> |parts| == Get16(data, 0))
            && (Get16(data, 0) >= 0x8000 ==> parts == [])
            && forall i :: 0 <= i < |parts| ==> |parts[i]| < 128 && parts[i] != [46, 46] && 47 !in parts[i]
  {
    AcceptedParts(data[2..], if Get16(data, 0) < 0x8000 then Get16(data, 0) else 0);
    SplitJoin(ScanObject(data).parts);
  }

  // ---- which paths are accepted ----

  // Entries with any two bytes in front of each length.
  function EncodeEntries(pads: seq<byte>, parts: seq<seq<byte>>): seq<byte>
    requires |pads| == 2 * |parts| && forall i :: 0 <= i < |parts| ==> |parts[i]| < 128
  {
    if parts == [] then [] else [pads[0], pads[1], |parts[0]|] + parts[0] + EncodeEntries(pads[2..], parts[1..])
  }

  lemma ScanHead(a: byte, b: byte, part: seq<byte>, more: seq<byte>, n: nat)
    requires |part| < 128
    ensures ScanEntries([a, b, |part|] + part + more, n + 1) ==
            if Forbidden(part) then Refused else Joined(part, ScanEntries(more, n))
  {
    var d := [a, b, |part|] + part + more;
    assert d[3..3 + |part|] == part && d[3 + |part|..] == more;
    hide Joined, Forbidden;
  }

  predicate AnyForbidden(parts: seq<seq<byte>>) {
    exists i :: 0 <= i < |parts| && Forbidden(parts[i])
  }

  lemma AnyForbiddenHead(parts: seq<seq<byte>>)
    requires parts != []
    ensures AnyForbidden(parts) <==> Forbidden(parts[0]) || AnyForbidden(parts[1..])
  {
    hide Forbidden;
    assert forall i :: 0 < i < |parts| ==> parts[i] == parts[1..][i - 1];
  }

  lemma {:induction false} EncodedScan(pads: seq<byte>, parts: seq<seq<byte>>, tail: seq<byte>)
    requires |pads| == 2 * |parts| && forall i :: 0 <= i < |parts| ==> |parts[i]| < 128
    ensures ScanEntries(EncodeEntries(pads, parts) + tail, |parts|) == if AnyForbidden(parts) then Refused else Entries(parts)
  {
    if parts != [] {
      hide ScanEntries, AnyForbidden, Forbidden;
      var part, more := parts[0], EncodeEntries(pads[2..], parts[1..]) + tail;
      assert EncodeEntries(pads, parts) + tail == [pads[0], pads[1], |part|] + part + more;
      ScanHead(pads[0], pads[1], part, more, |parts| - 1);
      AnyForbiddenHead(parts);
      EncodedScan(pads[2..], parts[1..], tail);
      assert parts == [part] + parts[1..];
    }
  }

  // A path object of 1 to 32767 entries of at most 127 bytes is accepted exactly when no entry is
  // ".." or contains a slash, and then it reads as its entries.
  lemma PathRoundTrip(pads: seq<byte>, parts: seq<seq<byte>>, tail: seq<byte>)
    requires 1 <= |parts| < 0x8000 && |pads| == 2 * |parts| && forall i :: 0 <= i < |parts| ==> |parts[i]| < 128
    ensures ScanObject(Put16(|parts|) + EncodeEntries(pads, parts) + tail) ==
            if forall i :: 0 <= i < |parts| ==> parts[i] != [46, 46] && 47 !in parts[i] then Entries(parts) else Refused
  {
    ForbiddenExact(parts);
    hide ScanEntries, EncodeEntries, AnyForbidden;
    var entries := EncodeEntries(pads, parts) + tail;
    var data := Put16(|parts|) + EncodeEntries(pads, parts) + tail;
    assert data == [] + Put16(|parts|) + entries;
    Get16Put16(|parts|, [], entries);
    assert data[2..] == entries;
    EncodedScan(pads, parts, tail);
  }

  lemma ForbiddenExact(parts: seq<seq<byte>>)
    ensures AnyForbidden(parts) <==> !forall i :: 0 <= i < |parts| ==> parts[i] != [46, 46] && 47 !in parts[i]
  {
    assert forall i :: 0 <= i < |parts| ==> (Forbidden(parts[i]) <==> parts[i] == [46, 46] || 47 in parts[i]);
  }

  // The counts no loop runs for: none at all, zero, and those a signed number takes for negative.
  lemma EmptyPaths(data: seq<byte>)
    ensures |data| < 2 || Get16(data, 0) == 0 ==> ScanObject(data) == Refused
    ensures |data| >= 2 && Get16(data, 0) >= 0x8000 ==> ScanObject(data) == Entries([]) && Join([]) == []
  {
  }

  // One entry whose length byte is 255: pass 1 lets it through, and pass 2 copies -1 bytes.
  lemma UnboundedWitness()
    ensures var data := [0, 1, 0, 0, 255];
            ScanObject(data) == Wild(3, 1) && !RefusedLater(data, 2, 1)
  {
    var data: seq<byte> := [0, 1, 0, 0, 255];
    assert Get16(data, 0) == 1 && data[2..] == [0, 0, 255];
    assert Signed(data[4]) == -1;
    assert !RefusedLater(data, 4, 0);
  }
}
