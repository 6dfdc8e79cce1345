/** process_hlpasswd on its buffer: pointers are indices, and each separator found is overwritten
    with a NUL. */
module AccountParser {
  import opened Wrappers
  import opened Bytes
  import opened CString
  import opened Permissions
  import opened AccountFile

  // The string a pointer into the buffer stands for.
  function At(buf: seq<byte>, p: nat): seq<byte>
    requires p <= |buf|
  {
    Text(buf[p..])
  }

  // A NUL at or behind p ends the string.
  ghost predicate Ends(buf: seq<byte>, p: nat) {
    p <= |buf| && Has(buf[p..], NUL)
  }

  // strchr, or the position of the NUL.
  method Search(line: array<byte>, p: nat, c: byte) returns (i: nat)
    requires Ends(line[..], p) && c != NUL
    ensures i == p + IndexOf(At(line[..], p), c) && p <= i < line.Length
    ensures line[i] == if Has(At(line[..], p), c) then c else NUL
  {
    i := p;
    ghost var t := line[..][p..];
    while line[i] != NUL && line[i] != c
      invariant p <= i <= p + IndexOf(t, NUL)
      invariant forall k :: p <= k < i ==> line[k] != c
      decreases line.Length - i
    {
      i := i + 1;
    }
    FirstOf(t, i - p, c);
  }

  lemma FirstOf(t: seq<byte>, n: nat, c: byte)
    requires n <= IndexOf(t, NUL) < |t| && c != NUL
    requires (forall k :: 0 <= k < n ==> t[k] != c) && (t[n] == NUL || t[n] == c)
    ensures IndexOf(Text(t), c) == n && (Has(Text(t), c) <==> t[n] == c)
  {
    IndexUnique(Text(t), c, n);
  }

  // A NUL written at position p + n of a string ends it there; the rest starts behind.
  lemma Overwrite(buf: seq<byte>, p: nat, n: nat)
    requires Ends(buf, p) && n <= |At(buf, p)|
    ensures var next := buf[p + n := NUL];
            && Ends(next, p) && At(next, p) == At(buf, p)[..n]
            && (n < |At(buf, p)| ==> Ends(next, p + n + 1) && At(next, p + n + 1) == At(buf, p)[n + 1..])
  {
    var next := buf[p + n := NUL];
    var t := buf[p..];
    var m := IndexOf(t, NUL);
    IndexUnique(next[p..], NUL, n);
    if n < m {
      var rest := next[p + n + 1..];
      assert forall k :: 0 <= k < |rest| ==> rest[k] == t[n + 1 + k];
      IndexUnique(rest, NUL, m - n - 1);
    }
  }

  // Strings that end before p do not notice what is written from p on.
  lemma Earlier(buf: seq<byte>, next: seq<byte>, q: nat, p: nat)
    requires |buf| == |next| && q <= p <= |buf| && buf[..p] == next[..p]
    requires Ends(buf, q) && q + |At(buf, q)| < p
    ensures Ends(next, q) && At(next, q) == At(buf, q)
  {
    var n := |At(buf, q)|;
    assert forall k :: 0 <= k <= n ==> next[q..][k] == next[..p][q + k] == buf[..p][q + k] == buf[q..][k];
    IndexUnique(next[q..], NUL, n);
  }

  lemma ColonAtIndex(t: seq<byte>)
    ensures var n := IndexOf(t, COLON);
            if Has(t, COLON) then n < |t| && AtColon(t) == Some(Split(t[..n], t[n + 1..])) else AtColon(t) == None
  {
  }

  // strchr for a colon, and *next++ = '\0'.
  method CutAtColon(line: array<byte>, p: nat) returns (next: Option<nat>)
    requires Ends(line[..], p)
    modifies line
    ensures next.None? <==> AtColon(old(At(line[..], p))).None?
    ensures next.None? ==> line[..] == old(line[..])
    ensures line[..p] == old(line[..p])
    ensures next.Some? ==>
              && var s := AtColon(old(At(line[..], p))).value;
              && next.value == p + |s.head| + 1
              && Ends(line[..], p) && At(line[..], p) == s.head
              && Ends(line[..], next.value) && At(line[..], next.value) == s.tail
  {
    hide At, Ends, AtColon, Has, IndexOf;
    var i := Search(line, p, COLON);
    ghost var buf := line[..];
    ColonAtIndex(At(buf, p));
    if line[i] == NUL {
      return None;
    }
    Overwrite(buf, p, i - p);
    line[i] := NUL;
    assert line[..] == buf[i := NUL];
    assert line[..p] == buf[..p];
    next := Some(i + 1);
  }

  method CutAtNewline(line: array<byte>, p: nat)
    requires Ends(line[..], p)
    modifies line
    ensures line[..p] == old(line[..p])
    ensures var t := old(At(line[..], p)); Ends(line[..], p) && At(line[..], p) == t[..IndexOf(t, NEWLINE)]
  {
    var i := Search(line, p, NEWLINE);
    ghost var buf := line[..];
    if line[i] == NEWLINE {
      Overwrite(buf, p, i - p);
      line[i] := NUL;
      assert line[..] == buf[i := NUL];
      assert line[..p] == buf[..p];
    }
  }

  // xstrdup
  method Duplicate(line: array<byte>, p: nat) returns (s: seq<byte>)
    requires Ends(line[..], p)
    ensures s == At(line[..], p)
  {
    var i := p;
    ghost var t := line[..][p..];
    while line[i] != NUL
      invariant p <= i <= p + IndexOf(t, NUL)
      decreases line.Length - i
    {
      i := i + 1;
    }
    s := line[p..i];
  }

  // The fields of a line whose separators are overwritten.
  method Collect(line: array<byte>, password: nat, permissions: nat, realname: nat) returns (a: Account)
    requires Ends(line[..], 0) && Ends(line[..], password) && Ends(line[..], permissions) && Ends(line[..], realname)
    requires |At(line[..], 0)| < realname && password + |At(line[..], password)| < realname
    requires permissions + |At(line[..], permissions)| < realname
    modifies line
    ensures var b := old(line[..]);
            a == Account(At(b, 0), RealName(At(b, realname)),
                         if At(b, password) == [] then None else Some(At(b, password)),
                         FromAscii(At(b, permissions)))
  {
    var pw := if line[password] == NUL then None else Some(password);
    var name := if line[realname] == NUL then None else Some(realname);
    ghost var b := line[..];
    if name.Some? { CutAtNewline(line, realname); }
    Earlier(b, line[..], 0, realname);
    Earlier(b, line[..], password, realname);
    Earlier(b, line[..], permissions, realname);
    var u := Duplicate(line, 0);
    var x := Duplicate(line, permissions);
    var p: Option<seq<byte>>, r: Option<seq<byte>> := None, None;
    if pw.Some? {
      var s := Duplicate(line, password);
      p := Some(s);
    }
    if name.Some? {
      var s := Duplicate(line, realname);
      r := Some(s);
    }
    var perms := Parse(Some(x));
    a := Account(u, r, p, perms[..]);
  }

  // *username == ':'
  lemma Nameless(buf: seq<byte>)
    requires Ends(buf, 0)
    ensures buf != [] && At(buf, 0) == Text(buf)
    ensures buf[0] == COLON ==> AtColon(At(buf, 0)) == Some(Split([], At(buf, 0)[1..]))
    ensures buf[0] != COLON && AtColon(At(buf, 0)).Some? ==> AtColon(At(buf, 0)).value.head != []
  {
    assert buf[0..] == buf;
  }

  method ProcessLine(line: array<byte>) returns (a: Option<Account>)
    requires Ends(line[..], 0)
    modifies line
    ensures a == ParseLine(Text(old(line[..])))
  {
    Nameless(line[..]);
    hide At, Ends, AtColon, Text, RealName, FromAscii;
    if line[0] == COLON {
      return None;
    }
    var password := CutAtColon(line, 0);
    if password.None? {
      return None;
    }
    ghost var b1 := line[..];
    var permissions := CutAtColon(line, password.value);
    if permissions.None? {
      return None;
    }
    Earlier(b1, line[..], 0, password.value);
    ghost var b2 := line[..];
    var realname := CutAtColon(line, permissions.value);
    if realname.None? {
      return None;
    }
    Earlier(b2, line[..], 0, permissions.value);
    Earlier(b2, line[..], password.value, permissions.value);
    var account := Collect(line, password.value, permissions.value, realname.value);
    a := Some(account);
  }
}
