/** What loading an account file yields, said of the bytes of the file: how it is cut into pieces, which
    pieces have an account, what its fields are, and which accounts stay. */
module AccountLoading {
  import opened Wrappers
  import opened Bytes
  import opened CString
  import opened Permissions
  import opened AccountFile

  // ---- the pieces ----

  function Join(pieces: seq<seq<byte>>): seq<byte> {
    if pieces == [] then [] else pieces[0] + Join(pieces[1..])
  }

  // A piece is full at 255 bytes, and no newline stands in it but at its end.
  predicate Piece(c: seq<byte>) {
    0 < |c| <= 255 && forall m :: 0 <= m < |c| - 1 ==> c[m] != 10
  }

  // Nothing could be added to it.
  predicate Whole(c: seq<byte>) {
    |c| == 255 || (c != [] && c[|c| - 1] == 10)
  }

  // The pieces are the file, cut where a newline or the 255th byte requires it and nowhere else.
  lemma {:induction false} PiecesExact(file: seq<byte>)
    ensures Join(Pieces(file)) == file
    ensures forall k :: 0 <= k < |Pieces(file)| ==> Piece(Pieces(file)[k])
    ensures forall k :: 0 <= k < |Pieces(file)| - 1 ==> Whole(Pieces(file)[k])
  {
    if file != [] {
      var n := PieceEnd(file);
      PiecesExact(file[n..]);
      FirstPiece(file);
      hide Piece, Whole, PieceEnd;
      assert file == file[..n] + file[n..];
      assert Pieces(file) == [file[..n]] + Pieces(file[n..]);
      if |Pieces(file)| > 1 {
        assert file[n..] != [];
      }
    }
  }

  lemma FirstPiece(file: seq<byte>)
    requires file != []
    ensures Piece(file[..PieceEnd(file)])
    ensures PieceEnd(file) < |file| ==> Whole(file[..PieceEnd(file)])
  {
  }

  // ---- the fields of a line ----

  // The bytes of a line up to its first NUL.
  lemma TextExact(s: seq<byte>)
    ensures Text(s) <= s && 0 !in Text(s)
    ensures Text(s) == s || s[|Text(s)|] == 0
  {
  }

  // Three colons, the first three of the line.
  predicate Colons(c: seq<byte>, i: nat, j: nat, k: nat) {
    && i < j < k < |c| && c[i] == c[j] == c[k] == 58
    && forall m :: 0 <= m < k && m != i && m != j ==> c[m] != 58
  }

  // Eight bytes from sixteen characters; no permission from any other number of them.
  predicate Granted(perms: Bits, text: seq<byte>) {
    forall m :: 0 <= m < 8 ==> perms[m] == if |text| == 16 then Pair(text[2 * m], text[2 * m + 1]) else 0
  }

  // The rest of the line up to a newline, when there is a rest.
  predicate NameFrom(realname: Option<seq<byte>>, rest: seq<byte>) {
    match realname
    case None => rest == []
    case Some(r) => rest != [] && r <= rest && 10 !in r && (r == rest || rest[|r|] == 10)
  }

  // The account of a line with three colons: what stands between them.
  predicate Between(a: Account, c: seq<byte>, i: nat, j: nat, k: nat)
    requires i < j < k < |c|
  {
    && a.username == c[..i]
    && a.password == (if i + 1 == j then None else Some(c[i + 1..j]))
    && Granted(a.perms, c[j + 1..k])
    && NameFrom(a.realname, c[k + 1..])
  }

  // A line has an account if and only if it has three colons and does not start with one; permissions
  // that are not sixteen characters long are none.
  lemma ParsedExact(c: seq<byte>) returns (i: nat, j: nat, k: nat)
    ensures ParseLine(c).Some? ==> 0 < i && Colons(c, i, j, k) && Between(ParseLine(c).value, c, i, j, k)
    ensures ParseLine(c).None? ==> (c != [] && c[0] == 58) || !exists i, j, k :: Colons(c, i, j, k)
  {
    if ParseLine(c).Some? {
      i, j, k := FieldsFound(c);
    } else {
      hide ParseLine, Colons;
      forall i, j, k | Colons(c, i, j, k) ensures i == 0 && c[0] == 58 { FieldsFind(c, i, j, k); }
      i, j, k := 0, 0, 0;
    }
  }

  lemma FieldsFound(c: seq<byte>) returns (i: nat, j: nat, k: nat)
    requires ParseLine(c).Some?
    ensures 0 < i && Colons(c, i, j, k) && Between(ParseLine(c).value, c, i, j, k)
  {
    hide ParseLine, FromAscii, RealName, Has, Granted, NameFrom;
    i, j, k := ParsedColons(c);
    NoColon(c, 0, i);
    NoColon(c, i + 1, j);
    NoColon(c, j + 1, k);
    assert c[0..i] == c[..i];
    FromAsciiGrants(c[j + 1..k]);
    RealNameNames(c[k + 1..]);
  }

  lemma RealNameNames(rest: seq<byte>)
    ensures NameFrom(RealName(rest), rest)
  {
  }

  lemma NoColon(c: seq<byte>, from: nat, to: nat)
    requires from <= to <= |c|
    ensures !Has(c[from..to], COLON) <==> forall m :: from <= m < to ==> c[m] != 58
  {
    assert forall m :: from <= m < to ==> c[m] == c[from..to][m - from];
    if forall m :: from <= m < to ==> c[m] != 58 {
      IndexUnique(c[from..to], COLON, to - from);
    }
  }

  lemma FromAsciiGrants(text: seq<byte>)
    ensures Granted(FromAscii(text), text)
  {
    hide FromAscii, Pair;
    FromAsciiExact(text);
  }

  // With three colons and a name, the parser finds an account.
  lemma FieldsFind(c: seq<byte>, i: nat, j: nat, k: nat)
    requires Colons(c, i, j, k) && ParseLine(c).None?
    ensures i == 0 && c[0] == 58
  {
    hide ParseLine, FromAscii, RealName, Has;
    if i > 0 {
      NoColon(c, 0, i);
      NoColon(c, i + 1, j);
      NoColon(c, j + 1, k);
      assert c[0..i] == c[..i];
      var u, p, x, tail := c[..i], c[i + 1..j], c[j + 1..k], c[k + 1..];
      Rejoined(c, i, j, k);
      ParseJoined(u, p, x, tail);
    }
  }


  lemma Rejoined(c: seq<byte>, i: nat, j: nat, k: nat)
    requires i < j < k < |c| && c[i] == c[j] == c[k] == 58
    ensures c == Front(c[..i], c[i + 1..j], c[j + 1..k]) + c[k + 1..]
  {
    assert c[..k + 1] == c[..j + 1] + c[j + 1..k] + [58];
    assert c[..j + 1] == c[..i + 1] + c[i + 1..j] + [58];
    assert c[..i + 1] == c[..i] + [58];
    assert c == c[..k + 1] + c[k + 1..];
  }

  // ---- which accounts stay ----

  // The line in a piece has the account a.
  predicate Gives(piece: seq<byte>, a: Account) {
    ParseLine(Text(piece)) == Some(a)
  }

  lemma {:induction false} LoadOneMore(pieces: seq<seq<byte>>, piece: seq<byte>, accounts: seq<Account>)
    ensures Load(pieces + [piece], accounts) ==
            var a := ParseLine(Text(piece));
            if a.None? then Load(pieces, accounts) else AddTo(Load(pieces, accounts), a.value)
    decreases |pieces|
  {
    hide ParseLine, Text, AddTo;
    if pieces == [] {
      assert [] + [piece] == [piece] && [piece][1..] == [];
      assert Load([], accounts) == accounts;
    } else {
      var a := ParseLine(Text(pieces[0]));
      var next := if a.None? then accounts else AddTo(accounts, a.value);
      assert (pieces + [piece])[1..] == pieces[1..] + [piece];
      LoadOneMore(pieces[1..], piece, next);
    }
  }

  // The account came from that piece.
  ghost predicate Sources(pieces: seq<seq<byte>>, accounts: seq<Account>, at: seq<nat>) {
    && |at| == |accounts|
    && (forall n :: 0 <= n < |at| ==> at[n] < |pieces| && Gives(pieces[at[n]], accounts[n]))
    && (forall m, n :: 0 <= m < n < |at| ==> at[m] < at[n])
  }

  // One of the accounts has that name, and comes from piece k or one before it.
  ghost predicate NamedBy(accounts: seq<Account>, at: seq<nat>, k: nat, u: seq<byte>) {
    exists n :: 0 <= n < |at| && n < |accounts| && at[n] <= k && accounts[n].username == u
  }

  ghost predicate AllNamed(pieces: seq<seq<byte>>, accounts: seq<Account>, at: seq<nat>) {
    forall k, a :: 0 <= k < |pieces| && Gives(pieces[k], a) ==> NamedBy(accounts, at, k, a.username)
  }

  // The loaded accounts are those of pieces at[0] < at[1] < .., with distinct names; the account of any
  // other piece has a name that one of them brought before it.
  ghost predicate FirstOfName(pieces: seq<seq<byte>>, accounts: seq<Account>, at: seq<nat>) {
    Sources(pieces, accounts, at) && DistinctNames(accounts) && AllNamed(pieces, accounts, at)
  }

  // Loading keeps, in the order of the file, the first account of every name.
  lemma {:induction false} LoadedOrder(pieces: seq<seq<byte>>) returns (at: seq<nat>)
    ensures FirstOfName(pieces, Load(pieces, []), at)
    decreases |pieces|
  {
    if pieces == [] {
      at := [];
    } else {
      hide FirstOfName, Gives, Load, AddTo;
      var init, last := pieces[..|pieces| - 1], pieces[|pieces| - 1];
      assert pieces == init + [last];
      at := LoadedOrder(init);
      LoadOneMore(init, last, []);
      at := OneMore(init, last, Load(init, []), at);
    }
  }

  lemma OneMore(pieces: seq<seq<byte>>, last: seq<byte>, accounts: seq<Account>, at: seq<nat>) returns (next: seq<nat>)
    requires FirstOfName(pieces, accounts, at)
    ensures var a := ParseLine(Text(last));
            FirstOfName(pieces + [last], if a.None? then accounts else AddTo(accounts, a.value), next)
  {
    hide Sources, AllNamed, DistinctNames, ParseLine, Text;
    var a := ParseLine(Text(last));
    if a.None? || Taken(accounts, a.value.username) {
      next := at;
      StillSources(pieces, last, accounts, at);
      StillNamed(pieces, last, accounts, at);
    } else {
      next := at + [|pieces|];
      MoreSources(pieces, last, accounts, at, a.value);
      MoreNamed(pieces, last, accounts, at, a.value);
      MoreDistinct(accounts, a.value);
    }
  }

  lemma StillSources(pieces: seq<seq<byte>>, last: seq<byte>, accounts: seq<Account>, at: seq<nat>)
    requires Sources(pieces, accounts, at)
    ensures Sources(pieces + [last], accounts, at)
  {
    hide Gives;
  }

  // The account of the last piece is one that is not added.
  lemma StillNamed(pieces: seq<seq<byte>>, last: seq<byte>, accounts: seq<Account>, at: seq<nat>)
    requires Sources(pieces, accounts, at) && AllNamed(pieces, accounts, at)
    requires forall a :: Gives(last, a) ==> Taken(accounts, a.username)
    ensures AllNamed(pieces + [last], accounts, at)
  {
    hide Gives;
    forall a | Gives(last, a) ensures NamedBy(accounts, at, |pieces|, a.username) {
      var n :| 0 <= n < |accounts| && accounts[n].username == a.username;
      assert at[n] < |pieces|;
    }
  }

  lemma MoreSources(pieces: seq<seq<byte>>, last: seq<byte>, accounts: seq<Account>, at: seq<nat>, a: Account)
    requires Sources(pieces, accounts, at) && Gives(last, a)
    ensures Sources(pieces + [last], accounts + [a], at + [|pieces|])
  {
    hide Gives;
  }

  lemma MoreNamed(pieces: seq<seq<byte>>, last: seq<byte>, accounts: seq<Account>, at: seq<nat>, a: Account)
    requires Sources(pieces, accounts, at) && AllNamed(pieces, accounts, at) && Gives(last, a)
    ensures AllNamed(pieces + [last], accounts + [a], at + [|pieces|])
  {
    hide Sources, NamedBy, ParseLine, Text;
    var next, more := at + [|pieces|], accounts + [a];
    assert |at| == |accounts| by { SameLength(pieces, accounts, at); }
    NamedLast(accounts, at, |pieces|, a);
    forall k: nat, b | k < |pieces| && Gives(pieces[k], b) ensures NamedBy(more, next, k, b.username) {
      NamedStill(accounts, at, k, b.username, a, |pieces|);
    }
  }

  lemma SameLength(pieces: seq<seq<byte>>, accounts: seq<Account>, at: seq<nat>)
    requires Sources(pieces, accounts, at)
    ensures |at| == |accounts|
  {
  }

  lemma NamedLast(accounts: seq<Account>, at: seq<nat>, k: nat, a: Account)
    requires |at| == |accounts|
    ensures NamedBy(accounts + [a], at + [k], k, a.username)
  {
    assert (at + [k])[|at|] == k && (accounts + [a])[|at|] == a;
  }

  lemma NamedStill(accounts: seq<Account>, at: seq<nat>, k: nat, u: seq<byte>, a: Account, p: nat)
    requires |at| == |accounts| && NamedBy(accounts, at, k, u)
    ensures NamedBy(accounts + [a], at + [p], k, u)
  {
    var n :| 0 <= n < |at| && at[n] <= k && accounts[n].username == u;
    assert (at + [p])[n] == at[n] && (accounts + [a])[n] == accounts[n];
  }

  lemma MoreDistinct(accounts: seq<Account>, a: Account)
    requires DistinctNames(accounts) && !Taken(accounts, a.username)
    ensures DistinctNames(accounts + [a])
  {
  }

  // So an account loaded from a file stands in one of its pieces, between the first three colons of
  // the text there, and has permissions only if sixteen characters say which.
  lemma LoadedFields(file: seq<byte>, n: nat) returns (p: nat, i: nat, j: nat, k: nat)
    requires n < |LoadFile(file)|
    ensures p < |Pieces(file)|
    ensures var c := Text(Pieces(file)[p]);
            0 < i && Colons(c, i, j, k) && Between(LoadFile(file)[n], c, i, j, k)
    ensures k - j - 1 != 16 ==> forall m :: 0 <= m < 8 ==> LoadFile(file)[n].perms[m] == 0
  {
    hide FromAscii, ParseLine, Text;
    p := LoadedFrom(Pieces(file), [], n);
    var c := Text(Pieces(file)[p]);
    i, j, k := ParsedExact(c);
    assert |c[j + 1..k]| == k - j - 1;
    assert Granted(LoadFile(file)[n].perms, c[j + 1..k]);
  }

  // The bytes of a stored account: its name, its password, sixteen digits and its real name, with
  // colons between them and a newline behind.
  lemma LineBytes(a: Account)
    requires a.realname.Some?
    ensures var c, j, k := Line(a), |a.username| + 1 + |Password(a)|, |a.username| + |Password(a)| + 18;
            && |c| == k + 2 + |a.realname.value|
            && c[..|a.username|] == a.username && c[|a.username|] == 58
            && c[|a.username| + 1..j] == (if a.password.None? then [] else a.password.value) && c[j] == 58
            && (forall m :: 0 <= m < 8 ==>
                  && c[j + 1 + 2 * m] == "0123456789ABCDEF"[a.perms[m] / 16] as int
                  && c[j + 2 + 2 * m] == "0123456789ABCDEF"[a.perms[m] % 16] as int)
            && c[k] == 58 && c[k + 1..] == a.realname.value + [10]
  {
    var c, j, x := Line(a), |a.username| + 1 + |Password(a)|, ToAscii(a.perms);
    assert forall n :: 0 <= n < 16 ==> c[j + 1 + n] == x[n];
    forall m | 0 <= m < 8
      ensures c[j + 1 + 2 * m] == "0123456789ABCDEF"[a.perms[m] / 16] as int
      ensures c[j + 2 + 2 * m] == "0123456789ABCDEF"[a.perms[m] % 16] as int
    {
      ToAsciiDigits(a.perms, m);
      assert c[j + 1 + 2 * m] == x[2 * m] && c[j + 1 + (2 * m + 1)] == x[2 * m + 1];
    }
  }
}
