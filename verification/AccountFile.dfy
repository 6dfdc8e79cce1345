/** The account file of AccountManager.c: the line write_account prints, the pieces fgets reads, and
    what process_hlpasswd makes of one. */
module AccountFile {
  import opened Wrappers
  import opened Bytes
  import opened CString
  import opened Permissions

  // struct _Account; a null pointer is None.
  datatype Account = Account(username: seq<byte>, realname: Option<seq<byte>>, password: Option<seq<byte>>, perms: Bits)

  // char buffer[256]: fgets keeps the last byte for the NUL.
  const PIECE := 255

  // ---- writing ----

  function Password(a: Account): seq<byte> {
    if a.password.None? then [] else a.password.value
  }

  // The line up to the real name.
  function Front(u: seq<byte>, p: seq<byte>, x: seq<byte>): seq<byte> {
    u + [COLON] + p + [COLON] + x + [COLON]
  }

  function Head(a: Account): seq<byte> {
    Front(a.username, Password(a), ToAscii(a.perms))
  }

  // write_account
  function Line(a: Account): seq<byte>
    requires a.realname.Some?
  {
    Head(a) + a.realname.value + [NEWLINE]
  }

  ghost predicate Named(accounts: seq<Account>) {
    forall i :: 0 <= i < |accounts| ==> accounts[i].realname.Some?
  }

  // am_commit
  function File(accounts: seq<Account>): seq<byte>
    requires Named(accounts)
  {
    if accounts == [] then [] else Line(accounts[0]) + File(accounts[1..])
  }

  // ---- reading ----

  // fgets: up to 255 bytes, and no further than a newline.
  function PieceEnd(file: seq<byte>): (n: nat)
    requires file != []
    ensures 1 <= n <= |file| && n <= PIECE
  {
    var line := if Has(file, NEWLINE) then IndexOf(file, NEWLINE) + 1 else |file|;
    if line < PIECE then line else PIECE
  }

  function Pieces(file: seq<byte>): seq<seq<byte>> {
    if file == [] then [] else [file[..PieceEnd(file)]] + Pieces(file[PieceEnd(file)..])
  }

  // What follows the third colon.
  function RealName(tail: seq<byte>): Option<seq<byte>> {
    if tail == [] then None else Some(tail[..IndexOf(tail, NEWLINE)])
  }

  datatype Split = Split(head: seq<byte>, tail: seq<byte>)

  // strchr(line, ':'), and the two strings it leaves.
  function AtColon(line: seq<byte>): Option<Split> {
    var i := IndexOf(line, COLON);
    if i == |line| then None else Some(Split(line[..i], line[i + 1..]))
  }

  // process_hlpasswd
  function ParseLine(line: seq<byte>): Option<Account> {
    var name := AtColon(line);
    if name.None? || name.value.head == [] then None
    else
      var password := AtColon(name.value.tail);
      if password.None? then None
      else
        var permissions := AtColon(password.value.tail);
        if permissions.None? then None
        else
          Some(Account(name.value.head, RealName(permissions.value.tail),
                       if password.value.head == [] then None else Some(password.value.head),
                       FromAscii(permissions.value.head)))
  }

  predicate Taken(accounts: seq<Account>, username: seq<byte>) {
    exists i :: 0 <= i < |accounts| && accounts[i].username == username
  }

  // am_add_account on the ordered list: a name that is taken changes nothing.
  function AddTo(accounts: seq<Account>, a: Account): seq<Account> {
    if Taken(accounts, a.username) then accounts else accounts + [a]
  }

  function Load(pieces: seq<seq<byte>>, accounts: seq<Account>): seq<Account>
    decreases |pieces|
  {
    if pieces == [] then accounts
    else
      var a := ParseLine(Text(pieces[0]));
      Load(pieces[1..], if a.None? then accounts else AddTo(accounts, a.value))
  }

  function LoadFile(file: seq<byte>): seq<Account> {
    Load(Pieces(file), [])
  }

  // ---- the condition ----

  // No C string holds a NUL.
  ghost predicate CStrings(a: Account) {
    !Has(a.username, NUL) && !Has(Password(a), NUL) && (a.realname.Some? ==> !Has(a.realname.value, NUL))
  }

  // No character that would be taken for a separator.
  ghost predicate Clean(a: Account) {
    && a.username != [] && !Has(a.username, COLON) && !Has(a.username, NEWLINE)
    && !Has(Password(a), COLON) && !Has(Password(a), NEWLINE)
    && (a.realname.Some? ==> !Has(a.realname.value, NEWLINE))
  }

  // The real name ends within the first piece; an empty one needs its newline there.
  ghost predicate Fits(a: Account) {
    a.realname.Some? && |Head(a)| + (if a.realname.value == [] then 1 else |a.realname.value|) <= PIECE
  }

  ghost predicate Storable(a: Account) {
    Clean(a) && Fits(a)
  }

  // An empty password is stored like none.
  function Strip(a: Account): Account {
    if a.password == Some([]) then a.(password := None) else a
  }

  // ---- parsing ----

  lemma NoColonInAscii(p: seq<byte>)
    ensures !Has(ToAscii(p), COLON) && !Has(ToAscii(p), NEWLINE) && !Has(ToAscii(p), NUL)
  {
    AsciiIsUpper(p);
  }

  lemma {:induction false} AsciiIsUpper(p: seq<byte>)
    ensures forall i :: 0 <= i < |ToAscii(p)| ==> Upper(ToAscii(p)[i])
  {
    if p != [] { AsciiIsUpper(p[1..]); }
  }

  lemma ColonSplits(u: seq<byte>, rest: seq<byte>)
    requires !Has(u, COLON)
    ensures AtColon(u + [COLON] + rest) == Some(Split(u, rest))
  {
    assert u + [COLON] + rest == u + ([COLON] + rest);
    IndexSkip(u, [COLON] + rest, COLON);
    assert IndexOf([COLON] + rest, COLON) == 0;
  }

  // A line joined from its fields is parsed into them.
  lemma ParseJoined(u: seq<byte>, p: seq<byte>, x: seq<byte>, tail: seq<byte>)
    requires u != [] && !Has(u, COLON) && !Has(p, COLON) && !Has(x, COLON)
    ensures ParseLine(Front(u, p, x) + tail) ==
            Some(Account(u, RealName(tail), if p == [] then None else Some(p), FromAscii(x)))
  {
    hide AtColon, Has, RealName, FromAscii, Front;
    var c := [COLON];
    FrontJoined(u, p, x, tail);
    ColonSplits(u, p + c + (x + c + tail));
    ColonSplits(p, x + c + tail);
    ColonSplits(x, tail);
  }

  lemma FrontJoined(u: seq<byte>, p: seq<byte>, x: seq<byte>, tail: seq<byte>)
    ensures Front(u, p, x) + tail == u + [COLON] + (p + [COLON] + (x + [COLON] + tail))
  {
  }

  lemma ColonAt(c: seq<byte>, from: nat) returns (i: nat)
    requires from <= |c| && AtColon(c[from..]).Some?
    ensures from <= i < |c| && c[i] == COLON
    ensures AtColon(c[from..]).value == Split(c[from..i], c[i + 1..])
    ensures !Has(c[from..i], COLON)
  {
    i := from + IndexOf(c[from..], COLON);
    assert c[from..][..i - from] == c[from..i] && c[from..][i - from + 1..] == c[i + 1..];
  }

  // Its three colons, when a line has an account.
  lemma ParsedColons(c: seq<byte>) returns (i: nat, j: nat, k: nat)
    requires ParseLine(c).Some?
    ensures 0 < i < j < k < |c| && c[i] == c[j] == c[k] == COLON
    ensures ParseLine(c).value.username == c[..i] && !Has(c[..i], COLON)
    ensures ParseLine(c).value.realname == RealName(c[k + 1..])
    ensures Password(ParseLine(c).value) == c[i + 1..j] && !Has(c[i + 1..j], COLON)
    ensures ParseLine(c).value.password == if i + 1 == j then None else Some(c[i + 1..j])
    ensures ParseLine(c).value.perms == FromAscii(c[j + 1..k]) && !Has(c[j + 1..k], COLON)
  {
    hide AtColon, Has, RealName, FromAscii;
    assert c[0..] == c;
    i := ColonAt(c, 0);
    j := ColonAt(c, i + 1);
    k := ColonAt(c, j + 1);
    assert c[0..i] == c[..i];
  }

  // ---- one line ----

  lemma RealNameLine(r: seq<byte>, n: nat)
    requires !Has(r, NEWLINE) && n <= |r| + 1
    ensures RealName((r + [NEWLINE])[..n]) ==
            if n == 0 then None else if n <= |r| then Some(r[..n]) else Some(r)
  {
    var t := (r + [NEWLINE])[..n];
    if n <= |r| {
      assert t == r[..n];
      assert forall j :: 0 <= j < n ==> t[j] == r[j];
      IndexUnique(t, NEWLINE, n);
      assert t[..n] == r[..n];
    } else {
      assert t == r + [NEWLINE];
      IndexSkip(r, [NEWLINE], NEWLINE);
    }
  }

  // A piece that starts with the line: the account comes out with as much of its real name as the
  // piece holds.
  lemma ParsePrefix(a: Account, j: nat)
    requires Clean(a) && a.realname.Some? && |Head(a)| <= j <= |Line(a)|
    ensures var r := a.realname.value;
            var n := j - |Head(a)|;
            ParseLine(Line(a)[..j]) ==
            Some(Strip(a).(realname := if n == 0 then None else if n <= |r| then Some(r[..n]) else Some(r)))
  {
    var r := a.realname.value;
    var n := j - |Head(a)|;
    NoColonInAscii(a.perms);
    assert Line(a)[..j] == Head(a) + (r + [NEWLINE])[..n];
    ParseJoined(a.username, Password(a), ToAscii(a.perms), (r + [NEWLINE])[..n]);
    RealNameLine(r, n);
    HexRoundTrip(a.perms);
    hide ParseLine, RealName, Has, ToAscii, FromAscii, Head, Line;
  }

  // Fewer bytes than the head: no account, the third colon is missing.
  lemma ParseShort(a: Account, j: nat)
    requires Clean(a) && a.realname.Some? && j < |Head(a)|
    ensures ParseLine(Line(a)[..j]) == None
  {
    var c := Line(a)[..j];
    assert forall i :: 0 <= i < j ==> c[i] == Head(a)[i];
    hide ParseLine, Has, Head, Line, RealName;
    if ParseLine(c).Some? {
      var i, k, m := ParsedColons(c);
      HeadColons(a, i, k, m);
    }
  }

  lemma HasNot(s: seq<byte>, c: byte, i: nat)
    requires !Has(s, c) && i < |s|
    ensures s[i] != c
  {
  }

  // The head has no three colons but the one that ends each of its parts.
  lemma HeadColons(a: Account, i: nat, j: nat, k: nat)
    requires Clean(a) && i < j < k < |Head(a)|
    requires Head(a)[i] == Head(a)[j] == Head(a)[k] == COLON
    ensures i == |a.username| && k == |Head(a)| - 1
  {
    hide Clean, Head;
    HeadColon(a, i);
    HeadColon(a, j);
    HeadColon(a, k);
  }

  lemma HeadColon(a: Account, i: nat)
    requires Clean(a) && i < |Head(a)| && Head(a)[i] == COLON
    ensures i == |a.username| || i == |a.username| + 1 + |Password(a)| || i == |Head(a)| - 1
  {
    var u, p, x := a.username, Password(a), ToAscii(a.perms);
    NoColonInAscii(a.perms);
    hide Has, ToAscii;
    if i < |u| {
      HasNot(u, COLON, i);
    } else if |u| < i < |u| + 1 + |p| {
      assert Head(a)[i] == p[i - |u| - 1];
      HasNot(p, COLON, i - |u| - 1);
    } else if |u| + 1 + |p| < i < |Head(a)| - 1 {
      assert Head(a)[i] == x[i - |u| - |p| - 2];
      HasNot(x, COLON, i - |u| - |p| - 2);
    }
  }

  lemma LineHasNoNul(a: Account, i: nat)
    requires CStrings(a) && a.realname.Some? && i < |Line(a)|
    ensures Line(a)[i] != NUL
  {
    var u, p, x, r := a.username, Password(a), ToAscii(a.perms), a.realname.value;
    NoColonInAscii(a.perms);
    if i < |u| {
      HasNot(u, NUL, i);
    } else if |u| < i < |u| + 1 + |p| {
      HasNot(p, NUL, i - |u| - 1);
    } else if |u| + 1 + |p| < i < |Head(a)| - 1 {
      HasNot(x, NUL, i - |u| - |p| - 2);
    } else if |Head(a)| <= i < |Line(a)| - 1 {
      HasNot(r, NUL, i - |Head(a)|);
    }
  }

  lemma LineNewline(a: Account, i: nat)
    requires Clean(a) && a.realname.Some? && i < |Line(a)| - 1
    ensures Line(a)[i] != NEWLINE
  {
    var u, p, x, r := a.username, Password(a), ToAscii(a.perms), a.realname.value;
    NoColonInAscii(a.perms);
    if i < |u| {
      HasNot(u, NEWLINE, i);
    } else if |u| < i < |u| + 1 + |p| {
      HasNot(p, NEWLINE, i - |u| - 1);
    } else if |u| + 1 + |p| < i < |Head(a)| - 1 {
      HasNot(x, NEWLINE, i - |u| - |p| - 2);
    } else if |Head(a)| <= i {
      HasNot(r, NEWLINE, i - |Head(a)|);
    }
  }

  lemma TextOfSlice(a: Account, i: nat, j: nat)
    requires CStrings(a) && a.realname.Some? && i <= j <= |Line(a)|
    ensures Text(Line(a)[i..j]) == Line(a)[i..j]
  {
    var c := Line(a)[i..j];
    forall k | 0 <= k < |c| ensures c[k] != NUL { LineHasNoNul(a, i + k); }
    hide Line;
    IndexUnique(c, NUL, |c|);
  }

  // ---- the pieces of a line ----

  // The first piece of a stored line, and the newline alone when the piece was full without it.
  lemma LoadLine(a: Account, rest: seq<byte>, accounts: seq<Account>)
    requires CStrings(a) && Storable(a)
    ensures Load(Pieces(Line(a) + rest), accounts) == Load(Pieces(rest), AddTo(accounts, Strip(a)))
  {
    var line := Line(a);
    var file := line + rest;
    forall i | 0 <= i < |line| - 1 ensures file[i] != NEWLINE { LineNewline(a, i); }
    IndexUnique(file, NEWLINE, |line| - 1);
    hide Clean, CStrings, Head, Line, Strip, IndexOf;
    if |line| <= PIECE {
      FirstPiece(a, file, |line|, accounts);
      assert file[|line|..] == rest;
    } else {
      FirstPiece(a, file, PIECE, accounts);
      assert file[PIECE..] == [NEWLINE] + rest;
      LoadNewline(rest, AddTo(accounts, Strip(a)));
    }
  }

  lemma FirstPiece(a: Account, file: seq<byte>, j: nat, accounts: seq<Account>)
    requires CStrings(a) && Storable(a) && Line(a) <= file && j == PieceEnd(file)
    requires |Head(a)| < j <= |Line(a)| && j >= |Head(a)| + |a.realname.value|
    ensures Load(Pieces(file), accounts) == Load(Pieces(file[j..]), AddTo(accounts, Strip(a)))
  {
    hide ParseLine, CStrings, Clean, Line, Head, Text, PieceEnd, AddTo, Load, Pieces;
    ParsePrefix(a, j);
    TextOfSlice(a, 0, j);
    assert file[..j] == Line(a)[..j] == Line(a)[0..j];
    WholeName(a, j - |Head(a)|);
    LoadOne(file, accounts, j);
  }

  lemma WholeName(a: Account, n: nat)
    requires a.realname.Some? && n >= 1 && n >= |a.realname.value|
    ensures var r := a.realname.value;
            Strip(a).(realname := if n <= |r| then Some(r[..n]) else Some(r)) == Strip(a)
  {
    assert a.realname.value[..|a.realname.value|] == a.realname.value;
  }

  lemma LoadOne(file: seq<byte>, accounts: seq<Account>, j: nat)
    requires file != [] && j == PieceEnd(file)
    ensures Load(Pieces(file), accounts) ==
            var a := ParseLine(Text(file[..j]));
            Load(Pieces(file[j..]), if a.None? then accounts else AddTo(accounts, a.value))
  {
    hide ParseLine, PieceEnd, Text, AddTo;
    assert Pieces(file)[1..] == Pieces(file[j..]);
  }

  lemma LoadNewline(rest: seq<byte>, accounts: seq<Account>)
    ensures Load(Pieces([NEWLINE] + rest), accounts) == Load(Pieces(rest), accounts)
  {
    var file := [NEWLINE] + rest;
    IndexUnique(file, NEWLINE, 0);
    assert PieceEnd(file) == 1;
    assert file[..1] == [NEWLINE] && file[1..] == rest;
    LoadOne(file, accounts, 1);
    IndexUnique([NEWLINE], NUL, 1);
    IndexUnique([NEWLINE], COLON, 1);
    assert Text([NEWLINE]) == [NEWLINE];
    assert ParseLine([NEWLINE]) == None;
  }

  // ---- the file ----

  ghost predicate DistinctNames(accounts: seq<Account>) {
    forall i, j :: 0 <= i < j < |accounts| ==> accounts[i].username != accounts[j].username
  }

  ghost predicate AllStorable(accounts: seq<Account>) {
    forall i :: 0 <= i < |accounts| ==> CStrings(accounts[i]) && Storable(accounts[i])
  }

  function StripAll(accounts: seq<Account>): (s: seq<Account>)
    ensures |s| == |accounts|
    ensures forall i :: 0 <= i < |s| ==> s[i] == Strip(accounts[i])
  {
    seq(|accounts|, i requires 0 <= i < |accounts| => Strip(accounts[i]))
  }

  lemma {:induction false} LoadRest(done: seq<Account>, todo: seq<Account>)
    requires AllStorable(todo) && DistinctNames(done + todo)
    ensures Named(todo) && Load(Pieces(File(todo)), StripAll(done)) == StripAll(done + todo)
    decreases |todo|
  {
    hide CStrings, Clean, Line, Load, Pieces, AddTo, DistinctNames, Head;
    if todo == [] {
      assert done + todo == done;
      LoadNothing(StripAll(done));
    } else {
      var a := todo[0];
      NotTaken(done, todo);
      LoadRest(done + [a], todo[1..]);
      assert done + [a] + todo[1..] == done + todo;
      LoadLine(a, File(todo[1..]), StripAll(done));
      assert StripAll(done) + [Strip(a)] == StripAll(done + [a]);
    }
  }

  lemma LoadNothing(accounts: seq<Account>)
    ensures Load(Pieces([]), accounts) == accounts
  {
  }

  lemma NotTaken(done: seq<Account>, todo: seq<Account>)
    requires todo != [] && DistinctNames(done + todo)
    ensures AddTo(StripAll(done), Strip(todo[0])) == StripAll(done) + [Strip(todo[0])]
    ensures DistinctNames(done + [todo[0]] + todo[1..])
  {
    var all := done + todo;
    assert all[|done|] == todo[0];
    forall i | 0 <= i < |done| ensures StripAll(done)[i].username != todo[0].username {
      assert all[i] == done[i];
    }
    assert done + [todo[0]] + todo[1..] == all;
  }

  // Committing and reading again gives the same accounts in the same order, with the same
  // permissions, an empty password being none.
  lemma FileRoundTrip(accounts: seq<Account>)
    requires AllStorable(accounts) && DistinctNames(accounts)
    ensures Named(accounts) && LoadFile(File(accounts)) == StripAll(accounts)
  {
    assert [] + accounts == accounts;
    assert StripAll([]) == [];
    LoadRest([], accounts);
  }

  // ---- exactly the storable accounts survive ----

  // No newline but at the end.
  ghost predicate OneLine(c: seq<byte>) {
    forall m :: 0 <= m < |c| - 1 ==> c[m] != NEWLINE
  }

  // Where a piece of a file lies.
  lemma {:induction false} PieceAt(file: seq<byte>, k: nat) returns (i: nat, j: nat)
    requires k < |Pieces(file)|
    ensures i <= j <= |file| && j - i <= PIECE && Pieces(file)[k] == file[i..j]
    ensures OneLine(Pieces(file)[k])
    ensures k == 0 ==> i == 0
    ensures k > 0 ==> file != [] && i >= PieceEnd(file)
    decreases k
  {
    hide PieceEnd, OneLine, Pieces;
    if k == 0 {
      FirstPieceEnd(file);
      i, j := 0, PieceEnd(file);
    } else {
      LaterPieces(file, k);
      i, j := PieceAt(file[PieceEnd(file)..], k - 1);
      SliceOfRest(file, PieceEnd(file), i, j);
      i, j := PieceEnd(file) + i, PieceEnd(file) + j;
    }
  }

  lemma LaterPieces(file: seq<byte>, k: nat)
    requires 0 < k < |Pieces(file)|
    ensures file != []
    ensures k - 1 < |Pieces(file[PieceEnd(file)..])| && Pieces(file)[k] == Pieces(file[PieceEnd(file)..])[k - 1]
  {
    hide PieceEnd;
  }

  lemma SliceOfRest(file: seq<byte>, n: nat, i: nat, j: nat)
    requires n <= |file| && i <= j <= |file| - n
    ensures file[n..][i..j] == file[n + i..n + j]
  {
  }

  lemma FirstPieceEnd(file: seq<byte>)
    requires |Pieces(file)| > 0
    ensures file != [] && Pieces(file)[0] == file[0..PieceEnd(file)] && OneLine(Pieces(file)[0])
  {
  }

  // Every loaded account comes from one piece.
  lemma {:induction false} LoadedFrom(pieces: seq<seq<byte>>, accounts: seq<Account>, n: nat) returns (k: nat)
    requires |accounts| <= n < |Load(pieces, accounts)|
    ensures k < |pieces| && ParseLine(Text(pieces[k])) == Some(Load(pieces, accounts)[n])
    decreases |pieces|
  {
    hide ParseLine, Text, Taken;
    var a := ParseLine(Text(pieces[0]));
    var next := if a.None? then accounts else AddTo(accounts, a.value);
    if n < |next| {
      LoadKeeps(pieces[1..], next, n);
      k := 0;
    } else {
      k := LoadedFrom(pieces[1..], next, n);
      k := k + 1;
    }
  }

  lemma {:induction false} LoadKeeps(pieces: seq<seq<byte>>, accounts: seq<Account>, n: nat)
    requires n < |accounts|
    ensures n < |Load(pieces, accounts)| && Load(pieces, accounts)[n] == accounts[n]
    decreases |pieces|
  {
    if pieces != [] {
      var a := ParseLine(Text(pieces[0]));
      hide ParseLine, Text;
      LoadKeeps(pieces[1..], if a.None? then accounts else AddTo(accounts, a.value), n);
    }
  }

  // An account read from a piece has no separator in its fields.
  lemma ParsedClean(c: seq<byte>)
    requires ParseLine(c).Some? && OneLine(c)
    ensures Clean(ParseLine(c).value)
  {
    var i, j, k := ParsedColons(c);
    var a := ParseLine(c).value;
    hide ParseLine, Has, RealName, OneLine;
    NoNewline(c, 0, i);
    assert c[0..i] == c[..i];
    NoNewline(c, i + 1, j);
    if a.realname.Some? { RealNameClean(c[k + 1..]); }
  }

  lemma NoNewline(c: seq<byte>, i: nat, j: nat)
    requires i <= j < |c| && OneLine(c)
    ensures !Has(c[i..j], NEWLINE)
  {
    assert forall m :: 0 <= m < j - i ==> c[i..j][m] == c[i + m];
    IndexUnique(c[i..j], NEWLINE, j - i);
  }

  lemma RealNameClean(tail: seq<byte>)
    requires RealName(tail).Some?
    ensures !Has(RealName(tail).value, NEWLINE)
  {
    var n := IndexOf(tail, NEWLINE);
    IndexUnique(tail[..n], NEWLINE, n);
  }

  // The fields of an account, short enough for one piece even without permissions.
  ghost predicate Compact(a: Account) {
    |a.username| + |Password(a)| + 3 + (if a.realname.None? then 0 else |a.realname.value|) <= PIECE
  }

  lemma ParsedCompact(c: seq<byte>)
    requires ParseLine(c).Some?
    ensures var a := ParseLine(c).value;
            |a.username| + |Password(a)| + 3 + (if a.realname.None? then 0 else |a.realname.value|) <= |c|
  {
    hide ParseLine, Has;
    var i, j, k := ParsedColons(c);
    assert |c[..i]| == i && |c[i + 1..j]| == j - i - 1 && |c[k + 1..]| == |c| - k - 1;
  }

  // A line ends with its only newline.
  ghost predicate Ended(c: seq<byte>) {
    c != [] && c[|c| - 1] == NEWLINE && OneLine(c)
  }

  lemma EndedPiece(c: seq<byte>, rest: seq<byte>)
    requires Ended(c)
    ensures PieceEnd(c + rest) == if |c| <= PIECE then |c| else PIECE
    ensures |c| > PIECE ==> Ended(c[PIECE..])
  {
    IndexUnique(c + rest, NEWLINE, |c| - 1);
  }

  // So the pieces of a file are those of its lines.
  lemma {:induction false} PiecesOfLine(c: seq<byte>, rest: seq<byte>)
    requires c != [] && Ended(c)
    ensures Pieces(c + rest) == Pieces(c) + Pieces(rest)
    decreases |c|
  {
    hide PieceEnd, Ended, Pieces;
    EndedPiece(c, rest);
    EndedPiece(c, []);
    assert c + [] == c;
    PiecesFirst(c);
    PiecesFirst(c + rest);
    if |c| <= PIECE {
      NoPieces();
      assert (c + rest)[..|c|] == c && (c + rest)[|c|..] == rest;
      assert c[..|c|] == c && c[|c|..] == [];
    } else {
      assert (c + rest)[..PIECE] == c[..PIECE] && (c + rest)[PIECE..] == c[PIECE..] + rest;
      PiecesOfLine(c[PIECE..], rest);
    }
  }

  lemma PiecesFirst(file: seq<byte>)
    requires file != []
    ensures Pieces(file) == [file[..PieceEnd(file)]] + Pieces(file[PieceEnd(file)..])
  {
    hide PieceEnd;
  }

  lemma LineEnded(a: Account)
    requires Clean(a) && a.realname.Some?
    ensures Ended(Line(a))
  {
    forall m | 0 <= m < |Line(a)| - 1 ensures Line(a)[m] != NEWLINE { LineNewline(a, m); }
  }

  // A piece of a line starts it, or starts at least 255 bytes into it.
  lemma LinePiece(a: Account, k: nat) returns (i: nat, j: nat)
    requires Clean(a) && a.realname.Some? && k < |Pieces(Line(a))|
    ensures i <= j <= |Line(a)| && j - i <= PIECE && Pieces(Line(a))[k] == Line(a)[i..j]
    ensures i == 0 || i >= PIECE
  {
    LineEnded(a);
    EndedPiece(Line(a), []);
    hide Line, Clean, Ended, PieceEnd;
    assert Line(a) + [] == Line(a);
    i, j := PieceAt(Line(a), k);
    if |Line(a)| <= PIECE {
      assert Line(a)[|Line(a)|..] == [];
      assert Pieces(Line(a)[|Line(a)|..]) == [];
    }
  }

  ghost predicate AllClean(accounts: seq<Account>) {
    forall i :: 0 <= i < |accounts| ==> Clean(accounts[i])
  }

  // A piece of the file is a piece of one of its lines.
  lemma {:induction false} FilePiece(accounts: seq<Account>, n: nat) returns (m: nat, i: nat, j: nat)
    requires Named(accounts) && AllClean(accounts) && n < |Pieces(File(accounts))|
    ensures m < |accounts| && i <= j <= |Line(accounts[m])| && j - i <= PIECE && (i == 0 || i >= PIECE)
    ensures Pieces(File(accounts))[n] == Line(accounts[m])[i..j]
    decreases |accounts|
  {
    hide Clean, Pieces, Line;
    if accounts == [] {
      NoPieces();
      assert false;
    } else {
      LineEnded(accounts[0]);
      PiecesOfLine(Line(accounts[0]), File(accounts[1..]));
      var own := |Pieces(Line(accounts[0]))|;
      if n < own {
        m := 0;
        i, j := LinePiece(accounts[0], n);
      } else {
        m, i, j := FilePiece(accounts[1..], n - own);
        m := m + 1;
      }
    }
  }

  lemma NoPieces()
    ensures Pieces([]) == []
  {
  }

  lemma {:induction false} LoadDistinct(pieces: seq<seq<byte>>, accounts: seq<Account>)
    requires DistinctNames(accounts)
    ensures DistinctNames(Load(pieces, accounts))
    decreases |pieces|
  {
    if pieces != [] {
      var a := ParseLine(Text(pieces[0]));
      hide ParseLine, Text;
      LoadDistinct(pieces[1..], if a.None? then accounts else AddTo(accounts, a.value));
    }
  }

  // Whatever the file, an account loaded from it is clean and compact.
  lemma LoadedFits(file: seq<byte>, n: nat) returns (k: nat)
    requires n < |LoadFile(file)|
    ensures k < |Pieces(file)| && ParseLine(Text(Pieces(file)[k])) == Some(LoadFile(file)[n])
    ensures Clean(LoadFile(file)[n]) && Compact(LoadFile(file)[n])
  {
    k := LoadedFrom(Pieces(file), [], n);
    var i, j := PieceAt(file, k);
    hide ParseLine, Pieces, Load, Clean;
    var c := Text(Pieces(file)[k]);
    assert c <= Pieces(file)[k];
    ParsedClean(c);
    ParsedCompact(c);
  }

  // An account recovered from its own line, or from the middle of another, fits.
  lemma RecoveredFits(a: Account, b: Account, i: nat, j: nat)
    requires Clean(a) && Clean(b) && a.realname.Some? && b.realname.Some? && Compact(b)
    requires i <= j <= |Line(b)| && (i == 0 || i >= PIECE)
    requires j - i <= PIECE
    requires ParseLine(Line(b)[i..j]) == Some(Strip(a))
    requires a.username == b.username ==> a == b
    ensures Fits(a)
  {
    hide ParseLine, Clean, Has;
    if i == 0 {
      hide Line, Head;
      assert Line(b)[i..j] == Line(b)[..j];
      if j < |Head(b)| { ParseShort(b, j); } else { ParsePrefix(b, j); }
    } else {
      ParsedCompact(Line(b)[i..j]);
    }
  }

  lemma CleanStrip(a: Account)
    requires Clean(Strip(a))
    ensures Clean(a)
  {
  }

  lemma StripAgain(accounts: seq<Account>)
    requires DistinctNames(StripAll(accounts))
    ensures DistinctNames(accounts)
  {
    assert forall i :: 0 <= i < |accounts| ==> StripAll(accounts)[i].username == accounts[i].username;
  }

  ghost predicate AllCStrings(accounts: seq<Account>) {
    forall i :: 0 <= i < |accounts| ==> CStrings(accounts[i])
  }

  lemma BackIsClean(accounts: seq<Account>, k: nat)
    requires Named(accounts) && LoadFile(File(accounts)) == StripAll(accounts) && k < |accounts|
    ensures Clean(accounts[k]) && Compact(accounts[k])
  {
    hide Clean, LoadFile, File, Named, Pieces, ParseLine, Text;
    var _ := LoadedFits(File(accounts), k);
    CleanStrip(accounts[k]);
  }

  lemma BackIsStorable(accounts: seq<Account>, k: nat)
    requires Named(accounts) && AllCStrings(accounts) && DistinctNames(accounts) && k < |accounts|
    requires LoadFile(File(accounts)) == StripAll(accounts)
    ensures Storable(accounts[k])
  {
    hide Clean, Compact, Fits, LoadFile, Pieces, ParseLine, Text, CStrings, Line, File;
    forall i | 0 <= i < |accounts| ensures Clean(accounts[i]) && Compact(accounts[i]) { BackIsClean(accounts, i); }
    var n := LoadedFits(File(accounts), k);
    var m, i, j := FilePiece(accounts, n);
    TextOfSlice(accounts[m], i, j);
    RecoveredFits(accounts[k], accounts[m], i, j);
  }

  // The exact condition for a whole file: the list comes back if and only if its names are distinct
  // and every account is storable. An account that is not cannot be rescued by what another line
  // happens to contain.
  lemma ListExact(accounts: seq<Account>)
    requires Named(accounts) && AllCStrings(accounts)
    ensures LoadFile(File(accounts)) == StripAll(accounts) <==> AllStorable(accounts) && DistinctNames(accounts)
  {
    hide Clean, Fits, CStrings, Load, Pieces, File;
    if AllStorable(accounts) && DistinctNames(accounts) {
      FileRoundTrip(accounts);
    } else if LoadFile(File(accounts)) == StripAll(accounts) {
      LoadDistinct(Pieces(File(accounts)), []);
      StripAgain(accounts);
      forall k | 0 <= k < |accounts| ensures Storable(accounts[k]) { BackIsStorable(accounts, k); }
    }
  }

  // For one account: no field holds a separator, and the line fits one piece, its newline not counted
  // unless the real name is empty.
  lemma StoredExact(a: Account)
    requires CStrings(a) && a.realname.Some?
    ensures LoadFile(Line(a)) == [Strip(a)] <==> Storable(a)
  {
    hide Clean, Fits, CStrings, Load, Pieces, Line, Strip;
    ListExact([a]);
    assert File([a]) == Line(a) by {
      assert [a][1..] == [];
      assert Line(a) + [] == Line(a);
    }
    assert StripAll([a]) == [Strip(a)];
    assert [a][0] == a;
  }
}
