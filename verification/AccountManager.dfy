/** AccountManager.c: the account list and the hash table beside it, kept in step; loading and
    saving the account file; the user list sent to clients. */
module AccountManager {
  import opened Wrappers
  import opened Bytes
  import opened CString
  import opened Primes
  import Chains
  import opened HashTable
  import opened Permissions
  import opened AccountFile
  import opened WireFormat
  import AccountParser
  import StringHash
  import opened Transaction
  import opened UserList

  // ---- the list and the index ----

  // The list holds exactly the table's accounts, each once.
  ghost predicate Agree(accounts: seq<Account>, entries: map<seq<byte>, Account>) {
    && |accounts| == |entries|
    && DistinctNames(accounts)
    && (forall i :: 0 <= i < |accounts| ==>
          accounts[i].username in entries && entries[accounts[i].username] == accounts[i])
    && (forall u :: u in entries ==> Taken(accounts, u))
  }

  lemma AgreeAppend(accounts: seq<Account>, entries: map<seq<byte>, Account>, a: Account)
    requires Agree(accounts, entries) && a.username !in entries
    ensures Agree(accounts + [a], entries[a.username := a])
    ensures !Taken(accounts, a.username)
  {
    var next := accounts + [a];
    assert next[|accounts|] == a;
    forall u | u in entries[a.username := a] ensures Taken(next, u) {
      if u != a.username {
        var i :| 0 <= i < |accounts| && accounts[i].username == u;
        assert next[i] == accounts[i];
      }
    }
  }

  lemma TakenIff(accounts: seq<Account>, entries: map<seq<byte>, Account>, u: seq<byte>)
    requires Agree(accounts, entries)
    ensures Taken(accounts, u) <==> u in entries
  {
  }

  function Without(accounts: seq<Account>, k: nat): seq<Account>
    requires k < |accounts|
  {
    accounts[..k] + accounts[k + 1..]
  }

  lemma WithoutAt(accounts: seq<Account>, k: nat)
    requires k < |accounts|
    ensures |Without(accounts, k)| == |accounts| - 1
    ensures forall i :: 0 <= i < k ==> Without(accounts, k)[i] == accounts[i]
    ensures forall i :: k <= i < |accounts| - 1 ==> Without(accounts, k)[i] == accounts[i + 1]
  {
  }

  lemma DropTaken(accounts: seq<Account>, k: nat, u: seq<byte>)
    requires k < |accounts| && Taken(accounts, u) && u != accounts[k].username
    ensures Taken(Without(accounts, k), u)
  {
    WithoutAt(accounts, k);
    hide Without;
    var i :| 0 <= i < |accounts| && accounts[i].username == u;
    if i < k { assert Without(accounts, k)[i].username == u; } else { assert Without(accounts, k)[i - 1].username == u; }
  }

  lemma DropDistinct(accounts: seq<Account>, k: nat)
    requires k < |accounts| && DistinctNames(accounts)
    ensures DistinctNames(Without(accounts, k))
    ensures forall i :: 0 <= i < |accounts| - 1 ==> Without(accounts, k)[i].username != accounts[k].username
  {
    WithoutAt(accounts, k);
    hide Without;
  }

  lemma DropIndexed(accounts: seq<Account>, entries: map<seq<byte>, Account>, k: nat, i: nat)
    requires i < |accounts| - 1 && k < |accounts| && Agree(accounts, entries)
    ensures var a := Without(accounts, k)[i]; a.username in entries && entries[a.username] == a
  {
    WithoutAt(accounts, k);
    hide Without, Taken;
    var j := if i < k then i else i + 1;
    assert Without(accounts, k)[i] == accounts[j];
  }

  lemma AgreeDrop(accounts: seq<Account>, entries: map<seq<byte>, Account>, k: nat)
    requires k < |accounts| && Agree(accounts, entries)
    ensures Agree(Without(accounts, k), entries - {accounts[k].username})
  {
    var next := Without(accounts, k);
    DropDistinct(accounts, k);
    Chains.RemovalSize(entries, accounts[k].username);
    forall i: nat | i < |next| ensures next[i].username in entries && entries[next[i].username] == next[i] {
      DropIndexed(accounts, entries, k, i);
    }
    hide Without, Taken, DistinctNames;
    forall u | u in entries && u != accounts[k].username ensures Taken(next, u) {
      DropTaken(accounts, k, u);
    }
  }

  // The list without the account of that name.
  function WithoutName(accounts: seq<Account>, u: seq<byte>): seq<Account> {
    if accounts == [] then []
    else if accounts[0].username == u then accounts[1..]
    else [accounts[0]] + WithoutName(accounts[1..], u)
  }

  lemma {:induction false} WithoutNameAt(accounts: seq<Account>, k: nat)
    requires k < |accounts| && DistinctNames(accounts)
    ensures WithoutName(accounts, accounts[k].username) == Without(accounts, k)
  {
    if k > 0 {
      WithoutNameAt(accounts[1..], k - 1);
      assert [accounts[0]] + Without(accounts[1..], k - 1) == Without(accounts, k);
    }
  }

  lemma {:induction false} WithoutNone(accounts: seq<Account>, u: seq<byte>)
    requires forall i :: 0 <= i < |accounts| ==> accounts[i].username != u
    ensures WithoutName(accounts, u) == accounts
  {
    if accounts != [] {
      WithoutNone(accounts[1..], u);
    }
  }

  // Of distinct names, exactly the account of that name goes, and the others keep their order.
  lemma WithoutNameExact(accounts: seq<Account>, u: seq<byte>)
    requires DistinctNames(accounts)
    ensures !Taken(accounts, u) ==> WithoutName(accounts, u) == accounts
    ensures Taken(accounts, u) ==>
              exists k :: 0 <= k < |accounts| && accounts[k].username == u
                          && WithoutName(accounts, u) == accounts[..k] + accounts[k + 1..]
  {
    if Taken(accounts, u) {
      var k :| 0 <= k < |accounts| && accounts[k].username == u;
      WithoutNameAt(accounts, k);
    } else {
      WithoutNone(accounts, u);
    }
  }

  lemma NameAbsent(accounts: seq<Account>, entries: map<seq<byte>, Account>, u: seq<byte>)
    requires Agree(accounts, entries) && u !in entries
    ensures WithoutName(accounts, u) == accounts && entries - {u} == entries
  {
    WithoutNone(accounts, u);
  }

  // Where an account of the index stands in the list.
  lemma AgreePosition(accounts: seq<Account>, entries: map<seq<byte>, Account>, u: seq<byte>) returns (k: nat)
    requires Agree(accounts, entries) && u in entries
    ensures k < |accounts| && accounts[k] == entries[u] && accounts[k].username == u
    ensures forall i :: 0 <= i < |accounts| && i != k ==> accounts[i] != entries[u]
    ensures WithoutName(accounts, u) == Without(accounts, k)
  {
    k :| 0 <= k < |accounts| && accounts[k].username == u;
    WithoutNameAt(accounts, k);
  }

  class AccountNode {
    var a: Account
    var l: AccountNode?

    constructor (a: Account)
      ensures this.a == a && l == null
    {
      this.a, l := a, null;
    }
  }

  ghost function Next(spine: seq<AccountNode>, i: nat): AccountNode? {
    if i + 1 < |spine| then spine[i + 1] else null
  }

  ghost predicate Linked(spine: seq<AccountNode>, head: AccountNode?, tail: AccountNode?)
    reads spine
  {
    && (forall i, j :: 0 <= i < j < |spine| ==> spine[i] != spine[j])
    && (forall i :: 0 <= i < |spine| ==> spine[i].l == Next(spine, i))
    && head == (if spine == [] then null else spine[0])
    && tail == (if spine == [] then null else spine[|spine| - 1])
  }

  ghost function Listed(spine: seq<AccountNode>): (s: seq<Account>)
    reads spine
    ensures |s| == |spine| && forall i :: 0 <= i < |s| ==> s[i] == spine[i].a
  {
    seq(|spine|, i requires 0 <= i < |spine| reads spine => spine[i].a)
  }

  lemma ListedNodes(spine: seq<AccountNode>)
    ensures |Listed(spine)| == |spine|
    ensures forall i :: 0 <= i < |spine| ==> spine[i].a == Listed(spine)[i]
  {
  }

  lemma Empty()
    ensures Linked([], null, null) && Listed([]) == [] && Agree([], map[])
  {
  }

  lemma ListedAppend(was: seq<AccountNode>, accounts: seq<Account>, node: AccountNode)
    requires |was| == |accounts| && forall i :: 0 <= i < |was| ==> was[i].a == accounts[i]
    ensures Listed(was + [node]) == accounts + [node.a]
  {
  }

  lemma LinkedTail(spine: seq<AccountNode>, head: AccountNode?, tail: AccountNode?)
    requires Linked(spine, head, tail)
    ensures head == null <==> spine == []
    ensures head != null ==> tail == spine[|spine| - 1] && tail in spine
  {
  }

  // Links of the list one node longer.
  lemma LinkedAppend(was: seq<AccountNode>, node: AccountNode)
    requires node !in was && node.l == null && (forall i, j :: 0 <= i < j < |was| ==> was[i] != was[j])
    requires forall i :: 0 <= i < |was| - 1 ==> was[i].l == Next(was, i)
    requires was != [] ==> was[|was| - 1].l == node
    ensures Linked(was + [node], (was + [node])[0], node)
  {
    var spine := was + [node];
    forall i | 0 <= i < |spine| ensures spine[i].l == Next(spine, i) {
      if i < |was| - 1 { assert spine[i] == was[i] && Next(spine, i) == Next(was, i); }
    }
  }

  // Links of the list with node k passed over.
  lemma LinkedBypass(was: seq<AccountNode>, k: nat)
    requires 0 < k < |was| && (forall i, j :: 0 <= i < j < |was| ==> was[i] != was[j])
    requires forall i :: 0 <= i < |was| && i != k - 1 ==> was[i].l == Next(was, i)
    requires was[k - 1].l == Next(was, k)
    ensures var spine := was[..k] + was[k + 1..]; Linked(spine, was[0], spine[|spine| - 1])
  {
    var spine := was[..k] + was[k + 1..];
    forall i | 0 <= i < |spine| ensures spine[i].l == Next(spine, i) {
      var j := if i < k then i else i + 1;
      assert spine[i] == was[j];
      assert i + 1 < |spine| ==> spine[i + 1] == was[if i + 1 < k then i + 1 else i + 2];
    }
  }

  lemma ListedWithout(was: seq<AccountNode>, accounts: seq<Account>, k: nat)
    requires k < |was| == |accounts| && (forall i :: 0 <= i < |was| ==> was[i].a == accounts[i])
    ensures Listed(was[..k] + was[k + 1..]) == Without(accounts, k)
  {
    var spine := was[..k] + was[k + 1..];
    assert forall i :: 0 <= i < |spine| ==> spine[i] == was[if i < k then i else i + 1];
  }

  class AccountManager {
    var table: Table<seq<byte>, Account>
    var head: AccountNode?
    var tail: AccountNode?
    ghost var spine: seq<AccountNode>

    ghost predicate Valid()
      reads this, table, table.buckets, spine
    {
      && table.Valid()
      && Linked(spine, head, tail)
      && Agree(Listed(spine), table.entries)
    }

    ghost function Accounts(): seq<Account>
      reads this, spine
    {
      Listed(spine)
    }

    // The static initialisers and the first part of am_init.
    constructor ()
      ensures Valid() && Accounts() == []
      ensures fresh(table) && fresh(table.buckets) && spine == []
    {
      table := new Table(StringHash.Hash);
      head, tail, spine := null, null, [];
    }

    // The list part of am_add_account_with_permissions.
    method Append(a: Account)
      requires Linked(spine, head, tail)
      modifies this`head, this`tail, this`spine, spine
      ensures Linked(spine, head, tail) && Listed(spine) == old(Listed(spine)) + [a]
      ensures forall n :: n in spine ==> n in old(spine) || fresh(n)
    {
      hide Listed;
      ghost var was, accounts := spine, Listed(spine);
      ListedNodes(spine);
      var node := new AccountNode(a);
      LinkedTail(spine, head, tail);
      if head == null {
        head, tail := node, node;
      } else {
        tail.l := node;
        tail := node;
      }
      spine := spine + [node];
      LinkedAppend(was, node);
      hide Linked;
      assert forall i :: 0 <= i < |was| ==> was[i].a == old(was[i].a);
      ListedAppend(was, accounts, node);
    }

    // am_add_account_with_permissions: a name that is taken is refused.
    method Add(a: Account) returns (ret: int)
      requires Valid() && table.nNodes < INT_MAX
      modifies this`head, this`tail, this`spine, spine, table, table.buckets
      ensures Valid() && table == old(table) && (table.buckets == old(table.buckets) || fresh(table.buckets))
      ensures forall n :: n in spine ==> n in old(spine) || fresh(n)
      ensures Accounts() == AddTo(old(Accounts()), a)
      ensures Taken(old(Accounts()), a.username) ==> ret == -1 && Accounts() == old(Accounts())
      ensures !Taken(old(Accounts()), a.username) ==> ret == 0 && Accounts() == old(Accounts()) + [a]
      ensures table.nNodes <= old(table.nNodes) + 1
    {
      hide Agree, Linked, Listed, Taken;
      ghost var accounts, entries := Listed(spine), table.entries;
      TakenIff(accounts, entries, a.username);
      ret := table.Insert(a.username, a);
      if ret < 0 {
        return -1;
      }
      AgreeAppend(accounts, entries, a);
      Append(a);
    }

    // The node of an account the index had: the scan of am_del_account behind the head.
    method Predecessor(a: Account, ghost k: nat) returns (n: AccountNode)
      requires Linked(spine, head, tail)
      requires 0 < k < |spine| && spine[k].a == a
      requires forall i :: 0 <= i < |spine| && i != k ==> spine[i].a != a
      ensures n == spine[k - 1] && n.l == spine[k]
    {
      n := head;
      ghost var i := 0;
      while n.l != null && n.l.a != a
        invariant 0 <= i < k && n == spine[i]
        decreases k - i
      {
        assert n.l == spine[i + 1];
        n := n.l;
        i := i + 1;
      }
      assert n.l == spine[i + 1];
    }

    // The head leaves the list.
    method DropHead()
      requires Linked(spine, head, tail) && spine != []
      modifies this`head, this`tail, this`spine
      ensures Linked(spine, head, tail) && spine == old(spine)[1..]
    {
      head := head.l;
      if head == null {
        tail := null;
      }
      spine := spine[1..];
    }

    // The node behind n leaves the list.
    method Bypass(n: AccountNode, ghost k: nat)
      requires Linked(spine, head, tail)
      requires 0 < k < |spine| && n == spine[k - 1]
      modifies this`tail, this`spine, n`l
      ensures Linked(spine, head, tail) && spine == old(spine)[..k] + old(spine)[k + 1..]
    {
      ghost var was := spine;
      assert n.l == was[k];
      assert was[k].l == Next(was, k);
      if n.l == tail {
        tail := n;
      }
      n.l := n.l.l;
      spine := was[..k] + was[k + 1..];
      LinkedBypass(was, k);
      hide Linked;
      assert |spine| > 0 && spine[|spine| - 1] == if k + 1 == |was| then was[k - 1] else was[|was| - 1];
    }

    // The list part of am_del_account.
    method Unlink(a: Account, ghost k: nat)
      requires Linked(spine, head, tail)
      requires k < |spine| && spine[k].a == a
      requires forall i :: 0 <= i < |spine| && i != k ==> spine[i].a != a
      modifies this`head, this`tail, this`spine, spine
      ensures Linked(spine, head, tail) && Listed(spine) == Without(old(Listed(spine)), k)
      ensures forall n :: n in spine ==> n in old(spine)
    {
      hide Listed, Linked;
      ListedNodes(spine);
      NodeAt(spine, head, tail, 0);
      ghost var was, accounts := spine, Listed(spine);
      if head.a == a {
        assert k == 0;
        DropHead();
        assert spine == was[..k] + was[k + 1..];
      } else {
        var n := Predecessor(a, k);
        Bypass(n, k);
      }
      assert forall i :: 0 <= i < |was| ==> was[i].a == old(was[i].a);
      ListedWithout(was, accounts, k);
    }

    // What am_del_account does to the list for an account the table had.
    method Forget(a: Account, ghost entries: map<seq<byte>, Account>, ghost username: seq<byte>)
      requires Linked(spine, head, tail) && Agree(Listed(spine), entries)
      requires username in entries && entries[username] == a
      modifies this`head, this`tail, this`spine, spine
      ensures Linked(spine, head, tail) && Agree(Listed(spine), entries - {username})
      ensures Listed(spine) == WithoutName(old(Listed(spine)), username)
      ensures forall n :: n in spine ==> n in old(spine)
    {
      hide Agree, Linked, Listed, Without, WithoutName;
      ghost var accounts := Listed(spine);
      ListedNodes(spine);
      ghost var k := AgreePosition(accounts, entries, username);
      AgreeDrop(accounts, entries, k);
      Unlink(a, k);
    }

    // am_del_account: the branch for an account the list does not have cannot be taken.
    method Delete(username: seq<byte>) returns (ret: int)
      requires Valid()
      modifies this`head, this`tail, this`spine, spine, table, table.buckets
      ensures Valid() && table == old(table) && (table.buckets == old(table.buckets) || fresh(table.buckets))
      ensures forall n :: n in spine ==> n in old(spine)
      ensures ret == if Taken(old(Accounts()), username) then 0 else -1
      ensures Accounts() == WithoutName(old(Accounts()), username)
    {
      hide Agree, Linked, Listed, Taken, WithoutName, Table.Valid;
      ghost var accounts, entries := Listed(spine), table.entries;
      var a := RemoveIndexed(username);
      if a.Some? {
        Forget(a.value, entries, username);
      } else {
        NameAbsent(accounts, entries, username);
      }
      ret := if a.Some? then 0 else -1;
    }

    // hash_table_remove leaves the list alone.
    method RemoveIndexed(username: seq<byte>) returns (a: Option<Account>)
      requires Valid()
      modifies table, table.buckets
      ensures table.Valid() && (table.buckets == old(table.buckets) || fresh(table.buckets))
      ensures table.entries == old(table.entries) - {username}
      ensures a.Some? <==> username in old(table.entries)
      ensures a.Some? <==> Taken(Listed(spine), username)
      ensures a.Some? ==> a.value == old(table.entries)[username]
      ensures Linked(spine, head, tail) && Listed(spine) == old(Listed(spine))
    {
      hide Agree, Linked, Listed, Taken, Table.Valid;
      TakenIff(Listed(spine), table.entries, username);
      a := table.Remove(username);
    }

    // am_lookup_account
    method Lookup(username: seq<byte>) returns (a: Option<Account>)
      requires Valid()
      modifies table.buckets
      ensures Valid() && Accounts() == old(Accounts())
      ensures a.Some? <==> Taken(Accounts(), username)
      ensures a.Some? ==> a.value in Accounts() && a.value.username == username
    {
      hide Agree, Linked, Listed, Taken, Table.Valid;
      TakenIff(Listed(spine), table.entries, username);
      a := table.Lookup(username);
      if a.Some? {
        ghost var k := AgreePosition(Listed(spine), table.entries, username);
        assert Listed(spine)[k] == a.value;
      }
    }

    // am_commit: the file as written.
    method Commit() returns (file: seq<byte>)
      requires Valid() && Named(Accounts())
      ensures file == File(Accounts())
    {
      hide Agree, Line, File, Table.Valid;
      FileNone();
      file := [];
      var n := head;
      ghost var i := 0;
      ghost var accounts := Accounts();
      while n != null
        invariant 0 <= i <= |spine|
        invariant n == if i < |spine| then spine[i] else null
        invariant file == File(accounts[..i])
        decreases |spine| - i
      {
        FileAppend(accounts[..i], n.a);
        assert accounts[..i + 1] == accounts[..i] + [n.a];
        file := file + Line(n.a);
        n := n.l;
        i := i + 1;
      }
      assert accounts[..i] == accounts;
    }

    // fgets into a buffer of 256 bytes.
    method Fgets(file: seq<byte>, pos: nat, buffer: array<byte>) returns (n: nat)
      requires pos < |file| && buffer.Length == PIECE + 1
      modifies buffer
      ensures n == PieceEnd(file[pos..])
      ensures buffer[..n] == file[pos..pos + n] && buffer[n] == NUL
    {
      n := 0;
      ghost var rest := file[pos..];
      while pos + n < |file| && n < PIECE && (n == 0 || file[pos + n - 1] != NEWLINE)
        invariant n <= PIECE && pos + n <= |file|
        invariant buffer[..n] == file[pos..pos + n]
        invariant forall k :: 0 <= k < n - 1 ==> rest[k] != NEWLINE
      {
        buffer[n] := file[pos + n];
        assert n >= 1 ==> rest[n - 1] == file[pos + n - 1];
        n := n + 1;
      }
      buffer[n] := NUL;
      assert n >= 1 ==> rest[n - 1] == file[pos + n - 1];
      PieceEndIs(rest, n);
    }

    // One turn of the loop of am_init.
    method ReadLine(line: array<byte>, ghost piece: seq<byte>)
      requires Valid() && table.nNodes < INT_MAX
      requires AccountParser.Ends(line[..], 0) && Text(line[..]) == Text(piece)
      modifies line, this`head, this`tail, this`spine, spine, table, table.buckets
      ensures Valid() && table == old(table) && (table.buckets == old(table.buckets) || fresh(table.buckets))
      ensures forall n :: n in spine ==> n in old(spine) || fresh(n)
      ensures Accounts() == Load([piece], old(Accounts()))
      ensures table.nNodes <= old(table.nNodes) + 1
    {
      LoadSingle(piece, Accounts());
      hide Agree, Linked, Listed, Table.Valid, Load, AddTo, Taken, ParseLine;
      var a := AccountParser.ProcessLine(line);
      if a.Some? {
        var _ := Add(a.value);
      }
    }

    // fgets, and what is made of the piece.
    method ReadPiece(file: seq<byte>, pos: nat, buffer: array<byte>) returns (n: nat)
      requires Valid() && table.nNodes < INT_MAX && pos < |file| && buffer.Length == PIECE + 1
      modifies buffer, this`head, this`tail, this`spine, spine, table, table.buckets
      ensures 1 <= n <= |file| - pos
      ensures Valid() && table == old(table) && (table.buckets == old(table.buckets) || fresh(table.buckets))
      ensures forall n :: n in spine ==> n in old(spine) || fresh(n)
      ensures Load(Pieces(file[pos + n..]), Accounts()) == Load(Pieces(file[pos..]), old(Accounts()))
      ensures table.nNodes <= old(table.nNodes) + 1
    {
      hide Valid, Agree, Linked, Listed, Table.Valid, Load, Pieces, ParseLine, PieceEnd;
      n := Fgets(file, pos, buffer);
      LoadPiece(file, pos, n, Accounts());
      BufferText(buffer[..], file[pos..pos + n]);
      ReadLine(buffer, file[pos..pos + n]);
    }

    // The loop of am_init, on the structures it has just created.
    method ReadFile(file: seq<byte>)
      requires Valid() && spine == [] && |file| < INT_MAX && table.nNodes == 0
      modifies this`head, this`tail, this`spine, table, table.buckets
      ensures Valid() && Accounts() == LoadFile(file)
      ensures table == old(table) && (table.buckets == old(table.buckets) || fresh(table.buckets))
      ensures forall n :: n in spine ==> fresh(n)
      ensures table.nNodes <= |file|
    {
      hide Valid, Agree, Linked, Listed, Table.Valid, Load, Pieces, AddTo, Taken, ParseLine, PieceEnd;
      var buffer := new byte[PIECE + 1];
      var pos := 0;
      assert file[0..] == file;
      ListedNodes(spine);
      while pos < |file|
        invariant pos <= |file| && table.nNodes <= pos
        invariant Valid() && table == old(table) && (table.buckets == old(table.buckets) || fresh(table.buckets))
        invariant forall n :: n in spine ==> fresh(n)
        invariant Load(Pieces(file[pos..]), Accounts()) == LoadFile(file)
      {
        assert forall i :: 0 <= i < |spine| ==> spine[i] in spine;
        var n := ReadPiece(file, pos, buffer);
        pos := pos + n;
      }
      LoadRestNone(Accounts(), file[pos..]);
    }

    // am_init: a file that cannot be opened, or that has no account, leaves the fallback account.
    method Init(file: Option<seq<byte>>)
      requires file.Some? ==> |file.value| < INT_MAX
      modifies this
      ensures Valid()
      ensures Accounts() == if file.Some? && LoadFile(file.value) != [] then LoadFile(file.value) else [FALLBACK_ACCOUNT]
      ensures fresh(table) && fresh(table.buckets) && forall n :: n in spine ==> fresh(n)
    {
      hide Agree, Table.Valid, Load, Pieces, AddTo, LoadFile, Taken;
      Clear();
      if file.Some? {
        ReadFile(file.value);
        if head != null {
          return;
        }
      }
      FallbackAlone();
      var _ := Add(FALLBACK_ACCOUNT);
    }

    method Clear()
      modifies this
      ensures Valid() && spine == [] && table.nNodes == 0 && fresh(table) && fresh(table.buckets)
    {
      hide Agree, Linked, Listed, Table.Valid;
      table := new Table(StringHash.Hash);
      head, tail, spine := null, null, [];
      Empty();
    }

    // am_commit, and am_init on what it wrote: the same accounts in the same order, an empty
    // password being none; only an empty list comes back as the fallback account.
    method CommitAndInit()
      requires Valid() && AllStorable(Accounts()) && Named(Accounts()) && |File(Accounts())| < INT_MAX
      modifies this
      ensures Valid()
      ensures Accounts() == if old(Accounts()) == [] then [FALLBACK_ACCOUNT] else StripAll(old(Accounts()))
    {
      hide Agree, AllStorable, File, LoadFile, Table.Valid;
      AgreeDistinct(Accounts(), table.entries);
      FileRoundTrip(Accounts());
      var file := Commit();
      Init(Some(file));
    }

    // am_build_userlist: max_objects is the size of the table, cut to 16 bits.
    method BuildUserlist(request: Txn) returns (ret: TransactionOut)
      requires Valid() && Named(Accounts())
      ensures fresh(ret) && ret.Valid() && ret.cls == 1 && ret.id == 0 && ret.taskno == request.taskno && ret.error == 0
      ensures ret.maxObjects == Low16(|Accounts()|)
      ensures ret.objects == Userlist(Accounts())
    {
      hide Agree, Table.Valid, Entry, Reply, Userlist, Listed, Linked, EncodeObjects, Named;
      AgreeSize(Accounts(), table);
      ghost var accounts := Accounts();
      ret := new TransactionOut.Reply(request, 0, Low16(table.nNodes));
      ReplyEnds(accounts, ret.maxObjects);
      NodeAt(spine, head, tail, 0);
      var n := head;
      ghost var i := 0;
      while n != null
        invariant 0 <= i <= |accounts| == |spine| && n == Node(spine, i)
        invariant ret.Valid() && ret.cls == 1 && ret.taskno == request.taskno
        invariant ret.objects == Reply(accounts, i, ret.maxObjects)
        decreases |spine| - i
      {
        NodeAt(spine, head, tail, i);
        ReplyNext(accounts, i, ret.maxObjects);
        AddEntry(ret, n.a);
        n := n.l;
        i := i + 1;
      }
    }
  }

  // The node in place i, or the null pointer behind the last.
  ghost function Node(spine: seq<AccountNode>, i: nat): AccountNode? {
    if i < |spine| then spine[i] else null
  }

  lemma NodeAt(spine: seq<AccountNode>, head: AccountNode?, tail: AccountNode?, i: nat)
    requires Linked(spine, head, tail)
    ensures |Listed(spine)| == |spine| && head == Node(spine, 0)
    ensures i < |spine| ==> spine[i].l == Node(spine, i + 1) && spine[i].a == Listed(spine)[i]
  {
  }

  lemma AgreeDistinct(accounts: seq<Account>, entries: map<seq<byte>, Account>)
    requires Agree(accounts, entries)
    ensures DistinctNames(accounts)
  {
  }

  lemma AgreeSize(accounts: seq<Account>, table: Table<seq<byte>, Account>)
    requires table.Valid() && Agree(accounts, table.entries)
    ensures table.nNodes == |accounts|
  {
  }

  // "admin", "Administrator"
  const FALLBACK_ACCOUNT := Account([97, 100, 109, 105, 110],
                                    Some([65, 100, 109, 105, 110, 105, 115, 116, 114, 97, 116, 111, 114]),
                                    None, FromAscii(FALLBACK))

  // The account am_init falls back to, character by character: no password, and every permission
  // permissions_is_superuser looks for.
  lemma FallbackFields()
    ensures var u, r := FALLBACK_ACCOUNT.username, FALLBACK_ACCOUNT.realname;
            && |u| == |"admin"| && (forall i :: 0 <= i < |u| ==> u[i] == "admin"[i] as int)
            && r.Some? && |r.value| == |"Administrator"|
            && (forall i :: 0 <= i < |r.value| ==> r.value[i] == "Administrator"[i] as int)
    ensures FALLBACK_ACCOUNT.password == None
    ensures FALLBACK_ACCOUNT.perms == [255, 243, 207, 255, 255, 128, 0, 0]
    ensures |FALLBACK| == 16 && forall i :: 0 <= i < 16 ==> FALLBACK[i] == "FFF3CFFFFF800000"[i] as int
  {
    hide FromAscii;
    FallbackIsSuperuser();
  }

  lemma FallbackAlone()
    ensures AddTo([], FALLBACK_ACCOUNT) == [FALLBACK_ACCOUNT]
  {
  }

  lemma LoadSingle(piece: seq<byte>, accounts: seq<Account>)
    ensures Load([piece], accounts) ==
            var a := ParseLine(Text(piece)); if a.None? then accounts else AddTo(accounts, a.value)
  {
    hide ParseLine, Text, AddTo;
    assert [piece][1..] == [];
  }

  lemma LoadPiece(file: seq<byte>, pos: nat, n: nat, accounts: seq<Account>)
    requires pos < |file| && n == PieceEnd(file[pos..])
    ensures Load(Pieces(file[pos..]), accounts) ==
            Load(Pieces(file[pos + n..]), Load([file[pos..pos + n]], accounts))
  {
    hide PieceEnd, ParseLine, AddTo, Text, Pieces, Load;
    var rest := file[pos..];
    assert rest[..n] == file[pos..pos + n] && rest[n..] == file[pos + n..];
    LoadOne(rest, accounts, n);
    LoadSingle(file[pos..pos + n], accounts);
  }

  lemma PieceEndIs(rest: seq<byte>, n: nat)
    requires 1 <= n <= |rest| && n <= PIECE
    requires forall k :: 0 <= k < n - 1 ==> rest[k] != NEWLINE
    requires n == |rest| || n == PIECE || rest[n - 1] == NEWLINE
    ensures n == PieceEnd(rest)
  {
    if rest[n - 1] == NEWLINE {
      IndexUnique(rest, NEWLINE, n - 1);
    }
  }

  // What the C string functions see of the filled buffer.
  lemma BufferText(buffer: seq<byte>, piece: seq<byte>)
    requires |piece| < |buffer| && buffer[..|piece|] == piece && buffer[|piece|] == NUL
    ensures AccountParser.Ends(buffer, 0) && Text(buffer) == Text(piece)
  {
    assert buffer[0..] == buffer;
    var n := IndexOf(piece, NUL);
    assert forall k :: 0 <= k < |piece| ==> buffer[k] == piece[k];
    IndexUnique(buffer, NUL, n);
    assert buffer[..n] == piece[..n];
  }

  lemma LoadRestNone(accounts: seq<Account>, rest: seq<byte>)
    requires rest == []
    ensures Load(Pieces(rest), accounts) == accounts
  {
  }

  lemma FileNone()
    ensures File([]) == []
  {
  }

  lemma {:induction false} FileAppend(accounts: seq<Account>, a: Account)
    requires Named(accounts) && a.realname.Some?
    ensures Named(accounts + [a]) && File(accounts + [a]) == File(accounts) + Line(a)
  {
    if accounts == [] {
      assert accounts + [a] == [a] && [a][1..] == [];
      assert [] + Line(a) == Line(a) + [];
    } else {
      assert (accounts + [a])[1..] == accounts[1..] + [a];
      FileAppend(accounts[1..], a);
    }
  }
}
