/** The account entries of am_build_userlist: a message object whose bytes are themselves a counted
    list of objects. */
module UserList {
  import opened Wrappers
  import opened Bytes
  import opened AccountFile
  import opened WireFormat
  import opened Transaction

  const HL_MESSAGE: u16 := 101
  const HL_NICKNAME: u16 := 102
  const HL_USERNAME: u16 := 105
  const HL_PASSWORD: u16 := 106
  const HL_PERMISSION: u16 := 110

  // mcpy_int16 and the length parameter of transaction_add_object keep 16 bits.
  function Low16(n: nat): u16 {
    n % 0x1_0000
  }

  function Part(id: u16, len: u16, data: seq<byte>): (s: seq<byte>)
    ensures |s| == 4 + |data|
  {
    Put16(id) + Put16(len) + data
  }

  function EntryBytes(a: Account): (s: seq<byte>)
    requires a.realname.Some?
    ensures |s| == 27 + |a.username| + |a.realname.value|
  {
    var r, u := a.realname.value, a.username;
    Put16(4) + Part(HL_NICKNAME, Low16(|r|), r) + Part(HL_USERNAME, Low16(|u|), Mask(u))
    + Part(HL_PASSWORD, 1, [120]) + Part(HL_PERMISSION, 8, a.perms)
  }

  // The object the reply carries for one account.
  function Entry(a: Account): Object
    requires a.realname.Some?
  {
    Object(HL_MESSAGE, EntryBytes(a)[..Low16(|EntryBytes(a)|)])
  }

  function Entries(accounts: seq<Account>): (os: seq<Object>)
    requires Named(accounts)
    ensures |os| == |accounts| && forall i :: 0 <= i < |os| ==> os[i] == Entry(accounts[i])
  {
    if accounts == [] then [] else [Entry(accounts[0])] + Entries(accounts[1..])
  }

  // The reply after i accounts: max_objects bounds it.
  function Reply(accounts: seq<Account>, i: nat, max: u16): seq<Object>
    requires Named(accounts) && i <= |accounts|
  {
    Entries(accounts)[..if i < max then i else max]
  }

  lemma ReplyEnds(accounts: seq<Account>, max: u16)
    requires Named(accounts)
    ensures Reply(accounts, 0, max) == []
    ensures max == Low16(|accounts|) ==> Reply(accounts, |accounts|, max) == Userlist(accounts)
  {
  }

  lemma ReplyNext(accounts: seq<Account>, i: nat, max: u16)
    requires Named(accounts) && i < |accounts|
    ensures accounts[i].realname.Some?
    ensures |Reply(accounts, i, max)| == if i < max then i else max
    ensures Reply(accounts, i + 1, max) ==
            if |Reply(accounts, i, max)| >= max then Reply(accounts, i, max)
            else Reply(accounts, i, max) + [Entry(accounts[i])]
  {
  }

  // The user list: one entry for each account, in list order, up to the 16-bit size.
  function Userlist(accounts: seq<Account>): seq<Object>
    requires Named(accounts)
  {
    Reply(accounts, |accounts|, Low16(|accounts|))
  }

  // Below 65536 accounts every slot is filled and no account is dropped.
  lemma UserlistComplete(accounts: seq<Account>)
    requires Named(accounts)
    ensures |Userlist(accounts)| == Low16(|accounts|)
    ensures |Userlist(accounts)| < 0x1_0000 && (|accounts| - |Userlist(accounts)|) % 0x1_0000 == 0
    ensures Userlist(accounts) == Entries(accounts) <==> |accounts| < 0x1_0000
  {
    hide Entry;
    if |accounts| < 0x1_0000 {
      assert Entries(accounts)[..|accounts|] == Entries(accounts);
    }
  }

  // What a client reads out of an entry.
  function EntryObjects(a: Account): seq<Object>
    requires a.realname.Some?
  {
    [Object(HL_NICKNAME, a.realname.value), Object(HL_USERNAME, Mask(a.username)),
     Object(HL_PASSWORD, [120]), Object(HL_PERMISSION, a.perms)]
  }

  // An entry of at most 65535 bytes is a well-formed list of four objects: the nickname, the
  // masked user name, the placeholder password and the permissions.
  lemma EntryReads(a: Account)
    requires a.realname.Some? && 27 + |a.username| + |a.realname.value| < 0x1_0000
    ensures var s := Entry(a).data;
            && |s| == 27 + |a.username| + |a.realname.value|
            && Get16(s, 0) == 4
            && DecodeObjects(s[2..], 4) == Some([Object(102, a.realname.value), Object(105, Mask(a.username)),
                                                 Object(106, [120]), Object(110, a.perms)])
    ensures Entry(a).id == 101
  {
    hide EncodeObjects, DecodeObjects, EncodeObject, EntryBytes, Mask, Get16;
    var os, s := EntryObjects(a), EntryBytes(a);
    FourObjects(os);
    EntryIs(a);
    var body := EncodeObjects(os);
    DecodeEncodeObjects(os, []);
    Front16(4, body);
    assert s[..|s|] == s;
    assert body + [] == body;
  }

  // A longer entry is cut to as many bytes as its length has in 16 bits.
  lemma EntryCut(a: Account)
    requires a.realname.Some?
    ensures var s := Entry(a).data;
            && s <= EntryBytes(a) && |s| < 0x1_0000
            && (27 + |a.username| + |a.realname.value| - |s|) % 0x1_0000 == 0
  {
  }

  lemma Front16(v: u16, body: seq<byte>)
    ensures Get16(Put16(v) + body, 0) == v && (Put16(v) + body)[2..] == body
  {
    Get16Put16(v, [], body);
    assert [] + Put16(v) + body == Put16(v) + body;
  }

  lemma EntryIs(a: Account)
    requires a.realname.Some? && 27 + |a.username| + |a.realname.value| < 0x1_0000
    ensures var os := EntryObjects(a);
            EntryBytes(a) == Put16(4) + (EncodeObject(os[0]) + EncodeObject(os[1]) + EncodeObject(os[2]) + EncodeObject(os[3]))
  {
    PartIsObject(Object(HL_NICKNAME, a.realname.value));
    PartIsObject(Object(HL_USERNAME, Mask(a.username)));
    PartIsObject(Object(HL_PASSWORD, [120]));
    PartIsObject(Object(HL_PERMISSION, a.perms));
    hide EncodeObject, Part, Mask;
  }

  lemma PartIsObject(o: Object)
    requires |o.data| < 0x1_0000
    ensures EncodeObject(o) == Part(o.id, |o.data|, o.data) && Low16(|o.data|) == |o.data|
  {
  }

  lemma FourObjects(os: seq<Object>)
    requires |os| == 4 && Sized(os)
    ensures EncodeObjects(os) ==
            EncodeObject(os[0]) + EncodeObject(os[1]) + EncodeObject(os[2]) + EncodeObject(os[3])
  {
    hide EncodeObjects, EncodeObject;
    assert os[1..][1..] == os[2..] && os[2..][1..] == os[3..];
    EncodeFirst(os);
    EncodeFirst(os[1..]);
    EncodeFirst(os[2..]);
    EncodeLast(os[3..]);
  }

  lemma EncodeLast(os: seq<Object>)
    requires |os| == 1 && Sized(os)
    ensures EncodeObjects(os) == EncodeObject(os[0])
  {
    assert os[1..] == [];
  }

  // memcpy into the buffer behind what is already there.
  method Copy(buf: array<byte>, at: nat, s: seq<byte>)
    requires at + |s| <= buf.Length
    modifies buf
    ensures buf[..at + |s|] == old(buf[..at]) + s
  {
    var i := 0;
    while i < |s|
      invariant 0 <= i <= |s|
      invariant buf[..at] == old(buf[..at])
      invariant buf[at..at + i] == s[..i]
    {
      buf[at + i] := s[i];
      assert buf[at..at + i + 1] == buf[at..at + i] + [s[i]];
      i := i + 1;
    }
    assert buf[..at + i] == buf[..at] + buf[at..at + i];
  }

  // The loop that masks the user name.
  method CopyMasked(buf: array<byte>, at: nat, s: seq<byte>)
    requires at + |s| <= buf.Length
    modifies buf
    ensures buf[..at + |s|] == old(buf[..at]) + Mask(s)
  {
    var i := 0;
    while i < |s|
      invariant 0 <= i <= |s|
      invariant buf[..at] == old(buf[..at])
      invariant buf[at..at + i] == Mask(s[..i])
    {
      MaskAppend(s[..i], s[i]);
      assert s[..i + 1] == s[..i] + [s[i]];
      buf[at + i] := 255 - s[i];
      assert buf[at..at + i + 1] == buf[at..at + i] + [255 - s[i]];
      i := i + 1;
    }
    assert s[..i] == s;
    assert buf[..at + i] == buf[..at] + buf[at..at + i];
  }

  method CopyPart(buf: array<byte>, at: nat, id: u16, len: u16, data: seq<byte>)
    requires at + 4 + |data| <= buf.Length
    modifies buf
    ensures buf[..at + 4 + |data|] == old(buf[..at]) + Part(id, len, data)
  {
    Copy(buf, at, Put16(id));
    Copy(buf, at + 2, Put16(len));
    Copy(buf, at + 4, data);
  }

  method CopyMaskedPart(buf: array<byte>, at: nat, id: u16, len: u16, s: seq<byte>)
    requires at + 4 + |s| <= buf.Length
    modifies buf
    ensures buf[..at + 4 + |s|] == old(buf[..at]) + Part(id, len, Mask(s))
  {
    Copy(buf, at, Put16(id));
    Copy(buf, at + 2, Put16(len));
    CopyMasked(buf, at + 4, s);
  }

  // The buffer of add_userlist_entry.
  method Fill(a: Account) returns (buf: array<byte>)
    requires a.realname.Some?
    ensures fresh(buf) && buf[..] == EntryBytes(a)
  {
    hide Part, Mask, Put16;
    var r, u := a.realname.value, a.username;
    var rl, ul := |r|, |u|;
    buf := new byte[27 + ul + rl];
    assert buf[..0] == [];
    Copy(buf, 0, Put16(4));
    CopyPart(buf, 2, HL_NICKNAME, Low16(rl), r);
    CopyMaskedPart(buf, 6 + rl, HL_USERNAME, Low16(ul), u);
    CopyPart(buf, 10 + rl + ul, HL_PASSWORD, 1, [120]);
    CopyPart(buf, 15 + rl + ul, HL_PERMISSION, 8, a.perms);
    assert buf[..27 + rl + ul] == buf[..];
  }

  // add_userlist_entry
  method AddEntry(t: TransactionOut, a: Account)
    requires t.Valid() && a.realname.Some?
    modifies t`iov, t`length, t`objCount, t`objects
    ensures t.Valid()
    ensures t.objects == if old(t.objCount) >= t.maxObjects then old(t.objects) else old(t.objects) + [Entry(a)]
  {
    var buf := Fill(a);
    t.AddObject(HL_MESSAGE, buf[..Low16(buf.Length)]);
  }
}
