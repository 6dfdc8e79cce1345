/** Transaction.c: transactions read from a socket and transactions built and written. */
module Transaction {
  import opened Wrappers
  import opened Bytes
  import opened Socket
  import opened WireFormat

  // transaction_read, however the socket splits the stream.
  method Read(sock: Socket) returns (t: Option<Txn>)
    modifies sock
    ensures ReadResult(t, sock.input) == Decode(old(sock.input))
  {
    var ok, header := sock.ReadAll(22);
    if !ok {
      return None;
    }
    HeaderFront22(old(sock.input));
    var txn := Txn(Get16(header, 0), Get16(header, 2), Get32(header, 4), Get32(header, 8), []);
    var length := (Get32(header, 12) - 2) % 0x1_0000_0000;
    var count := Get16(header, 20);
    if length > MAX_TXN_SIZE || count > MAX_TXN_OBJS {
      return None;
    }
    if count == 0 || length == 0 {
      return Some(txn);
    }
    var body;
    ok, body := sock.ReadAll(length);
    if !ok {
      return None;
    }
    assert body == old(sock.input)[22..22 + length];
    var objects := ParseObjects(body, count);
    if objects.None? {
      return None;
    }
    t := Some(txn.(objects := objects.value));
  }

  // Fields of the header are fields of the stream.
  lemma HeaderFront22(s: seq<byte>)
    requires |s| >= 22
    ensures forall at :: 0 <= at <= 20 ==> Get16(s[..22], at) == Get16(s, at)
    ensures forall at :: 0 <= at <= 18 ==> Get32(s[..22], at) == Get32(s, at)
  {
  }

  // One turn of the loop over the body.
  method ParseObject(body: seq<byte>, at: nat, left: nat) returns (o: Option<Object>, bptr: nat, length: nat)
    requires at + left == |body|
    ensures o == FirstObject(body[at..])
    ensures o.Some? ==> bptr == at + 4 + |o.value.data| && bptr + length == |body|
  {
    bptr, length := at, left;
    if length < 4 {
      return None, bptr, length;
    }
    assert Get16(body[at..], 0) == Get16(body, at) && Get16(body[at..], 2) == Get16(body, at + 2);
    var id := Get16(body, bptr);
    bptr, length := bptr + 2, length - 2;
    var len := Get16(body, bptr);
    bptr, length := bptr + 2, length - 2;
    if length < len {
      return None, bptr, length;
    }
    assert body[at..][4..4 + len] == body[bptr..bptr + len];
    o := Some(Object(id, body[bptr..bptr + len]));
    bptr, length := bptr + len, length - len;
  }

  method ParseObjects(body: seq<byte>, count: nat) returns (r: Option<seq<Object>>)
    ensures r == DecodeObjects(body, count)
  {
    var objects: seq<Object> := [];
    var bptr: nat, length: nat := 0, |body|;
    assert body[0..] == body;
    ghost var all := DecodeObjects(body, count);
    assert all.Some? ==> [] + all.value == all.value;
    while |objects| < count
      invariant bptr + length == |body| && |objects| <= count
      invariant DecodeObjects(body, count) == After(objects, DecodeObjects(body[bptr..], count - |objects|))
    {
      ghost var tail := body[bptr..];
      var o;
      o, bptr, length := ParseObject(body, bptr, length);
      if o.None? {
        return None;
      }
      AfterOne(objects, o.value, DecodeObjects(body[bptr..], count - |objects| - 1));
      assert tail[4 + |o.value.data|..] == body[bptr..];
      objects := objects + [o.value];
    }
    assert objects + [] == objects;
    r := Some(objects);
  }

  // Objects read so far, before those still to come.
  ghost function After(objects: seq<Object>, rest: Option<seq<Object>>): Option<seq<Object>> {
    if rest.None? then None else Some(objects + rest.value)
  }

  lemma AfterOne(objects: seq<Object>, o: Object, rest: Option<seq<Object>>)
    ensures After(objects, if rest.None? then None else Some([o] + rest.value)) == After(objects + [o], rest)
  {
    if rest.Some? {
      assert objects + ([o] + rest.value) == objects + [o] + rest.value;
    }
  }

  // Transactions read one after the other from one connection.
  method ReadMany(sock: Socket, n: nat) returns (ts: Option<seq<Txn>>)
    modifies sock
    ensures StreamResult(ts, sock.input) == DecodeMany(old(sock.input), n)
    decreases n
  {
    if n == 0 {
      return Some([]);
    }
    var t := Read(sock);
    if t.None? {
      return None;
    }
    var more := ReadMany(sock, n - 1);
    ts := if more.None? then None else Some([t.value] + more.value);
  }

  class TransactionOut {
    var cls: u16
    const id: u16
    var taskno: u32
    const error: u32
    var length: u32
    var objCount: u16
    const maxObjects: u16
    // The vectors behind the seven of the header.
    var iov: seq<seq<byte>>
    // The objects added so far.
    ghost var objects: seq<Object>

    ghost predicate Valid()
      reads this
    {
      && |iov| == |objects| == objCount <= maxObjects
      && Sized(objects)
      && (forall i :: 0 <= i < |iov| ==> iov[i] == EncodeObject(objects[i]))
      && length == LengthField(|EncodeObjects(objects)|)
    }

    // transaction_create: the task number is chosen when the transaction is written.
    constructor Create(tid: u16, max: u16)
      ensures Valid() && objects == [] && maxObjects == max
      ensures cls == 0 && id == tid && error == 0
    {
      cls, id, taskno, error := 0, tid, 0, 0;
      length, objCount, maxObjects, iov, objects := 2, 0, max, [], [];
    }

    // transaction_reply_create
    constructor Reply(request: Txn, errorcode: u32, max: u16)
      ensures Valid() && objects == [] && maxObjects == max
      ensures cls == 1 && id == 0 && taskno == request.taskno && error == errorcode
    {
      cls, id, taskno, error := 1, 0, request.taskno, errorcode;
      length, objCount, maxObjects, iov, objects := 2, 0, max, [], [];
    }

    // transaction_add_object: beyond max_objects nothing is added.
    method AddObject(kind: u16, buf: seq<byte>)
      requires Valid() && |buf| < 0x1_0000
      modifies this`iov, this`length, this`objCount, this`objects
      ensures Valid()
      ensures objects == if old(objCount) >= maxObjects then old(objects) else old(objects) + [Object(kind, buf)]
    {
      hide EncodeObject, EncodeObjects, LengthField, Put16;
      if objCount >= maxObjects {
        return;
      }
      AppendObject(objects, Object(kind, buf));
      ObjectAdded(|EncodeObjects(objects)|, kind, buf);
      iov := iov + [Put16(kind) + Put16(|buf|) + buf];
      length := (length + 4 + |buf|) % 0x1_0000_0000;
      objCount := objCount + 1;
      objects := objects + [Object(kind, buf)];
    }

    // transaction_write: the bytes handed to writev. A transaction of class 0 takes the
    // connection's current task number.
    method Write(current: u32) returns (bytes: seq<byte>)
      requires Valid()
      modifies this`taskno
      ensures Valid() && taskno == if cls == 0 then current else old(taskno)
      ensures bytes == Encode(Txn(cls, id, taskno, error, objects))
      ensures |bytes| < 0x1_0000_0012 ==> OnWire(bytes, cls, id, taskno, error, |objects|)
    {
      hide EncodeObject, EncodeObjects, Header, OnWire;
      WrittenObjects(Txn(cls, id, if cls == 0 then current else taskno, error, objects));
      if cls == 0 {
        taskno := current;
      }
      bytes := Header(cls, id, taskno, error, length, objCount);
      var i := 0;
      assert objects[..0] == [];
      NoObjects();
      while i < |iov|
        invariant 0 <= i <= |iov| && Sized(objects[..i])
        invariant taskno == if cls == 0 then current else old(taskno)
        invariant bytes == Header(cls, id, taskno, error, length, objCount) + EncodeObjects(objects[..i])
      {
        assert objects[..i + 1] == objects[..i] + [objects[i]];
        AppendObject(objects[..i], objects[i]);
        bytes := bytes + iov[i];
        i := i + 1;
      }
      assert objects[..i] == objects;
      if |bytes| < 0x1_0000_0012 {
        WrittenOnWire(Txn(cls, id, taskno, error, objects));
      }
    }

    // transaction_add_int16, transaction_add_int32
    method AddInt16(kind: u16, value: u16)
      requires Valid()
      modifies this`iov, this`length, this`objCount, this`objects
      ensures Valid()
      ensures objects == if old(objCount) >= maxObjects then old(objects) else old(objects) + [Object(kind, Put16(value))]
    {
      AddObject(kind, Put16(value));
    }

    method AddInt32(kind: u16, value: u32)
      requires Valid()
      modifies this`iov, this`length, this`objCount, this`objects
      ensures Valid()
      ensures objects == if old(objCount) >= maxObjects then old(objects) else old(objects) + [Object(kind, Put32(value))]
    {
      AddObject(kind, Put32(value));
    }

    // transaction_add_masked_string. The length parameter of transaction_add_object has 16 bits.
    method AddMaskedString(kind: u16, s: seq<byte>)
      requires Valid()
      modifies this`iov, this`length, this`objCount, this`objects
      ensures Valid()
      ensures objects == if old(objCount) >= maxObjects then old(objects)
                         else old(objects) + [Object(kind, Mask(s[..|s| % 0x1_0000]))]
    {
      var buf := MaskBytes(s);
      MaskPrefix(s, |s| % 0x1_0000);
      AddObject(kind, buf[..|buf| % 0x1_0000]);
    }
  }

  // The header of a transaction on the wire. The bytes behind the two length fields are counted in
  // both of them.
  predicate OnWire(bytes: seq<byte>, cls: u16, id: u16, taskno: u32, error: u32, count: nat) {
    && |bytes| >= 22
    && Get16(bytes, 0) == cls && Get16(bytes, 2) == id && Get32(bytes, 4) == taskno && Get32(bytes, 8) == error
    && Get32(bytes, 12) == |bytes| - 20
    && Get32(bytes, 16) == |bytes| - 20
    && Get16(bytes, 20) == count
  }

  lemma WrittenOnWire(t: Txn)
    requires Writable(t) && |Encode(t)| < 0x1_0000_0012
    ensures OnWire(Encode(t), t.cls, t.id, t.taskno, t.error, |t.objects|)
  {
    WrittenSize(t);
    WrittenHeader(t);
  }

  lemma WrittenSize(t: Txn)
    requires Writable(t)
    ensures |Encode(t)| == 22 + |EncodeObjects(t.objects)|
  {
  }

  // The bytes and the length of one more object.
  lemma ObjectAdded(n: nat, kind: u16, buf: seq<byte>)
    requires |buf| < 0x1_0000
    ensures EncodeObject(Object(kind, buf)) == Put16(kind) + Put16(|buf|) + buf
    ensures |EncodeObject(Object(kind, buf))| == 4 + |buf|
    ensures LengthField(n + 4 + |buf|) == (LengthField(n) + 4 + |buf|) % 0x1_0000_0000
  {
  }

  lemma NoObjects()
    ensures Sized([]) && EncodeObjects([]) == []
  {
  }

  lemma WrittenObjects(t: Txn)
    requires Writable(t)
    ensures Encode(t) == Header(t.cls, t.id, t.taskno, t.error, LengthField(|EncodeObjects(t.objects)|), |t.objects|)
                         + EncodeObjects(t.objects)
  {
  }

  method MaskBytes(s: seq<byte>) returns (buf: seq<byte>)
    ensures buf == Mask(s)
  {
    buf := [];
    var i := 0;
    while i < |s|
      invariant 0 <= i <= |s| && buf == Mask(s[..i])
    {
      MaskAppend(s[..i], s[i]);
      assert s[..i + 1] == s[..i] + [s[i]];
      buf := buf + [255 - s[i]];
      i := i + 1;
    }
    assert s[..i] == s;
  }

  lemma {:induction false} AppendObject(os: seq<Object>, o: Object)
    requires Sized(os) && |o.data| < 0x1_0000
    ensures Sized(os + [o]) && EncodeObjects(os + [o]) == EncodeObjects(os) + EncodeObject(o)
  {
    if os == [] {
      assert os + [o] == [o];
      assert [o][1..] == [];
      assert EncodeObjects([o]) == EncodeObject(o) + EncodeObjects([]);
    } else {
      assert (os + [o])[1..] == os[1..] + [o];
      AppendObject(os[1..], o);
    }
  }

  // Flipping every bit of a byte: x ^ 0xFF.
  function Mask(s: seq<byte>): (m: seq<byte>)
    ensures |m| == |s|
  {
    if s == [] then [] else [255 - s[0]] + Mask(s[1..])
  }

  lemma {:induction false} MaskAppend(s: seq<byte>, b: byte)
    ensures Mask(s + [b]) == Mask(s) + [255 - b]
  {
    if s == [] {
      assert s + [b] == [b];
    } else {
      assert (s + [b])[1..] == s[1..] + [b];
      MaskAppend(s[1..], b);
    }
  }

  lemma {:induction false} MaskPrefix(s: seq<byte>, n: nat)
    requires n <= |s|
    ensures Mask(s)[..n] == Mask(s[..n])
  {
    if n > 0 {
      assert s[..n][1..] == s[1..][..n - 1];
      MaskPrefix(s[1..], n - 1);
      assert Mask(s)[..n] == [255 - s[0]] + Mask(s[1..])[..n - 1];
    }
  }

  // Every bit of every byte is flipped.
  lemma {:induction false} MaskFlips(s: seq<byte>, i: nat)
    requires i < |s|
    ensures Mask(s)[i] == 255 - s[i]
    ensures forall k :: 0 <= k < 8 ==> Bit(Mask(s)[i], k) == 1 - Bit(s[i], k)
  {
    if i > 0 {
      MaskFlips(s[1..], i - 1);
    } else {
      forall k | 0 <= k < 8 ensures Bit(255 - s[0], k) == 1 - Bit(s[0], k) {
        EightBits(k);
        BitsFlip(s[0], 256, k);
      }
    }
  }

  function Bit(b: nat, k: nat): int {
    if k == 0 then b % 2 else Bit(b / 2, k - 1)
  }

  lemma {:induction false} BitsFlip(b: nat, n: nat, k: nat)
    requires b < n && n % 2 == 0 && (k > 0 ==> Even(n / 2, k - 1))
    ensures Bit(n - 1 - b, k) == 1 - Bit(b, k)
    decreases k
  {
    if k > 0 {
      assert (n - 1 - b) / 2 == n / 2 - 1 - b / 2;
      BitsFlip(b / 2, n / 2, k - 1);
    }
  }

  lemma EightBits(k: nat)
    requires k < 8
    ensures k > 0 ==> Even(128, k - 1)
  {
    assert Even(16, 3) && Even(32, 4) && Even(64, 5);
    assert Even(128, 0) && Even(128, 1) && Even(128, 2) && Even(128, 3) && Even(128, 4) && Even(128, 5) && Even(128, 6);
  }

  // n can be halved k times and stays even.
  predicate Even(n: nat, k: nat) {
    n % 2 == 0 && (k > 0 ==> Even(n / 2, k - 1))
  }

  // Masking twice gives the string back.
  lemma {:induction false} MaskTwice(s: seq<byte>)
    ensures Mask(Mask(s)) == s
  {
    if s != [] {
      MaskTwice(s[1..]);
      assert Mask(s)[1..] == Mask(s[1..]);
    }
  }

  // transaction_object_int32: four bytes, two, one or none.
  function ObjectInt32(o: Object): u32 {
    if |o.data| >= 4 then Get32(o.data, 0)
    else if |o.data| >= 2 then Get16(o.data, 0)
    else if |o.data| > 0 then o.data[0]
    else 0
  }

  // transaction_object_int16
  function ObjectInt16(o: Object): u16 {
    if |o.data| >= 2 then Get16(o.data, 0)
    else if |o.data| > 0 then o.data[0]
    else 0
  }

  // Integers added to a transaction read back, in either width that holds them.
  lemma IntegerObjects(kind: u16, v: u16, w: u32)
    ensures ObjectInt16(Object(kind, Put16(v))) == v && ObjectInt32(Object(kind, Put16(v))) == v
    ensures ObjectInt32(Object(kind, Put32(w))) == w
  {
    Get16Put16(v, [], []);
    Get32Put32(w, [], []);
    assert [] + Put16(v) + [] == Put16(v);
    assert [] + Put32(w) + [] == Put32(w);
  }

  // An object that is too short for the width asked for is read in the widest width it has.
  lemma ShortIntegers(o: Object)
    ensures o.data == [] ==> ObjectInt32(o) == ObjectInt16(o) == 0
    ensures |o.data| == 1 ==> ObjectInt32(o) == ObjectInt16(o) == o.data[0]
    ensures 2 <= |o.data| < 4 ==> ObjectInt32(o) == ObjectInt16(o)
    ensures |o.data| >= 2 ==> Put16(ObjectInt16(o)) == o.data[..2]
    ensures |o.data| >= 4 ==> Put32(ObjectInt32(o)) == o.data[..4]
  {
    if |o.data| >= 4 {
      var d := o.data;
      BigEndian(d[0], d[1], d[2], d[3]);
      assert d[..4] == [d[0], d[1], d[2], d[3]];
    }
  }

  // Sending and receiving: whatever is built and written on one side, within the limits, is what
  // the other side reads, whatever the pieces it arrives in and whatever follows it.
  method Exchange(out: TransactionOut, current: u32, rest: seq<byte>) returns (t: Option<Txn>, left: seq<byte>)
    requires out.Valid()
    modifies out
    ensures var sent := Txn(out.cls, out.id, out.taskno, out.error, out.objects);
            && (WithinLimits(sent) ==> t == Some(sent) && left == rest)
            && (!WithinLimits(sent) ==> t == None)
  {
    var bytes := out.Write(current);
    var sock := new Socket(bytes + rest);
    t := Read(sock);
    left := sock.input;
    RoundTrip(Txn(out.cls, out.id, out.taskno, out.error, out.objects), rest);
  }

  // The transaction that is sent when `out` is written with the connection's task number.
  ghost function Sent(out: TransactionOut, current: u32): Txn
    reads out
  {
    Txn(out.cls, out.id, if out.cls == 0 then current else out.taskno, out.error, out.objects)
  }

  ghost function SentAll(outs: seq<TransactionOut>, currents: seq<u32>): (ts: seq<Txn>)
    requires |outs| == |currents|
    reads outs
    ensures |ts| == |outs| && forall i :: 0 <= i < |ts| ==> ts[i] == Sent(outs[i], currents[i])
  {
    seq(|outs|, i requires 0 <= i < |outs| reads outs => Sent(outs[i], currents[i]))
  }

  lemma SentWritable(out: TransactionOut, current: u32)
    requires out.Valid()
    ensures Writable(Sent(out, current))
  {
  }

  // One connection's stream: the built transactions written one after the other.
  method WriteAll(outs: seq<TransactionOut>, currents: seq<u32>) returns (bytes: seq<byte>)
    requires |outs| == |currents| && forall i :: 0 <= i < |outs| ==> outs[i].Valid()
    modifies outs
    ensures forall i :: 0 <= i < |outs| ==> Writable(old(SentAll(outs, currents))[i])
    ensures bytes == EncodeAll(old(SentAll(outs, currents)))
  {
    hide EncodeAll, Encode, EncodeObjects, Writable;
    ghost var sent := SentAll(outs, currents);
    forall i | 0 <= i < |outs| ensures Writable(sent[i]) { SentWritable(outs[i], currents[i]); }
    bytes := [];
    assert EncodeAll([]) == [] by { NothingSent(); }
    var i := 0;
    assert sent[..0] == [];
    while i < |outs|
      invariant 0 <= i <= |outs|
      invariant forall j :: 0 <= j < |outs| ==> outs[j].Valid() && Sent(outs[j], currents[j]) == sent[j]
      invariant bytes == EncodeAll(sent[..i])
    {
      EncodeAllAppend(sent[..i], sent[i]);
      assert sent[..i + 1] == sent[..i] + [sent[i]];
      var b := outs[i].Write(currents[i]);
      bytes := bytes + b;
      i := i + 1;
    }
    assert sent[..i] == sent;
  }

  lemma NothingSent()
    ensures EncodeAll([]) == []
  {
  }

  // The same for a whole stream: transactions built on one side are what the other side reads, if
  // and only if every one of them is within the limits.
  method ExchangeAll(outs: seq<TransactionOut>, currents: seq<u32>, rest: seq<byte>)
    returns (received: Option<seq<Txn>>, left: seq<byte>)
    requires |outs| == |currents| && forall i :: 0 <= i < |outs| ==> outs[i].Valid()
    modifies outs
    ensures var sent := old(SentAll(outs, currents));
            if AllWithinLimits(sent) then received == Some(sent) && left == rest else received == None
  {
    hide EncodeAll, Writable, WithinLimits, DecodeMany;
    var bytes := WriteAll(outs, currents);
    StreamExact(old(SentAll(outs, currents)), rest);
    var sock := new Socket(bytes + rest);
    received := ReadMany(sock, |outs|);
    left := sock.input;
  }
}
