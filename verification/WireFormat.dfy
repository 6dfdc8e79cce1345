/** The wire format of Transaction.c: a 22-byte header and a counted list of objects. */
module WireFormat {
  import opened Wrappers
  import opened Bytes

  const MAX_TXN_SIZE := 262144
  const MAX_TXN_OBJS := 64

  // An object; obj_len is the length of its data.
  datatype Object = Object(id: u16, data: seq<byte>)

  datatype Txn = Txn(cls: u16, id: u16, taskno: u32, error: u32, objects: seq<Object>)

  // obj_len has 16 bits, and so has the object count.
  predicate Sized(os: seq<Object>) {
    forall i :: 0 <= i < |os| ==> |os[i].data| < 0x1_0000
  }

  predicate Writable(t: Txn) {
    |t.objects| < 0x1_0000 && Sized(t.objects)
  }

  // ---- writing ----

  function EncodeObject(o: Object): seq<byte>
    requires |o.data| < 0x1_0000
  {
    Put16(o.id) + Put16(|o.data|) + o.data
  }

  function EncodeObjects(os: seq<Object>): seq<byte>
    requires Sized(os)
  {
    if os == [] then [] else EncodeObject(os[0]) + EncodeObjects(os[1..])
  }

  // The length field: 2 for the object count, modulo 32 bits.
  function LengthField(bytes: nat): u32 {
    (2 + bytes) % 0x1_0000_0000
  }

  function Header(cls: u16, id: u16, taskno: u32, error: u32, length: u32, count: u16): (s: seq<byte>)
    ensures |s| == 22
  {
    Put16(cls) + Put16(id) + Put32(taskno) + Put32(error) + Put32(length) + Put32(length) + Put16(count)
  }

  function Encode(t: Txn): seq<byte>
    requires Writable(t)
  {
    var body := EncodeObjects(t.objects);
    Header(t.cls, t.id, t.taskno, t.error, LengthField(|body|), |t.objects|) + body
  }

  // ---- reading ----

  // The object at the front of a body, when the body is long enough for it.
  function FirstObject(body: seq<byte>): (o: Option<Object>)
    ensures o.Some? ==> |o.value.data| < 0x1_0000 && 4 + |o.value.data| <= |body|
  {
    if |body| < 4 then None
    else
      var len := Get16(body, 2);
      if |body| - 4 < len then None else Some(Object(Get16(body, 0), body[4..4 + len]))
  }

  function DecodeObjects(body: seq<byte>, count: nat): Option<seq<Object>>
    decreases count
  {
    if count == 0 then Some([])
    else
      var o := FirstObject(body);
      if o.None? then None
      else
        var rest := DecodeObjects(body[4 + |o.value.data|..], count - 1);
        if rest.None? then None else Some([o.value] + rest.value)
  }

  // The result of transaction_read, and what it leaves of the stream.
  datatype ReadResult = ReadResult(txn: Option<Txn>, rest: seq<byte>)

  function Decode(s: seq<byte>): ReadResult {
    if |s| < 22 then ReadResult(None, [])
    else
      var length := (Get32(s, 12) - 2) % 0x1_0000_0000;
      var count := Get16(s, 20);
      var txn := Txn(Get16(s, 0), Get16(s, 2), Get32(s, 4), Get32(s, 8), []);
      if length > MAX_TXN_SIZE || count > MAX_TXN_OBJS then ReadResult(None, s[22..])
      else if count == 0 || length == 0 then ReadResult(Some(txn), s[22..])
      else if |s| - 22 < length then ReadResult(None, [])
      else
        var os := DecodeObjects(s[22..22 + length], count);
        ReadResult(if os.None? then None else Some(txn.(objects := os.value)), s[22 + length..])
  }

  // ---- round trips ----

  lemma ObjectFields(o: Object, rest: seq<byte>)
    requires |o.data| < 0x1_0000
    ensures var s := EncodeObject(o) + rest;
            && |s| == 4 + |o.data| + |rest|
            && Get16(s, 0) == o.id && Get16(s, 2) == |o.data|
            && s[4..4 + |o.data|] == o.data && s[4 + |o.data|..] == rest
  {
    var s := EncodeObject(o) + rest;
    assert s == [] + Put16(o.id) + (Put16(|o.data|) + o.data + rest);
    Get16Put16(o.id, [], Put16(|o.data|) + o.data + rest);
    assert s == Put16(o.id) + Put16(|o.data|) + (o.data + rest);
    Get16Put16(|o.data|, Put16(o.id), o.data + rest);
  }

  lemma DecodeHead(o: Object, more: seq<byte>, count: nat)
    requires |o.data| < 0x1_0000
    ensures DecodeObjects(EncodeObject(o) + more, count + 1) ==
            var rest := DecodeObjects(more, count);
            if rest.None? then None else Some([o] + rest.value)
  {
    ObjectFields(o, more);
    assert FirstObject(EncodeObject(o) + more) == Some(o);
    hide EncodeObject, FirstObject;
  }

  lemma {:induction false} DecodeEncodeObjects(os: seq<Object>, rest: seq<byte>)
    requires Sized(os)
    ensures DecodeObjects(EncodeObjects(os) + rest, |os|) == Some(os)
  {
    if os != [] {
      hide EncodeObjects, EncodeObject, DecodeObjects;
      EncodeRest(os, rest);
      DecodeEncodeObjects(os[1..], rest);
      DecodeHead(os[0], EncodeObjects(os[1..]) + rest, |os| - 1);
    } else {
      assert [] + rest == rest;
    }
  }

  lemma EncodeRest(os: seq<Object>, rest: seq<byte>)
    requires os != [] && Sized(os)
    ensures Sized(os[1..]) && os == [os[0]] + os[1..]
    ensures EncodeObjects(os) + rest == EncodeObject(os[0]) + (EncodeObjects(os[1..]) + rest)
  {
    hide EncodeObjects, EncodeObject;
    EncodeFirst(os);
    Associative(EncodeObject(os[0]), EncodeObjects(os[1..]), rest);
  }

  lemma Associative(a: seq<byte>, b: seq<byte>, c: seq<byte>)
    ensures a + b + c == a + (b + c)
  {
  }

  lemma EncodeFirst(os: seq<Object>)
    requires os != [] && Sized(os)
    ensures EncodeObjects(os) == EncodeObject(os[0]) + EncodeObjects(os[1..])
  {
  }

  lemma FirstEncoded(body: seq<byte>)
    requires FirstObject(body).Some?
    ensures var o := FirstObject(body).value; EncodeObject(o) == body[..4 + |o.data|]
  {
    Put16Get16(body, 0);
    Put16Get16(body, 2);
  }

  // Soundness: accepted objects, written again, are a prefix of the body they came from.
  lemma {:induction false} EncodeDecodeObjects(body: seq<byte>, count: nat)
    requires DecodeObjects(body, count).Some?
    ensures var os := DecodeObjects(body, count).value;
            && |os| == count && Sized(os) && EncodeObjects(os) <= body
    decreases count
  {
    if count > 0 {
      var o := FirstObject(body).value;
      var rest := body[4 + |o.data|..];
      EncodeDecodeObjects(rest, count - 1);
      FirstEncoded(body);
      var os := DecodeObjects(body, count).value;
      assert os == [o] + DecodeObjects(rest, count - 1).value;
      assert os[1..] == DecodeObjects(rest, count - 1).value;
      assert body == body[..4 + |o.data|] + rest;
    }
  }

  lemma HeaderFields(cls: u16, id: u16, taskno: u32, error: u32, length: u32, count: u16, rest: seq<byte>)
    ensures var s := Header(cls, id, taskno, error, length, count) + rest;
            && Get16(s, 0) == cls && Get16(s, 2) == id && Get32(s, 4) == taskno && Get32(s, 8) == error
            && Get32(s, 12) == Get32(s, 16) == length && Get16(s, 20) == count && s[22..] == rest
  {
    HeaderFront(cls, id, taskno, error, Put32(length) + Put32(length) + Put16(count) + rest);
    HeaderBack(Put16(cls) + Put16(id) + Put32(taskno) + Put32(error), length, count, rest);
    var s := Header(cls, id, taskno, error, length, count) + rest;
    assert s == Put16(cls) + Put16(id) + Put32(taskno) + Put32(error) + (Put32(length) + Put32(length) + Put16(count) + rest);
    assert s == (Put16(cls) + Put16(id) + Put32(taskno) + Put32(error)) + Put32(length) + Put32(length) + Put16(count) + rest;
  }

  lemma HeaderFront(cls: u16, id: u16, taskno: u32, error: u32, rest: seq<byte>)
    ensures var s := Put16(cls) + Put16(id) + Put32(taskno) + Put32(error) + rest;
            Get16(s, 0) == cls && Get16(s, 2) == id && Get32(s, 4) == taskno && Get32(s, 8) == error
  {
    var a, b, c, d := Put16(cls), Put16(id), Put32(taskno), Put32(error);
    var s := a + b + c + d + rest;
    assert s == [] + a + (b + c + d + rest);
    Get16Put16(cls, [], b + c + d + rest);
    assert s == a + b + (c + d + rest);
    Get16Put16(id, a, c + d + rest);
    assert s == (a + b) + c + (d + rest);
    Get32Put32(taskno, a + b, d + rest);
    Get32Put32(error, a + b + c, rest);
  }

  lemma HeaderBack(front: seq<byte>, length: u32, count: u16, rest: seq<byte>)
    requires |front| == 12
    ensures var s := front + Put32(length) + Put32(length) + Put16(count) + rest;
            Get32(s, 12) == Get32(s, 16) == length && Get16(s, 20) == count && s[22..] == rest
  {
    var l, c := Put32(length), Put16(count);
    var s := front + l + l + c + rest;
    assert s == front + l + (l + c + rest);
    Get32Put32(length, front, l + c + rest);
    Get32Put32(length, front + l, c + rest);
    Get16Put16(count, front + l + l, rest);
  }

  // A transaction the reader's limits admit.
  predicate WithinLimits(t: Txn) {
    Writable(t) && |t.objects| <= MAX_TXN_OBJS && |EncodeObjects(t.objects)| <= MAX_TXN_SIZE
  }

  lemma {:induction false} EncodedSize(os: seq<Object>)
    requires Sized(os)
    ensures 4 * |os| <= |EncodeObjects(os)| <= 65539 * |os|
  {
    if os != [] {
      EncodedSize(os[1..]);
    }
  }

  // The parts of a written transaction as the reader sees them.
  lemma WrittenFields(t: Txn, rest: seq<byte>)
    requires Writable(t)
    ensures var s := Encode(t) + rest;
            var body := EncodeObjects(t.objects);
            && |s| == 22 + |body| + |rest|
            && Get16(s, 0) == t.cls && Get16(s, 2) == t.id && Get32(s, 4) == t.taskno && Get32(s, 8) == t.error
            && Get32(s, 12) == Get32(s, 16) == LengthField(|body|) && Get16(s, 20) == |t.objects|
            && s[22..] == body + rest
  {
    var body := EncodeObjects(t.objects);
    assert Encode(t) + rest == Header(t.cls, t.id, t.taskno, t.error, LengthField(|body|), |t.objects|) + (body + rest);
    HeaderFields(t.cls, t.id, t.taskno, t.error, LengthField(|body|), |t.objects|, body + rest);
  }

  // The bytes on the wire, field by field: class, id, task number and error, then twice the number of
  // bytes behind the two length fields, the number of objects, and the objects themselves.
  lemma WrittenHeader(t: Txn)
    requires Writable(t) && |EncodeObjects(t.objects)| < 0xffff_fffe
    ensures var s := Encode(t);
            && |s| == 22 + |EncodeObjects(t.objects)|
            && Get16(s, 0) == t.cls && Get16(s, 2) == t.id && Get32(s, 4) == t.taskno && Get32(s, 8) == t.error
            && Get32(s, 12) == Get32(s, 16) == |s| - 20
            && Get16(s, 20) == |t.objects|
  {
    WrittenFields(t, []);
    assert Encode(t) + [] == Encode(t);
  }

  // Where each object starts in the body, and its bytes there: id, length, data.
  lemma {:induction false} WrittenObject(os: seq<Object>, i: nat) returns (at: nat)
    requires Sized(os) && i < |os|
    ensures at == |EncodeObjects(os[..i])| && at + 4 + |os[i].data| <= |EncodeObjects(os)|
    ensures var s := EncodeObjects(os);
            Get16(s, at) == os[i].id && Get16(s, at + 2) == |os[i].data| && s[at + 4..at + 4 + |os[i].data|] == os[i].data
  {
    var s := EncodeObjects(os);
    EncodeFirst(os);
    ObjectFields(os[0], EncodeObjects(os[1..]));
    if i == 0 {
      at := 0;
    } else {
      at := WrittenObject(os[1..], i - 1);
      assert os[1..][..i - 1] == os[..i][1..];
      EncodeFirst(os[..i]);
      var n := 4 + |os[0].data|;
      InTail(s, n, at, 4 + |os[i].data|);
      at := n + at;
    }
  }

  lemma InTail(s: seq<byte>, n: nat, at: nat, len: nat)
    requires n + at + len <= |s| && len >= 4
    ensures Get16(s, n + at) == Get16(s[n..], at) && Get16(s, n + at + 2) == Get16(s[n..], at + 2)
    ensures s[n + at + 4..n + at + len] == s[n..][at + 4..at + len]
  {
  }

  lemma LengthBack(n: nat)
    requires n < 0xffff_0000
    ensures (LengthField(n) - 2) % 0x1_0000_0000 == n
  {
  }

  // The reader's last branch, on a stream cut into its parts.
  lemma DecodeParts(s: seq<byte>, t: Txn, body: seq<byte>, rest: seq<byte>)
    requires |s| == 22 + |body| + |rest| && s[22..] == body + rest
    requires Get16(s, 0) == t.cls && Get16(s, 2) == t.id && Get32(s, 4) == t.taskno && Get32(s, 8) == t.error
    requires (Get32(s, 12) - 2) % 0x1_0000_0000 == |body| <= MAX_TXN_SIZE
    requires Get16(s, 20) == |t.objects| <= MAX_TXN_OBJS
    requires DecodeObjects(body, |t.objects|) == Some(t.objects)
    requires |body| == 0 <==> t.objects == []
    ensures Decode(s) == ReadResult(Some(t), rest)
  {
    hide DecodeObjects, Get16, Get32;
    SplitAt(s, 22, body, rest);
    assert s[22..22 + |body|] == body;
    if t.objects == [] {
      assert body + rest == rest;
    }
  }

  lemma ReadBack(t: Txn, rest: seq<byte>)
    requires WithinLimits(t)
    ensures Decode(Encode(t) + rest) == ReadResult(Some(t), rest)
  {
    var body := EncodeObjects(t.objects);
    hide Encode, EncodeObjects, DecodeObjects, Decode, Get16, Get32, LengthField;
    WrittenFields(t, rest);
    EncodedSize(t.objects);
    LengthBack(|body|);
    DecodeEncodeObjects(t.objects, []);
    assert body + [] == body;
    DecodeParts(Encode(t) + rest, t, body, rest);
  }

  lemma SplitAt(s: seq<byte>, at: nat, body: seq<byte>, rest: seq<byte>)
    requires at <= |s| && s[at..] == body + rest
    ensures at + |body| <= |s| && s[at..at + |body|] == body && s[at + |body|..] == rest
  {
    assert s[at..at + |body|] == s[at..][..|body|];
    assert s[at + |body|..] == s[at..][|body|..];
  }

  lemma Refused(t: Txn, rest: seq<byte>)
    requires Writable(t) && !WithinLimits(t)
    ensures Decode(Encode(t) + rest).txn == None
  {
    WrittenFields(t, rest);
    EncodedSize(t.objects);
    hide Encode, Get16, Get32, LengthField;
    if |t.objects| <= MAX_TXN_OBJS {
      LengthBack(|EncodeObjects(t.objects)|);
    }
  }

  // Any written transaction is read back, leaving exactly the bytes after it, if and only if it
  // is within the limits; otherwise it is refused.
  lemma RoundTrip(t: Txn, rest: seq<byte>)
    requires Writable(t)
    ensures Decode(Encode(t) + rest) == ReadResult(Some(t), rest) <==> WithinLimits(t)
    ensures Decode(Encode(t) + rest).txn == None <==> !WithinLimits(t)
  {
    hide Decode;
    if WithinLimits(t) {
      ReadBack(t, rest);
    } else {
      Refused(t, rest);
    }
  }

  // What is accepted: at most 64 objects in at most 262144 bytes, and exactly the bytes the header
  // announces are taken from the stream, none when it announces no object.
  lemma Accepted(s: seq<byte>)
    requires Decode(s).txn.Some?
    ensures |s| >= 22 && |Decode(s).txn.value.objects| <= 64
    ensures var t := Decode(s).txn.value;
            && t.cls == Get16(s, 0) && t.id == Get16(s, 2) && t.taskno == Get32(s, 4) && t.error == Get32(s, 8)
            && Sized(t.objects)
    ensures var t := Decode(s).txn.value;
            var length := (Get32(s, 12) - 2) % 0x1_0000_0000;
            && length <= 262144
            && if Get16(s, 20) == 0 || length == 0 then t.objects == [] && Decode(s).rest == s[22..]
               else |t.objects| == Get16(s, 20) && 22 + length <= |s| && Decode(s).rest == s[22 + length..]
                    && EncodeObjects(t.objects) <= s[22..22 + length]
  {
    var length := (Get32(s, 12) - 2) % 0x1_0000_0000;
    if Get16(s, 20) != 0 && length != 0 {
      EncodeDecodeObjects(s[22..22 + length], Get16(s, 20));
    }
  }

  // What is refused: a stream shorter than a header, a body or a count over the limit, a body cut
  // short, or objects that overrun their body.
  lemma RefusedExact(s: seq<byte>)
    ensures Decode(s).txn == None <==>
            || |s| < 22
            || Get16(s, 20) > 64
            || var length := (Get32(s, 12) - 2) % 0x1_0000_0000;
               || length > 262144
               || (Get16(s, 20) > 0 && length > 0
                   && (|s| < 22 + length
                       || forall os: seq<Object> :: Sized(os) && |os| == Get16(s, 20)
                                                    ==> !(EncodeObjects(os) <= s[22..22 + length])))
  {
    if |s| >= 22 && Get16(s, 20) <= 64 {
      var length := (Get32(s, 12) - 2) % 0x1_0000_0000;
      if length <= 262144 && Get16(s, 20) > 0 && 0 < length <= |s| - 22 {
        AcceptedObjects(s[22..22 + length], Get16(s, 20));
      }
    }
  }

  // A body is accepted if and only if it starts with that many written objects.
  lemma AcceptedObjects(body: seq<byte>, count: nat)
    ensures DecodeObjects(body, count).Some? <==>
            exists os: seq<Object> :: Sized(os) && |os| == count && EncodeObjects(os) <= body
  {
    if DecodeObjects(body, count).Some? {
      EncodeDecodeObjects(body, count);
    }
    forall os: seq<Object> | Sized(os) && |os| == count && EncodeObjects(os) <= body
      ensures DecodeObjects(body, count).Some?
    {
      DecodeEncodeObjects(os, body[|EncodeObjects(os)|..]);
      assert body == EncodeObjects(os) + body[|EncodeObjects(os)|..];
    }
  }

  // ---- streams ----

  function EncodeAll(ts: seq<Txn>): seq<byte>
    requires forall i :: 0 <= i < |ts| ==> Writable(ts[i])
  {
    if ts == [] then [] else Encode(ts[0]) + EncodeAll(ts[1..])
  }

  datatype StreamResult = StreamResult(txns: Option<seq<Txn>>, rest: seq<byte>)

  // Reading n transactions one after the other, up to the first that is refused.
  function DecodeMany(s: seq<byte>, n: nat): StreamResult {
    if n == 0 then StreamResult(Some([]), s)
    else
      var r := Decode(s);
      if r.txn.None? then StreamResult(None, r.rest)
      else
        var more := DecodeMany(r.rest, n - 1);
        StreamResult(if more.txns.None? then None else Some([r.txn.value] + more.txns.value), more.rest)
  }

  lemma {:induction false} StreamRoundTrip(ts: seq<Txn>, rest: seq<byte>)
    requires forall i :: 0 <= i < |ts| ==> Writable(ts[i])
    requires forall i :: 0 <= i < |ts| ==> WithinLimits(ts[i])
    ensures DecodeMany(EncodeAll(ts) + rest, |ts|) == StreamResult(Some(ts), rest)
  {
    if ts == [] {
      assert [] + rest == rest;
    } else {
      hide Encode, Decode;
      assert EncodeAll(ts) + rest == Encode(ts[0]) + (EncodeAll(ts[1..]) + rest);
      RoundTrip(ts[0], EncodeAll(ts[1..]) + rest);
      StreamRoundTrip(ts[1..], rest);
      assert ts == [ts[0]] + ts[1..];
    }
  }

  ghost predicate AllWithinLimits(ts: seq<Txn>) {
    forall i :: 0 <= i < |ts| ==> WithinLimits(ts[i])
  }

  // A stream is read back, and consumed exactly, when every transaction in it is within the limits;
  // otherwise the reading stops at the first that is not.
  lemma {:induction false} StreamExact(ts: seq<Txn>, rest: seq<byte>)
    requires forall i :: 0 <= i < |ts| ==> Writable(ts[i])
    ensures var r := DecodeMany(EncodeAll(ts) + rest, |ts|);
            if AllWithinLimits(ts) then r == StreamResult(Some(ts), rest) else r.txns == None
  {
    hide Encode, Decode, DecodeMany, EncodeAll, WithinLimits, Writable;
    if AllWithinLimits(ts) {
      StreamRoundTrip(ts, rest);
    } else {
      StreamFirst(ts, rest);
      if WithinLimits(ts[0]) {
        assert forall i :: 0 < i < |ts| ==> ts[i] == ts[1..][i - 1];
        assert forall i :: 0 <= i < |ts| - 1 ==> ts[1..][i] == ts[i + 1];
        StreamExact(ts[1..], rest);
      }
    }
  }

  // Reading the first transaction of a stream.
  lemma StreamFirst(ts: seq<Txn>, rest: seq<byte>)
    requires ts != [] && forall i :: 0 <= i < |ts| ==> Writable(ts[i])
    ensures var r := DecodeMany(EncodeAll(ts) + rest, |ts|);
            if WithinLimits(ts[0]) then
              var more := DecodeMany(EncodeAll(ts[1..]) + rest, |ts| - 1);
              r == StreamResult(if more.txns.None? then None else Some([ts[0]] + more.txns.value), more.rest)
            else r.txns == None
  {
    hide Encode, Decode, WithinLimits, Writable;
    assert EncodeAll(ts) + rest == Encode(ts[0]) + (EncodeAll(ts[1..]) + rest);
    RoundTrip(ts[0], EncodeAll(ts[1..]) + rest);
  }

  lemma {:induction false} EncodeAllAppend(ts: seq<Txn>, t: Txn)
    requires (forall i :: 0 <= i < |ts| ==> Writable(ts[i])) && Writable(t)
    ensures forall i :: 0 <= i < |ts + [t]| ==> Writable((ts + [t])[i])
    ensures EncodeAll(ts + [t]) == EncodeAll(ts) + Encode(t)
  {
    hide Encode, Writable;
    if ts == [] {
      assert ts + [t] == [t] && [t][1..] == [];
      assert EncodeAll([t]) == Encode(t) + EncodeAll([]);
    } else {
      assert (ts + [t])[1..] == ts[1..] + [t];
      EncodeAllAppend(ts[1..], t);
    }
  }
}
