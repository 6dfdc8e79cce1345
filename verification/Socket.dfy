/** A stream socket seen from socketops.c: the bytes still to come, delivered in pieces whose
    sizes nobody controls. */
module Socket {
  import opened Bytes

  class Socket {
    var input: seq<byte>

    constructor (bytes: seq<byte>)
      ensures input == bytes
    {
      input := bytes;
    }

    // read_timeout: at least one byte and at most n, or none when the peer has nothing more.
    method Recv(n: nat) returns (c: int, data: seq<byte>)
      requires n > 0
      modifies this
      ensures old(input) == [] ==> c < 1 && input == []
      ensures old(input) != [] ==> 1 <= c <= n && |data| == c && old(input) == data + input
    {
      if input == [] {
        return -1, [];
      }
      var k: nat :| 1 <= k <= n && k <= |input|;
      c, data := k, input[..k];
      input := input[k..];
    }

    // read_all: the request is met exactly when the stream holds that many bytes.
    method ReadAll(n: nat) returns (ok: bool, buf: seq<byte>)
      modifies this
      ensures ok <==> n <= |old(input)|
      ensures ok ==> buf == old(input)[..n] && input == old(input)[n..]
      ensures !ok ==> input == []
    {
      buf := [];
      var left := n;
      while left > 0
        invariant 0 <= left <= n && |buf| == n - left
        invariant buf + input == old(input)
      {
        var c, data := Recv(left);
        if c < 1 {
          return false, buf;
        }
        left := left - c;
        buf := buf + data;
      }
      assert old(input)[..n] == buf && old(input)[n..] == input;
      ok := true;
    }
  }
}
