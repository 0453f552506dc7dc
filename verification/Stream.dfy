/** Connections as byte streams whose reads may return any non-empty chunk. */
module Stream {
  import opened Basics

  class Conn {
    /** What the other end sends and has not been read; its end follows. */
    var incoming: seq<Byte>
    /** What has been written towards the other end. */
    var outgoing: seq<Byte>
    var open: bool

    constructor (bytes: seq<Byte>)
      ensures incoming == bytes && outgoing == [] && open
    {
      incoming, outgoing, open := bytes, [], true;
    }

    /** Returns some bytes, in a chunk of any size; none only at the end. */
    method Read(max: nat) returns (data: seq<Byte>)
      requires max > 0
      modifies this`incoming
      ensures old(incoming) == data + incoming && |data| <= max
      ensures data == [] <==> old(incoming) == []
    {
      if incoming == [] {
        return [];
      }
      var n :| 1 <= n <= |incoming| && n <= max;
      data, incoming := incoming[..n], incoming[n..];
    }

    /** io.ReadFull: exactly `n` bytes, or everything there was and an error. */
    method ReadFull(n: nat) returns (data: seq<Byte>, err: bool)
      modifies this`incoming
      ensures err <==> |old(incoming)| < n
      ensures old(incoming) == data + incoming
      ensures if err then incoming == [] else |data| == n
    {
      data, err := [], false;
      while |data| < n
        invariant old(incoming) == data + incoming && |data| <= n
        decreases n - |data|
      {
        var chunk := Read(n - |data|);
        if chunk == [] {
          return data, true;
        }
        data := data + chunk;
      }
    }

    method Write(data: seq<Byte>)
      modifies this`outgoing
      ensures outgoing == old(outgoing) + data
    {
      outgoing := outgoing + data;
    }

    /** A write that may fail with only a part of the data written. */
    method TryWrite(data: seq<Byte>) returns (err: bool)
      modifies this`outgoing
      ensures if err then old(outgoing) <= outgoing <= old(outgoing) + data else outgoing == old(outgoing) + data
    {
      var n :| 0 <= n <= |data|;
      err := n < |data|;
      outgoing := outgoing + data[..n];
      if n == |data| {
        err := *;
        assert data[..n] == data;
      }
    }

    method Close()
      modifies this`open
      ensures !open
    {
      open := false;
    }
  }
}
