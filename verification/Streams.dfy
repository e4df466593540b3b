/** The two byte streams the wire formats are written to and read from. */
module Streams {
  import opened Bytes

  /** A growing write buffer (bytes.Buffer). */
  class Buffer {
    var contents: seq<byte>

    constructor ()
      ensures contents == []
    {
      contents := [];
    }

    method Write(bs: seq<byte>)
      modifies this
      ensures contents == old(contents) + bs
    {
      contents := contents + bs;
    }
  }

  /** A read cursor (bytes.Reader). Seek may leave it past the end; it then reads as empty. */
  class Reader {
    const data: seq<byte>
    var pos: nat

    constructor (data: seq<byte>)
      ensures this.data == data && pos == 0 && Rest() == data
    {
      this.data := data;
      pos := 0;
    }

    /** What is still to be read. */
    function Rest(): (rest: seq<byte>)
      reads this
    {
      if pos <= |data| then data[pos..] else []
    }

    method ReadFull(n: nat) returns (r: Option<seq<byte>>)
      modifies this
      ensures r == if n <= |old(Rest())| then Some(old(Rest())[..n]) else None
      ensures r.Some? ==> Rest() == old(Rest())[n..]
    {
      if n <= |Rest()| {
        r := Some(Rest()[..n]);
        if n > 0 {
          pos := pos + n;
        }
      } else {
        r := None;
        if pos < |data| {
          pos := |data|;
        }
      }
    }

    /** The same for a field whose place in the data is known. */
    method ReadField(n: nat, ghost at: nat) returns (r: Option<seq<byte>>)
      requires at <= |data| && Rest() == data[at..]
      modifies this
      ensures r == if at + n <= |data| then Some(data[at..at + n]) else None
      ensures r.Some? ==> Rest() == data[at + n..]
    {
      assert at + n <= |data| ==> data[at..][..n] == data[at..at + n] && data[at..][n..] == data[at + n..];
      r := ReadFull(n);
    }

    method Seek(n: nat)
      modifies this
      ensures Rest() == if n <= |old(Rest())| then old(Rest())[n..] else []
    {
      pos := pos + n;
    }
  }
}
