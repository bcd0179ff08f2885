/**
 Byte streams as the agent uses them: a reader that hands out the bytes of a connection in pieces of
 any size, and a writer.
 */
module ByteStreams {
  import opened Wrappers
  import opened Bytes
  import opened Sequences

  function Flatten(chunks: seq<seq<byte>>): seq<byte> {
    FlatMap(Whole, chunks)
  }

  function Whole(chunk: seq<byte>): seq<byte> {
    chunk
  }

  datatype ReadError = Eof | UnexpectedEof

  /** How a read of n bytes fails when the stream ends first. */
  function Shortage(available: seq<byte>): ReadError {
    if available == [] then Eof else UnexpectedEof
  }

  /** The reading end of a connection. `chunks` is what the network will deliver, one element for each
      arrival; the pieces may be empty. */
  class Source {
    var chunks: seq<seq<byte>>

    constructor (chunks: seq<seq<byte>>)
      ensures this.chunks == chunks
    {
      this.chunks := chunks;
    }

    /** Everything still to come before the stream ends. */
    function Pending(): seq<byte>
      reads this
    {
      Flatten(chunks)
    }

    /** One read into a buffer with some room: whatever the next arrival holds, up to that room. */
    method Read(room: nat) returns (got: seq<byte>, end: bool)
      requires room > 0
      modifies this
      ensures old(Pending()) == got + Pending() && |got| <= room
      ensures end ==> got == [] && Pending() == []
      ensures !end ==> |chunks| + |Pending()| < old(|chunks| + |Pending()|)
    {
      if chunks == [] {
        return [], true;
      }
      end := false;
      if |chunks[0]| <= room {
        got, chunks := chunks[0], chunks[1..];
      } else {
        got := chunks[0][..room];
        ghost var before := chunks;
        chunks := [chunks[0][room..]] + chunks[1..];
        assert chunks[1..] == before[1..];
        assert before[0] == got + chunks[0];
      }
    }

    /** Reads exactly n bytes unless the stream ends first, however the bytes arrive. */
    method ReadFull(n: nat) returns (buf: seq<byte>, error: Option<ReadError>)
      modifies this
      ensures if n <= |old(Pending())| then
                buf == old(Pending())[..n] && Pending() == old(Pending())[n..] && error == None
              else
                buf == old(Pending()) && Pending() == [] && error == Some(Shortage(old(Pending())))
    {
      buf, error := [], None;
      var end := false;
      while |buf| < n && !end
        invariant |buf| <= n
        invariant old(Pending()) == buf + Pending()
        invariant end ==> Pending() == []
        decreases !end, |chunks| + |Pending()|
      {
        var got;
        ghost var before := Pending();
        got, end := Read(n - |buf|);
        assert buf + before == (buf + got) + Pending();
        buf := buf + got;
      }
      if |buf| < n {
        error := Some(if buf == [] then Eof else UnexpectedEof);
      }
    }
  }

  /** The writing end of a connection; once closed, writes fail and leave nothing. */
  class Sink {
    var written: seq<byte>
    var open: bool

    constructor ()
      ensures written == [] && open
    {
      written, open := [], true;
    }

    method Write(data: seq<byte>) returns (ok: bool)
      modifies this`written
      ensures ok == open
      ensures written == if open then old(written) + data else old(written)
    {
      ok := open;
      if ok {
        written := written + data;
      }
    }
  }
}
