/**
 The network as an adversary: it chooses how much each read and write moves, when a pending future
 is dropped and, for writes, when the connection breaks.
 */
module Wire {
  datatype ReadResult = Got(data: string) | ReadFailed | ReadDropped

  /** The readable half of a socket. */
  class Source {
    // Octets still to be delivered before the stream ends.
    var incoming: string
    // Whether the stream ends with an I/O error instead of an orderly end.
    const fails: bool

    constructor (incoming: string, fails: bool)
      ensures this.incoming == incoming && this.fails == fails
    {
      this.incoming := incoming;
      this.fails := fails;
    }

    /** One `read` into a buffer of `maximum` octets. A dropped read consumes nothing. */
    method Read(maximum: nat) returns (r: ReadResult)
      modifies this
      ensures match r
              case Got(data) =>
                && |data| <= maximum
                && old(incoming) == data + incoming
                && (data == "" && maximum > 0 ==> incoming == "" && !fails)
              case ReadFailed => incoming == old(incoming) == "" && fails
              case ReadDropped => incoming == old(incoming)
    {
      if * {
        return ReadDropped;
      }
      if incoming == "" {
        return if fails then ReadFailed else Got("");
      }
      if maximum == 0 {
        return Got("");
      }
      var count: nat :| 1 <= count <= maximum && count <= |incoming|;
      r := Got(incoming[..count]);
      incoming := incoming[count..];
    }
  }

  datatype WriteResult = Wrote(count: nat) | WriteFailed | WriteDropped

  /** The writable half of a socket. */
  class Sink {
    // Everything accepted so far, in order.
    var emitted: string
    var flushed: bool
    // Whether a write or flush has failed, or a write has accepted nothing of a non-empty text.
    ghost var refused: bool

    constructor ()
      ensures emitted == "" && !flushed && !refused
    {
      emitted := "";
      flushed := false;
      refused := false;
    }

    /** One `write`: any prefix may be accepted, none of it when it fails or is dropped. */
    method Write(bytes: string) returns (r: WriteResult)
      modifies this
      ensures match r
              case Wrote(count) =>
                && count <= |bytes| && emitted == old(emitted) + bytes[..count]
                && (refused <==> old(refused) || (count == 0 && bytes != ""))
              case WriteFailed => emitted == old(emitted) && refused
              case WriteDropped => emitted == old(emitted) && refused == old(refused)
    {
      if * {
        return WriteDropped;
      }
      if * {
        refused := true;
        return WriteFailed;
      }
      var count: nat :| count <= |bytes|;
      emitted := emitted + bytes[..count];
      flushed := false;
      refused := refused || (count == 0 && bytes != "");
      return Wrote(count);
    }

    method Flush() returns (r: WriteResult)
      modifies this
      ensures emitted == old(emitted)
      ensures r.Wrote? ==> flushed
      ensures refused <==> old(refused) || r.WriteFailed?
    {
      if * {
        return WriteDropped;
      }
      if * {
        refused := true;
        return WriteFailed;
      }
      flushed := true;
      return Wrote(0);
    }
  }
}
