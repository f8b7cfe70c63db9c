/** The incoming half of a network connection, read with io.ReadFull. */
module ByteStream {
  import opened Bytes

  /**
   io.EOF when nothing was left to read, io.ErrUnexpectedEOF when too little was; FrameTooLarge is
   readWSFrame's own.
   */
  datatype ReadError = Eof | UnexpectedEof | FrameTooLarge

  function Short(available: nat): ReadError {
    if available == 0 then Eof else UnexpectedEof
  }

  /** A buffered reader over the bytes the peer sends before it closes. */
  class ByteReader {
    var data: seq<byte>

    constructor (data: seq<byte>)
      ensures this.data == data
    {
      this.data := data;
    }

    /** io.ReadFull: all `n` bytes, or an error after using up what was there. */
    method ReadFull(n: nat) returns (buf: seq<byte>, error: Option<ReadError>)
      modifies this
      ensures n <= |old(data)| ==> error == None && buf == old(data)[..n] && data == old(data)[n..]
      ensures n > |old(data)| ==> error == Some(Short(|old(data)|)) && data == []
    {
      if n <= |data| {
        buf, error, data := data[..n], None, data[n..];
      } else {
        buf, error, data := data, Some(Short(|data|)), [];
      }
    }
  }
}
