/** The outgoing half of a network connection, as the wrappers in this project see it. */
module RawConn {
  import opened Bytes

  /** Accepts bytes until `room` runs out; a write that does not fit is accepted in part and fails. */
  class Conn {
    var received: seq<byte>
    var segments: seq<seq<byte>>
    var room: nat

    constructor (room: nat)
      ensures received == [] && segments == [] && this.room == room
    {
      received, segments := [], [];
      this.room := room;
    }

    method Write(b: seq<byte>) returns (n: nat, ok: bool)
      modifies this
      ensures ok == (|b| <= old(room)) && n == if ok then |b| else old(room)
      ensures ok ==> received == old(received) + b && room == old(room) - |b|
      ensures !ok ==> received == old(received) + b[..old(room)] && room == 0
      ensures segments == old(segments) + [b]
    {
      ok := |b| <= room;
      n := if ok then |b| else room;
      received := received + b[..n];
      room := room - n;
      segments := segments + [b];
    }
  }
}
