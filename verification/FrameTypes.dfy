/** The frames of the transport (src/frame.rs, `Frame`). */
module FrameTypes {
  import opened Prelude
  import opened Chunks
  import opened RangeSets

  /** The place of a packet in its FEC group (src/fec.rs, `FecStatus`). */
  datatype FecStatus = FecStatus(m: nat, n: nat, groupId: nat, index: nat)

  datatype Frame =
    | Padding(len: nat)
    | Ping
    | Ack(packetTime: nat, ackDelay: nat, ranges: seq<Range>)
    | BlockInfo(streamId: nat, blockSize: nat, priority: nat, deadline: nat, startTime: nat)
    | ResetStream(streamId: nat, resetCode: nat, finalSize: nat)
    | StopSending(streamId: nat, errorCode: nat)
    | Crypto(chunk: RangeBuf)
    | NewToken(token: seq<byte>)
    | Stream(streamId: nat, chunk: RangeBuf)
    | MaxData(max: nat)
    | MaxStreamData(streamId: nat, max: nat)
    | MaxStreamsBidi(max: nat)
    | MaxStreamsUni(max: nat)
    | DataBlocked(limit: nat)
    | StreamDataBlocked(streamId: nat, limit: nat)
    | StreamsBlockedBidi(limit: nat)
    | StreamsBlockedUni(limit: nat)
    | NewConnectionId(seqNum: nat, retirePriorTo: nat, connId: seq<byte>, resetToken: seq<byte>)
    | RetireConnectionId(seqNum: nat)
    | PathChallenge(challenge: seq<byte>)
    | PathResponse(challenge: seq<byte>)
    | ConnectionClose(errorCode: nat, frameType: nat, reason: seq<byte>)
    | ApplicationClose(errorCode: nat, reason: seq<byte>)
    | HandshakeDone
    | Fec(info: FecStatus, shard: seq<byte>)

  /** One frame of one packet: frame number `place` of packet `pn` of its packet number
      space. Frames with equal contents in different packets are told apart by it; the
      program keeps no such tag. */
  datatype Tagged = Tagged(pn: nat, place: nat, frame: Frame)
}
