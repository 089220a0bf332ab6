/**
 The UDP packets of the file transfer and the server side that answers one `ack`
 (udp-server.c and the same code in main.c). A served file is a sequence of bytes.
 */
module Packets {
  import opened Wrappers

  newtype Byte = b: int | 0 <= b < 256

  const PACKET_DATA_SIZE: nat := 1024

  /** The packet types the handlers tell apart by their first letters. */
  datatype Kind = Syn | SynAck | Ack | Fin | Other

  datatype Packet = Packet(
    kind: Kind,
    ackNumber: int,
    startByte: int,
    endByte: int,
    packetNumber: int,
    dataSize: int,
    hasRange: bool,
    contentLength: int,
    data: seq<Byte>)

  function Min(x: int, y: int): int {
    if x < y then x else y
  }

  /** The end of the range a request asks for, once the server has seen the file's size:
      a first request's missing, zero or too large end becomes the last byte. */
  function NormalEnd(p: Packet, size: int): int {
    if p.ackNumber == 0 && (p.endByte == -1 || p.endByte >= size || p.endByte == 0) then size - 1 else p.endByte
  }

  /** How many packets `n` bytes take. */
  function CeilDiv(n: nat): nat {
    (n + PACKET_DATA_SIZE - 1) / PACKET_DATA_SIZE
  }

  /** How many bytes the server asks the file for. */
  function Needed(p: Packet, size: int): int {
    if p.hasRange then Min(PACKET_DATA_SIZE, NormalEnd(p, size) - p.startByte + 1) else PACKET_DATA_SIZE
  }

  /** The bytes the server reads. */
  function Chunk(file: seq<Byte>, start: nat, need: nat): seq<Byte> {
    if start >= |file| then [] else file[start..Min(start + need, |file|)]
  }

  /** The chunk in the packet's data array; the bytes behind it are whatever was there. */
  function Filled(chunk: seq<Byte>, memory: seq<Byte>): (data: seq<Byte>)
    requires |chunk| <= |memory|
    ensures |data| == |memory| && data[..|chunk|] == chunk
  {
    chunk + memory[|chunk|..]
  }

  /** The request does not make the read length negative: a negative length would turn into
      an enormous `size_t` and overrun the packet. */
  predicate Answerable(p: Packet, size: int) {
    p.hasRange ==> p.startByte <= NormalEnd(p, size) + 1
  }

  /** What the server answers to an `ack`: nothing when it cannot seek or has nothing left
      to read, otherwise one packet numbered like the request. */
  ghost function Answer(file: seq<Byte>, p: Packet, kind: Kind, memory: seq<Byte>): Option<Packet>
    requires |memory| == PACKET_DATA_SIZE && Answerable(p, |file|)
  {
    if p.startByte < 0 then None
    else
      var chunk := Chunk(file, p.startByte, Needed(p, |file|));
      if chunk == [] then None
      else Some(Packet(kind, p.ackNumber, p.startByte, NormalEnd(p, |file|), p.ackNumber, |chunk|, p.hasRange,
                       if p.ackNumber == 0 then |file| else p.contentLength, Filled(chunk, memory)))
  }

  /** `transfer_file` in udp-server.c, which leaves the packet type as it came, and the `ack`
      branch of `multiplex_udp` in main.c, which sets it to "synack". */
  method TransferFile(file: seq<Byte>, input: Packet, kind: Kind, memory: seq<Byte>) returns (reply: Option<Packet>)
    requires |memory| == PACKET_DATA_SIZE && Answerable(input, |file|)
    ensures reply == Answer(file, input, kind, memory)
  {
    if input.startByte < 0 {
      return None;  // fseek fails
    }
    var output := input.(data := memory);
    if input.ackNumber == 0 {
      output := output.(contentLength := |file|);
      if output.endByte == -1 || output.endByte >= |file| || output.endByte == 0 {
        output := output.(endByte := |file| - 1);
      }
    }
    var need := PACKET_DATA_SIZE as int;
    if output.hasRange {
      need := Min(PACKET_DATA_SIZE, output.endByte - output.startByte + 1);
    }
    var chunk := Chunk(file, input.startByte, need);  // fread
    var n := |chunk|;
    output := output.(data := Filled(chunk, memory));
    output := output.(packetNumber := input.ackNumber, dataSize := n, kind := kind);
    if n == 0 {
      return None;
    }
    return Some(output);
  }
}
