/**
 A captured feed: the raw log and, beside it, the payloads one per line.  The validator of
 `tools/validate_raw_log.cpp` compares the two; the capture step of
 `tools/run_live_feed_smoke.cpp` writes both.
 */
module RawLog {
  import opened Words
  import opened RawPacket

  const NEWLINE: Byte := 10

  function RawBytes(packets: seq<Packet>): seq<Byte> {
    if packets == [] then [] else PacketBytes(packets[0]) + RawBytes(packets[1..])
  }

  function Lines(packets: seq<Packet>): seq<Byte> {
    if packets == [] then [] else packets[0].payload + [NEWLINE] + Lines(packets[1..])
  }

  ghost predicate AllGood(crc: Checksum, packets: seq<Packet>) {
    forall i | 0 <= i < |packets| :: Good(crc, packets[i])
  }

  /** Each packet id is greater than the one before; the first is greater than `previous`. */
  ghost predicate IdsIncrease(packets: seq<Packet>, previous: nat) {
    packets == [] || (packets[0].header.packetId > previous && IdsIncrease(packets[1..], packets[0].header.packetId))
  }

  /** Every id is greater than the one before it, the first than `previous`. */
  lemma {:induction false} IdsIncreaseMeaning(packets: seq<Packet>, previous: nat)
    ensures IdsIncrease(packets, previous) <==>
            && (packets != [] ==> packets[0].header.packetId > previous)
            && forall i | 0 < i < |packets| :: packets[i].header.packetId > packets[i - 1].header.packetId
    decreases |packets|
  {
    if packets != [] {
      var rest := packets[1..];
      IdsIncreaseMeaning(rest, packets[0].header.packetId);
      assert forall i | 0 <= i < |rest| :: rest[i] == packets[i + 1];
      assert (forall i | 0 < i < |packets| :: packets[i].header.packetId > packets[i - 1].header.packetId) ==>
             forall i | 0 < i < |rest| :: rest[i].header.packetId > rest[i - 1].header.packetId;
      assert rest != [] ==> rest[0] == packets[1];
    }
  }

  /** The two files are the two renderings of one list of good packets with increasing ids. */
  ghost predicate Records(crc: Checksum, packets: seq<Packet>, raw: seq<Byte>, jsonl: seq<Byte>, previous: nat) {
    && AllGood(crc, packets) && IdsIncrease(packets, previous)
    && raw == RawBytes(packets) && jsonl == Lines(packets)
  }

  /** The payload and a newline come first. */
  predicate StartsWithLine(jsonl: seq<Byte>, payload: seq<Byte>) {
    |jsonl| > |payload| && jsonl[..|payload|] == payload && jsonl[|payload|] == NEWLINE
  }

  /** What the loop decides from the bytes that are left. */
  predicate Accepts(crc: Checksum, raw: seq<Byte>, jsonl: seq<Byte>, previous: nat)
    decreases |raw|
  {
    var r := ReadFirst(crc, raw);
    match r
    case EndOfFile => jsonl == []
    case Failed(_) => false
    case Got(p, length) =>
      && Good(crc, p) && StartsWithLine(jsonl, p.payload) && p.header.packetId > previous
      && Accepts(crc, raw[length..], jsonl[|p.payload| + 1..], p.header.packetId)
  }

  // The loop accepts exactly the recorded pairs.

  lemma {:induction false} AcceptedIsRecorded(crc: Checksum, raw: seq<Byte>, jsonl: seq<Byte>, previous: nat)
    returns (packets: seq<Packet>)
    requires Accepts(crc, raw, jsonl, previous)
    ensures Records(crc, packets, raw, jsonl, previous)
    decreases |raw|
  {
    var r := ReadFirst(crc, raw);
    if r.EndOfFile? {
      packets := [];
    } else {
      var p, n := r.packet, |r.packet.payload|;
      var rest := AcceptedIsRecorded(crc, raw[r.length..], jsonl[n + 1..], p.header.packetId);
      packets := [p] + rest;
      ReadIsSound(crc, raw);
      assert jsonl == p.payload + [NEWLINE] + jsonl[n + 1..];
      OneMore(crc, p, rest, raw, jsonl, previous);
    }
  }

  /** A record of the rest, with one good packet of a fitting id in front, is a record. */
  lemma OneMore(crc: Checksum, p: Packet, rest: seq<Packet>, raw: seq<Byte>, jsonl: seq<Byte>, previous: nat)
    requires Good(crc, p) && p.header.packetId > previous
    requires |raw| >= |PacketBytes(p)| && raw[..|PacketBytes(p)|] == PacketBytes(p)
    requires |jsonl| > |p.payload| && jsonl == p.payload + [NEWLINE] + jsonl[|p.payload| + 1..]
    requires Records(crc, rest, raw[|PacketBytes(p)|..], jsonl[|p.payload| + 1..], p.header.packetId)
    ensures Records(crc, [p] + rest, raw, jsonl, previous)
  {
    var packets := [p] + rest;
    assert packets[1..] == rest;
    assert raw == PacketBytes(p) + raw[|PacketBytes(p)|..];
  }

  lemma {:induction false} RecordedIsAccepted(crc: Checksum, packets: seq<Packet>, raw: seq<Byte>, jsonl: seq<Byte>,
                                              previous: nat)
    requires Records(crc, packets, raw, jsonl, previous)
    ensures Accepts(crc, raw, jsonl, previous)
    decreases |packets|
  {
    if packets != [] {
      var p, rest := packets[0], packets[1..];
      var m, n := |PacketBytes(p)|, |p.payload|;
      ReadIsComplete(crc, p, RawBytes(rest));
      assert raw[m..] == RawBytes(rest);
      assert jsonl == p.payload + [NEWLINE] + Lines(rest);
      assert jsonl[..n] == p.payload && jsonl[n] == NEWLINE && jsonl[n + 1..] == Lines(rest);
      RecordedIsAccepted(crc, rest, raw[m..], jsonl[n + 1..], p.header.packetId);
    }
  }

  /** The two files are a recorded pair with positive, strictly increasing ids. */
  ghost predicate IsCapture(crc: Checksum, raw: seq<Byte>, jsonl: seq<Byte>) {
    exists packets :: Records(crc, packets, raw, jsonl, 0)
  }

  lemma AcceptsExactlyCaptures(crc: Checksum, raw: seq<Byte>, jsonl: seq<Byte>)
    ensures Accepts(crc, raw, jsonl, 0) <==> IsCapture(crc, raw, jsonl)
  {
    if Accepts(crc, raw, jsonl, 0) {
      var packets := AcceptedIsRecorded(crc, raw, jsonl, 0);
    }
    forall packets | Records(crc, packets, raw, jsonl, 0) ensures Accepts(crc, raw, jsonl, 0) {
      RecordedIsAccepted(crc, packets, raw, jsonl, 0);
    }
  }

  /** The header check of the validator, which sees only packets its reader already let through. */
  method CheckPacketHeader(crc: Checksum, p: Packet) returns (ok: bool)
    ensures ok <==> && p.header.magic == 0x484C5852 && p.header.version == 1 && p.header.headerSize == 56
                    && |p.payload| <= 0xFFFF_FFFF && p.header.payloadLen == |p.payload|
                    && p.header.payloadCrc == crc(p.payload)
  {
    ok := p.header.magic == MAGIC
       && p.header.version == VERSION
       && p.header.headerSize == HEADER_SIZE
       && |p.payload| <= 0xFFFF_FFFF
       && p.header.payloadLen == |p.payload|
       && p.header.payloadCrc == crc(p.payload);
  }

  method Validate(crc: Checksum, raw: seq<Byte>, jsonl: seq<Byte>) returns (ok: bool)
    ensures ok <==> IsCapture(crc, raw, jsonl)
  {
    AcceptsExactlyCaptures(crc, raw, jsonl);
    var reader := new RawLogReader(crc, raw);
    var left, previous: nat := jsonl, 0;
    while true
      invariant reader.crc == crc
      invariant Accepts(crc, reader.rest, left, previous) == Accepts(crc, raw, jsonl, 0)
      decreases |reader.rest|
    {
      var r := reader.Next();
      if r.EndOfFile? { break; }
      if r.Failed? { return false; }
      var p, n := r.packet, |r.packet.payload|;
      var good := CheckPacketHeader(crc, p);
      if !good { return false; }
      if |left| < n || left[..n] != p.payload { return false; }
      if |left| == n || left[n] != NEWLINE { return false; }
      if p.header.packetId <= previous { return false; }
      left, previous := left[n + 1..], p.header.packetId;
    }
    ok := left == [];
  }

  // Capturing.

  const POLYMARKET_MARKET: Uint16 := 1
  const HEARTBEAT: Uint32 := 1

  /** A message with the two clock readings its header records. */
  datatype Message = Message(payload: seq<Byte>, wallNs: Uint64, monotonicNs: Uint64)

  predicate IsPong(payload: seq<Byte>) {
    payload in [[80, 79, 78, 71], [112, 111, 110, 103], [34, 80, 79, 78, 71, 34], [34, 112, 111, 110, 103, 34]]
  }

  /** The payload is this text. */
  predicate Spells(payload: seq<Byte>, text: string) {
    |payload| == |text| && forall i | 0 <= i < |text| :: payload[i] == text[i] as int
  }

  /** The packet of a message: both clocks, connection 1, the market feed, no codec, and flagged if it is a pong. */
  predicate IsPacketOf(crc: Checksum, p: Packet, m: Message, id: Uint64) {
    && p.payload == m.payload
    && p.header.magic == 0x484C5852 && p.header.version == 1 && p.header.headerSize == 56
    && p.header.recvWallNs == m.wallNs && p.header.recvMonotonicNs == m.monotonicNs
    && p.header.connectionId == 1 && p.header.packetId == id && p.header.sourceId == 1 && p.header.codec == 0
    && p.header.flags == (if Spells(m.payload, "PONG") || Spells(m.payload, "pong") || Spells(m.payload, "\"PONG\"")
                             || Spells(m.payload, "\"pong\"") then 1 else 0)
    && p.header.payloadLen == |m.payload| && p.header.payloadCrc == crc(m.payload)
  }

  lemma PongTexts(payload: seq<Byte>)
    ensures IsPong(payload) <==> Spells(payload, "PONG") || Spells(payload, "pong") || Spells(payload, "\"PONG\"")
                                 || Spells(payload, "\"pong\"")
  {
    if Spells(payload, "PONG") { assert payload == [80, 79, 78, 71]; }
    if Spells(payload, "pong") { assert payload == [112, 111, 110, 103]; }
    if Spells(payload, "\"PONG\"") { assert payload == [34, 80, 79, 78, 71, 34]; }
    if Spells(payload, "\"pong\"") { assert payload == [34, 112, 111, 110, 103, 34]; }
  }

  function MadePacket(crc: Checksum, m: Message, id: Uint64): (p: Packet)
    requires |m.payload| <= MAX_PAYLOAD
    ensures Good(crc, p) && IsPacketOf(crc, p, m, id)
  {
    PongTexts(m.payload);
    Packet(Header(MAGIC, VERSION, HEADER_SIZE, m.wallNs, m.monotonicNs, 1, id, POLYMARKET_MARKET, 0,
                  if IsPong(m.payload) then HEARTBEAT else 0, |m.payload|, crc(m.payload)),
           m.payload)
  }

  class CaptureStep {
    const crc: Checksum
    const writer: RawLogWriter
    var jsonl: seq<Byte>
    var nextPacketId: Uint64
    var messages: nat
    var pongs: nat
    var written: nat
    var errors: nat

    ghost predicate Valid()
      reads this, writer
    {
      writer.crc == crc && writer.packetsWritten == written && written + errors == messages
    }

    constructor (crc: Checksum)
      ensures Valid() && fresh(writer) && this.crc == crc
      ensures writer.raw == [] && jsonl == [] && nextPacketId == 1 && messages == 0
    {
      this.crc := crc;
      writer := new RawLogWriter(crc);
      jsonl, nextPacketId, messages, pongs, written, errors := [], 1, 0, 0, 0, 0;
    }

    /** A payload too long for its length field takes an id and writes nothing. */
    method OnMessage(m: Message)
      requires Valid()
      modifies this, writer
      ensures Valid() && messages == old(messages) + 1 && nextPacketId == Successor(old(nextPacketId))
      ensures pongs == old(pongs) + if IsPong(m.payload) then 1 else 0
      ensures var next := Step(crc, Files(old(writer.raw), old(jsonl), old(nextPacketId)), m);
              next == Files(writer.raw, jsonl, nextPacketId)
      ensures Captured(crc, old(writer.raw), old(jsonl), old(nextPacketId), m, writer.raw, jsonl)
      ensures written == old(written) + if |m.payload| <= 0xFFFF_FFFF then 1 else 0
    {
      messages := messages + 1;
      if IsPong(m.payload) { pongs := pongs + 1; }
      var id := nextPacketId;
      nextPacketId := Successor(nextPacketId);
      if |m.payload| > MAX_PAYLOAD {
        errors := errors + 1;
        return;
      }
      var p := MadePacket(crc, m, id);
      var ok := writer.WritePacket(p);
      jsonl := jsonl + (p.payload + [NEWLINE]);
      written := written + 1;
    }
  }

  /** A payload whose length fits goes to both files, as a packet with this id and as a line; another goes to none. */
  ghost predicate Captured(crc: Checksum, raw: seq<Byte>, jsonl: seq<Byte>, id: Uint64, m: Message,
                           raw': seq<Byte>, jsonl': seq<Byte>) {
    if |m.payload| <= 0xFFFF_FFFF then
      && (exists p :: IsPacketOf(crc, p, m, id) && raw' == raw + PacketBytes(p))
      && jsonl' == jsonl + (m.payload + [10])
    else raw' == raw && jsonl' == jsonl
  }

  datatype Files = Files(raw: seq<Byte>, jsonl: seq<Byte>, nextPacketId: Uint64)

  function Step(crc: Checksum, f: Files, m: Message): Files {
    var next := Successor(f.nextPacketId);
    if |m.payload| > MAX_PAYLOAD then f.(nextPacketId := next)
    else Files(f.raw + PacketBytes(MadePacket(crc, m, f.nextPacketId)), f.jsonl + (m.payload + [NEWLINE]), next)
  }

  function Run(crc: Checksum, messages: seq<Message>, n: nat): Files
    requires n <= |messages|
  {
    if n == 0 then Files([], [], 1) else Step(crc, Run(crc, messages, n - 1), messages[n - 1])
  }

  /** The packets the run writes, each numbered by its message. */
  function Written(crc: Checksum, messages: seq<Message>, n: nat): seq<Packet>
    requires n <= |messages| < TWO_TO_THE_64
  {
    if n == 0 then []
    else if |messages[n - 1].payload| > MAX_PAYLOAD then Written(crc, messages, n - 1)
    else Written(crc, messages, n - 1) + [MadePacket(crc, messages[n - 1], n)]
  }

  lemma {:induction false} RawBytesAppend(packets: seq<Packet>, p: Packet)
    ensures RawBytes(packets + [p]) == RawBytes(packets) + PacketBytes(p)
    ensures Lines(packets + [p]) == Lines(packets) + (p.payload + [10])
    ensures RawBytes([]) == [] && Lines([]) == []
  {
    hide PacketBytes;
    var all := packets + [p];
    if packets == [] {
      assert all == [p] && all[1..] == [];
    } else {
      RawBytesAppend(packets[1..], p);
      assert all[1..] == packets[1..] + [p];
    }
  }

  function LastId(packets: seq<Packet>, previous: nat): nat {
    if packets == [] then previous else packets[|packets| - 1].header.packetId
  }

  lemma {:induction false} IdsAppend(packets: seq<Packet>, previous: nat, p: Packet)
    requires IdsIncrease(packets, previous) && p.header.packetId > LastId(packets, previous)
    ensures IdsIncrease(packets + [p], previous)
  {
    var all := packets + [p];
    if packets == [] {
      assert all[1..] == [];
    } else {
      IdsAppend(packets[1..], packets[0].header.packetId, p);
      assert all[1..] == packets[1..] + [p];
    }
  }

  lemma RecordsAppend(crc: Checksum, packets: seq<Packet>, f: Files, p: Packet)
    requires Records(crc, packets, f.raw, f.jsonl, 0) && Good(crc, p) && p.header.packetId > LastId(packets, 0)
    ensures Records(crc, packets + [p], f.raw + PacketBytes(p), f.jsonl + (p.payload + [NEWLINE]), 0)
  {
    RawBytesAppend(packets, p);
    IdsAppend(packets, 0, p);
  }

  /** After every message the two files record exactly the packets written so far. */
  lemma {:induction false} RunRecords(crc: Checksum, messages: seq<Message>, n: nat)
    requires n <= |messages| < TWO_TO_THE_64
    ensures var f, packets := Run(crc, messages, n), Written(crc, messages, n);
            && f.nextPacketId == (if n + 1 == TWO_TO_THE_64 then 0 else n + 1)
            && LastId(packets, 0) <= n
            && Records(crc, packets, f.raw, f.jsonl, 0)
  {
    if n > 0 {
      RunRecords(crc, messages, n - 1);
      var before, m := Written(crc, messages, n - 1), messages[n - 1];
      if |m.payload| <= MAX_PAYLOAD {
        var p := MadePacket(crc, m, n);
        RecordsAppend(crc, before, Run(crc, messages, n - 1), p);
      }
    }
  }

  /** Every sequential capture of fewer than 2^64 messages is accepted, whatever bytes its payloads hold. */
  lemma CaptureIsAccepted(crc: Checksum, messages: seq<Message>)
    requires |messages| < TWO_TO_THE_64
    ensures var f := Run(crc, messages, |messages|);
            IsCapture(crc, f.raw, f.jsonl)
  {
    RunRecords(crc, messages, |messages|);
  }
}
