/**
 The packets of the raw log (`engine/feed/raw_ingest`): a header of fixed width followed by the
 payload.  Integers are stored low byte first.  The checksum is any function of the payload.
 */
module RawPacket {
  import opened Words

  type Uint16 = n: nat | n < 0x1_0000
  type Uint32 = n: nat | n < 0x1_0000_0000

  type Checksum = seq<Byte> -> Uint32

  const MAGIC: Uint32 := 0x484C5852
  const VERSION: Uint16 := 1
  const HEADER_SIZE: Uint16 := 56
  const MAX_PAYLOAD: nat := 0xFFFF_FFFF

  datatype Header = Header(magic: Uint32, version: Uint16, headerSize: Uint16,
                           recvWallNs: Uint64, recvMonotonicNs: Uint64, connectionId: Uint64, packetId: Uint64,
                           sourceId: Uint16, codec: Uint16, flags: Uint32, payloadLen: Uint32, payloadCrc: Uint32)

  datatype Packet = Packet(header: Header, payload: seq<Byte>)

  // Integers as bytes.

  function Pow256(width: nat): (r: nat)
    ensures r >= 1
  {
    if width == 0 then 1 else 256 * Pow256(width - 1)
  }

  function Store(n: nat, width: nat): (b: seq<Byte>)
    ensures |b| == width
  {
    if width == 0 then [] else [n % 256] + Store(n / 256, width - 1)
  }

  function Load(b: seq<Byte>): nat { if b == [] then 0 else b[0] + 256 * Load(b[1..]) }

  lemma {:induction false} LoadStore(n: nat, width: nat)
    requires n < Pow256(width)
    ensures Load(Store(n, width)) == n
  {
    if width > 0 {
      LoadStore(n / 256, width - 1);
      assert Store(n, width)[1..] == Store(n / 256, width - 1);
    }
  }

  lemma {:induction false} StoreLoad(b: seq<Byte>)
    ensures Load(b) < Pow256(|b|) && Store(Load(b), |b|) == b
  {
    if b != [] {
      StoreLoad(b[1..]);
      var high := Load(b[1..]);
      QuotientIsUnique(Load(b), 256, high, b[0]);
      assert Load(b) / 256 == high;
      assert b == [b[0]] + b[1..];
    }
  }

  /** The bytes at the position are those of the number, low byte first. */
  predicate StoredAt(b: seq<Byte>, at: nat, width: nat, v: nat) {
    at + width <= |b| && forall k | 0 <= k < width :: b[at + k] == v / Pow256(k) % 256
  }

  lemma {:induction false} StoredBytes(v: nat, width: nat, k: nat)
    requires k < width
    ensures Store(v, width)[k] == v / Pow256(k) % 256
  {
    if k > 0 {
      StoredBytes(v / 256, width - 1, k - 1);
      QuotientOfQuotient(v, 256, Pow256(k - 1));
    }
  }

  lemma StoredBetween(front: seq<Byte>, v: nat, width: nat, back: seq<Byte>)
    ensures StoredAt(front + Store(v, width) + back, |front|, width, v)
  {
    hide Store, Pow256;
    var b := front + Store(v, width) + back;
    forall k | 0 <= k < width ensures b[|front| + k] == v / Pow256(k) % 256 {
      StoredBytes(v, width, k);
    }
  }

  lemma StoredBefore(b: seq<Byte>, at: nat, width: nat, v: nat, back: seq<Byte>)
    requires StoredAt(b, at, width, v)
    ensures StoredAt(b + back, at, width, v)
  {
    hide Pow256;
  }

  // Headers: twelve fields, stored one after the other.

  const FIELDS: nat := 12

  function Width(i: nat): nat {
    if i == 0 then 4 else if i <= 2 then 2 else if i <= 6 then 8 else if i <= 8 then 2 else 4
  }

  function Offset(i: nat): nat { if i == 0 then 0 else Offset(i - 1) + Width(i - 1) }

  function Field(h: Header, i: nat): nat {
    if i == 0 then h.magic else if i == 1 then h.version else if i == 2 then h.headerSize
    else if i == 3 then h.recvWallNs else if i == 4 then h.recvMonotonicNs
    else if i == 5 then h.connectionId else if i == 6 then h.packetId
    else if i == 7 then h.sourceId else if i == 8 then h.codec else if i == 9 then h.flags
    else if i == 10 then h.payloadLen else h.payloadCrc
  }

  lemma WidthsInBytes()
    ensures Pow256(2) == 0x1_0000 && Pow256(4) == 0x1_0000_0000 && Pow256(8) == TWO_TO_THE_64
  {
    assert Pow256(1) == 256;
    assert Pow256(3) == 0x100_0000;
    assert Pow256(5) == 0x100_0000_0000;
    assert Pow256(6) == 0x1_0000_0000_0000;
    assert Pow256(7) == 0x100_0000_0000_0000;
  }

  lemma FieldFits(h: Header, i: nat)
    requires i < FIELDS
    ensures Field(h, i) < Pow256(Width(i))
  {
    WidthsInBytes();
  }

  function WithField(h: Header, i: nat, v: nat): Header
    requires i < FIELDS && v < Pow256(Width(i))
  {
    WidthsInBytes();
    if i == 0 then h.(magic := v) else if i == 1 then h.(version := v) else if i == 2 then h.(headerSize := v)
    else if i == 3 then h.(recvWallNs := v) else if i == 4 then h.(recvMonotonicNs := v)
    else if i == 5 then h.(connectionId := v) else if i == 6 then h.(packetId := v)
    else if i == 7 then h.(sourceId := v) else if i == 8 then h.(codec := v) else if i == 9 then h.(flags := v)
    else if i == 10 then h.(payloadLen := v) else h.(payloadCrc := v)
  }

  lemma FieldOfWithField(h: Header, i: nat, v: nat, j: nat)
    requires i < FIELDS && j < FIELDS && v < Pow256(Width(i))
    ensures Field(WithField(h, i, v), j) == if j == i then v else Field(h, j)
  {
  }

  lemma SameFields(g: Header, h: Header)
    requires forall i | 0 <= i < FIELDS :: Field(g, i) == Field(h, i)
    ensures g == h
  {
    assert Field(g, 0) == Field(h, 0) && Field(g, 1) == Field(h, 1) && Field(g, 2) == Field(h, 2);
    assert Field(g, 3) == Field(h, 3) && Field(g, 4) == Field(h, 4) && Field(g, 5) == Field(h, 5);
    assert Field(g, 6) == Field(h, 6) && Field(g, 7) == Field(h, 7) && Field(g, 8) == Field(h, 8);
    assert Field(g, 9) == Field(h, 9) && Field(g, 10) == Field(h, 10) && Field(g, 11) == Field(h, 11);
  }

  /** The first `n` fields as bytes. */
  function StoreFields(h: Header, n: nat): (b: seq<Byte>)
    ensures |b| == Offset(n)
  {
    if n == 0 then [] else StoreFields(h, n - 1) + Store(Field(h, n - 1), Width(n - 1))
  }

  lemma {:induction false} OffsetsGrow(i: nat, n: nat)
    requires i <= n
    ensures Offset(i) <= Offset(n)
  {
    if i < n { OffsetsGrow(i, n - 1); }
  }

  /** Field `i` as it stands in the bytes. */
  function Piece(b: seq<Byte>, i: nat): (v: nat)
    requires Offset(i + 1) <= |b|
    ensures v < Pow256(Width(i))
  {
    StoreLoad(b[Offset(i)..Offset(i + 1)]);
    Load(b[Offset(i)..Offset(i + 1)])
  }

  const BLANK_HEADER := Header(0, 0, 0, 0, 0, 0, 0, 0, 0, 0, 0, 0)

  /** A blank header with its first `n` fields read from the bytes. */
  function LoadFields(b: seq<Byte>, n: nat): Header
    requires n <= FIELDS && Offset(n) <= |b|
  {
    if n == 0 then BLANK_HEADER else WithField(LoadFields(b, n - 1), n - 1, Piece(b, n - 1))
  }

  lemma {:induction false} LoadedField(b: seq<Byte>, n: nat, j: nat)
    requires j < n <= FIELDS && Offset(n) <= |b|
    ensures Offset(j + 1) <= |b| && Field(LoadFields(b, n), j) == Piece(b, j)
  {
    hide Field, Width, WithField;
    FieldOfWithField(LoadFields(b, n - 1), n - 1, Piece(b, n - 1), j);
    if j < n - 1 { LoadedField(b, n - 1, j); }
  }

  lemma FrontPiece(a: seq<Byte>, c: seq<Byte>, j: nat)
    requires Offset(j + 1) <= |a|
    ensures Piece(a + c, j) == Piece(a, j)
  {
    assert (a + c)[Offset(j)..Offset(j + 1)] == a[Offset(j)..Offset(j + 1)];
  }

  lemma LastPiece(a: seq<Byte>, v: nat, j: nat)
    requires |a| == Offset(j) && v < Pow256(Width(j))
    ensures Piece(a + Store(v, Width(j)), j) == v
  {
    var c := Store(v, Width(j));
    assert (a + c)[Offset(j)..Offset(j + 1)] == c;
    LoadStore(v, Width(j));
  }

  lemma {:induction false} StoredPiece(h: Header, n: nat, j: nat)
    requires j < n <= FIELDS
    ensures Offset(j + 1) <= Offset(n) && Piece(StoreFields(h, n), j) == Field(h, j)
  {
    hide Field, Width, Piece;
    OffsetsGrow(j + 1, n);
    var a := StoreFields(h, n - 1);
    if j == n - 1 {
      FieldFits(h, j);
      LastPiece(a, Field(h, j), j);
    } else {
      StoredPiece(h, n - 1, j);
      FrontPiece(a, Store(Field(h, n - 1), Width(n - 1)), j);
    }
  }

  lemma {:induction false} FieldLiesAt(h: Header, n: nat, j: nat)
    requires j < n <= FIELDS
    ensures StoredAt(StoreFields(h, n), Offset(j), Width(j), Field(h, j))
  {
    hide Field, Width, Store, StoredAt;
    var a := StoreFields(h, n - 1);
    if j == n - 1 {
      StoredBetween(a, Field(h, j), Width(j), []);
      assert a + Store(Field(h, j), Width(j)) + [] == StoreFields(h, n);
    } else {
      FieldLiesAt(h, n - 1, j);
      StoredBefore(a, Offset(j), Width(j), Field(h, j), Store(Field(h, n - 1), Width(n - 1)));
    }
  }

  lemma StoredSlice(b: seq<Byte>, j: nat)
    requires Offset(j + 1) <= |b|
    ensures b[..Offset(j)] + Store(Piece(b, j), Width(j)) == b[..Offset(j + 1)]
  {
    StoreLoad(b[Offset(j)..Offset(j + 1)]);
  }

  lemma {:induction false} StoreLoadedFields(b: seq<Byte>, h: Header, n: nat)
    requires n <= FIELDS && Offset(FIELDS) <= |b| && h == LoadFields(b, FIELDS)
    ensures Offset(n) <= |b| && StoreFields(h, n) == b[..Offset(n)]
  {
    hide Field, Width, Piece, LoadFields;
    OffsetsGrow(n, FIELDS);
    if n > 0 {
      StoreLoadedFields(b, h, n - 1);
      LoadedField(b, FIELDS, n - 1);
      StoredSlice(b, n - 1);
    }
  }

  lemma OffsetOfPayload()
    ensures Offset(FIELDS) == HEADER_SIZE
  {
    assert Offset(4) == 16;
    assert Offset(8) == 42;
  }

  function HeaderBytes(h: Header): (b: seq<Byte>)
    ensures |b| == HEADER_SIZE
  {
    OffsetOfPayload();
    StoreFields(h, FIELDS)
  }

  function HeaderFrom(b: seq<Byte>): Header
    requires |b| == HEADER_SIZE
  {
    OffsetOfPayload();
    LoadFields(b, FIELDS)
  }

  /** Each field has its place among the 56 bytes, low byte first. */
  lemma HeaderLayout(h: Header)
    ensures var b := HeaderBytes(h);
            && StoredAt(b, 0, 4, h.magic) && StoredAt(b, 4, 2, h.version) && StoredAt(b, 6, 2, h.headerSize)
            && StoredAt(b, 8, 8, h.recvWallNs) && StoredAt(b, 16, 8, h.recvMonotonicNs)
            && StoredAt(b, 24, 8, h.connectionId) && StoredAt(b, 32, 8, h.packetId)
            && StoredAt(b, 40, 2, h.sourceId) && StoredAt(b, 42, 2, h.codec) && StoredAt(b, 44, 4, h.flags)
            && StoredAt(b, 48, 4, h.payloadLen) && StoredAt(b, 52, 4, h.payloadCrc) && |b| == 56
  {
    hide StoredAt, StoreFields, Offset;
    OffsetOfPayload();
    OffsetsAre();
    FieldLiesAt(h, 12, 0);
    FieldLiesAt(h, 12, 1);
    FieldLiesAt(h, 12, 2);
    FieldLiesAt(h, 12, 3);
    FieldLiesAt(h, 12, 4);
    FieldLiesAt(h, 12, 5);
    FieldLiesAt(h, 12, 6);
    FieldLiesAt(h, 12, 7);
    FieldLiesAt(h, 12, 8);
    FieldLiesAt(h, 12, 9);
    FieldLiesAt(h, 12, 10);
    FieldLiesAt(h, 12, 11);
  }

  lemma OffsetsAre()
    ensures Offset(0) == 0 && Offset(1) == 4 && Offset(2) == 6 && Offset(3) == 8 && Offset(4) == 16
    ensures Offset(5) == 24 && Offset(6) == 32 && Offset(7) == 40 && Offset(8) == 42 && Offset(9) == 44
    ensures Offset(10) == 48 && Offset(11) == 52
  {
  }

  /** Every header is read back from its bytes. */
  lemma HeaderReadsBack(h: Header)
    ensures HeaderFrom(HeaderBytes(h)) == h
  {
    OffsetOfPayload();
    var b := HeaderBytes(h);
    forall j | 0 <= j < FIELDS ensures Field(HeaderFrom(b), j) == Field(h, j) {
      LoadedField(b, FIELDS, j);
      StoredPiece(h, FIELDS, j);
    }
    SameFields(HeaderFrom(b), h);
  }

  /** Any 56 bytes are the bytes of the header read from them. */
  lemma HeaderWritesBack(b: seq<Byte>)
    requires |b| == HEADER_SIZE
    ensures HeaderBytes(HeaderFrom(b)) == b
  {
    OffsetOfPayload();
    StoreLoadedFields(b, HeaderFrom(b), FIELDS);
  }

  // Packets.

  /** What the writer demands of a packet, the reader of a record and the validator of both. */
  predicate Good(crc: Checksum, p: Packet) {
    && p.header.magic == 0x484C5852
    && p.header.version == 1
    && p.header.headerSize == 56
    && |p.payload| <= 0xFFFF_FFFF
    && p.header.payloadLen == |p.payload|
    && p.header.payloadCrc == crc(p.payload)
  }

  function PacketBytes(p: Packet): (b: seq<Byte>)
    ensures |b| == HEADER_SIZE + |p.payload|
  {
    HeaderBytes(p.header) + p.payload
  }

  /** The file shows R, X, L and H first, then version 1 and the header size. */
  lemma GoodStart(crc: Checksum, p: Packet)
    requires Good(crc, p)
    ensures PacketBytes(p)[..8] == [0x52, 0x58, 0x4C, 0x48, 1, 0, 56, 0]
  {
    hide HeaderBytes, StoredAt;
    HeaderLayout(p.header);
    var b := HeaderBytes(p.header);
    TwoBytes(b, 0, 4, p.header.magic);
    TwoBytes(b, 4, 2, p.header.version);
    TwoBytes(b, 6, 2, p.header.headerSize);
    TwoMoreBytes(b, 0, p.header.magic);
  }

  lemma TwoBytes(b: seq<Byte>, at: nat, width: nat, v: nat)
    requires width >= 2 && StoredAt(b, at, width, v)
    ensures at + 2 <= |b| && b[at] == v % 256 && b[at + 1] == v / 0x100 % 256
  {
    hide Pow256;
    PowersOf256();
    assert b[at + 0] == v / Pow256(0) % 256;
  }

  lemma TwoMoreBytes(b: seq<Byte>, at: nat, v: nat)
    requires StoredAt(b, at, 4, v)
    ensures at + 4 <= |b| && b[at + 2] == v / 0x1_0000 % 256 && b[at + 3] == v / 0x100_0000 % 256
  {
    hide Pow256;
    PowersOf256();
  }

  lemma PowersOf256()
    ensures Pow256(0) == 1 && Pow256(1) == 0x100 && Pow256(2) == 0x1_0000 && Pow256(3) == 0x100_0000
  {
  }

  datatype ReadError = TruncatedHeader | BadMagic | UnsupportedVersion | BadHeaderSize | TruncatedPayload | CrcMismatch

  datatype Read = EndOfFile | Failed(error: ReadError) | Got(packet: Packet, length: nat)

  /** The first record of what is left of the file. */
  function ReadFirst(crc: Checksum, raw: seq<Byte>): (r: Read)
    ensures r.EndOfFile? <==> raw == []
    ensures r == Failed(TruncatedHeader) <==> 0 < |raw| < 56
    ensures r.Got? ==> HEADER_SIZE <= r.length <= |raw|
  {
    if raw == [] then EndOfFile
    else if |raw| < HEADER_SIZE then Failed(TruncatedHeader)
    else
      var h := HeaderFrom(raw[..HEADER_SIZE]);
      if h.magic != MAGIC then Failed(BadMagic)
      else if h.version != VERSION then Failed(UnsupportedVersion)
      else if h.headerSize != HEADER_SIZE then Failed(BadHeaderSize)
      else if |raw| < HEADER_SIZE + h.payloadLen then Failed(TruncatedPayload)
      else
        var payload := raw[HEADER_SIZE..HEADER_SIZE + h.payloadLen];
        if crc(payload) != h.payloadCrc then Failed(CrcMismatch)
        else Got(Packet(h, payload), HEADER_SIZE + h.payloadLen)
  }

  /** The first check that the header in front fails is the one reported. */
  lemma FailsExactly(crc: Checksum, raw: seq<Byte>, h: Header)
    requires |raw| >= 56 && raw[..56] == HeaderBytes(h)
    ensures var r := ReadFirst(crc, raw);
      if h.magic != 0x484C5852 then r == Failed(BadMagic)
      else if h.version != 1 then r == Failed(UnsupportedVersion)
      else if h.headerSize != 56 then r == Failed(BadHeaderSize)
      else if |raw| < 56 + h.payloadLen then r == Failed(TruncatedPayload)
      else if crc(raw[56..56 + h.payloadLen]) != h.payloadCrc then r == Failed(CrcMismatch)
      else r == Got(Packet(h, raw[56..56 + h.payloadLen]), 56 + h.payloadLen)
  {
    HeaderReadsBack(h);
  }

  lemma ReadParts(crc: Checksum, raw: seq<Byte>)
    requires ReadFirst(crc, raw).Got?
    ensures var r := ReadFirst(crc, raw);
            && r.length <= |raw| && r.packet.header == HeaderFrom(raw[..HEADER_SIZE])
            && r.packet.payload == raw[HEADER_SIZE..r.length] && Good(crc, r.packet)
  {
  }

  lemma SplitPacket(raw: seq<Byte>, n: nat, p: Packet, length: nat)
    requires n == HEADER_SIZE && n <= length <= |raw|
    requires p.header == HeaderFrom(raw[..n]) && p.payload == raw[n..length]
    ensures PacketBytes(p) == raw[..length]
  {
    HeaderWritesBack(raw[..n]);
    assert raw[..n] + raw[n..length] == raw[..length];
  }

  /** What is read is good and is exactly the bytes in front. */
  lemma ReadIsSound(crc: Checksum, raw: seq<Byte>)
    requires ReadFirst(crc, raw).Got?
    ensures var r := ReadFirst(crc, raw);
            Good(crc, r.packet) && PacketBytes(r.packet) == raw[..r.length]
  {
    ReadParts(crc, raw);
    var r := ReadFirst(crc, raw);
    SplitPacket(raw, HEADER_SIZE, r.packet, r.length);
  }

  /** A good packet is read back, whatever follows it. */
  lemma ReadIsComplete(crc: Checksum, p: Packet, rest: seq<Byte>)
    requires Good(crc, p)
    ensures ReadFirst(crc, PacketBytes(p) + rest) == Got(p, |PacketBytes(p)|)
  {
    var raw := PacketBytes(p) + rest;
    var b := raw[..HEADER_SIZE];
    assert b == HeaderBytes(p.header);
    HeaderReadsBack(p.header);
    assert raw[HEADER_SIZE..HEADER_SIZE + |p.payload|] == p.payload;
  }

  class RawLogReader {
    const crc: Checksum
    var rest: seq<Byte>
    var packetsRead: nat
    var bytesRead: nat

    constructor (crc: Checksum, raw: seq<Byte>)
      ensures this.crc == crc && rest == raw && packetsRead == 0 && bytesRead == 0
    {
      this.crc, rest, packetsRead, bytesRead := crc, raw, 0, 0;
    }

    /** After a failure the position is not specified further; a caller stops there. */
    method Next() returns (r: Read)
      modifies this
      ensures r == ReadFirst(crc, old(rest))
      ensures r.Got? ==> rest == old(rest)[r.length..]
      ensures r.Got? ==> packetsRead == old(packetsRead) + 1 && bytesRead == old(bytesRead) + r.length
      ensures !r.Got? ==> packetsRead == old(packetsRead) && bytesRead == old(bytesRead)
    {
      if rest == [] { return EndOfFile; }
      if |rest| < HEADER_SIZE { rest := []; return Failed(TruncatedHeader); }
      var header := HeaderFrom(rest[..HEADER_SIZE]);
      if header.magic != MAGIC { return Failed(BadMagic); }
      if header.version != VERSION { return Failed(UnsupportedVersion); }
      if header.headerSize != HEADER_SIZE { return Failed(BadHeaderSize); }
      var length := HEADER_SIZE + header.payloadLen;
      if |rest| < length { rest := []; return Failed(TruncatedPayload); }
      var payload := rest[HEADER_SIZE..length];
      if crc(payload) != header.payloadCrc { return Failed(CrcMismatch); }
      rest := rest[length..];
      packetsRead := packetsRead + 1;
      bytesRead := bytesRead + length;
      r := Got(Packet(header, payload), length);
    }
  }

  class RawLogWriter {
    const crc: Checksum
    var raw: seq<Byte>
    var packetsWritten: nat
    var bytesWritten: nat

    constructor (crc: Checksum)
      ensures this.crc == crc && raw == [] && packetsWritten == 0 && bytesWritten == 0
    {
      this.crc, raw, packetsWritten, bytesWritten := crc, [], 0, 0;
    }

    /** Refuses, before writing anything, whatever the reader would not accept. */
    method WritePacket(p: Packet) returns (ok: bool)
      modifies this
      ensures ok <==> Good(crc, p)
      ensures raw == old(raw) + if ok then PacketBytes(p) else []
      ensures packetsWritten == old(packetsWritten) + if ok then 1 else 0
      ensures bytesWritten == old(bytesWritten) + if ok then |PacketBytes(p)| else 0
    {
      ok := p.header.magic == MAGIC && p.header.version == VERSION && p.header.headerSize == HEADER_SIZE
         && |p.payload| <= MAX_PAYLOAD && p.header.payloadLen == |p.payload| && p.header.payloadCrc == crc(p.payload);
      if ok {
        raw := raw + (HeaderBytes(p.header) + p.payload);
        packetsWritten := packetsWritten + 1;
        bytesWritten := bytesWritten + HEADER_SIZE + |p.payload|;
      }
    }
  }
}
