/** The UDP media datagram: 32-byte header, ciphertext, 16-byte tag (voice_contracts/udp_wire.cc). */
module UdpWire {
  import opened Machine

  type Bytes = seq<u8>

  const HEADER_BYTES := 32
  const MEDIA_ID_BYTES := 8
  const TAG_BYTES := 16
  const MAX_DATAGRAM_BYTES := 1280
  const VERSION := 1

  type MediaId = b: Bytes | |b| == MEDIA_ID_BYTES witness [0, 0, 0, 0, 0, 0, 0, 0]

  datatype Direction = Uplink | Downlink

  datatype DatagramType = Audio | Probe | ProbeAck | Keepalive

  datatype Header = Header(kind: DatagramType, mediaId: MediaId, mediaEpoch: u32, sequence: u32,
                           timestamp: u32, generation: u32, payloadLength: u32)

  datatype View = View(header: Header, headerBytes: Bytes, ciphertext: Bytes, tag: Bytes)

  function WriteU32(v: u32): Bytes {
    [v / 0x100_0000, v / 0x1_0000 % 0x100, v / 0x100 % 0x100, v % 0x100]
  }

  function ReadU32(b: Bytes): u32
    requires |b| == 4
  {
    var b0: nat, b1: nat, b2: nat, b3: nat := b[0], b[1], b[2], b[3];
    ((b0 * 0x100 + b1) * 0x100 + b2) * 0x100 + b3
  }

  function TypeByte(t: DatagramType): u8 {
    match t case Audio => 1 case Probe => 2 case ProbeAck => 4 case Keepalive => 8
  }

  function ParseType(b: u8): Option<DatagramType> {
    if b == 1 then Some(Audio)
    else if b == 2 then Some(Probe)
    else if b == 4 then Some(ProbeAck)
    else if b == 8 then Some(Keepalive)
    else None
  }

  predicate HeaderShapeValid(h: Header, d: Direction) {
    && h.mediaEpoch != 0 && h.payloadLength <= MAX_PAYLOAD_BYTES
    && match h.kind
       case Audio => h.payloadLength > 0
       case Probe => d.Uplink? && h.payloadLength == 0 && h.timestamp == 0
       case ProbeAck => d.Downlink? && h.payloadLength == 0 && h.timestamp == 0
       case Keepalive => h.payloadLength == 0
  }

  predicate HeaderFieldsValid(h: Header, d: Direction) {
    && HeaderShapeValid(h, d)
    && !(d.Uplink? && h.generation != 0)
    && !(d.Downlink? && if h.kind.Audio? then h.generation == 0 else h.generation != 0)
  }

  function EncodeHeader(h: Header): (r: Bytes)
    ensures |r| == HEADER_BYTES
  {
    ['V' as int, 'A' as int, VERSION, TypeByte(h.kind)] + h.mediaId + WriteU32(h.mediaEpoch) + WriteU32(h.sequence)
    + WriteU32(h.timestamp) + WriteU32(h.generation) + WriteU32(h.payloadLength)
  }

  /** The fields of a header, read at their fixed offsets. */
  function DecodeFields(kind: DatagramType, data: Bytes): Header
    requires |data| >= HEADER_BYTES
  {
    Header(kind, data[4..12], ReadU32(data[12..16]), ReadU32(data[16..20]),
           ReadU32(data[20..24]), ReadU32(data[24..28]), ReadU32(data[28..32]))
  }

  function ParseDatagram(data: Bytes, d: Direction): Option<View> {
    if |data| < HEADER_BYTES + TAG_BYTES || |data| > MAX_DATAGRAM_BYTES
       || data[0] != 'V' as int || data[1] != 'A' as int || data[2] != VERSION || ParseType(data[3]).None? then None
    else
      var h := DecodeFields(ParseType(data[3]).value, data);
      if !HeaderShapeValid(h, d) || |data| != HEADER_BYTES + h.payloadLength + TAG_BYTES then None
      else
        var end := HEADER_BYTES + h.payloadLength;
        Some(View(h, data[..HEADER_BYTES], data[HEADER_BYTES..end], data[end..]))
  }

  predicate MatchesSession(h: Header, mediaId: MediaId, mediaEpoch: u32) {
    mediaEpoch != 0 && h.mediaId == mediaId && h.mediaEpoch == mediaEpoch
  }

  function MakeNonce(salt: Bytes, sequence: u32): Bytes {
    salt + WriteU32(sequence)
  }

  lemma U32RoundTrip(v: u32)
    ensures |WriteU32(v)| == 4 && ReadU32(WriteU32(v)) == v
  {
    var mid, high := v / 0x100, v / 0x1_0000;
    assert v == mid * 0x100 + v % 0x100;
    assert mid == high * 0x100 + mid % 0x100 && mid / 0x100 == high;
    assert high == v / 0x100_0000 * 0x100 + high % 0x100;
  }

  lemma U32Canonical(b: Bytes)
    requires |b| == 4
    ensures WriteU32(ReadU32(b)) == b
  {
    var b0: nat, b1: nat := b[0], b[1];
    var hi := b0 * 0x100 + b1;
    var mid := hi * 0x100 + b[2];
    assert ReadU32(b) / 0x100 == mid && ReadU32(b) % 0x100 == b[3];
    assert ReadU32(b) / 0x1_0000 == mid / 0x100 == hi;
    assert ReadU32(b) / 0x100_0000 == hi / 0x100 == b[0];
  }

  /** A salted counter nonce determines its counter. */
  lemma NonceInjective(salt: Bytes, a: u32, b: u32)
    requires MakeNonce(salt, a) == MakeNonce(salt, b)
    ensures a == b
  {
    assert MakeNonce(salt, a)[|salt|..] == WriteU32(a);
    assert MakeNonce(salt, b)[|salt|..] == WriteU32(b);
    U32RoundTrip(a);
    U32RoundTrip(b);
  }

  /** Decoding the encoded fields gives the header back. */
  lemma FieldsRoundTrip(h: Header, rest: Bytes)
    ensures var data := EncodeHeader(h) + rest;
      && data[0] == 'V' as int && data[1] == 'A' as int && data[2] == VERSION && data[3] == TypeByte(h.kind)
      && DecodeFields(h.kind, data) == h
  {
    var data := EncodeHeader(h) + rest;
    assert data[4..12] == h.mediaId;
    assert data[12..16] == WriteU32(h.mediaEpoch);
    assert data[16..20] == WriteU32(h.sequence);
    assert data[20..24] == WriteU32(h.timestamp);
    assert data[24..28] == WriteU32(h.generation);
    assert data[28..32] == WriteU32(h.payloadLength);
    U32RoundTrip(h.mediaEpoch);
    U32RoundTrip(h.sequence);
    U32RoundTrip(h.timestamp);
    U32RoundTrip(h.generation);
    U32RoundTrip(h.payloadLength);
  }

  /** Encoding the decoded fields gives the header bytes back. */
  lemma FieldsCanonical(kind: DatagramType, data: Bytes)
    requires |data| >= HEADER_BYTES
    requires data[0] == 'V' as int && data[1] == 'A' as int && data[2] == VERSION && data[3] == TypeByte(kind)
    ensures EncodeHeader(DecodeFields(kind, data)) == data[..HEADER_BYTES]
  {
    U32Canonical(data[12..16]);
    U32Canonical(data[16..20]);
    U32Canonical(data[20..24]);
    U32Canonical(data[24..28]);
    U32Canonical(data[28..32]);
    assert data[..HEADER_BYTES] == data[..4] + data[4..12] + data[12..16] + data[16..20] + data[20..24] + data[24..28] + data[28..32];
    assert data[..4] == ['V' as int, 'A' as int, VERSION, TypeByte(kind)];
  }

  /**
   Framing is exact: a datagram parses to a view precisely when it is the encoding of a
   well-shaped header followed by that view's ciphertext and tag.
   */
  lemma ParseIffEncoding(data: Bytes, d: Direction, v: View)
    ensures ParseDatagram(data, d) == Some(v) <==>
      && HeaderShapeValid(v.header, d)
      && |v.ciphertext| == v.header.payloadLength && |v.tag| == 16
      && v.headerBytes == EncodeHeader(v.header)
      && data == v.headerBytes + v.ciphertext + v.tag
  {
    if ParseDatagram(data, d) == Some(v) {
      FieldsCanonical(v.header.kind, data);
      assert data == v.headerBytes + v.ciphertext + v.tag;
    }
    if HeaderShapeValid(v.header, d)
       && |v.ciphertext| == v.header.payloadLength && |v.tag| == TAG_BYTES
       && v.headerBytes == EncodeHeader(v.header) && data == v.headerBytes + v.ciphertext + v.tag {
      ParseOfEncoding(data, d, v);
    }
  }

  lemma ParseOfEncoding(data: Bytes, d: Direction, v: View)
    requires HeaderShapeValid(v.header, d)
    requires |v.ciphertext| == v.header.payloadLength && |v.tag| == TAG_BYTES
    requires v.headerBytes == EncodeHeader(v.header) && data == v.headerBytes + v.ciphertext + v.tag
    ensures ParseDatagram(data, d) == Some(v)
  {
    FieldsRoundTrip(v.header, v.ciphertext + v.tag);
    assert data == EncodeHeader(v.header) + (v.ciphertext + v.tag);
    assert ParseType(data[3]) == Some(v.header.kind);
    var end := HEADER_BYTES + v.header.payloadLength;
    assert data[..HEADER_BYTES] == v.headerBytes && data[HEADER_BYTES..end] == v.ciphertext && data[end..] == v.tag;
  }

  // ---- The wire layout -------------------------------------------------------------------------------

  /** Four bytes at an offset hold the number, most significant first. */
  predicate BigEndianAt(b: Bytes, at: nat, v: u32)
    requires at + 4 <= |b|
  {
    var b0: nat, b1: nat, b2: nat, b3: nat := b[at], b[at + 1], b[at + 2], b[at + 3];
    v == b0 * 16777216 + b1 * 65536 + b2 * 256 + b3
  }

  lemma WrittenBigEndian(v: u32)
    ensures BigEndianAt(WriteU32(v), 0, v)
  {
    U32RoundTrip(v);
  }

  lemma PlacedBigEndian(b: Bytes, at: nat, v: u32)
    requires at + 4 <= |b| && b[at..at + 4] == WriteU32(v)
    ensures BigEndianAt(b, at, v)
  {
    WrittenBigEndian(v);
    var w := b[at..at + 4];
    assert w[0] == b[at] && w[1] == b[at + 1] && w[2] == b[at + 2] && w[3] == b[at + 3];
  }

  /** The 32-byte header: "VA", version 1, the type flag, media id, epoch, sequence, timestamp, generation, payload length. */
  lemma HeaderLayout(h: Header)
    ensures var b := EncodeHeader(h);
            && |b| == 32 && b[0] == 0x56 && b[1] == 0x41 && b[2] == 1
            && b[3] == (match h.kind case Audio => 1 case Probe => 2 case ProbeAck => 4 case Keepalive => 8)
            && b[4..12] == h.mediaId
            && BigEndianAt(b, 12, h.mediaEpoch) && BigEndianAt(b, 16, h.sequence) && BigEndianAt(b, 20, h.timestamp)
            && BigEndianAt(b, 24, h.generation) && BigEndianAt(b, 28, h.payloadLength)
  {
    var b := EncodeHeader(h);
    FieldSlices(h);
    PlacedBigEndian(b, 12, h.mediaEpoch);
    PlacedBigEndian(b, 16, h.sequence);
    PlacedBigEndian(b, 20, h.timestamp);
    PlacedBigEndian(b, 24, h.generation);
    PlacedBigEndian(b, 28, h.payloadLength);
  }

  lemma FieldSlices(h: Header)
    ensures var b := EncodeHeader(h);
            && b[4..12] == h.mediaId && b[12..16] == WriteU32(h.mediaEpoch) && b[16..20] == WriteU32(h.sequence)
            && b[20..24] == WriteU32(h.timestamp) && b[24..28] == WriteU32(h.generation) && b[28..32] == WriteU32(h.payloadLength)
  {
  }

  /** Which headers a datagram may have, by type and direction; and which the sender may build. */
  lemma ShapeIff(h: Header, d: Direction)
    ensures HeaderShapeValid(h, d) <==>
              && h.mediaEpoch > 0
              && (if h.kind.Audio? then 0 < h.payloadLength <= 1200 else h.payloadLength == 0)
              && (h.kind.Probe? ==> d.Uplink? && h.timestamp == 0)
              && (h.kind.ProbeAck? ==> d.Downlink? && h.timestamp == 0)
    ensures HeaderFieldsValid(h, d) <==>
              HeaderShapeValid(h, d) && (h.generation > 0 <==> d.Downlink? && h.kind.Audio?)
  {
  }

  /** The nonce is the salt followed by the sequence, most significant byte first. */
  lemma NonceLayout(salt: Bytes, sequence: u32)
    ensures var n := MakeNonce(salt, sequence);
            |n| == |salt| + 4 && n[..|salt|] == salt && BigEndianAt(n, |salt|, sequence)
  {
    var n := MakeNonce(salt, sequence);
    assert n[|salt|..|salt| + 4] == WriteU32(sequence);
    PlacedBigEndian(n, |salt|, sequence);
  }
}
