/** The header of LIFX packets, as it is in the memory of either kind of host and on the wire. */
module WireHeader {

  import opened Common

  type Byte = bv8

  datatype Host = Little | Big

  // ---------------------------------------------------------------- words in memory

  // Byte k of a word, from the least significant one.
  function Part16(x: bv16, k: nat): Byte
    requires k < 2
  {
    ((if k == 0 then x else x >> 8) & 0xff) as Byte
  }

  function Join16(b0: Byte, b1: Byte): bv16 {
    (b0 as bv16) | (b1 as bv16 << 8)
  }

  function Swap16(x: bv16): bv16 {
    (x << 8) | (x >> 8)
  }

  lemma Joined16(x: bv16)
    ensures Join16(Part16(x, 0), Part16(x, 1)) == x
  {}

  lemma JoinedReversed16(x: bv16)
    ensures Join16(Part16(x, 1), Part16(x, 0)) == Swap16(x)
  {}

  lemma Swapped16(x: bv16)
    ensures Part16(Swap16(x), 0) == Part16(x, 1) && Part16(Swap16(x), 1) == Part16(x, 0)
  {}

  // The bytes of a word, the least significant one first.
  function Bytes16(x: bv16): (b: seq<Byte>)
    ensures |b| == 2
  {
    [Part16(x, 0), Part16(x, 1)]
  }

  function Word16(b: seq<Byte>): bv16
    requires |b| == 2
  {
    Join16(b[0], b[1])
  }

  // A word as it lies in memory.
  function Store16(host: Host, x: bv16): (b: seq<Byte>)
    ensures |b| == 2
  {
    if host.Little? then Bytes16(x) else [Part16(x, 1), Part16(x, 0)]
  }

  // htole16() and le16toh(): nothing on a little-endian host, the bytes swapped on the other.
  function Le16(host: Host, x: bv16): bv16 {
    if host.Little? then x else Swap16(x)
  }

  lemma Words16(host: Host, x: bv16)
    ensures Store16(host, Le16(host, x)) == Bytes16(x) && Le16(host, x) == Word16(Store16(host, x)) && Word16(Bytes16(x)) == x
  {
    hide Part16, Join16, Swap16;
    Joined16(x);
    JoinedReversed16(x);
    Swapped16(x);
  }

  // Byte k of a word, from the least significant one.
  function Part32(x: bv32, k: nat): Byte
    requires k < 4
  {
    ((if k == 0 then x else if k == 1 then x >> 8 else if k == 2 then x >> 16 else x >> 24) & 0xff) as Byte
  }

  function Join32(b0: Byte, b1: Byte, b2: Byte, b3: Byte): bv32 {
    (b0 as bv32) | (b1 as bv32 << 8) | (b2 as bv32 << 16) | (b3 as bv32 << 24)
  }

  function Swap32(x: bv32): bv32 {
    (x << 24) | ((x & 0xff00) << 8) | ((x >> 8) & 0xff00) | (x >> 24)
  }

  lemma Joined32(x: bv32)
    ensures Join32(Part32(x, 0), Part32(x, 1), Part32(x, 2), Part32(x, 3)) == x
  {}

  lemma JoinedReversed32(x: bv32)
    ensures Join32(Part32(x, 3), Part32(x, 2), Part32(x, 1), Part32(x, 0)) == Swap32(x)
  {}

  lemma Swapped32(x: bv32)
    ensures Part32(Swap32(x), 0) == Part32(x, 3) && Part32(Swap32(x), 1) == Part32(x, 2)
    ensures Part32(Swap32(x), 2) == Part32(x, 1) && Part32(Swap32(x), 3) == Part32(x, 0)
  {}

  // The bytes of a word, the least significant one first.
  function Bytes32(x: bv32): (b: seq<Byte>)
    ensures |b| == 4
  {
    [Part32(x, 0), Part32(x, 1), Part32(x, 2), Part32(x, 3)]
  }

  function Word32(b: seq<Byte>): bv32
    requires |b| == 4
  {
    Join32(b[0], b[1], b[2], b[3])
  }

  // A word as it lies in memory.
  function Store32(host: Host, x: bv32): (b: seq<Byte>)
    ensures |b| == 4
  {
    if host.Little? then Bytes32(x) else [Part32(x, 3), Part32(x, 2), Part32(x, 1), Part32(x, 0)]
  }

  // htole32() and le32toh(): nothing on a little-endian host, the bytes swapped on the other.
  function Le32(host: Host, x: bv32): bv32 {
    if host.Little? then x else Swap32(x)
  }

  lemma Words32(host: Host, x: bv32)
    ensures Store32(host, Le32(host, x)) == Bytes32(x) && Le32(host, x) == Word32(Store32(host, x)) && Word32(Bytes32(x)) == x
  {
    hide Part32, Join32, Swap32;
    Joined32(x);
    JoinedReversed32(x);
    Swapped32(x);
  }

  // Byte k of a word, from the least significant one.
  function Part64(x: bv64, k: nat): Byte
    requires k < 8
  {
    ((if k == 0 then x else if k == 1 then x >> 8 else if k == 2 then x >> 16 else if k == 3 then x >> 24
      else if k == 4 then x >> 32 else if k == 5 then x >> 40 else if k == 6 then x >> 48 else x >> 56) & 0xff) as Byte
  }

  function Join64(b0: Byte, b1: Byte, b2: Byte, b3: Byte, b4: Byte, b5: Byte, b6: Byte, b7: Byte): bv64 {
    (b0 as bv64) | (b1 as bv64 << 8) | (b2 as bv64 << 16) | (b3 as bv64 << 24)
    | (b4 as bv64 << 32) | (b5 as bv64 << 40) | (b6 as bv64 << 48) | (b7 as bv64 << 56)
  }

  function Swap64(x: bv64): bv64 {
    (x << 56) | ((x & 0xff00) << 40) | ((x & 0xff_0000) << 24) | ((x & 0xff00_0000) << 8)
    | ((x >> 8) & 0xff00_0000) | ((x >> 24) & 0xff_0000) | ((x >> 40) & 0xff00) | (x >> 56)
  }

  lemma Joined64(x: bv64)
    ensures Join64(Part64(x, 0), Part64(x, 1), Part64(x, 2), Part64(x, 3),
                   Part64(x, 4), Part64(x, 5), Part64(x, 6), Part64(x, 7)) == x
  {}

  lemma JoinedReversed64(x: bv64)
    ensures Join64(Part64(x, 7), Part64(x, 6), Part64(x, 5), Part64(x, 4),
                   Part64(x, 3), Part64(x, 2), Part64(x, 1), Part64(x, 0)) == Swap64(x)
  {}

  lemma Swapped64(x: bv64)
    ensures Part64(Swap64(x), 0) == Part64(x, 7) && Part64(Swap64(x), 1) == Part64(x, 6)
    ensures Part64(Swap64(x), 2) == Part64(x, 5) && Part64(Swap64(x), 3) == Part64(x, 4)
    ensures Part64(Swap64(x), 4) == Part64(x, 3) && Part64(Swap64(x), 5) == Part64(x, 2)
    ensures Part64(Swap64(x), 6) == Part64(x, 1) && Part64(Swap64(x), 7) == Part64(x, 0)
  {}

  lemma Parted64(b0: Byte, b1: Byte, b2: Byte, b3: Byte, b4: Byte, b5: Byte, b6: Byte, b7: Byte)
    ensures var x := Join64(b0, b1, b2, b3, b4, b5, b6, b7);
      && Part64(x, 0) == b0 && Part64(x, 1) == b1 && Part64(x, 2) == b2 && Part64(x, 3) == b3
      && Part64(x, 4) == b4 && Part64(x, 5) == b5 && Part64(x, 6) == b6 && Part64(x, 7) == b7
  {}

  // The bytes of a word, the least significant one first.
  function Bytes64(x: bv64): (b: seq<Byte>)
    ensures |b| == 8
  {
    [Part64(x, 0), Part64(x, 1), Part64(x, 2), Part64(x, 3), Part64(x, 4), Part64(x, 5), Part64(x, 6), Part64(x, 7)]
  }

  function Word64(b: seq<Byte>): bv64
    requires |b| == 8
  {
    Join64(b[0], b[1], b[2], b[3], b[4], b[5], b[6], b[7])
  }

  // A word as it lies in memory.
  function Store64(host: Host, x: bv64): (b: seq<Byte>)
    ensures |b| == 8
  {
    if host.Little? then Bytes64(x)
    else [Part64(x, 7), Part64(x, 6), Part64(x, 5), Part64(x, 4), Part64(x, 3), Part64(x, 2), Part64(x, 1), Part64(x, 0)]
  }

  function Load64(host: Host, b: seq<Byte>): bv64
    requires |b| == 8
  {
    if host.Little? then Word64(b) else Join64(b[7], b[6], b[5], b[4], b[3], b[2], b[1], b[0])
  }

  // htole64() and le64toh(): nothing on a little-endian host, the bytes swapped on the other.
  function Le64(host: Host, x: bv64): bv64 {
    if host.Little? then x else Swap64(x)
  }

  lemma Words64(host: Host, x: bv64)
    ensures Store64(host, Le64(host, x)) == Bytes64(x) && Le64(host, x) == Word64(Store64(host, x)) && Word64(Bytes64(x)) == x
  {
    hide Part64, Join64, Swap64;
    Joined64(x);
    JoinedReversed64(x);
    Swapped64(x);
  }

  lemma Memory64(host: Host, b: seq<Byte>)
    requires |b| == 8
    ensures Store64(host, Load64(host, b)) == b && Le64(host, Load64(host, b)) == Word64(b)
  {
    if host.Little? {
      LittleMemory64(b);
    } else {
      BigMemory64(b);
    }
  }

  lemma LittleMemory64(b: seq<Byte>)
    requires |b| == 8
    ensures Store64(Little, Load64(Little, b)) == b && Le64(Little, Load64(Little, b)) == Word64(b)
  {
    hide Part64, Join64, Swap64;
    Parted64(b[0], b[1], b[2], b[3], b[4], b[5], b[6], b[7]);
  }

  lemma BigMemory64(b: seq<Byte>)
    requires |b| == 8
    ensures Store64(Big, Load64(Big, b)) == b && Le64(Big, Load64(Big, b)) == Word64(b)
  {
    hide Part64, Join64, Swap64;
    Parted64(b[7], b[6], b[5], b[4], b[3], b[2], b[1], b[0]);
    JoinedReversed64(Load64(Big, b));
  }

  lemma Loaded64(host: Host, x: bv64)
    ensures Load64(host, Store64(host, x)) == x
  {
    hide Part64, Join64, Swap64;
    Joined64(x);
    JoinedReversed64(x);
    Swapped64(x);
  }

  // ---------------------------------------------------------------- the 36 bytes on the wire

  // The target is eight bytes: the tags, or an address and two more bytes.
  datatype Fields = Fields(size: bv16, protocol: bv16, source: bv32, target: seq<Byte>, site: seq<Byte>, flags: Byte,
                           seqn: Byte, atTime: bv64, kind: bv16, reserved: seq<Byte>) {
    predicate Sized() {
      |target| == 8 && |site| == 6 && |reserved| == 2
    }
  }

  function Concat(a: seq<Byte>, b: seq<Byte>, c: seq<Byte>, d: seq<Byte>, e: seq<Byte>, f: seq<Byte>, g: seq<Byte>,
                  h: seq<Byte>, i: seq<Byte>): seq<Byte>
  {
    a + (b + (c + (d + (e + (f + (g + (h + i)))))))
  }

  // Every word is little-endian.
  function Layout(f: Fields): seq<Byte> {
    Concat(Bytes16(f.size), Bytes16(f.protocol), Bytes32(f.source), f.target, f.site, [f.flags, f.seqn], Bytes64(f.atTime),
           Bytes16(f.kind), f.reserved)
  }

  function Parse(m: seq<Byte>): Fields
    requires |m| == 36
  {
    Fields(Word16(m[0..2]), Word16(m[2..4]), Word32(m[4..8]), m[8..16], m[16..22], m[22], m[23], Word64(m[24..32]),
           Word16(m[32..34]), m[34..36])
  }

  lemma Slices(a: seq<Byte>, b: seq<Byte>, c: seq<Byte>, d: seq<Byte>, e: seq<Byte>, f: seq<Byte>, g: seq<Byte>, h: seq<Byte>,
               i: seq<Byte>)
    requires |a| == 2 && |b| == 2 && |c| == 4 && |d| == 8 && |e| == 6 && |f| == 2 && |g| == 8 && |h| == 2 && |i| == 2
    ensures var m := Concat(a, b, c, d, e, f, g, h, i);
      && |m| == 36 && m[0..2] == a && m[2..4] == b && m[4..8] == c && m[8..16] == d && m[16..22] == e
      && m[22..24] == f && m[24..32] == g && m[32..34] == h && m[34..36] == i && m[22] == f[0] && m[23] == f[1]
  {
    var m := Concat(a, b, c, d, e, f, g, h, i);
    var last := e + (f + (g + (h + i)));
    assert m[0..] == a + (b + (c + (d + last)));
    Tail(a, b + (c + (d + last)), m, 0);
    Tail(b, c + (d + last), m, 2);
    Tail(c, d + last, m, 4);
    Tail(d, last, m, 8);
    LastSlices(m, e, f, g, h, i);
  }

  lemma LastSlices(m: seq<Byte>, e: seq<Byte>, f: seq<Byte>, g: seq<Byte>, h: seq<Byte>, i: seq<Byte>)
    requires |e| == 6 && |f| == 2 && |g| == 8 && |h| == 2 && |i| == 2
    requires 16 <= |m| && m[16..] == e + (f + (g + (h + i)))
    ensures |m| == 36 && m[16..22] == e && m[22..24] == f && m[24..32] == g && m[32..34] == h && m[34..36] == i
    ensures m[22] == f[0] && m[23] == f[1]
  {
    Tail(e, f + (g + (h + i)), m, 16);
    Tail(f, g + (h + i), m, 22);
    Tail(g, h + i, m, 24);
    Tail(h, i, m, 32);
    assert m[22..24][0] == m[22] && m[22..24][1] == m[23];
  }

  lemma Tail(a: seq<Byte>, b: seq<Byte>, m: seq<Byte>, at: nat)
    requires at <= |m| && m[at..] == a + b
    ensures at + |a| <= |m| && m[at..at + |a|] == a && m[at + |a|..] == b
  {
    assert |m[at..]| == |a| + |b|;
    assert m[at..at + |a|] == m[at..][..|a|];
    assert m[at + |a|..] == m[at..][|a|..];
  }

  lemma ParseInvertsLayout(f: Fields)
    requires f.Sized()
    ensures |Layout(f)| == 36 && Parse(Layout(f)) == f
  {
    hide Concat, Bytes16, Bytes32, Bytes64, Word16, Word32, Word64;
    Slices(Bytes16(f.size), Bytes16(f.protocol), Bytes32(f.source), f.target, f.site, [f.flags, f.seqn], Bytes64(f.atTime),
           Bytes16(f.kind), f.reserved);
    Words16(Little, f.size);
    Words16(Little, f.protocol);
    Words16(Little, f.kind);
    Words32(Little, f.source);
    Words64(Little, f.atTime);
  }

  lemma LowByteFirst16(x: bv16)
    ensures Bytes16(x) == [(x & 0xff) as Byte, (x >> 8) as Byte]
  {}

  lemma LowByteFirst32(x: bv32)
    ensures Bytes32(x) == [(x & 0xff) as Byte, ((x >> 8) & 0xff) as Byte, ((x >> 16) & 0xff) as Byte, (x >> 24) as Byte]
  {}

  lemma LowByteFirst64(x: bv64)
    ensures Bytes64(x) == [(x & 0xff) as Byte, ((x >> 8) & 0xff) as Byte, ((x >> 16) & 0xff) as Byte,
                           ((x >> 24) & 0xff) as Byte, ((x >> 32) & 0xff) as Byte, ((x >> 40) & 0xff) as Byte,
                           ((x >> 48) & 0xff) as Byte, (x >> 56) as Byte]
  {}

  // Where every field is in the thirty-six bytes, and that its low byte is the first.
  lemma FieldsOnTheWire(f: Fields)
    requires f.Sized()
    ensures var m := Layout(f);
      && |m| == 36
      && m[0] == (f.size & 0xff) as Byte && m[1] == (f.size >> 8) as Byte
      && m[2] == (f.protocol & 0xff) as Byte && m[3] == (f.protocol >> 8) as Byte
      && m[4..8] == [(f.source & 0xff) as Byte, ((f.source >> 8) & 0xff) as Byte, ((f.source >> 16) & 0xff) as Byte,
                     (f.source >> 24) as Byte]
      && m[8..16] == f.target && m[16..22] == f.site && m[22] == f.flags && m[23] == f.seqn
      && m[24] == (f.atTime & 0xff) as Byte && m[31] == (f.atTime >> 56) as Byte
      && m[32] == (f.kind & 0xff) as Byte && m[33] == (f.kind >> 8) as Byte && m[34..36] == f.reserved
  {
    LowByteFirst16(f.size);
    LowByteFirst16(f.protocol);
    LowByteFirst16(f.kind);
    LowByteFirst32(f.source);
    LowByteFirst64(f.atTime);
    hide Concat, Bytes16, Bytes32, Bytes64;
    var m := Layout(f);
    Slices(Bytes16(f.size), Bytes16(f.protocol), Bytes32(f.source), f.target, f.site, [f.flags, f.seqn], Bytes64(f.atTime),
           Bytes16(f.kind), f.reserved);
    assert m[0] == m[0..2][0] && m[1] == m[0..2][1] && m[2] == m[2..4][0] && m[3] == m[2..4][1];
    assert m[32] == m[32..34][0] && m[33] == m[32..34][1];
    assert m[24] == m[24..32][0] && m[31] == m[24..32][7];
  }

  // ---------------------------------------------------------------- the protocol field

  const PROTOCOL_V1: bv16 := 0x400

  function VersionMask(host: Host): bv16 {
    if host.Big? then 0xff0f else 0x0fff
  }

  function FlagsMask(host: Host): bv16 {
    if host.Big? then 0x00f0 else 0xf000
  }

  function AddressableBit(host: Host): bv16 {
    if host.Big? then 0x0010 else 0x1000
  }

  function TaggedBit(host: Host): bv16 {
    if host.Big? then 0x0020 else 0x2000
  }

  // The field as the protocol defines it: twelve bits of version, then addressable, then tagged.
  function WireProtocol(addressable: bool, tagged: bool): bv16 {
    PROTOCOL_V1 | (if addressable then 0x1000 else 0) | (if tagged then 0x2000 else 0)
  }

  lemma ProtocolBits(addressable: bool, tagged: bool)
    ensures var p := WireProtocol(addressable, tagged);
      && p & 0xff == 0 && p & 0x0f00 == 0x0400 && p & 0xc000 == 0
      && (p & 0x1000 != 0 <==> addressable) && (p & 0x2000 != 0 <==> tagged)
      && p >> 8 == 0x04 | (if addressable then 0x10 else 0) | (if tagged then 0x20 else 0)
  {}

  function EncodedProtocol(host: Host, addressable: bool, tagged: bool): bv16 {
    var plain := Le16(host, PROTOCOL_V1);
    var marked := if addressable then plain | AddressableBit(host) else plain;
    if tagged then marked | TaggedBit(host) else marked
  }

  function DecodedProtocol(host: Host, protocol: bv16): bv16 {
    Le16(host, protocol & VersionMask(host)) | (protocol & FlagsMask(host))
  }

  predicate Tagged(host: Host, decoded: bv16) {
    decoded & TaggedBit(host) != 0
  }

  predicate Addressable(host: Host, decoded: bv16) {
    decoded & AddressableBit(host) != 0
  }

  lemma ProtocolOnTheWire(host: Host, addressable: bool, tagged: bool)
    ensures Store16(host, EncodedProtocol(host, addressable, tagged)) == Bytes16(WireProtocol(addressable, tagged))
  {
    EncodedIsSwapped(host, addressable, tagged);
    hide EncodedProtocol, WireProtocol, Bytes16;
    Words16(host, WireProtocol(addressable, tagged));
  }

  lemma EncodedIsSwapped(host: Host, addressable: bool, tagged: bool)
    ensures EncodedProtocol(host, addressable, tagged) == Le16(host, WireProtocol(addressable, tagged))
  {}

  // What decoding makes of the field, protocol being the word that the host loads from it.
  lemma DecodedFromTheWire(host: Host, wire: bv16)
    ensures DecodedProtocol(host, Le16(host, wire)) == if host.Little? then wire else (wire & 0x0fff) | ((wire >> 8) & 0x00f0)
  {
    hide DecodedProtocol, Le16;
    if host.Little? {
      DecodedLittle(wire);
    } else {
      DecodedBig(wire);
    }
  }

  lemma DecodedLittle(wire: bv16)
    ensures DecodedProtocol(Little, Le16(Little, wire)) == wire
  {
    LittleMasks(wire);
  }

  lemma DecodedBig(wire: bv16)
    ensures DecodedProtocol(Big, Le16(Big, wire)) == (wire & 0x0fff) | ((wire >> 8) & 0x00f0)
  {
    hide Swap16;
    BigMasks(wire);
  }

  lemma BigMasks(wire: bv16)
    ensures Swap16(Swap16(wire) & 0xff0f) | (Swap16(wire) & 0x00f0) == (wire & 0x0fff) | ((wire >> 8) & 0x00f0)
  {}

  lemma LittleMasks(wire: bv16)
    ensures (wire & 0x0fff) | (wire & 0xf000) == wire
  {}

  // A packet of version 1 is read right on both kinds of hosts.
  lemma VersionAndFlagsRecovered(host: Host, addressable: bool, tagged: bool)
    ensures var decoded := DecodedProtocol(host, Le16(host, WireProtocol(addressable, tagged)));
      decoded & VersionMask(host) == PROTOCOL_V1 && Tagged(host, decoded) == tagged && Addressable(host, decoded) == addressable
  {}

  // On a big-endian host the flags land on bits 4 to 7 of the version: both kinds agree if and only if these are
  // clear or covered.
  lemma TaggedAgrees(wire: bv16)
    ensures Tagged(Big, DecodedProtocol(Big, Le16(Big, wire))) == Tagged(Little, DecodedProtocol(Little, wire))
            <==> (wire & 0x0020 != 0 ==> wire & 0x2000 != 0)
  {
    DecodedFromTheWire(Big, wire);
    DecodedFromTheWire(Little, wire);
    hide DecodedProtocol;
    TaggedBits(wire);
  }

  lemma TaggedBits(wire: bv16)
    ensures (((wire & 0x0fff) | ((wire >> 8) & 0x00f0)) & 0x0020 != 0) <==> (wire & 0x0020 != 0 || wire & 0x2000 != 0)
  {}

  lemma TaggedDisagrees()
    ensures Tagged(Big, DecodedProtocol(Big, Le16(Big, 0x0420))) && !Tagged(Little, DecodedProtocol(Little, 0x0420))
  {}

  // ---------------------------------------------------------------- the header in memory

  // enum lgtd_lifx_header_flags
  datatype Flags = Flags(addressable: bool, tagged: bool, ackRequired: bool, resRequired: bool)

  const FLAG_RES_REQUIRED: bv8 := 1
  const FLAG_ACK_REQUIRED: bv8 := 2
  const ZEROS: seq<Byte> := [0, 0, 0, 0, 0, 0, 0, 0]

  function FlagsByte(flags: Byte, with: Flags): Byte {
    var acked := if with.ackRequired then flags | FLAG_ACK_REQUIRED else flags;
    if with.resRequired then acked | FLAG_RES_REQUIRED else acked
  }

  // Two bits say which answers are wanted; the other six are as they were.
  lemma FlagsByteBits(flags: Byte, with: Flags)
    ensures FlagsByte(flags, with) & 1 != 0 <==> with.resRequired || flags & 1 != 0
    ensures FlagsByte(flags, with) & 2 != 0 <==> with.ackRequired || flags & 2 != 0
    ensures FlagsByte(flags, with) & 0xfc == flags & 0xfc
  {}

  datatype Target = Site | AllDevices | Tags(tags: bv64) | Device(addr: seq<Byte>)

  function TargetBytes(target: Target): seq<Byte> {
    match target
    case Tags(tags) => Bytes64(tags)
    case Device(addr) => addr + [0, 0]
    case _ => ZEROS
  }

  // Zeros for a broadcast, which has no site.
  function SiteBytes(site: Option<seq<Byte>>): seq<Byte> {
    if site.Some? then site.value else ZEROS[..6]
  }

  // A packet of some kind for a target, whatever the host.
  function PacketFields(target: Target, site: Option<seq<Byte>>, kind: bv16, payloadSize: bv16, clientId: bv32): Fields {
    Fields(payloadSize + 36, WireProtocol(true, !target.Device?), clientId, TargetBytes(target), SiteBytes(site),
           FLAG_RES_REQUIRED, 0, 0, kind, [0, 0])
  }

  // Any host gets back what was put in a packet on any host.
  lemma PacketRecovered(host: Host, target: Target, site: Option<seq<Byte>>, kind: bv16, payloadSize: bv16, clientId: bv32)
    requires target.Device? ==> |target.addr| == 6
    requires site.Some? ==> |site.value| == 6
    ensures var m := Layout(PacketFields(target, site, kind, payloadSize, clientId));
      |m| == 36 &&
      var f := Parse(m);
      var decoded := DecodedProtocol(host, Le16(host, f.protocol));
      && f.size == payloadSize + 36 && f.kind == kind && f.source == clientId && f.flags == 1
      && decoded & VersionMask(host) == PROTOCOL_V1 && Addressable(host, decoded) && Tagged(host, decoded) == !target.Device?
      && (target.Tags? ==> Word64(f.target) == target.tags) && (target.Device? ==> f.target[..6] == target.addr)
      && (target.Site? || target.AllDevices? ==> Word64(f.target) == 0) && (target.Device? ==> f.target[6..] == [0, 0])
      && f.site == (if site.Some? then site.value else [0, 0, 0, 0, 0, 0])
      && f.seqn == 0 && f.atTime == 0 && f.reserved == [0, 0]
  {
    VersionAndFlagsRecovered(host, true, !target.Device?);
    ZeroIsZeros(Little);
    hide Bytes64, Word64, Parse, Layout, DecodedProtocol, WireProtocol, VersionMask, Addressable, Tagged, Le16;
    ParseInvertsLayout(PacketFields(target, site, kind, payloadSize, clientId));
    if target.Tags? {
      Words64(Little, target.tags);
    }
  }

  // The bytes of a packet that do not depend on what it is for.
  lemma PacketMarked(target: Target, site: Option<seq<Byte>>, kind: bv16, payloadSize: bv16, clientId: bv32)
    requires (target.Device? ==> |target.addr| == 6) && (site.Some? ==> |site.value| == 6)
    ensures var m := Layout(PacketFields(target, site, kind, payloadSize, clientId));
      |m| == 36 && m[2] == 0 && m[3] == (if target.Device? then 0x14 else 0x34) && m[22] == 1 && m[23] == 0
  {
    ProtocolBits(true, !target.Device?);
    hide Layout, WireProtocol, Bytes64;
    FieldsOnTheWire(PacketFields(target, site, kind, payloadSize, clientId));
  }

  class PacketHeader {
    var size: bv16
    var protocol: bv16
    var source: bv32
    // a union: the tags as the host stores them, or the address
    var target: seq<Byte>
    var site: seq<Byte>
    var flags: Byte
    var seqn: Byte
    var atTime: bv64
    var kind: bv16
    var reserved: seq<Byte>

    ghost predicate Sized()
      reads this
    {
      |target| == 8 && |site| == 6 && |reserved| == 2
    }

    // The bytes of the structure on a host.
    ghost function Memory(host: Host): seq<Byte>
      reads this
    {
      Concat(Store16(host, size), Store16(host, protocol), Store32(host, source), target, site, [flags, seqn],
             Store64(host, atTime), Store16(host, kind), reserved)
    }

    // lgtd_lifx_wire_encode_header()
    method Encode(host: Host, with: Flags)
      requires Sized()
      modifies this
      ensures Sized()
      ensures Memory(host) == Layout(Fields(
        old(size), WireProtocol(with.addressable, with.tagged), old(source),
        if with.tagged then Bytes64(Load64(host, old(target))) else old(target), old(site),
        FlagsByte(old(flags), with), old(seqn), old(atTime), old(kind), old(reserved)))
      ensures flags & 1 != 0 <==> with.resRequired || old(flags) & 1 != 0
      ensures flags & 2 != 0 <==> with.ackRequired || old(flags) & 2 != 0
      ensures flags & 0xfc == old(flags) & 0xfc
    {
      FlagsByteBits(flags, with);
      hide Le16, Le32, Le64, Store16, Store32, Store64, Bytes16, Bytes32, Bytes64, Load64, WireProtocol,
        EncodedProtocol, FlagsByte, Concat;
      InMemory(host, size, kind, source, atTime, Load64(host, target));
      ProtocolOnTheWire(host, with.addressable, with.tagged);
      size := Le16(host, size);
      MarkProtocol(host, with);
      MarkFlags(with);
      atTime := Le64(host, atTime);
      kind := Le16(host, kind);
      source := Le32(host, source);
    }

    method MarkProtocol(host: Host, with: Flags)
      requires |target| == 8
      modifies `protocol, `target
      ensures protocol == EncodedProtocol(host, with.addressable, with.tagged)
      ensures target == if with.tagged then Store64(host, Le64(host, Load64(host, old(target)))) else old(target)
    {
      hide Le64, Store64, Load64;
      protocol := Le16(host, PROTOCOL_V1);
      if with.addressable {
        protocol := protocol | AddressableBit(host);
      }
      if with.tagged {
        protocol := protocol | TaggedBit(host);
        target := Store64(host, Le64(host, Load64(host, target)));
      }
    }

    method MarkFlags(with: Flags)
      modifies `flags
      ensures flags == FlagsByte(old(flags), with)
    {
      if with.ackRequired {
        flags := flags | FLAG_ACK_REQUIRED;
      }
      if with.resRequired {
        flags := flags | FLAG_RES_REQUIRED;
      }
    }

    // lgtd_lifx_wire_setup_header(), payloadSize being what the packet table says for that kind
    method Setup(host: Host, to: Target, onSite: Option<seq<Byte>>, packetKind: bv16, payloadSize: bv16, clientId: bv32)
      requires to.Device? ==> |to.addr| == 6
      requires if onSite.Some? then |onSite.value| == 6 else to.AllDevices?
      modifies this
      ensures Sized() && Memory(host) == Layout(PacketFields(to, onSite, packetKind, payloadSize, clientId))
    {
      hide Bytes16, Bytes32, Bytes64, Load64, Store64, WireProtocol, FlagsByte, Concat;
      size, protocol, source, target, site, flags, seqn := 0, 0, 0, ZEROS, ZEROS[..6], 0, 0;
      atTime, kind, reserved := 0, 0, [0, 0];
      source := clientId;
      size := payloadSize + 36;
      kind := packetKind;
      if onSite.Some? {
        site := onSite.value;
      }
      var with := Flags(true, !to.Device?, false, true);
      SetTarget(host, to);
      hide TargetBytes;
      assert FlagsByte(0, with) == FLAG_RES_REQUIRED by { ResponseFlag(); }
      Encode(host, with);
    }

    method SetTarget(host: Host, to: Target)
      requires target == ZEROS && (to.Device? ==> |to.addr| == 6)
      modifies `target
      ensures |target| == 8
      ensures TargetBytes(to) == if to.Device? then target else Bytes64(Load64(host, target))
    {
      hide Bytes64, Load64, Store64;
      ZeroIsZeros(host);
      match to {
        case Tags(tags) =>
          Loaded64(host, tags);
          target := Store64(host, tags);
        case Device(addr) =>
          target := addr + target[6..];
          assert target == addr + [0, 0];
        case _ =>
      }
    }

    // lgtd_lifx_wire_decode_header()
    method Decode(host: Host)
      requires Sized() && |Memory(host)| == 36
      modifies this
      ensures Sized()
      ensures var f := Parse(old(Memory(host)));
        && size == f.size && source == f.source && kind == f.kind && atTime == f.atTime
        && flags == f.flags && seqn == f.seqn && site == f.site && reserved == f.reserved
        && protocol == DecodedProtocol(host, Le16(host, f.protocol))
        && if Tagged(host, protocol) then Load64(host, target) == Word64(f.target) else target == f.target
    {
      hide Le16, Le32, Le64, Store16, Store32, Store64, Bytes16, Bytes32, Bytes64, Load64, DecodedProtocol, Tagged,
        Concat, Word16, Word32, Word64;
      Slices(Store16(host, size), Store16(host, protocol), Store32(host, source), target, site, [flags, seqn],
             Store64(host, atTime), Store16(host, kind), reserved);
      FromMemory(host, size, protocol, kind, source, atTime);
      size := Le16(host, size);
      protocol := DecodedProtocol(host, protocol);
      DecodeTarget(host);
      atTime := Le64(host, atTime);
      kind := Le16(host, kind);
      source := Le32(host, source);
    }

    method DecodeTarget(host: Host)
      requires |target| == 8
      modifies `target
      ensures |target| == 8
      ensures if Tagged(host, protocol) then Load64(host, target) == Word64(old(target)) else target == old(target)
    {
      hide Le64, Store64, Load64, Tagged, Word64;
      Memory64(host, target);
      Loaded64(host, Le64(host, Load64(host, target)));
      if Tagged(host, protocol) {
        target := Store64(host, Le64(host, Load64(host, target)));
      }
    }
  }

  lemma InMemory(host: Host, size: bv16, kind: bv16, source: bv32, atTime: bv64, tags: bv64)
    ensures Store16(host, Le16(host, size)) == Bytes16(size) && Store16(host, Le16(host, kind)) == Bytes16(kind)
    ensures Store32(host, Le32(host, source)) == Bytes32(source)
    ensures Store64(host, Le64(host, atTime)) == Bytes64(atTime) && Store64(host, Le64(host, tags)) == Bytes64(tags)
  {
    hide Le16, Le32, Le64, Store16, Store32, Store64, Bytes16, Bytes32, Bytes64, Word16, Word32, Word64;
    Words16(host, size);
    Words16(host, kind);
    Words32(host, source);
    Words64(host, atTime);
    Words64(host, tags);
  }

  lemma FromMemory(host: Host, size: bv16, protocol: bv16, kind: bv16, source: bv32, atTime: bv64)
    ensures Le16(host, size) == Word16(Store16(host, size)) && Le16(host, kind) == Word16(Store16(host, kind))
    ensures Le16(host, Word16(Store16(host, protocol))) == protocol
    ensures Le32(host, source) == Word32(Store32(host, source)) && Le64(host, atTime) == Word64(Store64(host, atTime))
  {
    TwiceSwapped(host, protocol);
    hide Le16, Le32, Le64, Store16, Store32, Store64, Bytes16, Bytes32, Bytes64, Word16, Word32, Word64;
    Words16(host, size);
    Words16(host, kind);
    Words16(host, protocol);
    Words32(host, source);
    Words64(host, atTime);
  }

  lemma TwiceSwapped(host: Host, x: bv16)
    ensures Le16(host, Le16(host, x)) == x
  {}

  lemma ZeroIsZeros(host: Host)
    ensures Load64(host, ZEROS) == 0 == Word64(ZEROS) && Bytes64(0) == ZEROS
  {}

  lemma ResponseFlag()
    ensures FlagsByte(0, Flags(true, true, false, true)) == FLAG_RES_REQUIRED == FlagsByte(0, Flags(true, false, false, true))
  {}
}
