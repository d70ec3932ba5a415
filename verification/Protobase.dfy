/** src/proto/protobase.c: packed lengths and the interpretation of integer values. */
module Protobase {
  import opened Bytes

  // Type octets (src/proto/protobase.h:34-50).
  const INVALID_TYPE: byte := 0x00
  const INTEGER_TYPE: byte := 0x02
  const UNSIGNED_TYPE: byte := 0x03
  const OCTET_TYPE: byte := 0x04
  const SEQUENCE_TYPE: byte := 0x10
  const STRUCTURE_TYPE: byte := 0x20
  const RAW_TYPE: byte := 0x21
  const CALL_TYPE: byte := 0x30

  /** Opcode, length prefix and four length octets. */
  const PACKET_MINSIZE: nat := 6

  /** `pack_size`. Its parameter is a `uint32_t`, so wider arguments are truncated first. */
  function PackSize(size: nat): seq<byte> {
    var val: u32 := size % 0x1_0000_0000;
    if val <= 0x80 then [val]
    else if val < 0xFFFF then [0x82] + Be16(val)
    else [0x84] + Be32(val)
  }

  /** What `unpack_size` returns: the octets consumed and the value stored, or 0 octets and no value. */
  datatype Unpacked = Unpacked(octets: nat, size: u32) | Unrecognised

  /** `unpack_size`. A field whose octets are cut short is Unrecognised here; the program would read
      past its buffer. */
  function UnpackSize(src: seq<byte>): Unpacked {
    if |src| >= 1 && src[0] <= 0x80 then Unpacked(1, src[0])
    else if |src| >= 3 && src[0] == 0x82 then Unpacked(3, FromBe16(src[1..]))
    else if |src| >= 5 && src[0] == 0x84 then Unpacked(5, FromBe32(src[1..]))
    else Unrecognised
  }

  /** `hdr` is a complete length field for `len`, in any of the three forms that are understood. */
  predicate LengthField(hdr: seq<byte>, len: nat) {
    || (|hdr| == 1 && hdr[0] == len <= 0x80)
    || (|hdr| == 3 && hdr[0] == 0x82 && FromBe16(hdr[1..]) == len)
    || (|hdr| == 5 && hdr[0] == 0x84 && FromBe32(hdr[1..]) == len)
  }

  lemma {:induction false} BeRoundTrip(a: u16, b: u32)
    ensures FromBe16(Be16(a)) == a
    ensures FromBe32(Be32(b)) == b
  {
    assert b == b / 0x100 * 0x100 + b % 0x100;
    assert b / 0x100 / 0x100 == b / 0x1_0000;
    assert b / 0x1_0000 / 0x100 == b / 0x100_0000;
  }

  lemma {:induction false} MediumForm(size: u16)
    ensures LengthField([0x82] + Be16(size), size)
  {
    BeRoundTrip(size, 0);
    hide Be16, Be32, FromBe16, FromBe32;
    assert ([0x82] + Be16(size))[1..] == Be16(size);
  }

  lemma {:induction false} LongForm(size: u32)
    ensures LengthField([0x84] + Be32(size), size)
  {
    BeRoundTrip(0, size);
    hide Be16, Be32, FromBe16, FromBe32;
    assert ([0x84] + Be32(size))[1..] == Be32(size);
  }

  lemma {:induction false} PackSizeIsLengthField(size: u32)
    ensures LengthField(PackSize(size), size)
  {
    assert size % 0x1_0000_0000 == size;
    if 0x80 < size < 0xFFFF {
      MediumForm(size);
      hide LengthField, Be16, Be32;
    } else if size >= 0xFFFF {
      LongForm(size);
      hide LengthField, Be16, Be32;
    } else {
      hide Be16, Be32, FromBe16, FromBe32;
    }
  }

  /** Any understood length field is read back, whatever bytes follow it. */
  lemma {:induction false} UnpackLengthField(hdr: seq<byte>, len: nat, rest: seq<byte>)
    requires LengthField(hdr, len)
    ensures UnpackSize(hdr + rest) == Unpacked(|hdr|, len)
  {
    assert (hdr + rest)[1..] == hdr[1..] + rest;
  }

  /** The length codec: value and octet count come back, in one of exactly three sizes. */
  lemma {:induction false} LengthCodec(size: u32, rest: seq<byte>)
    ensures |PackSize(size)| == if size <= 0x80 then 1 else if size < 0xFFFF then 3 else 5
    ensures UnpackSize(PackSize(size) + rest) == Unpacked(|PackSize(size)|, size)
  {
    PackSizeIsLengthField(size);
    UnpackLengthField(PackSize(size), size, rest);
  }

  /** No packed length begins another one: equal first bytes mean equal values and equal tails. */
  lemma {:induction false} LengthsArePrefixFree(a: u32, b: u32, restA: seq<byte>, restB: seq<byte>)
    requires PackSize(a) + restA == PackSize(b) + restB
    ensures a == b && restA == restB
  {
    LengthCodec(a, restA);
    LengthCodec(b, restB);
    var s := PackSize(a) + restA;
    assert restA == s[|PackSize(a)|..];
    assert restB == s[|PackSize(b)|..];
  }

  /** Value of a big-endian octet string of any width. */
  function BigEndian(s: seq<byte>): nat {
    if s == [] then 0 else BigEndian(s[..|s| - 1]) * 0x100 + s[|s| - 1]
  }

  /** Definite form of section 8.1.3 of ITU-T X.690: short form below 128, or 0x80 plus a count
      between 1 and 126 followed by that many octets. */
  predicate DefiniteForm(s: seq<byte>, len: nat) {
    || (|s| == 1 && s[0] == len < 0x80)
    || (|s| > 1 && s[0] == 0x80 + (|s| - 1) < 0xFF && BigEndian(s[1..]) == len)
  }

  /** Packed lengths are X.690 lengths, except that 128 becomes the indefinite-form octet 0x80. */
  lemma {:induction false} PackedLengthIsDefinite(size: u32)
    ensures DefiniteForm(PackSize(size), size) <==> size != 0x80
  {
    PackSizeIsLengthField(size);
    var p := PackSize(size);
    var body := p[1..];
    if |p| == 3 {
      assert BigEndian(body[..1]) == BigEndian(body[..0]) * 0x100 + body[0] by {
        assert body[..1][..0] == body[..0];
      }
      assert BigEndian(body) == FromBe16(body);
    } else if |p| == 5 {
      assert body[..4] == body;
      BigEndianStep(body, 0);
      BigEndianStep(body, 1);
      BigEndianStep(body, 2);
      BigEndianStep(body, 3);
    }
  }

  /** The length 128 is sent as an octet that X.690 reserves for the indefinite form. */
  lemma Length128()
    ensures PackSize(0x80) == [0x80] && !DefiniteForm(PackSize(0x80), 0x80)
  {
  }

  lemma {:induction false} BigEndianStep(s: seq<byte>, i: nat)
    requires i < |s|
    ensures BigEndian(s[..i + 1]) == BigEndian(s[..i]) * 0x100 + s[i]
  {
    assert s[..i + 1][..i] == s[..i];
  }

  // ---- integers -------------------------------------------------------------------------------

  /** Reinterprets an unsigned value of `width` bits as two's complement. */
  function Signed8(v: byte): int { if v < 0x80 then v else v - 0x100 }

  function Signed16(v: u16): int { if v < 0x8000 then v else v - 0x1_0000 }

  function Signed32(v: u32): i32 { if v < 0x8000_0000 then v else v - 0x1_0000_0000 }

  /** Conversion of any integer to `uint8_t`, `uint16_t` or `uint32_t`, then network byte order. */
  function Numeric(width: nat, val: int): (s: seq<byte>)
    requires width == 1 || width == 2 || width == 4
    ensures |s| == width
  {
    if width == 1 then [val % 0x100]
    else if width == 2 then Be16(val % 0x1_0000)
    else Be32(val % 0x1_0000_0000)
  }

  /** `as_uint` of the C reader: 0 for a width it does not know. */
  function AsUInt(data: seq<byte>): u32 {
    if |data| == 1 then data[0]
    else if |data| == 2 then FromBe16(data)
    else if |data| == 4 then FromBe32(data)
    else 0
  }

  /** `as_int` of the C reader: two-octet values pass through `ntohs` and are not sign-extended. */
  function AsInt(data: seq<byte>): i32 {
    if |data| == 1 then Signed8(data[0])
    else if |data| == 2 then FromBe16(data)
    else if |data| == 4 then Signed32(FromBe32(data))
    else 0
  }

  /** `Iterator::getUInt` of the C++ reader: any width but 1 and 2 is read as four octets. (Values of
      0 and 3 octets give 0 here; the program would read past them.) */
  function GetUInt(data: seq<byte>): u32 {
    if |data| == 1 then data[0]
    else if |data| == 2 then FromBe16(data)
    else if |data| >= 4 then FromBe32(data)
    else 0
  }

  /** `Iterator::getInt` of the C++ reader, sign-extending every width. */
  function GetInt(data: seq<byte>): i32 {
    if |data| == 1 then Signed8(data[0])
    else if |data| == 2 then Signed16(FromBe16(data))
    else if |data| >= 4 then Signed32(FromBe32(data))
    else 0
  }

  /** The values a `width`-octet signed integer holds. */
  predicate SignedFits(width: nat, val: int) {
    match width
    case 1 => -0x80 <= val < 0x80
    case 2 => -0x8000 <= val < 0x8000
    case _ => -0x8000_0000 <= val < 0x8000_0000
  }

  predicate UnsignedFits(width: nat, val: int) {
    match width
    case 1 => 0 <= val < 0x100
    case 2 => 0 <= val < 0x1_0000
    case _ => 0 <= val < 0x1_0000_0000
  }

  /** Both readers return exactly the unsigned values that fit the width written. */
  lemma {:induction false} UnsignedRoundTrip(width: nat, val: int)
    requires width == 1 || width == 2 || width == 4
    ensures AsUInt(Numeric(width, val)) == GetUInt(Numeric(width, val))
    ensures AsUInt(Numeric(width, val)) == val <==> UnsignedFits(width, val)
  {
    BeRoundTrip(val % 0x1_0000, val % 0x1_0000_0000);
    hide Be16, Be32, FromBe16, FromBe32;
    UnsignedWrap(val);
    hide UnsignedFits;
  }

  /** Truncation to an unsigned width is exact on the values of that width only. */
  lemma {:induction false} UnsignedWrap(val: int)
    ensures val % 0x100 == val <==> UnsignedFits(1, val)
    ensures val % 0x1_0000 == val <==> UnsignedFits(2, val)
    ensures val % 0x1_0000_0000 == val <==> UnsignedFits(4, val)
  {
  }

  /** Truncation to a signed width is exact on the values of that width only. */
  lemma {:induction false} SignedWrap(val: int)
    ensures Signed8(val % 0x100) == val <==> SignedFits(1, val)
    ensures Signed16(val % 0x1_0000) == val <==> SignedFits(2, val)
    ensures Signed32(val % 0x1_0000_0000) == val <==> SignedFits(4, val)
  {
  }

  /** The C++ reader returns exactly the signed values that fit the width. */
  lemma {:induction false} SignedRoundTripCpp(width: nat, val: int)
    requires width == 1 || width == 2 || width == 4
    ensures GetInt(Numeric(width, val)) == val <==> SignedFits(width, val)
  {
    hide Be16, Be32, FromBe16, FromBe32, SignedFits, Signed8, Signed16, Signed32;
    BeRoundTrip(val % 0x1_0000, val % 0x1_0000_0000);
    SignedWrap(val);
  }

  /** So does the C reader for one and four octets; of two-octet values it loses the sign. */
  lemma {:induction false} SignedRoundTripC(width: nat, val: int)
    requires width == 1 || width == 2 || width == 4
    ensures AsInt(Numeric(width, val)) == val <==>
            if width == 2 then UnsignedFits(2, val) else SignedFits(width, val)
  {
    hide Be16, Be32, FromBe16, FromBe32, SignedFits, Signed8, Signed16, Signed32;
    BeRoundTrip(val % 0x1_0000, val % 0x1_0000_0000);
    SignedWrap(val);
  }

  /** A 16-bit -1 is read by the C reader as 65535. */
  lemma NegativeShort()
    ensures AsInt(Numeric(2, -1)) == 65535 && GetInt(Numeric(2, -1)) == -1
  {
  }
}
