/** Octets, fixed-width integers and the byte strings that both ends of the protocol exchange. */
module Bytes {
  type byte = x: int | 0 <= x < 0x100
  type u16 = x: int | 0 <= x < 0x1_0000
  type u32 = x: int | 0 <= x < 0x1_0000_0000
  type i32 = x: int | -0x8000_0000 <= x < 0x8000_0000

  datatype Option<+T> = None | Some(value: T)

  /** Network byte order of a 16-bit value, as `htons` followed by a copy of its memory leaves it. */
  function Be16(v: u16): (s: seq<byte>)
    ensures |s| == 2
  {
    [v / 0x100, v % 0x100]
  }

  /** Network byte order of a 32-bit value. */
  function Be32(v: u32): (s: seq<byte>)
    ensures |s| == 4
  {
    [v / 0x100_0000, v / 0x1_0000 % 0x100, v / 0x100 % 0x100, v % 0x100]
  }

  function FromBe16(s: seq<byte>): u16
    requires |s| >= 2
  {
    s[0] as int * 0x100 + s[1] as int
  }

  function FromBe32(s: seq<byte>): u32
    requires |s| >= 4
  {
    s[0] as int * 0x100_0000 + s[1] as int * 0x1_0000 + s[2] as int * 0x100 + s[3] as int
  }

  /** `std::string::insert`: puts `x` in front of position `i`. */
  function InsertAt(s: seq<byte>, i: nat, x: seq<byte>): seq<byte>
    requires i <= |s|
  {
    s[..i] + x + s[i..]
  }

  /** The bytes of all chunks, in order. */
  function Concat(chunks: seq<seq<byte>>): seq<byte> {
    if chunks == [] then [] else chunks[0] + Concat(chunks[1..])
  }

  lemma {:induction false} Associates<T>(a: seq<T>, b: seq<T>, c: seq<T>)
    ensures (a + b) + c == a + (b + c)
  {
  }

  /** `erase` of the element at position `i`. */
  function RemoveAt<T>(s: seq<T>, i: nat): seq<T>
    requires i < |s|
  {
    s[..i] + s[i + 1..]
  }

  lemma {:induction false} ConsConcat<T>(h: T, inner: seq<T>, more: seq<T>, rest: seq<T>)
    ensures var s := ([h] + inner + more) + rest;
      s == ([h] + inner) + (more + rest) && s[0] == h && s[1..] == inner + (more + rest)
  {
  }

  /** The C string stored at the front of `s`: everything before the first NUL. */
  function CString(s: seq<byte>): (r: seq<byte>)
    ensures |r| <= |s| && 0 !in r
  {
    if s == [] || s[0] == 0 then [] else [s[0]] + CString(s[1..])
  }

  lemma {:induction false} CStringOfTerminated(s: seq<byte>, rest: seq<byte>)
    requires 0 !in s
    ensures CString(s + [0] + rest) == s
  {
    var t := s + [0] + rest;
    if s != [] {
      assert t[0] == s[0] && t[1..] == s[1..] + [0] + rest;
      CStringOfTerminated(s[1..], rest);
    }
  }
}
