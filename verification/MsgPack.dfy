/**
 The MessagePack packer and unpacker ("Formats" section of the MessagePack specification).
 Floats travel as their bit patterns.
 */
module MsgPack {
  import opened Basics

  const P16 := 0x1_0000
  const P31 := 0x8000_0000
  const P32 := 0x1_0000_0000
  const P63 := 0x8000_0000_0000_0000

  datatype Value =
    | Nil
    | Bool(b: bool)
    | Int(i: int)
    | Uint(u: nat)
    | Float(bits: nat)
    | Double(bits: nat)
    | Str(data: seq<Byte>)
    | Bin(data: seq<Byte>)
    | ArrayHeader(size: nat)
    | MapHeader(size: nat)

  /** The values the source's types can hold. */
  predicate Valid(v: Value) {
    match v
    case Nil => true
    case Bool(_) => true
    case Int(i) => -P63 <= i < P63
    case Uint(u) => u < UINT64
    case Float(bits) => bits < P32
    case Double(bits) => bits < UINT64
    case Str(data) => |data| < P32
    case Bin(data) => |data| < P32
    case ArrayHeader(size) => size < P32
    case MapHeader(size) => size < P32
  }

  // ----------------------------------------------------------------- packing

  function U8(v: nat): seq<Byte> { [v % 256] }
  function U16(v: nat): seq<Byte> { [v / 256 % 256, v % 256] }
  function U32(v: nat): seq<Byte> { U16(v / P16 % P16) + U16(v % P16) }
  function U64(v: nat): seq<Byte> { U32(v / P32 % P32) + U32(v % P32) }

  /** The two's complement pattern of v in an unsigned type with `modulus` values. */
  function Pattern(v: int, modulus: int): nat
    requires -modulus <= v < modulus
  {
    if v < 0 then v + modulus else v
  }

  function PackUint(u: nat): seq<Byte> {
    if u <= 0x7f then [u]
    else if u <= 0xff then [0xcc] + U8(u)
    else if u <= 0xffff then [0xcd] + U16(u)
    else if u <= 0xffff_ffff then [0xce] + U32(u)
    else [0xcf] + U64(u)
  }

  function PackInt(i: int): seq<Byte>
    requires -P63 <= i < P63
  {
    if i >= 0 then PackUint(i)
    else if i >= -32 then [Pattern(i, 256)]
    else if i >= -128 then [0xd0] + U8(Pattern(i, 256))
    else if i >= -0x8000 then [0xd1] + U16(Pattern(i, P16))
    else if i >= -P31 then [0xd2] + U32(Pattern(i, P32))
    else [0xd3] + U64(Pattern(i, UINT64))
  }

  function StrHeader(n: nat): seq<Byte> {
    if n <= 31 then [0xa0 + n] else if n <= 0xff then [0xd9] + U8(n) else if n <= 0xffff then [0xda] + U16(n) else [0xdb] + U32(n)
  }

  function BinHeader(n: nat): seq<Byte> {
    if n <= 0xff then [0xc4] + U8(n) else if n <= 0xffff then [0xc5] + U16(n) else [0xc6] + U32(n)
  }

  function ArrayHead(n: nat): seq<Byte> {
    if n <= 15 then [0x90 + n] else if n <= 0xffff then [0xdc] + U16(n) else [0xdd] + U32(n)
  }

  function MapHead(n: nat): seq<Byte> {
    if n <= 15 then [0x80 + n] else if n <= 0xffff then [0xde] + U16(n) else [0xdf] + U32(n)
  }

  function Pack(v: Value): seq<Byte>
    requires Valid(v)
  {
    match v
    case Nil => [0xc0]
    case Bool(b) => [if b then 0xc3 else 0xc2]
    case Int(i) => PackInt(i)
    case Uint(u) => PackUint(u)
    case Float(bits) => [0xca] + U32(bits)
    case Double(bits) => [0xcb] + U64(bits)
    case Str(data) => StrHeader(|data|) + data
    case Bin(data) => BinHeader(|data|) + data
    case ArrayHeader(size) => ArrayHead(size)
    case MapHeader(size) => MapHead(size)
  }

  // --------------------------------------------------------------- unpacking

  /** A read either yields a value and moves on, or fails somewhere. */
  datatype Read<T> = Ok(value: T, offset: nat) | Fail(offset: nat)

  /** What unpack_str and unpack_bin hand out: a pointer into the data and a length. */
  datatype View = View(start: nat, length: nat)

  /** A position in data; no object fills the address space but for four bytes. */
  predicate Placed(data: seq<Byte>, off: nat, word: Width) { off <= |data| < word - 4 }

  function At(data: seq<Byte>, i: nat): nat
    requires i < |data|
  {
    data[i]
  }

  function ReadByte(data: seq<Byte>, off: nat): Read<nat> {
    if off >= |data| then Fail(off) else Ok(At(data, off), off + 1)
  }

  /** `read_bytes`: the sum is a size_t and wraps, in the check and in the new offset. */
  function ReadBytes(data: seq<Byte>, off: nat, n: nat, word: Width): Read<View>
  {
    var end := (off + n) % word;
    if end > |data| then Fail(off) else Ok(View(off, n), end)
  }

  /** `read_bytes` of two or four bytes never wraps at a position that can occur (see FixedReadsFit). */
  function ReadU16(data: seq<Byte>, off: nat): Read<nat> {
    if off + 2 > |data| then Fail(off) else Ok(At(data, off) * 256 + At(data, off + 1), off + 2)
  }

  function ReadU32(data: seq<Byte>, off: nat): Read<nat> {
    if off + 4 > |data| then Fail(off)
    else Ok((At(data, off) * 256 + At(data, off + 1)) * P16 + At(data, off + 2) * 256 + At(data, off + 3), off + 4)
  }

  /** Two 32-bit reads; when the second fails the first stays consumed. */
  function ReadU64(data: seq<Byte>, off: nat): Read<nat> {
    match ReadU32(data, off)
    case Fail(o) => Fail(o)
    case Ok(high, o) =>
      match ReadU32(data, o)
      case Fail(o') => Fail(o')
      case Ok(low, o') => Ok(high * P32 + low, o')
  }

  function Signed(u: int, modulus: nat): int { if u >= modulus / 2 then u - modulus else u }

  function MapSigned(r: Read<nat>, modulus: nat): Read<int> {
    match r
    case Fail(o) => Fail(o)
    case Ok(u, o) => Ok(Signed(u, modulus), o)
  }

  function UnpackUint(data: seq<Byte>, off: nat): Read<nat> {
    match ReadByte(data, off)
    case Fail(o) => Fail(o)
    case Ok(byte, o) =>
      if byte < 0x80 then Ok(byte, o)
      else if byte == 0xcc then ReadByte(data, o)
      else if byte == 0xcd then ReadU16(data, o)
      else if byte == 0xce then ReadU32(data, o)
      else if byte == 0xcf then ReadU64(data, o)
      else Fail(o)
  }

  function UnpackInt(data: seq<Byte>, off: nat): Read<int> {
    match ReadByte(data, off)
    case Fail(o) => Fail(o)
    case Ok(byte, o) =>
      if byte < 0x80 then Ok(byte, o)
      else if byte >= 0xe0 then Ok(Signed(byte, 256), o)
      else if byte == 0xcc then ReadByte(data, o)
      else if byte == 0xcd then ReadU16(data, o)
      else if byte == 0xce then ReadU32(data, o)
      else if byte == 0xcf then MapSigned(ReadU64(data, o), UINT64)
      else if byte == 0xd0 then MapSigned(ReadByte(data, o), 256)
      else if byte == 0xd1 then MapSigned(ReadU16(data, o), P16)
      else if byte == 0xd2 then MapSigned(ReadU32(data, o), P32)
      else if byte == 0xd3 then MapSigned(ReadU64(data, o), UINT64)
      else Fail(o)
  }

  function UnpackStrHeader(data: seq<Byte>, off: nat): Read<nat> {
    match ReadByte(data, off)
    case Fail(o) => Fail(o)
    case Ok(byte, o) =>
      if 0xa0 <= byte < 0xc0 then Ok(byte - 0xa0, o)
      else if byte == 0xd9 then ReadByte(data, o)
      else if byte == 0xda then ReadU16(data, o)
      else if byte == 0xdb then ReadU32(data, o)
      else Fail(o)
  }

  function UnpackBinHeader(data: seq<Byte>, off: nat): Read<nat> {
    match ReadByte(data, off)
    case Fail(o) => Fail(o)
    case Ok(byte, o) =>
      if byte == 0xc4 then ReadByte(data, o)
      else if byte == 0xc5 then ReadU16(data, o)
      else if byte == 0xc6 then ReadU32(data, o)
      else Fail(o)
  }

  function UnpackArrayHeader(data: seq<Byte>, off: nat): Read<nat> {
    match ReadByte(data, off)
    case Fail(o) => Fail(o)
    case Ok(byte, o) =>
      if 0x90 <= byte < 0xa0 then Ok(byte - 0x90, o)
      else if byte == 0xdc then ReadU16(data, o)
      else if byte == 0xdd then ReadU32(data, o)
      else Fail(o)
  }

  function UnpackMapHeader(data: seq<Byte>, off: nat): Read<nat> {
    match ReadByte(data, off)
    case Fail(o) => Fail(o)
    case Ok(byte, o) =>
      if 0x80 <= byte < 0x90 then Ok(byte - 0x80, o)
      else if byte == 0xde then ReadU16(data, o)
      else if byte == 0xdf then ReadU32(data, o)
      else Fail(o)
  }

  /** A read of the payload that a length header announces. */
  function Payload(data: seq<Byte>, header: Read<nat>, word: Width): Read<View>
  {
    match header
    case Fail(o) => Fail(o)
    case Ok(n, o) => ReadBytes(data, o, n, word)
  }

  /** A tag byte followed by a number. */
  function Tagged(data: seq<Byte>, off: nat, tag: int, wide: bool): Read<nat> {
    match ReadByte(data, off)
    case Fail(o) => Fail(o)
    case Ok(byte, o) => if byte != tag then Fail(o) else if wide then ReadU64(data, o) else ReadU32(data, o)
  }

  /** The outcome of an unpack call: a value, a failure, or a view that runs past the data. */
  datatype Unpacked<T> = Done(value: T, offset: nat) | Refused(offset: nat) | Overrun(view: View, offset: nat)

  function Of<T>(r: Read<T>, value: T -> Value): Unpacked<Value> {
    if r.Fail? then Refused(r.offset) else Done(value(r.value), r.offset)
  }

  function OfView(data: seq<Byte>, r: Read<View>, value: seq<Byte> -> Value): Unpacked<Value> {
    match r
    case Fail(o) => Refused(o)
    case Ok(v, o) =>
      if v.start + v.length <= |data| then Done(value(data[v.start..v.start + v.length]), o) else Overrun(v, o)
  }

  function UnpackNil(data: seq<Byte>, off: nat): Unpacked<Value> {
    match ReadByte(data, off)
    case Fail(o) => Refused(o)
    case Ok(byte, o) => if byte == 0xc0 then Done(Nil, o) else Refused(o)
  }

  function UnpackBool(data: seq<Byte>, off: nat): Unpacked<Value> {
    match ReadByte(data, off)
    case Fail(o) => Refused(o)
    case Ok(byte, o) => if byte == 0xc2 then Done(Bool(false), o) else if byte == 0xc3 then Done(Bool(true), o) else Refused(o)
  }

  /** The unpack call that fits the kind of `like`, at an offset. */
  function Unpack(like: Value, data: seq<Byte>, off: nat, word: Width): Unpacked<Value>
  {
    match like
    case Nil => UnpackNil(data, off)
    case Bool(_) => UnpackBool(data, off)
    case Int(_) => Of(UnpackInt(data, off), v => Int(v))
    case Uint(_) => Of(UnpackUint(data, off), v => Uint(v))
    case Float(_) => Of(Tagged(data, off, 0xca, false), v => Float(v))
    case Double(_) => Of(Tagged(data, off, 0xcb, true), v => Double(v))
    case Str(_) => OfView(data, Payload(data, UnpackStrHeader(data, off), word), v => Str(v))
    case Bin(_) => OfView(data, Payload(data, UnpackBinHeader(data, off), word), v => Bin(v))
    case ArrayHeader(_) => Of(UnpackArrayHeader(data, off), v => ArrayHeader(v))
    case MapHeader(_) => Of(UnpackMapHeader(data, off), v => MapHeader(v))
  }

  // ------------------------------------------------------------- round trips

  /** Bytes s stand in data at an offset, whatever is around them. */
  predicate Holds(data: seq<Byte>, off: nat, s: seq<Byte>) {
    off + |s| <= |data| && data[off..off + |s|] == s
  }

  lemma HoldsParts(data: seq<Byte>, off: nat, a: seq<Byte>, b: seq<Byte>)
    requires Holds(data, off, a + b)
    ensures Holds(data, off, a) && Holds(data, off + |a|, b)
  {
    assert data[off..off + |a|] == data[off..off + |a + b|][..|a|];
    assert data[off + |a|..off + |a| + |b|] == data[off..off + |a + b|][|a|..];
  }

  lemma HoldsByte(data: seq<Byte>, off: nat, b: Byte, rest: seq<Byte>)
    requires Holds(data, off, [b] + rest)
    ensures off < |data| && data[off] == b && Holds(data, off + 1, rest)
  {
    HoldsParts(data, off, [b], rest);
    assert data[off..off + 1][0] == b;
  }

  lemma ReadU16Back(data: seq<Byte>, off: nat, v: nat)
    requires v < P16 && Holds(data, off, U16(v))
    ensures ReadU16(data, off) == Ok(v, off + 2)
  {
    assert data[off] == data[off..off + 2][0] && data[off + 1] == data[off..off + 2][1];
  }

  lemma ReadU32Back(data: seq<Byte>, off: nat, v: nat)
    requires v < P32 && Holds(data, off, U32(v))
    ensures ReadU32(data, off) == Ok(v, off + 4)
  {
    HoldsParts(data, off, U16(v / P16 % P16), U16(v % P16));
    ReadU16Back(data, off, v / P16 % P16);
    ReadU16Back(data, off + 2, v % P16);
  }

  lemma U64Halves(v: nat)
    requires v < UINT64
    ensures v / P32 % P32 == v / P32 && v / P32 * P32 + v % P32 == v
  {
  }

  lemma ReadU64Back(data: seq<Byte>, off: nat, v: nat)
    requires v < UINT64 && Holds(data, off, U64(v))
    ensures ReadU64(data, off) == Ok(v, off + 8)
  {
    var high, low := v / P32 % P32, v % P32;
    U64Halves(v);
    HoldsParts(data, off, U32(high), U32(low));
    ReadU32Back(data, off, high);
    ReadU32Back(data, off + 4, low);
  }

  /** The number behind a tag byte is read back in its width. */
  lemma TaggedBack(data: seq<Byte>, off: nat, tag: Byte, v: nat)
    ensures Holds(data, off, [tag] + U8(v)) && v < 256 ==>
      off < |data| && data[off] == tag && ReadByte(data, off + 1) == Ok(v, off + 2)
    ensures Holds(data, off, [tag] + U16(v)) && v < P16 ==>
      off < |data| && data[off] == tag && ReadU16(data, off + 1) == Ok(v, off + 3)
    ensures Holds(data, off, [tag] + U32(v)) && v < P32 ==>
      off < |data| && data[off] == tag && ReadU32(data, off + 1) == Ok(v, off + 5)
    ensures Holds(data, off, [tag] + U64(v)) && v < UINT64 ==>
      off < |data| && data[off] == tag && ReadU64(data, off + 1) == Ok(v, off + 9)
  {
    if Holds(data, off, [tag] + U8(v)) && v < 256 {
      HoldsByte(data, off, tag, U8(v));
      assert data[off + 1] == data[off + 1..off + 2][0];
    }
    if Holds(data, off, [tag] + U16(v)) && v < P16 {
      HoldsByte(data, off, tag, U16(v));
      ReadU16Back(data, off + 1, v);
    }
    if Holds(data, off, [tag] + U32(v)) && v < P32 {
      HoldsByte(data, off, tag, U32(v));
      ReadU32Back(data, off + 1, v);
    }
    if Holds(data, off, [tag] + U64(v)) && v < UINT64 {
      HoldsByte(data, off, tag, U64(v));
      ReadU64Back(data, off + 1, v);
    }
  }

  lemma SingleByte(data: seq<Byte>, off: nat, b: Byte)
    requires Holds(data, off, [b])
    ensures off < |data| && data[off] == b
  {
    assert data[off..off + 1][0] == b;
  }

  lemma UintBack(data: seq<Byte>, off: nat, u: nat)
    requires u < UINT64 && Holds(data, off, PackUint(u))
    ensures UnpackUint(data, off) == Ok(u, off + |PackUint(u)|)
  {
    if u <= 0x7f {
      SingleByte(data, off, u);
    } else {
      TaggedBack(data, off, PackUint(u)[0], u);
    }
  }

  /** A negative integer is read back from its two's complement pattern. */
  lemma SignedBack(i: int, modulus: nat)
    requires modulus % 2 == 0 && -(modulus / 2) <= i < 0
    ensures 0 <= Pattern(i, modulus) < modulus && Signed(Pattern(i, modulus), modulus) == i
  {
  }

  lemma SmallNegativeBack(data: seq<Byte>, off: nat, i: int)
    requires -0x8000 <= i < -32 && Holds(data, off, PackInt(i))
    ensures UnpackInt(data, off) == Ok(i, off + |PackInt(i)|)
  {
    if i >= -128 {
      SignedBack(i, 256);
      TaggedBack(data, off, 0xd0, Pattern(i, 256));
    } else {
      SignedBack(i, P16);
      TaggedBack(data, off, 0xd1, Pattern(i, P16));
    }
  }

  lemma LargeNegativeBack(data: seq<Byte>, off: nat, i: int)
    requires -P63 <= i < -0x8000 && Holds(data, off, PackInt(i))
    ensures UnpackInt(data, off) == Ok(i, off + |PackInt(i)|)
  {
    if i >= -P31 {
      SignedBack(i, P32);
      TaggedBack(data, off, 0xd2, Pattern(i, P32));
    } else {
      SignedBack(i, UINT64);
      TaggedBack(data, off, 0xd3, Pattern(i, UINT64));
    }
  }

  lemma IntBack(data: seq<Byte>, off: nat, i: int)
    requires -P63 <= i < P63 && Holds(data, off, PackInt(i))
    ensures UnpackInt(data, off) == Ok(i, off + |PackInt(i)|)
  {
    if i < -0x8000 {
      LargeNegativeBack(data, off, i);
    } else if i < -32 {
      SmallNegativeBack(data, off, i);
    } else if i <= 0x7f {
      SingleByte(data, off, PackInt(i)[0]);
    } else {
      TaggedBack(data, off, PackUint(i)[0], i);
    }
  }

  lemma StrHeaderBack(data: seq<Byte>, off: nat, n: nat)
    requires n < P32 && Holds(data, off, StrHeader(n))
    ensures UnpackStrHeader(data, off) == Ok(n, off + |StrHeader(n)|)
  {
    if n <= 31 {
      SingleByte(data, off, 0xa0 + n);
    } else {
      TaggedBack(data, off, StrHeader(n)[0], n);
    }
  }

  lemma BinHeaderBack(data: seq<Byte>, off: nat, n: nat)
    requires n < P32 && Holds(data, off, BinHeader(n))
    ensures UnpackBinHeader(data, off) == Ok(n, off + |BinHeader(n)|)
  {
    TaggedBack(data, off, BinHeader(n)[0], n);
  }

  lemma ArrayHeadBack(data: seq<Byte>, off: nat, n: nat)
    requires n < P32 && Holds(data, off, ArrayHead(n))
    ensures UnpackArrayHeader(data, off) == Ok(n, off + |ArrayHead(n)|)
  {
    if n <= 15 {
      SingleByte(data, off, 0x90 + n);
    } else {
      TaggedBack(data, off, ArrayHead(n)[0], n);
    }
  }

  lemma MapHeadBack(data: seq<Byte>, off: nat, n: nat)
    requires n < P32 && Holds(data, off, MapHead(n))
    ensures UnpackMapHeader(data, off) == Ok(n, off + |MapHead(n)|)
  {
    if n <= 15 {
      SingleByte(data, off, 0x80 + n);
    } else {
      TaggedBack(data, off, MapHead(n)[0], n);
    }
  }

  lemma PayloadBack(data: seq<Byte>, off: nat, header: Read<nat>, d: seq<Byte>, word: Width)
    requires |data| < word && Holds(data, off, d) && header == Ok(|d|, off)
    ensures Payload(data, header, word) == Ok(View(off, |d|), off + |d|)
    ensures off + |d| <= |data| && data[off..off + |d|] == d
  {
  }

  lemma StrBack(data: seq<Byte>, off: nat, d: seq<Byte>, word: Width)
    requires |data| < word && |d| < P32 && Holds(data, off, StrHeader(|d|) + d)
    ensures Unpack(Str(d), data, off, word) == Done(Str(d), off + |StrHeader(|d|)| + |d|)
  {
    var header := StrHeader(|d|);
    HoldsParts(data, off, header, d);
    StrHeaderBack(data, off, |d|);
    PayloadBack(data, off + |header|, UnpackStrHeader(data, off), d, word);
  }

  lemma BinBack(data: seq<Byte>, off: nat, d: seq<Byte>, word: Width)
    requires |data| < word && |d| < P32 && Holds(data, off, BinHeader(|d|) + d)
    ensures Unpack(Bin(d), data, off, word) == Done(Bin(d), off + |BinHeader(|d|)| + |d|)
  {
    var header := BinHeader(|d|);
    HoldsParts(data, off, header, d);
    BinHeaderBack(data, off, |d|);
    PayloadBack(data, off + |header|, UnpackBinHeader(data, off), d, word);
  }

  lemma BitsBack(data: seq<Byte>, off: nat, tag: Byte, bits: nat)
    ensures bits < P32 && Holds(data, off, [tag] + U32(bits)) ==> Tagged(data, off, tag, false) == Ok(bits, off + 5)
    ensures bits < UINT64 && Holds(data, off, [tag] + U64(bits)) ==> Tagged(data, off, tag, true) == Ok(bits, off + 9)
  {
    TaggedBack(data, off, tag, bits);
  }

  /** Unpacking a packed value gives it back and consumes exactly its bytes, whatever surrounds them. */
  lemma RoundTrip(data: seq<Byte>, off: nat, v: Value, word: Width)
    requires |data| < word && Valid(v) && Holds(data, off, Pack(v))
    ensures Unpack(v, data, off, word) == Done(v, off + |Pack(v)|)
  {
    match v
    case Nil => SingleByte(data, off, 0xc0);
    case Bool(b) => SingleByte(data, off, if b then 0xc3 else 0xc2);
    case Int(i) => IntBack(data, off, i);
    case Uint(u) => UintBack(data, off, u);
    case Float(bits) => BitsBack(data, off, 0xca, bits);
    case Double(bits) => BitsBack(data, off, 0xcb, bits);
    case Str(d) => StrBack(data, off, d, word);
    case Bin(d) => BinBack(data, off, d, word);
    case ArrayHeader(n) => ArrayHeadBack(data, off, n);
    case MapHeader(n) => MapHeadBack(data, off, n);
  }

  ghost predicate AllValid(vs: seq<Value>) { forall i :: 0 <= i < |vs| ==> Valid(vs[i]) }

  ghost function PackAll(vs: seq<Value>): seq<Byte>
    requires AllValid(vs)
  {
    if vs == [] then [] else Pack(vs[0]) + PackAll(vs[1..])
  }

  /** The unpack calls of the kinds of `like`, one after the other, up to the first that yields no value. */
  function UnpackAll(like: seq<Value>, data: seq<Byte>, off: nat, word: Width): Unpacked<seq<Value>>
    decreases |like|
  {
    if like == [] then Done([], off)
    else
      match Unpack(like[0], data, off, word)
      case Refused(o) => Refused(o)
      case Overrun(view, o) => Overrun(view, o)
      case Done(v, o) =>
        match UnpackAll(like[1..], data, o, word)
        case Refused(o') => Refused(o')
        case Overrun(view, o') => Overrun(view, o')
        case Done(vs, o') => Done([v] + vs, o')
  }

  lemma PackAllCons(vs: seq<Value>, head: seq<Byte>, tail: seq<Byte>)
    requires AllValid(vs) && vs != [] && AllValid(vs[1..]) && head == Pack(vs[0]) && tail == PackAll(vs[1..])
    ensures PackAll(vs) == head + tail
  {
  }

  lemma UnpackAllStep(vs: seq<Value>, data: seq<Byte>, off: nat, o: nat, end: nat, word: Width)
    requires vs != []
    requires Unpack(vs[0], data, off, word) == Done(vs[0], o) && UnpackAll(vs[1..], data, o, word) == Done(vs[1..], end)
    ensures UnpackAll(vs, data, off, word) == Done(vs, end)
  {
    assert vs == [vs[0]] + vs[1..];
  }

  /** The values stand packed one after the other at these offsets. */
  ghost predicate StandAt(data: seq<Byte>, vs: seq<Value>, offs: seq<nat>) {
    |offs| == |vs| + 1 && forall i :: 0 <= i < |vs| ==> PackedAt(data, vs[i], offs[i], offs[i + 1])
  }

  ghost predicate PackedAt(data: seq<Byte>, v: Value, off: nat, end: nat) {
    Valid(v) && Holds(data, off, Pack(v)) && end == off + |Pack(v)|
  }

  lemma FirstPacked(data: seq<Byte>, off: nat, v: Value, tail: seq<Byte>) returns (end: nat)
    requires Valid(v) && Holds(data, off, Pack(v) + tail)
    ensures PackedAt(data, v, off, end) && Holds(data, end, tail) && end + |tail| == off + |Pack(v) + tail|
  {
    HoldsParts(data, off, Pack(v), tail);
    end := off + |Pack(v)|;
  }

  /** Packing writes them so. */
  lemma {:induction false} PackedStand(data: seq<Byte>, off: nat, vs: seq<Value>) returns (offs: seq<nat>)
    requires AllValid(vs) && Holds(data, off, PackAll(vs))
    ensures StandAt(data, vs, offs) && offs[0] == off && offs[|vs|] == off + |PackAll(vs)|
    decreases |vs|
  {
    if vs == [] {
      offs := [off];
    } else {
      assert AllValid(vs[1..]);
      PackAllCons(vs, Pack(vs[0]), PackAll(vs[1..]));
      var end := FirstPacked(data, off, vs[0], PackAll(vs[1..]));
      var rest := PackedStand(data, end, vs[1..]);
      offs := [off] + rest;
      StandCons(data, vs, off, rest);
    }
  }

  lemma StandCons(data: seq<Byte>, vs: seq<Value>, off: nat, rest: seq<nat>)
    requires vs != [] && StandAt(data, vs[1..], rest) && PackedAt(data, vs[0], off, rest[0])
    ensures StandAt(data, vs, [off] + rest)
  {
    forall i | 0 <= i < |vs| ensures PackedAt(data, vs[i], ([off] + rest)[i], ([off] + rest)[i + 1]) {
      if i > 0 {
        assert PackedAt(data, vs[1..][i - 1], rest[i - 1], rest[i]);
      }
    }
  }

  lemma {:induction false} ReadBack(data: seq<Byte>, vs: seq<Value>, offs: seq<nat>, word: Width)
    requires |data| < word && StandAt(data, vs, offs)
    ensures UnpackAll(vs, data, offs[0], word) == Done(vs, offs[|vs|])
    decreases |vs|
  {
    if vs != [] {
      assert PackedAt(data, vs[0], offs[0], offs[1]);
      RoundTrip(data, offs[0], vs[0], word);
      StandTail(data, vs, offs);
      ReadBack(data, vs[1..], offs[1..], word);
      UnpackAllStep(vs, data, offs[0], offs[1], offs[|vs|], word);
    }
  }

  lemma StandTail(data: seq<Byte>, vs: seq<Value>, offs: seq<nat>)
    requires vs != [] && StandAt(data, vs, offs)
    ensures StandAt(data, vs[1..], offs[1..])
  {
    forall i | 0 <= i < |vs| - 1 ensures PackedAt(data, vs[1..][i], offs[1..][i], offs[1..][i + 1]) {
      assert PackedAt(data, vs[i + 1], offs[i + 1], offs[i + 2]);
    }
  }

  /** The same for any sequence of values: all come back, in order, from exactly the bytes written. */
  lemma SequenceRoundTrip(data: seq<Byte>, off: nat, vs: seq<Value>, word: Width)
    requires |data| < word && AllValid(vs) && Holds(data, off, PackAll(vs))
    ensures UnpackAll(vs, data, off, word) == Done(vs, off + |PackAll(vs)|)
  {
    var offs := PackedStand(data, off, vs);
    ReadBack(data, vs, offs, word);
  }

  lemma PackedSizes(v: int)
    requires -P63 <= v < UINT64
    ensures v >= 0 ==> |PackUint(v)| == (if v < 0x80 then 1 else if v < 0x100 then 2 else if v < P16 then 3 else if v < P32 then 5 else 9)
    ensures v < 0 ==> |PackInt(v)| == (if v >= -32 then 1 else if v >= -128 then 2 else if v >= -0x8000 then 3 else if v >= -P31 then 5 else 9)
  {
  }

  /** No byte sequence that unpacks to an unsigned integer is shorter than the packed one. */
  lemma ShortestUint(data: seq<Byte>, off: nat)
    requires UnpackUint(data, off).Ok?
    ensures var r := UnpackUint(data, off); r.value < UINT64 && r.offset >= off + |PackUint(r.value)|
  {
    ReadRanges(data, off + 1);
    PackedSizes(UnpackUint(data, off).value);
  }

  /** The signed integers that a format of k bytes can hold. */
  predicate InWidth(v: int, k: int) {
    if k == 1 then -32 <= v < 0x80
    else if k == 2 then -0x80 <= v < 0x100
    else if k == 3 then -0x8000 <= v < P16
    else if k == 5 then -P31 <= v < P32
    else k == 9 && -P63 <= v < P63
  }

  lemma IntWidth(data: seq<Byte>, off: nat)
    requires UnpackInt(data, off).Ok?
    ensures var r := UnpackInt(data, off); InWidth(r.value, r.offset - off)
  {
    ReadRanges(data, off + 1);
  }

  lemma PackedWithin(v: int, k: int)
    requires InWidth(v, k)
    ensures -P63 <= v < P63 && |PackInt(v)| <= k
  {
    PackedSizes(v);
  }

  /** No byte sequence that unpacks to a signed integer is shorter than the packed one. */
  lemma ShortestInt(data: seq<Byte>, off: nat)
    requires UnpackInt(data, off).Ok?
    ensures var r := UnpackInt(data, off); -P63 <= r.value < P63 && r.offset >= off + |PackInt(r.value)|
  {
    IntWidth(data, off);
    var r := UnpackInt(data, off);
    PackedWithin(r.value, r.offset - off);
  }

  lemma ReadRanges(data: seq<Byte>, off: nat)
    ensures var r := ReadByte(data, off); r.Ok? ==> r.value < 256 && r.offset == off + 1
    ensures var r := ReadU16(data, off); r.Ok? ==> r.value < P16 && r.offset == off + 2
    ensures var r := ReadU32(data, off); r.Ok? ==> r.value < P32 && r.offset == off + 4
    ensures var r := ReadU64(data, off); r.Ok? ==> r.value < UINT64 && r.offset == off + 8
  {
  }

  /** A byte read that the check lets through keeps the offset within the data, and moves it back exactly
      when the sum wraps. */
  lemma BytesForward(data: seq<Byte>, off: nat, n: nat, word: Width)
    requires Placed(data, off, word) && n < word
    ensures var r := ReadBytes(data, off, n, word);
            && r.offset <= |data|
            && (off <= r.offset <==> off + n < word || off + n - word > |data|)
            && (r.Ok? ==> (off + n <= |data| <==> off + n < word))
  {
    SmallSum(off + n, word);
  }

  lemma SmallSum(x: nat, word: Width)
    requires 0 < word
    ensures x < word ==> x % word == x
    ensures word <= x < 2 * word ==> x % word == x - word
  {
  }

  lemma FixedReadsFit(data: seq<Byte>, off: nat, n: nat, word: Width)
    requires Placed(data, off, word) && n <= 4
    ensures ReadBytes(data, off, n, word) == if off + n > |data| then Fail(off) else Ok(View(off, n), off + n)
  {
    SmallSum(off + n, word);
  }

  /** The length header that a call of the kind of `like` reads at an offset, if it reads one. */
  function Header(like: Value, data: seq<Byte>, off: nat): Read<nat> {
    match like
    case Str(_) => UnpackStrHeader(data, off)
    case Bin(_) => UnpackBinHeader(data, off)
    case _ => Fail(off)
  }

  /** The announced length wraps the sum around to a place within the data. */
  predicate WrapsBehind(h: Read<nat>, data: seq<Byte>, word: Width) {
    h.Ok? && word <= h.offset + h.value <= word + |data|
  }

  predicate Wraps(like: Value, data: seq<Byte>, off: nat, word: Width) {
    WrapsBehind(Header(like, data, off), data, word)
  }

  lemma HeaderBounds(data: seq<Byte>, off: nat)
    requires off <= |data|
    ensures var h := UnpackStrHeader(data, off); off <= h.offset <= |data| && (h.Ok? ==> off < h.offset && h.value < P32)
    ensures var h := UnpackBinHeader(data, off); off <= h.offset <= |data| && (h.Ok? ==> off < h.offset && h.value < P32)
  {
    if off < |data| {
      ReadRanges(data, off + 1);
    }
  }

  lemma IntInBounds(data: seq<Byte>, off: nat)
    requires off <= |data|
    ensures off <= UnpackInt(data, off).offset <= |data|
  {
  }

  /** Every call but a string or binary read moves forward within the data. */
  lemma PlainInBounds(like: Value, data: seq<Byte>, off: nat, word: Width)
    requires Placed(data, off, word) && !like.Str? && !like.Bin?
    ensures var r := Unpack(like, data, off, word); off <= r.offset <= |data| && !r.Overrun?
  {
    if like.Int? {
      IntInBounds(data, off);
    }
  }

  /** What a string or binary read does, by its header. */
  lemma ViewInBounds(like: Value, data: seq<Byte>, off: nat, word: Width)
    requires Placed(data, off, word) && (like.Str? || like.Bin?)
    ensures InBounds(Unpack(like, data, off, word), Header(like, data, off), data, off, word)
  {
    HeaderBounds(data, off);
    PayloadInBounds(data, off, Header(like, data, off), word);
  }

  /**
   The outcome of a call against its length header: the offset never passes the length; a view past the data is
   handed out, and the offset moves back behind the header, exactly when the announced length wraps the sum;
   otherwise the offset moves forward only.
   */
  predicate InBounds<T>(r: Unpacked<T>, h: Read<nat>, data: seq<Byte>, off: nat, word: Width) {
    && r.offset <= |data|
    && (r.Overrun? <==> WrapsBehind(h, data, word))
    && (if r.Overrun? then r.offset == h.offset + h.value - word < h.offset else off <= r.offset)
  }

  /** So for every call, on any input, also a malformed one, and for any width of size_t. */
  lemma OffsetInBounds(like: Value, data: seq<Byte>, off: nat, word: Width)
    requires Placed(data, off, word)
    ensures InBounds(Unpack(like, data, off, word), Header(like, data, off), data, off, word)
  {
    if like.Str? || like.Bin? {
      ViewInBounds(like, data, off, word);
    } else {
      PlainInBounds(like, data, off, word);
    }
  }

  /** A byte read of any length below 2^32 behind any header. */
  lemma PayloadInBounds(data: seq<Byte>, off: nat, h: Read<nat>, word: Width)
    requires Placed(data, off, word) && off <= h.offset <= |data| && (h.Ok? ==> h.value < P32)
    ensures var r, wraps := Payload(data, h, word), WrapsBehind(h, data, word);
            && r.offset <= |data|
            && (r.Ok? && r.value.start + r.value.length > |data| <==> wraps)
            && (wraps ==> r.offset == h.offset + h.value - word < h.offset)
            && (!wraps ==> off <= r.offset)
  {
    if h.Ok? {
      BytesForward(data, h.offset, h.value, word);
    }
  }

  /** Five bytes are enough where size_t has 32 bits: a string of 4 GiB less a byte is handed out, and the offset
      moves back from 5 to 4. */
  lemma FiveBytesWrap()
    ensures Unpack(Str([]), [0xdb, 0xff, 0xff, 0xff, 0xff], 0, P32) == Overrun(View(5, 0xffff_ffff), 4)
  {
    assert UnpackStrHeader([0xdb, 0xff, 0xff, 0xff, 0xff], 0) == Ok(0xffff_ffff, 5);
  }

  /** A length header has at most 32 bits, so where size_t has 64 bits no call wraps, on any data below 2^63 bytes. */
  lemma WideNeverWraps(like: Value, data: seq<Byte>, off: nat)
    requires off <= |data| <= P63
    ensures !Wraps(like, data, off, UINT64)
  {
    HeaderBounds(data, off);
  }

  /** Some call of the run wraps. */
  predicate RunWraps(like: seq<Value>, data: seq<Byte>, off: nat, word: Width)
    decreases |like|
  {
    like != [] &&
      (Wraps(like[0], data, off, word) ||
       var first := Unpack(like[0], data, off, word);
       first.Done? && RunWraps(like[1..], data, first.offset, word))
  }

  /** Over any run of unpack calls of any kinds on any input the offset never passes the length; the run ends in a
      view past the data exactly when one of its lengths wraps, and otherwise the offset moves forward only. */
  lemma {:induction false} RunInBounds(like: seq<Value>, data: seq<Byte>, off: nat, word: Width)
    requires Placed(data, off, word)
    ensures var r := UnpackAll(like, data, off, word);
            && r.offset <= |data|
            && (r.Overrun? <==> RunWraps(like, data, off, word))
            && (!r.Overrun? ==> off <= r.offset)
    decreases |like|
  {
    if like != [] {
      OffsetInBounds(like[0], data, off, word);
      var first := Unpack(like[0], data, off, word);
      if first.Done? {
        RunInBounds(like[1..], data, first.offset, word);
      }
    }
  }

  /** With a 64-bit size_t that holds without a condition. */
  lemma {:induction false} WideRunInBounds(like: seq<Value>, data: seq<Byte>, off: nat)
    requires off <= |data| <= P63
    ensures var r := UnpackAll(like, data, off, UINT64); off <= r.offset <= |data| && !r.Overrun?
    decreases |like|
  {
    RunInBounds(like, data, off, UINT64);
    if like != [] {
      WideNeverWraps(like[0], data, off);
      OffsetInBounds(like[0], data, off, UINT64);
      var first := Unpack(like[0], data, off, UINT64);
      if first.Done? {
        WideRunInBounds(like[1..], data, first.offset);
      }
    }
  }

  // -------------------------------------------------------- the formats of the standard

  /** The number that bytes make up, most significant first. */
  function BigEndian(s: seq<Byte>): nat {
    if s == [] then 0 else 256 * BigEndian(s[..|s| - 1]) + s[|s| - 1]
  }

  /** A first byte, and a number in k bytes behind it. */
  predicate Formatted(s: seq<Byte>, first: int, k: nat, v: int) {
    |s| == k + 1 && s[0] == first && BigEndian(s[1..]) == v
  }

  /** The two's complement reading of an unsigned number with `modulus` values. */
  predicate Complement(u: int, modulus: int, v: int) { v == if 2 * u < modulus then u else u - modulus }

  predicate ComplementFormat(s: seq<Byte>, first: int, k: nat, modulus: int, v: int) {
    |s| == k + 1 && s[0] == first && Complement(BigEndian(s[1..]), modulus, v)
  }

  /** positive fixint, uint 8, 16, 32 and 64 */
  predicate UintFormat(s: seq<Byte>, u: int) {
    || (|s| == 1 && s[0] <= 0x7f && u == s[0])
    || Formatted(s, 0xcc, 1, u) || Formatted(s, 0xcd, 2, u) || Formatted(s, 0xce, 4, u) || Formatted(s, 0xcf, 8, u)
  }

  /** positive and negative fixint, uint 8, 16 and 32, uint 64 read into 64 signed bits, and int 8, 16, 32 and 64 */
  predicate IntFormat(s: seq<Byte>, i: int) {
    || (|s| == 1 && s[0] <= 0x7f && i == s[0]) || (|s| == 1 && s[0] >= 0xe0 && i + 256 == s[0])
    || Formatted(s, 0xcc, 1, i) || Formatted(s, 0xcd, 2, i) || Formatted(s, 0xce, 4, i)
    || ComplementFormat(s, 0xcf, 8, 0x1_0000_0000_0000_0000, i)
    || ComplementFormat(s, 0xd0, 1, 0x100, i) || ComplementFormat(s, 0xd1, 2, 0x1_0000, i)
    || ComplementFormat(s, 0xd2, 4, 0x1_0000_0000, i) || ComplementFormat(s, 0xd3, 8, 0x1_0000_0000_0000_0000, i)
  }

  /** fixstr, str 8, 16 and 32, up to the data */
  predicate StrHeaderFormat(s: seq<Byte>, n: int) {
    || (|s| == 1 && 0xa0 <= s[0] <= 0xbf && n == s[0] - 0xa0)
    || Formatted(s, 0xd9, 1, n) || Formatted(s, 0xda, 2, n) || Formatted(s, 0xdb, 4, n)
  }

  /** bin 8, 16 and 32, up to the data */
  predicate BinHeaderFormat(s: seq<Byte>, n: int) { Formatted(s, 0xc4, 1, n) || Formatted(s, 0xc5, 2, n) || Formatted(s, 0xc6, 4, n) }

  /** fixarray, array 16 and 32 */
  predicate ArrayFormat(s: seq<Byte>, n: int) {
    (|s| == 1 && 0x90 <= s[0] <= 0x9f && n == s[0] - 0x90) || Formatted(s, 0xdc, 2, n) || Formatted(s, 0xdd, 4, n)
  }

  /** fixmap, map 16 and 32 */
  predicate MapFormat(s: seq<Byte>, n: int) {
    (|s| == 1 && 0x80 <= s[0] <= 0x8f && n == s[0] - 0x80) || Formatted(s, 0xde, 2, n) || Formatted(s, 0xdf, 4, n)
  }

  /** The bytes are a form of the value in the "Formats" section of the standard. */
  ghost predicate Format(v: Value, s: seq<Byte>) {
    match v
    case Nil => s == [0xc0]
    case Bool(b) => s == [if b then 0xc3 else 0xc2]
    case Int(i) => IntFormat(s, i)
    case Uint(u) => UintFormat(s, u)
    case Float(bits) => Formatted(s, 0xca, 4, bits)
    case Double(bits) => Formatted(s, 0xcb, 8, bits)
    case Str(d) => |d| <= |s| && s[|s| - |d|..] == d && StrHeaderFormat(s[..|s| - |d|], |d|)
    case Bin(d) => |d| <= |s| && s[|s| - |d|..] == d && BinHeaderFormat(s[..|s| - |d|], |d|)
    case ArrayHeader(n) => ArrayFormat(s, n)
    case MapHeader(n) => MapFormat(s, n)
  }

  lemma BigEndianSnoc(s: seq<Byte>, b: Byte)
    ensures BigEndian(s + [b]) == 256 * BigEndian(s) + b
  {
    assert (s + [b])[..|s|] == s;
  }

  lemma BigEndianOf2(a: Byte, b: Byte)
    ensures BigEndian([a]) == a && BigEndian([a, b]) == 256 * a + b
  {
    assert [a, b][..1] == [a];
  }

  lemma BigEndianOf4(a: Byte, b: Byte, c: Byte, d: Byte)
    ensures BigEndian([a, b, c, d]) == (256 * a + b) * 0x1_0000 + 256 * c + d
  {
    BigEndianOf2(a, b);
    BigEndianSnoc([a, b], c);
    BigEndianSnoc([a, b] + [c], d);
    assert [a, b] + [c] + [d] == [a, b, c, d];
  }

  lemma BigEndianOf8(h: seq<Byte>, l: seq<Byte>)
    requires |h| == 4 && |l| == 4
    ensures BigEndian(h + l) == BigEndian(h) * 0x1_0000_0000 + BigEndian(l)
  {
    BigEndianOf4(l[0], l[1], l[2], l[3]);
    assert l == [l[0], l[1], l[2], l[3]];
    BigEndianSnoc(h, l[0]);
    BigEndianSnoc(h + [l[0]], l[1]);
    BigEndianSnoc(h + [l[0]] + [l[1]], l[2]);
    BigEndianSnoc(h + [l[0]] + [l[1]] + [l[2]], l[3]);
    assert h + [l[0]] + [l[1]] + [l[2]] + [l[3]] == h + l;
  }

  /** What a read of k bytes yields: the number there, if there are as many. */
  ghost predicate ReadsNumber(r: Read<nat>, data: seq<Byte>, off: nat, k: nat) {
    if off + k <= |data| then r == Ok(BigEndian(data[off..off + k]), off + k) else r.Fail?
  }

  lemma SmallReads(data: seq<Byte>, off: nat)
    ensures ReadsNumber(ReadByte(data, off), data, off, 1)
    ensures ReadsNumber(ReadU16(data, off), data, off, 2)
    ensures ReadsNumber(ReadU32(data, off), data, off, 4)
  {
    if off + 1 <= |data| {
      assert data[off..off + 1] == [data[off]];
      BigEndianOf2(data[off], 0);
    }
    if off + 2 <= |data| {
      assert data[off..off + 2] == [data[off], data[off + 1]];
      BigEndianOf2(data[off], data[off + 1]);
    }
    if off + 4 <= |data| {
      assert data[off..off + 4] == [data[off], data[off + 1], data[off + 2], data[off + 3]];
      BigEndianOf4(data[off], data[off + 1], data[off + 2], data[off + 3]);
    }
  }

  lemma LargeRead(data: seq<Byte>, off: nat)
    ensures ReadsNumber(ReadU64(data, off), data, off, 8)
  {
    SmallReads(data, off);
    SmallReads(data, off + 4);
    if off + 8 <= |data| {
      assert data[off..off + 8] == data[off..off + 4] + data[off + 4..off + 8];
      BigEndianOf8(data[off..off + 4], data[off + 4..off + 8]);
    }
  }

  /** A number behind a first byte is formatted so exactly when the read behind it yields the number. */
  lemma FormattedIff(data: seq<Byte>, off: nat, first: Byte, k: nat, r: Read<nat>, v: nat, o: nat)
    requires off < |data| && ReadsNumber(r, data, off + 1, k)
    ensures r == Ok(v, o) && data[off] == first <==> off <= o <= |data| && Formatted(data[off..o], first, k, v)
  {
    if off <= o <= |data| && o - off == k + 1 {
      assert data[off..o][1..] == data[off + 1..o];
    }
  }

  lemma ComplementIff(data: seq<Byte>, off: nat, first: Byte, k: nat, modulus: nat, r: Read<nat>, v: int, o: nat)
    requires off < |data| && ReadsNumber(r, data, off + 1, k) && modulus % 2 == 0
    ensures MapSigned(r, modulus) == Ok(v, o) && data[off] == first
       <==> off <= o <= |data| && ComplementFormat(data[off..o], first, k, modulus, v)
  {
    if off <= o <= |data| && o - off == k + 1 {
      assert data[off..o][1..] == data[off + 1..o];
    }
  }

  /** A one-byte form. */
  lemma SingleIff(data: seq<Byte>, off: nat, o: nat)
    requires off < |data|
    ensures off <= o <= |data| && |data[off..o]| == 1 <==> o == off + 1
    ensures data[off..off + 1][0] == data[off]
  {
  }

  /** Unsigned integers are unpacked from exactly their formats. */
  lemma UintIff(data: seq<Byte>, off: nat, u: nat, o: nat)
    requires off <= |data|
    ensures UnpackUint(data, off) == Ok(u, o) <==> off <= o <= |data| && UintFormat(data[off..o], u)
  {
    if off < |data| {
      SmallReads(data, off + 1);
      LargeRead(data, off + 1);
      SingleIff(data, off, o);
      FormattedIff(data, off, 0xcc, 1, ReadByte(data, off + 1), u, o);
      FormattedIff(data, off, 0xcd, 2, ReadU16(data, off + 1), u, o);
      FormattedIff(data, off, 0xce, 4, ReadU32(data, off + 1), u, o);
      FormattedIff(data, off, 0xcf, 8, ReadU64(data, off + 1), u, o);
    }
  }

  lemma StrHeaderIff(data: seq<Byte>, off: nat, n: nat, o: nat)
    requires off <= |data|
    ensures UnpackStrHeader(data, off) == Ok(n, o) <==> off <= o <= |data| && StrHeaderFormat(data[off..o], n)
  {
    if off < |data| {
      SmallReads(data, off + 1);
      SingleIff(data, off, o);
      FormattedIff(data, off, 0xd9, 1, ReadByte(data, off + 1), n, o);
      FormattedIff(data, off, 0xda, 2, ReadU16(data, off + 1), n, o);
      FormattedIff(data, off, 0xdb, 4, ReadU32(data, off + 1), n, o);
    }
  }

  lemma BinHeaderIff(data: seq<Byte>, off: nat, n: nat, o: nat)
    requires off <= |data|
    ensures UnpackBinHeader(data, off) == Ok(n, o) <==> off <= o <= |data| && BinHeaderFormat(data[off..o], n)
  {
    if off < |data| {
      SmallReads(data, off + 1);
      FormattedIff(data, off, 0xc4, 1, ReadByte(data, off + 1), n, o);
      FormattedIff(data, off, 0xc5, 2, ReadU16(data, off + 1), n, o);
      FormattedIff(data, off, 0xc6, 4, ReadU32(data, off + 1), n, o);
    }
  }

  lemma ArrayIff(data: seq<Byte>, off: nat, n: nat, o: nat)
    requires off <= |data|
    ensures UnpackArrayHeader(data, off) == Ok(n, o) <==> off <= o <= |data| && ArrayFormat(data[off..o], n)
  {
    if off < |data| {
      SmallReads(data, off + 1);
      SingleIff(data, off, o);
      FormattedIff(data, off, 0xdc, 2, ReadU16(data, off + 1), n, o);
      FormattedIff(data, off, 0xdd, 4, ReadU32(data, off + 1), n, o);
    }
  }

  lemma MapIff(data: seq<Byte>, off: nat, n: nat, o: nat)
    requires off <= |data|
    ensures UnpackMapHeader(data, off) == Ok(n, o) <==> off <= o <= |data| && MapFormat(data[off..o], n)
  {
    if off < |data| {
      SmallReads(data, off + 1);
      SingleIff(data, off, o);
      FormattedIff(data, off, 0xde, 2, ReadU16(data, off + 1), n, o);
      FormattedIff(data, off, 0xdf, 4, ReadU32(data, off + 1), n, o);
    }
  }

  lemma BitsIff(data: seq<Byte>, off: nat, bits: nat, o: nat)
    requires off <= |data|
    ensures Tagged(data, off, 0xca, false) == Ok(bits, o) <==> off <= o <= |data| && Formatted(data[off..o], 0xca, 4, bits)
    ensures Tagged(data, off, 0xcb, true) == Ok(bits, o) <==> off <= o <= |data| && Formatted(data[off..o], 0xcb, 8, bits)
  {
    if off < |data| {
      SmallReads(data, off + 1);
      LargeRead(data, off + 1);
      FormattedIff(data, off, 0xca, 4, ReadU32(data, off + 1), bits, o);
      FormattedIff(data, off, 0xcb, 8, ReadU64(data, off + 1), bits, o);
    }
  }

  /** The unsigned forms that a signed read takes as they are. */
  lemma PlainIntIff(data: seq<Byte>, off: nat, i: int, o: nat)
    requires off < |data| && (data[off] < 0x80 || 0xcc <= data[off] <= 0xce || data[off] >= 0xe0)
    ensures UnpackInt(data, off) == Ok(i, o) <==> off <= o <= |data| && IntFormat(data[off..o], i)
  {
    SmallReads(data, off + 1);
    SingleIff(data, off, o);
    if i >= 0 {
      FormattedIff(data, off, 0xcc, 1, ReadByte(data, off + 1), i, o);
      FormattedIff(data, off, 0xcd, 2, ReadU16(data, off + 1), i, o);
      FormattedIff(data, off, 0xce, 4, ReadU32(data, off + 1), i, o);
    }
  }

  lemma ComplementIntIff(data: seq<Byte>, off: nat, i: int, o: nat)
    requires off < |data| && (data[off] == 0xcf || 0xd0 <= data[off] <= 0xd3)
    ensures UnpackInt(data, off) == Ok(i, o) <==> off <= o <= |data| && IntFormat(data[off..o], i)
  {
    SmallReads(data, off + 1);
    LargeRead(data, off + 1);
    SingleIff(data, off, o);
    ComplementIff(data, off, 0xcf, 8, UINT64, ReadU64(data, off + 1), i, o);
    ComplementIff(data, off, 0xd0, 1, 256, ReadByte(data, off + 1), i, o);
    ComplementIff(data, off, 0xd1, 2, P16, ReadU16(data, off + 1), i, o);
    ComplementIff(data, off, 0xd2, 4, P32, ReadU32(data, off + 1), i, o);
    ComplementIff(data, off, 0xd3, 8, UINT64, ReadU64(data, off + 1), i, o);
  }

  /** Signed integers are unpacked from exactly their formats. */
  lemma IntIff(data: seq<Byte>, off: nat, i: int, o: nat)
    requires off <= |data|
    ensures UnpackInt(data, off) == Ok(i, o) <==> off <= o <= |data| && IntFormat(data[off..o], i)
  {
    if off < |data| {
      if data[off] < 0x80 || 0xcc <= data[off] <= 0xce || data[off] >= 0xe0 {
        PlainIntIff(data, off, i, o);
      } else if data[off] == 0xcf || 0xd0 <= data[off] <= 0xd3 {
        ComplementIntIff(data, off, i, o);
      }
    }
  }

  /** Calls of one kind. */
  predicate SameKind(like: Value, v: Value) {
    && (like.Nil? <==> v.Nil?) && (like.Bool? <==> v.Bool?) && (like.Int? <==> v.Int?) && (like.Uint? <==> v.Uint?)
    && (like.Float? <==> v.Float?) && (like.Double? <==> v.Double?) && (like.Str? <==> v.Str?) && (like.Bin? <==> v.Bin?)
    && (like.ArrayHeader? <==> v.ArrayHeader?) && (like.MapHeader? <==> v.MapHeader?)
  }

  /** Bytes behind a header that announces their length. */
  lemma BehindHeader(data: seq<Byte>, off: nat, h: Read<nat>, d: seq<Byte>, o: nat, word: Width)
    requires Placed(data, off, word) && off <= h.offset <= |data| && (h.Ok? ==> h.value < P32)
    ensures (var r := Payload(data, h, word);
             r.Ok? && r.offset == o && r.value.start + r.value.length <= |data|
             && data[r.value.start..r.value.start + r.value.length] == d)
       <==> |d| <= o <= |data| && h == Ok(|d|, o - |d|) && data[o - |d|..o] == d
  {
    if h.Ok? {
      SmallSum(h.offset + h.value, word);
    }
  }

  /** Where the data of a string or binary form begins. */
  lemma SplitForm(data: seq<Byte>, off: nat, o: nat, k: nat)
    requires off <= o <= |data| && k <= o - off
    ensures var s := data[off..o]; s[..|s| - k] == data[off..o - k] && s[|s| - k..] == data[o - k..o]
  {
  }

  lemma StrForm(data: seq<Byte>, off: nat, d: seq<Byte>, o: nat)
    requires off <= o <= |data|
    ensures Format(Str(d), data[off..o])
       <==> |d| <= o - off && data[o - |d|..o] == d && StrHeaderFormat(data[off..o - |d|], |d|)
  {
    if |d| <= o - off {
      SplitForm(data, off, o, |d|);
    }
  }

  lemma StrDone(data: seq<Byte>, off: nat, d: seq<Byte>, o: nat, word: Width)
    requires Placed(data, off, word)
    ensures Unpack(Str(d), data, off, word) == Done(Str(d), o)
       <==> |d| <= o <= |data| && UnpackStrHeader(data, off) == Ok(|d|, o - |d|) && data[o - |d|..o] == d
  {
    HeaderBounds(data, off);
    BehindHeader(data, off, UnpackStrHeader(data, off), d, o, word);
  }

  lemma StrIff(data: seq<Byte>, off: nat, d: seq<Byte>, o: nat, word: Width)
    requires Placed(data, off, word)
    ensures Unpack(Str(d), data, off, word) == Done(Str(d), o) <==> off <= o <= |data| && Format(Str(d), data[off..o])
  {
    StrDone(data, off, d, o, word);
    if |d| <= o {
      StrHeaderIff(data, off, |d|, o - |d|);
    }
    if off <= o <= |data| {
      StrForm(data, off, d, o);
    }
  }

  lemma BinForm(data: seq<Byte>, off: nat, d: seq<Byte>, o: nat)
    requires off <= o <= |data|
    ensures Format(Bin(d), data[off..o])
       <==> |d| <= o - off && data[o - |d|..o] == d && BinHeaderFormat(data[off..o - |d|], |d|)
  {
    if |d| <= o - off {
      SplitForm(data, off, o, |d|);
    }
  }

  lemma BinDone(data: seq<Byte>, off: nat, d: seq<Byte>, o: nat, word: Width)
    requires Placed(data, off, word)
    ensures Unpack(Bin(d), data, off, word) == Done(Bin(d), o)
       <==> |d| <= o <= |data| && UnpackBinHeader(data, off) == Ok(|d|, o - |d|) && data[o - |d|..o] == d
  {
    HeaderBounds(data, off);
    BehindHeader(data, off, UnpackBinHeader(data, off), d, o, word);
  }

  lemma BinIff(data: seq<Byte>, off: nat, d: seq<Byte>, o: nat, word: Width)
    requires Placed(data, off, word)
    ensures Unpack(Bin(d), data, off, word) == Done(Bin(d), o) <==> off <= o <= |data| && Format(Bin(d), data[off..o])
  {
    BinDone(data, off, d, o, word);
    if |d| <= o {
      BinHeaderIff(data, off, |d|, o - |d|);
    }
    if off <= o <= |data| {
      BinForm(data, off, d, o);
    }
  }

  lemma OneByteIff(data: seq<Byte>, off: nat, v: Value, o: nat, word: Width)
    requires Placed(data, off, word) && (v.Nil? || v.Bool?)
    ensures Unpack(v, data, off, word) == Done(v, o) <==> off <= o <= |data| && Format(v, data[off..o])
  {
    if off < |data| {
      SingleIff(data, off, o);
    }
  }

  /** On any bytes and for any width of size_t, an unpack call yields a value and moves to an offset exactly if the
      bytes up to there are a form of that value in the standard. */
  lemma UnpacksFormats(v: Value, data: seq<Byte>, off: nat, o: nat, word: Width)
    requires Placed(data, off, word)
    ensures Unpack(v, data, off, word) == Done(v, o) <==> off <= o <= |data| && Format(v, data[off..o])
  {
    match v
    case Nil => OneByteIff(data, off, v, o, word);
    case Bool(_) => OneByteIff(data, off, v, o, word);
    case Int(i) => IntIff(data, off, i, o);
    case Uint(u) => UintIff(data, off, u, o);
    case Float(bits) => BitsIff(data, off, bits, o);
    case Double(bits) => BitsIff(data, off, bits, o);
    case Str(d) => StrIff(data, off, d, o, word);
    case Bin(d) => BinIff(data, off, d, o, word);
    case ArrayHeader(n) => ArrayIff(data, off, n, o);
    case MapHeader(n) => MapIff(data, off, n, o);
  }

  /** The kind of the call is all that matters of `like`, and the value is of that kind. */
  lemma KindMatters(like: Value, v: Value, data: seq<Byte>, off: nat, word: Width)
    ensures SameKind(like, v) ==> Unpack(like, data, off, word) == Unpack(v, data, off, word)
    ensures Unpack(like, data, off, word).Done? ==> SameKind(like, Unpack(like, data, off, word).value)
  {
  }

  /** What is packed is a form of the value in the standard. */
  lemma PacksFormats(v: Value)
    requires Valid(v)
    ensures Format(v, Pack(v))
  {
    var s := Pack(v);
    var word: Width := |s| + P32;
    assert s[0..|s|] == s;
    RoundTrip(s, 0, v, word);
    UnpacksFormats(v, s, 0, |s|, word);
  }

  /** How many numbers k bytes can make up. */
  function Values(k: nat): nat { if k == 0 then 1 else 256 * Values(k - 1) }

  lemma ValuesOf()
    ensures Values(1) == 256 && Values(2) == P16 && Values(4) == P32 && Values(8) == UINT64
  {
    assert Values(3) == 256 * P16;
    assert Values(5) == 256 * P32;
    assert Values(6) == 256 * Values(5) && Values(7) == 256 * Values(6);
  }

  lemma {:induction false} BigEndianBelow(s: seq<Byte>)
    ensures BigEndian(s) < Values(|s|)
  {
    if s != [] {
      BigEndianBelow(s[..|s| - 1]);
    }
  }

  lemma FormattedBelow(s: seq<Byte>, k: nat)
    requires |s| == k + 1
    ensures BigEndian(s[1..]) < Values(k)
  {
    BigEndianBelow(s[1..]);
  }

  lemma AllBelow(s: seq<Byte>)
    ensures |s| == 2 ==> BigEndian(s[1..]) < 256
    ensures |s| == 3 ==> BigEndian(s[1..]) < P16
    ensures |s| == 5 ==> BigEndian(s[1..]) < P32
    ensures |s| == 9 ==> BigEndian(s[1..]) < UINT64
  {
    ValuesOf();
    if |s| > 0 {
      FormattedBelow(s, |s| - 1);
    }
  }

  lemma ShortestIntForm(s: seq<Byte>, i: int)
    requires IntFormat(s, i)
    ensures -P63 <= i < P63 && |PackInt(i)| <= |s|
  {
    AllBelow(s);
    PackedWithin(i, |s|);
  }

  lemma ShortestStrForm(s: seq<Byte>, n: int)
    requires StrHeaderFormat(s, n)
    ensures 0 <= n < P32 && |StrHeader(n)| <= |s|
  {
    AllBelow(s);
  }

  lemma ShortestBinForm(s: seq<Byte>, n: int)
    requires BinHeaderFormat(s, n)
    ensures 0 <= n < P32 && |BinHeader(n)| <= |s|
  {
    AllBelow(s);
  }

  /** No form of a value in the standard is shorter than the packed one. */
  lemma Shortest(v: Value, s: seq<Byte>)
    requires Format(v, s)
    ensures Valid(v) && |Pack(v)| <= |s|
  {
    match v
    case Nil =>
    case Bool(_) =>
    case Int(i) => ShortestIntForm(s, i);
    case Uint(u) => AllBelow(s); PackedSizes(u);
    case Float(bits) => AllBelow(s);
    case Double(bits) => AllBelow(s);
    case Str(d) => ShortestStrForm(s[..|s| - |d|], |d|);
    case Bin(d) => ShortestBinForm(s[..|s| - |d|], |d|);
    case ArrayHeader(n) => AllBelow(s);
    case MapHeader(n) => AllBelow(s);
  }

  /** Where a failed read leaves the offset: a number of eight bytes may lose its first half. */
  lemma FailedReads(data: seq<Byte>, off: nat)
    requires off <= |data|
    ensures ReadByte(data, off).Fail? ==> ReadByte(data, off).offset == off
    ensures ReadU16(data, off).Fail? ==> ReadU16(data, off).offset == off
    ensures ReadU32(data, off).Fail? ==> ReadU32(data, off).offset == off
    ensures ReadU64(data, off).Fail? ==> ReadU64(data, off).offset == if off + 4 <= |data| then off + 4 else off
  {
  }

  /** A refused call has consumed nothing exactly if no byte was left. */
  lemma RefusedConsumes(like: Value, data: seq<Byte>, off: nat, word: Width)
    requires Placed(data, off, word) && Unpack(like, data, off, word).Refused?
    ensures Unpack(like, data, off, word).offset == off <==> off == |data|
  {
  }

  lemma Associative(a: seq<Byte>, b: seq<Byte>, c: seq<Byte>)
    ensures (a + b) + c == a + (b + c)
  {
  }

  // -------------------------------------------------------------- the classes

  class Packer {
    var buffer: seq<Byte>

    constructor ()
      ensures buffer == []
    {
      buffer := [];
    }

    method WriteByte(b: Byte)
      modifies this
      ensures buffer == old(buffer) + [b]
    {
      buffer := buffer + [b];
    }

    method WriteBytes(data: seq<Byte>)
      modifies this
      ensures buffer == old(buffer) + data
    {
      buffer := buffer + data;
    }

    /** A tag byte, then a number in 1, 2, 4 or 8 bytes. */
    method WriteTagged(tag: Byte, width: nat, v: nat)
      requires width == 1 || width == 2 || width == 4 || width == 8
      modifies this
      ensures buffer == old(buffer) + ([tag] + (if width == 1 then U8(v) else if width == 2 then U16(v) else if width == 4 then U32(v) else U64(v)))
    {
      WriteByte(tag);
      WriteBytes(if width == 1 then U8(v) else if width == 2 then U16(v) else if width == 4 then U32(v) else U64(v));
    }

    method PackUnsigned(u: nat)
      requires u < UINT64
      modifies this
      ensures buffer == old(buffer) + Pack(Uint(u))
    {
      if u <= 0x7f {
        WriteByte(u);
      } else if u <= 0xff {
        WriteTagged(0xcc, 1, u);
      } else if u <= 0xffff {
        WriteTagged(0xcd, 2, u);
      } else if u <= 0xffff_ffff {
        WriteTagged(0xce, 4, u);
      } else {
        WriteTagged(0xcf, 8, u);
      }
    }

    method PackSigned(i: int)
      requires -P63 <= i < P63
      modifies this
      ensures buffer == old(buffer) + Pack(Int(i))
    {
      if i >= 0 {
        PackUnsigned(i);
        return;
      }
      if i >= -32 {
        WriteByte(Pattern(i, 256));
      } else if i >= -128 {
        WriteTagged(0xd0, 1, Pattern(i, 256));
      } else if i >= -0x8000 {
        WriteTagged(0xd1, 2, Pattern(i, P16));
      } else if i >= -P31 {
        WriteTagged(0xd2, 4, Pattern(i, P32));
      } else {
        WriteTagged(0xd3, 8, Pattern(i, UINT64));
      }
    }

    method WriteStrHeader(length: nat)
      requires length < P32
      modifies this
      ensures buffer == old(buffer) + StrHeader(length)
    {
      if length <= 31 {
        WriteByte(0xa0 + length);
      } else if length <= 0xff {
        WriteTagged(0xd9, 1, length);
      } else if length <= 0xffff {
        WriteTagged(0xda, 2, length);
      } else {
        WriteTagged(0xdb, 4, length);
      }
    }

    method PackStr(data: seq<Byte>)
      requires |data| < P32
      modifies this
      ensures buffer == old(buffer) + Pack(Str(data))
    {
      WriteStrHeader(|data|);
      WriteBytes(data);
      Associative(old(buffer), StrHeader(|data|), data);
    }

    method WriteBinHeader(length: nat)
      requires length < P32
      modifies this
      ensures buffer == old(buffer) + BinHeader(length)
    {
      if length <= 0xff {
        WriteTagged(0xc4, 1, length);
      } else if length <= 0xffff {
        WriteTagged(0xc5, 2, length);
      } else {
        WriteTagged(0xc6, 4, length);
      }
    }

    method PackBin(data: seq<Byte>)
      requires |data| < P32
      modifies this
      ensures buffer == old(buffer) + Pack(Bin(data))
    {
      WriteBinHeader(|data|);
      WriteBytes(data);
      Associative(old(buffer), BinHeader(|data|), data);
    }

    method PackArrayHeader(size: nat)
      requires size < P32
      modifies this
      ensures buffer == old(buffer) + Pack(ArrayHeader(size))
    {
      if size <= 15 {
        WriteByte(0x90 + size);
      } else if size <= 0xffff {
        WriteTagged(0xdc, 2, size);
      } else {
        WriteTagged(0xdd, 4, size);
      }
    }

    method PackMapHeader(size: nat)
      requires size < P32
      modifies this
      ensures buffer == old(buffer) + Pack(MapHeader(size))
    {
      if size <= 15 {
        WriteByte(0x80 + size);
      } else if size <= 0xffff {
        WriteTagged(0xde, 2, size);
      } else {
        WriteTagged(0xdf, 4, size);
      }
    }

    method PackValue(v: Value)
      requires Valid(v)
      modifies this
      ensures buffer == old(buffer) + Pack(v)
    {
      match v {
        case Nil => WriteByte(0xc0);
        case Bool(b) => WriteByte(if b then 0xc3 else 0xc2);
        case Int(i) => PackSigned(i);
        case Uint(u) => PackUnsigned(u);
        case Float(bits) => WriteTagged(0xca, 4, bits);
        case Double(bits) => WriteTagged(0xcb, 8, bits);
        case Str(data) => PackStr(data);
        case Bin(data) => PackBin(data);
        case ArrayHeader(size) => PackArrayHeader(size);
        case MapHeader(size) => PackMapHeader(size);
      }
    }
  }

  class Unpacker {
    const data: seq<Byte>
    /** The number of values of size_t. */
    const word: Width
    var offset: nat

    predicate Valid()
      reads this
    {
      Placed(data, offset, word)
    }

    constructor (data: seq<Byte>, word: Width)
      requires |data| < word - 4
      ensures this.data == data && this.word == word && offset == 0 && Valid()
    {
      this.data, this.word, offset := data, word, 0;
    }

    method NextByte() returns (ok: bool, byte: nat)
      modifies this
      ensures var r := ReadByte(data, old(offset)); ok == r.Ok? && offset == r.offset && (ok ==> byte == r.value)
    {
      if offset >= |data| {
        return false, 0;
      }
      ok, byte := true, data[offset];
      offset := offset + 1;
    }

    method NextU16() returns (ok: bool, v: nat)
      modifies this
      ensures var r := ReadU16(data, old(offset)); ok == r.Ok? && offset == r.offset && (ok ==> v == r.value)
    {
      if offset + 2 > |data| {
        return false, 0;
      }
      ok, v := true, At(data, offset) * 256 + At(data, offset + 1);
      offset := offset + 2;
    }

    method NextU32() returns (ok: bool, v: nat)
      modifies this
      ensures var r := ReadU32(data, old(offset)); ok == r.Ok? && offset == r.offset && (ok ==> v == r.value)
    {
      if offset + 4 > |data| {
        return false, 0;
      }
      ok, v := true, (At(data, offset) * 256 + At(data, offset + 1)) * P16 + At(data, offset + 2) * 256 + At(data, offset + 3);
      offset := offset + 4;
    }

    method NextU64() returns (ok: bool, v: nat)
      modifies this
      ensures var r := ReadU64(data, old(offset)); ok == r.Ok? && offset == r.offset && (ok ==> v == r.value)
    {
      var high, low;
      v := 0;
      ok, high := NextU32();
      if !ok {
        return;
      }
      ok, low := NextU32();
      if ok {
        v := high * P32 + low;
      }
    }

    method UnpackUnsigned() returns (ok: bool, v: nat)
      modifies this
      ensures var r := UnpackUint(data, old(offset)); ok == r.Ok? && offset == r.offset && (ok ==> v == r.value)
    {
      v := 0;
      var byte;
      ok, byte := NextByte();
      if !ok {
        return;
      }
      if byte < 0x80 {
        return true, byte;
      }
      match byte {
        case 0xcc => ok, v := NextByte();
        case 0xcd => ok, v := NextU16();
        case 0xce => ok, v := NextU32();
        case 0xcf => ok, v := NextU64();
        case _ => ok := false;
      }
    }

    method UnpackSigned() returns (ok: bool, v: int)
      modifies this
      ensures var r := UnpackInt(data, old(offset)); ok == r.Ok? && offset == r.offset && (ok ==> v == r.value)
    {
      v := 0;
      var byte, u;
      ok, byte := NextByte();
      if !ok {
        return;
      }
      if byte < 0x80 {
        return true, byte;
      }
      if byte >= 0xe0 {
        return true, Signed(byte, 256);
      }
      match byte {
        case 0xcc => ok, u := NextByte(); v := u;
        case 0xcd => ok, u := NextU16(); v := u;
        case 0xce => ok, u := NextU32(); v := u;
        case 0xcf => ok, u := NextU64(); v := Signed(u, UINT64);
        case 0xd0 => ok, u := NextByte(); v := Signed(u, 256);
        case 0xd1 => ok, u := NextU16(); v := Signed(u, P16);
        case 0xd2 => ok, u := NextU32(); v := Signed(u, P32);
        case 0xd3 => ok, u := NextU64(); v := Signed(u, UINT64);
        case _ => ok := false;
      }
    }

    method NextBytes(length: nat) returns (ok: bool, view: View)
      requires Valid() && length < word
      modifies this
      ensures var r := ReadBytes(data, old(offset), length, word);
              ok == r.Ok? && offset == r.offset && (ok ==> view == r.value)
      ensures Valid()
    {
      var end := (offset + length) % word;
      if end > |data| {
        return false, View(0, 0);
      }
      ok, view := true, View(offset, length);
      offset := end;
    }

    method NextStrLength() returns (ok: bool, length: nat)
      modifies this
      ensures var r := UnpackStrHeader(data, old(offset)); ok == r.Ok? && offset == r.offset && (ok ==> length == r.value)
    {
      length := 0;
      var byte;
      ok, byte := NextByte();
      if !ok {
        return;
      }
      if 0xa0 <= byte < 0xc0 {
        length := byte - 0xa0;
      } else if byte == 0xd9 {
        ok, length := NextByte();
      } else if byte == 0xda {
        ok, length := NextU16();
      } else if byte == 0xdb {
        ok, length := NextU32();
      } else {
        ok := false;
      }
    }

    method UnpackString() returns (ok: bool, view: View)
      requires Valid()
      modifies this
      ensures var r := Payload(data, UnpackStrHeader(data, old(offset)), word);
              ok == r.Ok? && offset == r.offset && (ok ==> view == r.value)
      ensures Valid()
    {
      view := View(0, 0);
      HeaderBounds(data, offset);
      var length;
      ok, length := NextStrLength();
      if ok {
        ok, view := NextBytes(length);
      }
    }

    method NextBinLength() returns (ok: bool, length: nat)
      modifies this
      ensures var r := UnpackBinHeader(data, old(offset)); ok == r.Ok? && offset == r.offset && (ok ==> length == r.value)
    {
      length := 0;
      var byte;
      ok, byte := NextByte();
      if !ok {
        return;
      }
      if byte == 0xc4 {
        ok, length := NextByte();
      } else if byte == 0xc5 {
        ok, length := NextU16();
      } else if byte == 0xc6 {
        ok, length := NextU32();
      } else {
        ok := false;
      }
    }

    method UnpackBinary() returns (ok: bool, view: View)
      requires Valid()
      modifies this
      ensures var r := Payload(data, UnpackBinHeader(data, old(offset)), word);
              ok == r.Ok? && offset == r.offset && (ok ==> view == r.value)
      ensures Valid()
    {
      view := View(0, 0);
      HeaderBounds(data, offset);
      var length;
      ok, length := NextBinLength();
      if ok {
        ok, view := NextBytes(length);
      }
    }

    method UnpackArraySize() returns (ok: bool, size: nat)
      modifies this
      ensures var r := UnpackArrayHeader(data, old(offset)); ok == r.Ok? && offset == r.offset && (ok ==> size == r.value)
    {
      size := 0;
      var byte;
      ok, byte := NextByte();
      if !ok {
        return;
      }
      if 0x90 <= byte < 0xa0 {
        size := byte - 0x90;
      } else if byte == 0xdc {
        ok, size := NextU16();
      } else if byte == 0xdd {
        ok, size := NextU32();
      } else {
        ok := false;
      }
    }

    method UnpackMapSize() returns (ok: bool, size: nat)
      modifies this
      ensures var r := UnpackMapHeader(data, old(offset)); ok == r.Ok? && offset == r.offset && (ok ==> size == r.value)
    {
      size := 0;
      var byte;
      ok, byte := NextByte();
      if !ok {
        return;
      }
      if 0x80 <= byte < 0x90 {
        size := byte - 0x80;
      } else if byte == 0xde {
        ok, size := NextU16();
      } else if byte == 0xdf {
        ok, size := NextU32();
      } else {
        ok := false;
      }
    }

    /** unpack_float (tag 0xca, 4 bytes) and unpack_double (tag 0xcb, 8 bytes), as bit patterns. */
    method UnpackBits(tag: Byte, wide: bool) returns (ok: bool, bits: nat)
      modifies this
      ensures var r := Tagged(data, old(offset), tag, wide); ok == r.Ok? && offset == r.offset && (ok ==> bits == r.value)
    {
      bits := 0;
      var byte;
      ok, byte := NextByte();
      if !ok || byte != tag {
        return false, 0;
      }
      if wide {
        ok, bits := NextU64();
      } else {
        ok, bits := NextU32();
      }
    }

    /** The unpack call of one kind: whatever the bytes, the outcome is the one `Unpack` describes. */
    method UnpackValue(like: Value) returns (r: Unpacked<Value>)
      requires Valid()
      modifies this
      ensures r == Unpack(like, data, old(offset), word) && offset == r.offset
      ensures Valid()
    {
      OffsetInBounds(like, data, offset, word);
      var ok: bool, n: nat, i: int, view: View;
      match like {
        case Nil =>
          ok, n := NextByte();
          r := if ok && n == 0xc0 then Done(Nil, offset) else Refused(offset);
        case Bool(_) =>
          ok, n := NextByte();
          r := if ok && (n == 0xc2 || n == 0xc3) then Done(Bool(n == 0xc3), offset) else Refused(offset);
        case Int(_) => ok, i := UnpackSigned(); r := Answer(ok, Int(i));
        case Uint(_) => ok, n := UnpackUnsigned(); r := Answer(ok, Uint(n));
        case Float(_) => ok, n := UnpackBits(0xca, false); r := Answer(ok, Float(n));
        case Double(_) => ok, n := UnpackBits(0xcb, true); r := Answer(ok, Double(n));
        case Str(_) => ok, view := UnpackString(); r := OfView(data, if ok then Ok(view, offset) else Fail(offset), v => Str(v));
        case Bin(_) => ok, view := UnpackBinary(); r := OfView(data, if ok then Ok(view, offset) else Fail(offset), v => Bin(v));
        case ArrayHeader(_) => ok, n := UnpackArraySize(); r := Answer(ok, ArrayHeader(n));
        case MapHeader(_) => ok, n := UnpackMapSize(); r := Answer(ok, MapHeader(n));
      }
    }

    function Answer(ok: bool, v: Value): Unpacked<Value>
      reads this
    {
      if ok then Done(v, offset) else Refused(offset)
    }
  }
}
