/**
 Identities of a SUPL session and the swapped-nibble decimal codec that carries an MSISDN or
 IMSI as octets (SETId in section 11 of OMA-TS-ULP-V2_0).
 */
module SuplIdentity {
  import opened Basics

  const FILLER := 0xF

  // ---------------------------------------------------------- decimal digits

  function Pow10(n: nat): (r: nat)
    ensures r >= 1
  {
    if n == 0 then 1 else 10 * Pow10(n - 1)
  }

  function DigitCount(v: nat): (r: nat)
    ensures r <= v
  {
    if v == 0 then 0 else 1 + DigitCount(v / 10)
  }

  /** v without its last n decimal digits. */
  function Shift(v: nat, n: nat): nat
    decreases n
  {
    if n == 0 then v else Shift(v / 10, n - 1)
  }

  lemma {:induction false} ShiftStep(v: nat, n: nat)
    ensures Shift(v, n + 1) == Shift(v, n) / 10
    decreases n
  {
    if n > 0 {
      ShiftStep(v / 10, n - 1);
    }
  }

  lemma {:induction false} ShiftCount(v: nat, n: nat)
    requires n <= DigitCount(v)
    ensures DigitCount(Shift(v, n)) == DigitCount(v) - n
    ensures Shift(v, n) <= v
    decreases n
  {
    if n > 0 {
      ShiftCount(v / 10, n - 1);
    }
  }

  /** v has at most n digits exactly when it is below 10^n. */
  lemma {:induction false} CountBound(v: nat, n: nat)
    ensures DigitCount(v) <= n <==> v < Pow10(n)
    decreases n
  {
    if n > 0 && v > 0 {
      CountBound(v / 10, n - 1);
    }
  }

  // ----------------------------------------------------------------- nibbles

  /** The p-th nibble in reading order: the low half of each octet comes first. */
  function Nibble(octets: seq<Byte>, p: nat): int
    requires p < 2 * |octets|
  {
    if p % 2 == 0 then octets[p / 2] % 16 else octets[p / 2] / 16
  }

  /** Place p of v's digits, most significant first, when the last n digits are present. */
  function Place(v: nat, n: nat, p: nat): int {
    var count := DigitCount(v);
    if count - n <= p < count then Shift(v, count - 1 - p) % 10 else FILLER
  }

  /** The last n digits of v at their places and fillers everywhere else. */
  ghost predicate HasDigits(octets: seq<Byte>, v: nat, n: nat) {
    forall p :: 0 <= p < 2 * |octets| ==> Nibble(octets, p) == Place(v, n, p)
  }

  /** All digits of v, most significant first, then fillers; only fillers when v does not fit. */
  ghost predicate Encodes(octets: seq<Byte>, v: nat) {
    HasDigits(octets, v, if DigitCount(v) <= 2 * |octets| then DigitCount(v) else 0)
  }

  /** The number read from the first p nibbles, fillers skipped, in 64-bit arithmetic. */
  function Decoded(octets: seq<Byte>, p: nat): nat
    requires p <= 2 * |octets|
  {
    if p == 0 then 0
    else
      var before := Decoded(octets, p - 1);
      var nibble := Nibble(octets, p - 1);
      if nibble == FILLER then before else (10 * before + nibble) % UINT64
  }

  /** Appending the next digit to the digits so far, in 64-bit arithmetic. */
  lemma DigitStep(v: nat, n: nat)
    requires v < UINT64 && n < DigitCount(v)
    ensures var digit := Shift(v, n) % 10;
            0 <= digit < 10 && (10 * Shift(v, n + 1) + digit) % UINT64 == Shift(v, n)
  {
    ShiftStep(v, n);
    ShiftCount(v, n);
  }

  lemma DecodedStep(octets: seq<Byte>, p: nat)
    requires 0 < p <= 2 * |octets| && Nibble(octets, p - 1) != FILLER
    ensures Decoded(octets, p) == (10 * Decoded(octets, p - 1) + Nibble(octets, p - 1)) % UINT64
  {
  }

  /** The first p nibbles decode to the first p digits of v. */
  lemma {:induction false} DecodedDigits(octets: seq<Byte>, v: nat, p: nat)
    requires v < UINT64 && Encodes(octets, v) && p <= DigitCount(v) <= 2 * |octets|
    ensures Decoded(octets, p) == Shift(v, DigitCount(v) - p)
  {
    var count := DigitCount(v);
    if p == 0 {
      ShiftCount(v, count);
    } else {
      DecodedDigits(octets, v, p - 1);
      assert Nibble(octets, p - 1) == Place(v, count, p - 1);
      DigitStep(v, count - p);
      DecodedStep(octets, p);
    }
  }

  /** The fillers behind the digits change nothing. */
  lemma {:induction false} DecodedPrefix(octets: seq<Byte>, v: nat, p: nat)
    requires v < UINT64 && Encodes(octets, v) && DigitCount(v) <= p <= 2 * |octets|
    ensures Decoded(octets, p) == v
  {
    if p == DigitCount(v) {
      DecodedDigits(octets, v, p);
    } else {
      DecodedPrefix(octets, v, p - 1);
      assert Nibble(octets, p - 1) == Place(v, DigitCount(v), p - 1);
    }
  }

  lemma {:induction false} FillersDecodeToZero(octets: seq<Byte>, p: nat)
    requires p <= 2 * |octets|
    requires forall q :: 0 <= q < p ==> Nibble(octets, q) == FILLER
    ensures Decoded(octets, p) == 0
  {
    if p > 0 {
      FillersDecodeToZero(octets, p - 1);
    }
  }

  /** For every width the round trip gives the number back exactly when it has at most 2N digits. */
  lemma RoundTrip(octets: seq<Byte>, v: nat)
    requires v < UINT64 && Encodes(octets, v)
    ensures Decoded(octets, 2 * |octets|) == v <==> v < Pow10(2 * |octets|)
  {
    CountBound(v, 2 * |octets|);
    if DigitCount(v) <= 2 * |octets| {
      DecodedPrefix(octets, v, 2 * |octets|);
    } else {
      FillersDecodeToZero(octets, 2 * |octets|);
    }
  }

  // ------------------------------------------------------------- the methods

  /** Writing one nibble: `&= 0xF0, |= value` for the low half, `&= 0x0F, |= value << 4` for the high. */
  function WithNibble(o: Byte, low: bool, value: int): Byte
    requires 0 <= value < 16
  {
    if low then o / 16 * 16 + value else value * 16 + o % 16
  }

  lemma WriteNibble(octets: seq<Byte>, at: nat, value: int, p: nat)
    requires at < 2 * |octets| && 0 <= value < 16 && p < 2 * |octets|
    ensures var written := octets[at / 2 := WithNibble(octets[at / 2], at % 2 == 0, value)];
            Nibble(written, p) == if p == at then value else Nibble(octets, p)
  {
  }

  lemma WriteDigit(octets: seq<Byte>, v: nat, n: nat)
    requires HasDigits(octets, v, n) && n < DigitCount(v) <= 2 * |octets|
    ensures var at := DigitCount(v) - 1 - n;
            HasDigits(octets[at / 2 := WithNibble(octets[at / 2], at % 2 == 0, Shift(v, n) % 10)], v, n + 1)
  {
    var at := DigitCount(v) - 1 - n;
    var written := octets[at / 2 := WithNibble(octets[at / 2], at % 2 == 0, Shift(v, n) % 10)];
    forall p | 0 <= p < 2 * |octets| ensures Nibble(written, p) == Place(v, n + 1, p) {
      WriteNibble(octets, at, Shift(v, n) % 10, p);
      assert Nibble(octets, p) == Place(v, n, p);
    }
  }

  /** The encoder counts nibbles from the end of the buffer, the decoder from its start. */
  lemma NibbleAddress(maxLength: nat, at: nat)
    requires at < 2 * maxLength
    ensures var index := 2 * maxLength - 1 - at;
            maxLength - 1 - index / 2 == at / 2 && (index % 2 == 1 <==> at % 2 == 0)
  {
  }

  /** Writes one nibble, addressed from the end of the buffer. */
  method PutNibble(octets: array<Byte>, index: nat, value: int)
    requires index < 2 * octets.Length && 0 <= value < 16
    modifies octets
    ensures var at := 2 * octets.Length - 1 - index;
            octets[..] == old(octets[..])[at / 2 := WithNibble(old(octets[at / 2]), at % 2 == 0, value)]
  {
    NibbleAddress(octets.Length, 2 * octets.Length - 1 - index);
    var byteIndex := octets.Length - 1 - index / 2;
    octets[byteIndex] := WithNibble(octets[byteIndex], index % 2 == 1, value);
  }

  /** Writes the next digit in front of the ones that are there. */
  method PutDigit(octets: array<Byte>, index: nat, value: int, ghost from: nat, ghost written: nat)
    requires HasDigits(octets[..], from, written) && written < DigitCount(from) <= 2 * octets.Length
    requires index == 2 * octets.Length - DigitCount(from) + written && value == Shift(from, written) % 10
    modifies octets
    ensures HasDigits(octets[..], from, written + 1)
  {
    WriteDigit(octets[..], from, written);
    assert 2 * octets.Length - 1 - index == DigitCount(from) - 1 - written;
    PutNibble(octets, index, value);
  }

  lemma AtMostTwentyDigits(v: nat)
    requires v < UINT64
    ensures DigitCount(v) <= 20
  {
    assert Pow10(5) == 100000;
    assert Pow10(10) == 100000 * Pow10(5);
    assert Pow10(15) == 100000 * Pow10(10);
    assert Pow10(20) == 100000 * Pow10(15);
    CountBound(v, 20);
  }

  method CountDigits(from: nat) returns (length: nat)
    ensures length == DigitCount(from)
  {
    length := 0;
    var data := from;
    while data > 0
      invariant length + DigitCount(data) == DigitCount(from)
    {
      data := data / 10;
      length := length + 1;
    }
  }

  lemma Blank(octets: seq<Byte>, v: nat)
    requires forall i :: 0 <= i < |octets| ==> octets[i] == 0xFF
    ensures HasDigits(octets, v, 0)
  {
  }

  method BinaryEncodedOctet(maxLength: nat, from: nat, word: Width) returns (octets: array<Byte>)
    requires from < UINT64
    ensures fresh(octets) && octets.Length == maxLength
    ensures Encodes(octets[..], from)
  {
    octets := new Byte[maxLength](_ => 0xFF);
    var length := CountDigits(from);
    AtMostTwentyDigits(from);
    // size_t arithmetic: a number with too many digits wraps to an offset beyond the buffer.
    var offset := if length <= 2 * maxLength then 2 * maxLength - length else 2 * maxLength - length + word;
    var index := offset;
    var data := from;
    ghost var written: nat := 0;
    Blank(octets[..], from);
    while data > 0 && index < 2 * maxLength
      invariant index == offset + written && written <= length
      invariant length > 2 * maxLength ==> written == 0
      invariant data == Shift(from, written) && DigitCount(data) == length - written
      invariant HasDigits(octets[..], from, written)
    {
      var value := data % 10;
      data := data / 10;
      ShiftStep(from, written);
      PutDigit(octets, index, value, from, written);
      index := index + 1;
      written := written + 1;
    }
  }

  method DecodeNumber(octets: seq<Byte>) returns (v: nat)
    ensures v == Decoded(octets, 2 * |octets|)
  {
    v := 0;
    for i := 0 to |octets|
      invariant v == Decoded(octets, 2 * i)
    {
      var first, second := octets[i] % 16, octets[i] / 16;
      assert Nibble(octets, 2 * i) == first && Nibble(octets, 2 * i + 1) == second;
      if first != FILLER {
        v := (10 * v + first) % UINT64;
      }
      assert v == Decoded(octets, 2 * i + 1);
      if second != FILLER {
        v := (10 * v + second) % UINT64;
      }
    }
  }

  // -------------------------------------------------------------- identities

  datatype Identity =
    | Unknown
    | Msisdn(msisdn: nat)
    | Imsi(imsi: nat)
    | Ipv4(ipv4: seq<Byte>)
    | Ipv6(ipv6: seq<Byte>)
    | Fqdn(fqdn: string)

  /** `operator==` on identities, as written: an address is compared with itself. */
  predicate SameIdentity(a: Identity, b: Identity) {
    match a
    case Unknown => false
    case Msisdn(n) => b.Msisdn? && n == b.msisdn
    case Imsi(n) => b.Imsi? && n == b.imsi
    case Ipv4(address) => b.Ipv4? && address == address
    case Ipv6(address) => b.Ipv6? && address == address
    case Fqdn(name) => b.Fqdn? && name == b.fqdn
  }

  /** Exactly where the operator departs from equality: no unknown equals itself, and two addresses
      of one family are always the same. */
  lemma SameIdentityIsEquality(a: Identity, b: Identity)
    ensures SameIdentity(a, b) <==>
      || (a == b && !a.Unknown?)
      || (a.Ipv4? && b.Ipv4?)
      || (a.Ipv6? && b.Ipv6?)
  {
  }

  /** The SET identity as it travels. */
  datatype SetId = MsisdnId(octets: seq<Byte>) | ImsiId(octets: seq<Byte>) | Ipv4Id(octets: seq<Byte>) | Ipv6Id(octets: seq<Byte>) | OtherId

  ghost predicate EncodesIdentity(id: SetId, identity: Identity) {
    match identity
    case Msisdn(n) => id.MsisdnId? && |id.octets| == 8 && Encodes(id.octets, n)
    case Imsi(n) => id.ImsiId? && |id.octets| == 8 && Encodes(id.octets, n)
    case Ipv4(address) => id == Ipv4Id(address)
    case Ipv6(address) => id == Ipv6Id(address)
    case Unknown => false
    case Fqdn(_) => false
  }

  function DecodedIdentity(id: SetId): Identity {
    match id
    case MsisdnId(octets) => Msisdn(Decoded(octets, 2 * |octets|))
    case ImsiId(octets) => Imsi(Decoded(octets, 2 * |octets|))
    case Ipv4Id(octets) => Ipv4(octets)
    case Ipv6Id(octets) => Ipv6(octets)
    case OtherId => Unknown
  }

  method EncodeSetId(identity: Identity, word: Width) returns (id: SetId)
    requires !identity.Unknown? && !identity.Fqdn?
    requires identity.Msisdn? ==> identity.msisdn < UINT64
    requires identity.Imsi? ==> identity.imsi < UINT64
    ensures EncodesIdentity(id, identity)
  {
    match identity {
      case Msisdn(n) =>
        var octets := BinaryEncodedOctet(8, n, word);
        id := MsisdnId(octets[..]);
      case Imsi(n) =>
        var octets := BinaryEncodedOctet(8, n, word);
        id := ImsiId(octets[..]);
      case Ipv4(address) => id := Ipv4Id(address);
      case Ipv6(address) => id := Ipv6Id(address);
    }
  }

  method DecodeIdentity(id: SetId) returns (identity: Identity)
    ensures identity == DecodedIdentity(id)
  {
    match id {
      case MsisdnId(octets) =>
        var n := DecodeNumber(octets);
        identity := Msisdn(n);
      case ImsiId(octets) =>
        var n := DecodeNumber(octets);
        identity := Imsi(n);
      case Ipv4Id(octets) => identity := Ipv4(octets);
      case Ipv6Id(octets) => identity := Ipv6(octets);
      case OtherId => identity := Unknown;
    }
  }

  // ------------------------------------------------------------ on the wire

  lemma HalvesOf(octets: seq<Byte>, i: nat)
    requires i < |octets|
    ensures Nibble(octets, 2 * i) == octets[i] % 16 && Nibble(octets, 2 * i + 1) == octets[i] / 16
  {
  }

  /** The octets of a number that fits: each holds two digits, the earlier one in its low half. */
  lemma WireFormat(octets: seq<Byte>, v: nat, i: nat)
    requires Encodes(octets, v) && DigitCount(v) <= 2 * |octets| && i < |octets|
    ensures octets[i] % 16 == if 2 * i < DigitCount(v) then Shift(v, DigitCount(v) - 1 - 2 * i) % 10 else 0xF
    ensures octets[i] / 16 == if 2 * i + 1 < DigitCount(v) then Shift(v, DigitCount(v) - 2 - 2 * i) % 10 else 0xF
  {
    HalvesOf(octets, i);
    DigitAt(octets, v, 2 * i);
    DigitAt(octets, v, 2 * i + 1);
  }

  lemma DigitAt(octets: seq<Byte>, v: nat, p: nat)
    requires Encodes(octets, v) && DigitCount(v) <= 2 * |octets| && p < 2 * |octets|
    ensures Nibble(octets, p) == if p < DigitCount(v) then Shift(v, DigitCount(v) - 1 - p) % 10 else 0xF
  {
    assert Nibble(octets, p) == Place(v, DigitCount(v), p);
  }

  lemma ExampleDigits()
    ensures DigitCount(12345) == 5
    ensures Shift(12345, 0) % 10 == 5 && Shift(12345, 1) % 10 == 4 && Shift(12345, 2) % 10 == 3
    ensures Shift(12345, 3) % 10 == 2 && Shift(12345, 4) % 10 == 1
  {
  }

  lemma TwoHalves(o: Byte, low: int, high: int)
    requires o % 16 == low && o / 16 == high
    ensures o == 16 * high + low
  {
  }

  lemma WireExample(octets: seq<Byte>, v: nat)
    requires |octets| == 3 && v == 12345 && Encodes(octets, v)
    ensures octets == [0x21, 0x43, 0xF5]
  {
    ExampleDigits();
    WireFormat(octets, v, 0);
    TwoHalves(octets[0], 1, 2);
    WireFormat(octets, v, 1);
    TwoHalves(octets[1], 3, 4);
    WireFormat(octets, v, 2);
    TwoHalves(octets[2], 5, 0xF);
  }

  /** The halves of the octets, low before high, without fillers. */
  function Halves(octets: seq<Byte>): seq<int> {
    if octets == [] then []
    else
      var last := octets[|octets| - 1];
      With(With(Halves(octets[..|octets| - 1]), last % 16), last / 16)
  }

  function With(places: seq<int>, half: int): seq<int> { if half == 0xF then places else places + [half] }

  /** The number that decimal places make up, whatever they are. */
  function Number(places: seq<int>): int {
    if places == [] then 0 else 10 * Number(places[..|places| - 1]) + places[|places| - 1]
  }

  lemma NumberSnoc(places: seq<int>, d: int)
    ensures Number(places + [d]) == 10 * Number(places) + d
  {
    assert (places + [d])[..|places|] == places;
  }

  lemma ModuloStep(x: int, d: int)
    ensures (10 * (x % UINT64) + d) % UINT64 == (10 * x + d) % UINT64
  {
    var q, r := x / UINT64, x % UINT64;
    assert 10 * x + d == 10 * r + d + UINT64 * (10 * q);
    ModuloMultiple(10 * r + d, 10 * q);
  }

  lemma ModuloMultiple(y: int, k: int)
    ensures (y + UINT64 * k) % UINT64 == y % UINT64
  {
  }

  lemma {:induction false} DecodedFront(octets: seq<Byte>, p: nat)
    requires octets != [] && p <= 2 * (|octets| - 1)
    ensures Decoded(octets, p) == Decoded(octets[..|octets| - 1], p)
  {
    if p > 0 {
      DecodedFront(octets, p - 1);
    }
  }

  lemma DecodedHalf(octets: seq<Byte>, p: nat, places: seq<int>, half: int)
    requires p < 2 * |octets| && Nibble(octets, p) == half && Decoded(octets, p) == Number(places) % UINT64
    ensures Decoded(octets, p + 1) == Number(With(places, half)) % UINT64
  {
    if half != 0xF {
      NumberSnoc(places, half);
      ModuloStep(Number(places), half);
    }
  }

  /** Two halves on from the octets before. */
  lemma DecodedLast(octets: seq<Byte>, n: nat, places: seq<int>)
    requires |octets| == n + 1 && Decoded(octets, 2 * n) == Number(places) % UINT64
    ensures Decoded(octets, 2 * n + 2) == Number(With(With(places, octets[n] % 16), octets[n] / 16)) % UINT64
  {
    HalvesOf(octets, n);
    var some := With(places, octets[n] % 16);
    DecodedHalf(octets, 2 * n, places, octets[n] % 16);
    DecodedHalf(octets, 2 * n + 1, some, octets[n] / 16);
  }

  /** Any octets decode to the number of their halves that are not fillers, in 64 bits. */
  lemma {:induction false} DecodedAnswer(octets: seq<Byte>)
    ensures Decoded(octets, 2 * |octets|) == Number(Halves(octets)) % UINT64
    decreases |octets|
  {
    if octets != [] {
      var n := |octets| - 1;
      DecodedAnswer(octets[..n]);
      DecodedFront(octets, 2 * n);
      DecodedLast(octets, n, Halves(octets[..n]));
    }
  }

  /** Every SETId the program cannot use is unknown, and no other. */
  lemma IdentityAnswer(id: SetId)
    ensures DecodedIdentity(id).Unknown? <==> id.OtherId?
    ensures id.MsisdnId? ==> DecodedIdentity(id) == Msisdn(Number(Halves(id.octets)) % UINT64)
    ensures id.ImsiId? ==> DecodedIdentity(id) == Imsi(Number(Halves(id.octets)) % UINT64)
    ensures id.Ipv4Id? ==> DecodedIdentity(id) == Ipv4(id.octets)
    ensures id.Ipv6Id? ==> DecodedIdentity(id) == Ipv6(id.octets)
  {
    if id.MsisdnId? || id.ImsiId? {
      DecodedAnswer(id.octets);
    }
  }

  /** A server that echoes the SET identity passes the comparison exactly when a numeric identity is
      below 10^16; addresses always pass. */
  lemma EchoPasses(identity: Identity, id: SetId)
    requires EncodesIdentity(id, identity)
    requires identity.Msisdn? ==> identity.msisdn < UINT64
    requires identity.Imsi? ==> identity.imsi < UINT64
    ensures SameIdentity(DecodedIdentity(id), identity) <==>
      && (identity.Msisdn? ==> identity.msisdn < Pow10(16))
      && (identity.Imsi? ==> identity.imsi < Pow10(16))
  {
    if identity.Msisdn? {
      RoundTrip(id.octets, identity.msisdn);
    } else if identity.Imsi? {
      RoundTrip(id.octets, identity.imsi);
    }
  }
}
