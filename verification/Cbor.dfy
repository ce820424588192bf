/** The part of CBOR that an announcement uses: byte strings, arrays and tags (section 3 of RFC 8949),
    with shortest heads (section 4.2.1 there). */
module Cbor {
  import opened Wrappers

  type Byte = x: int | 0 <= x < 256

  datatype Item = Bytes(content: seq<Byte>) | Array(items: seq<Item>) | Tag(number: nat, tagged: Item)

  const BYTES: nat := 2
  const ARRAY: nat := 4
  const TAG: nat := 6

  const LIMIT: nat := 0x1_0000_0000_0000_0000

  /* ----- Big-endian arguments ----- */

  function Power256(k: nat): nat {
    if k == 0 then 1 else 256 * Power256(k - 1)
  }

  function BigEndian(n: nat, k: nat): (s: seq<Byte>)
    ensures |s| == k
  {
    if k == 0 then [] else BigEndian(n / 256, k - 1) + [n % 256]
  }

  function Number(s: seq<Byte>): nat {
    if s == [] then 0 else 256 * Number(s[..|s| - 1]) + s[|s| - 1]
  }

  lemma {:induction false} NumberOfBigEndian(n: nat, k: nat)
    requires n < Power256(k)
    ensures Number(BigEndian(n, k)) == n
  {
    if k > 0 {
      NumberOfBigEndian(n / 256, k - 1);
      assert BigEndian(n, k)[..k - 1] == BigEndian(n / 256, k - 1);
    }
  }

  lemma {:induction false} BigEndianOfNumber(s: seq<Byte>)
    ensures Number(s) < Power256(|s|) && BigEndian(Number(s), |s|) == s
  {
    if s != [] {
      var k := |s| - 1;
      BigEndianOfNumber(s[..k]);
      assert Number(s) / 256 == Number(s[..k]) && Number(s) % 256 == s[k];
      assert s == s[..k] + [s[k]];
    }
  }

  lemma Powers()
    ensures Power256(0) == 1 && Power256(1) == 0x100 && Power256(2) == 0x1_0000
    ensures Power256(4) == 0x1_0000_0000 && Power256(8) == LIMIT
  {
    assert Power256(3) == 256 * Power256(2) && Power256(4) == 256 * Power256(3);
    assert Power256(5) == 256 * Power256(4) && Power256(6) == 256 * Power256(5);
    assert Power256(7) == 256 * Power256(6) && Power256(8) == 256 * Power256(7);
  }

  /* ----- Heads ----- */

  /** How many bytes the argument n takes behind the initial byte. */
  function Width(n: nat): nat {
    if n < 24 then 0 else if n < 0x100 then 1 else if n < 0x1_0000 then 2 else if n < 0x1_0000_0000 then 4 else 8
  }

  /** The low five bits of the initial byte that announce that width. */
  function Info(n: nat): nat {
    match Width(n)
    case 0 => n
    case 1 => 24
    case 2 => 25
    case 4 => 26
    case _ => 27
  }

  function WidthOf(info: nat): Option<nat> {
    if info < 24 then Some(0)
    else
      match info
      case 24 => Some(1)
      case 25 => Some(2)
      case 26 => Some(4)
      case 27 => Some(8)
      case _ => None
  }

  function Head(major: nat, n: nat): seq<Byte>
    requires major < 8
  {
    [32 * major + Info(n)] + BigEndian(n, Width(n))
  }

  /** A major type and its argument from the front; heads that are not the shortest are refused. */
  function DecodeHead(b: seq<Byte>): (r: Option<(nat, nat, seq<Byte>)>)
    ensures r.Some? ==> r.value.0 < 8 && |r.value.2| < |b|
  {
    if b == [] then None
    else
      var (major, info) := (b[0] / 32, b[0] % 32);
      match WidthOf(info)
      case None => None
      case Some(k) =>
        if |b| < 1 + k then None
        else
          var n := if k == 0 then info else Number(b[1..1 + k]);
          if Width(n) == k then Some((major, n, b[1 + k..])) else None
  }

  lemma HeadRoundTrip(major: nat, n: nat, rest: seq<Byte>)
    requires major < 8 && n < LIMIT
    ensures DecodeHead(Head(major, n) + rest) == Some((major, n, rest))
  {
    Powers();
    var b, k := Head(major, n) + rest, Width(n);
    assert b[0] / 32 == major && b[0] % 32 == Info(n);
    assert b[1..1 + k] == BigEndian(n, k) && b[1 + k..] == rest;
    if k > 0 {
      NumberOfBigEndian(n, k);
    }
  }

  lemma HeadExact(b: seq<Byte>)
    requires DecodeHead(b).Some?
    ensures
      var (major, n, rest) := DecodeHead(b).value;
      n < LIMIT && b == Head(major, n) + rest
  {
    Powers();
    hide BigEndian, Number, Power256;
    var (major, n, rest) := DecodeHead(b).value;
    var k := Width(n);
    BigEndianOfNumber(b[1..1 + k]);
    assert b == [b[0]] + b[1..1 + k] + b[1 + k..];
    InitialByte(b[0], n);
    if k == 0 {
      assert BigEndian(n, 0) == b[1..1];
    }
  }

  /** The initial byte is put together again from its two parts. */
  lemma InitialByte(x: Byte, n: nat)
    requires WidthOf(x % 32) == Some(Width(n)) && (Width(n) == 0 ==> n == x % 32)
    ensures x == 32 * (x / 32) + Info(n)
  {
  }

  /** No head with room for the argument is shorter. */
  lemma HeadShortest(major: nat, n: nat, k: nat)
    requires major < 8 && k in {0, 1, 2, 4, 8}
    requires if k == 0 then n < 24 else n < Power256(k)
    ensures |Head(major, n)| <= 1 + k
  {
    Powers();
  }

  /* ----- Items ----- */

  function Encode(i: Item): seq<Byte> {
    match i
    case Bytes(content) => Head(BYTES, |content|) + content
    case Array(items) => Head(ARRAY, |items|) + EncodeAll(items)
    case Tag(number, tagged) => Head(TAG, number) + Encode(tagged)
  }

  function EncodeAll(items: seq<Item>): seq<Byte> {
    if items == [] then [] else Encode(items[0]) + EncodeAll(items[1..])
  }

  function Decode(b: seq<Byte>): (r: Option<(Item, seq<Byte>)>)
    ensures r.Some? ==> |r.value.1| < |b|
    decreases |b|, 0
  {
    match DecodeHead(b)
    case None => None
    case Some((major, n, rest)) =>
      if major == BYTES then
        if n <= |rest| then Some((Bytes(rest[..n]), rest[n..])) else None
      else if major == ARRAY then
        match DecodeMany(n, rest)
        case None => None
        case Some((items, more)) => Some((Array(items), more))
      else if major == TAG then
        match Decode(rest)
        case None => None
        case Some((i, more)) => Some((Tag(n, i), more))
      else None
  }

  function DecodeMany(n: nat, b: seq<Byte>): (r: Option<(seq<Item>, seq<Byte>)>)
    ensures r.Some? ==> |r.value.1| <= |b| && |r.value.0| == n
    decreases |b|, 1
  {
    if n == 0 then Some(([], b))
    else
      match Decode(b)
      case None => None
      case Some((i, rest)) =>
        match DecodeMany(n - 1, rest)
        case None => None
        case Some((items, more)) => Some(([i] + items, more))
  }

  /** Every length and tag number fits an argument. */
  predicate Sized(i: Item) {
    match i
    case Bytes(content) => |content| < LIMIT
    case Array(items) => |items| < LIMIT && forall k :: 0 <= k < |items| ==> Sized(items[k])
    case Tag(number, tagged) => number < LIMIT && Sized(tagged)
  }

  /** Whatever follows it, an encoded item decodes to itself and leaves what follows. */
  lemma {:induction false} RoundTrip(i: Item, rest: seq<Byte>)
    requires Sized(i)
    ensures Decode(Encode(i) + rest) == Some((i, rest))
    decreases i
  {
    match i {
      case Bytes(content) =>
        assert Encode(i) + rest == Head(BYTES, |content|) + (content + rest);
        HeadRoundTrip(BYTES, |content|, content + rest);
        assert (content + rest)[..|content|] == content && (content + rest)[|content|..] == rest;
      case Array(items) =>
        assert Encode(i) + rest == Head(ARRAY, |items|) + (EncodeAll(items) + rest);
        HeadRoundTrip(ARRAY, |items|, EncodeAll(items) + rest);
        RoundTripAll(items, rest);
      case Tag(number, tagged) =>
        assert Encode(i) + rest == Head(TAG, number) + (Encode(tagged) + rest);
        HeadRoundTrip(TAG, number, Encode(tagged) + rest);
        RoundTrip(tagged, rest);
    }
  }

  lemma {:induction false} RoundTripAll(items: seq<Item>, rest: seq<Byte>)
    requires forall k :: 0 <= k < |items| ==> Sized(items[k])
    ensures DecodeMany(|items|, EncodeAll(items) + rest) == Some((items, rest))
    decreases items
  {
    if items != [] {
      var tail := items[1..];
      Associate(Encode(items[0]), EncodeAll(tail), rest);
      RoundTrip(items[0], EncodeAll(tail) + rest);
      RoundTripAll(tail, rest);
      hide Decode, Encode, Sized;
      assert DecodeMany(|tail| + 1, EncodeAll(items) + rest) == Some(([items[0]] + tail, rest));
      assert items == [items[0]] + tail;
    } else {
      assert [] + rest == rest;
    }
  }

  lemma Associate(x: seq<Byte>, y: seq<Byte>, z: seq<Byte>)
    ensures (x + y) + z == x + (y + z)
  {
  }

  /** Whatever decodes is the one encoding of what it decodes to, and the rest. */
  lemma {:induction false} DecodeExact(b: seq<Byte>)
    requires Decode(b).Some?
    ensures Sized(Decode(b).value.0) && b == Encode(Decode(b).value.0) + Decode(b).value.1
    decreases |b|, 0
  {
    HeadExact(b);
    hide DecodeHead, Head, DecodeMany;
    var (major, n, rest) := DecodeHead(b).value;
    if major == BYTES {
      assert rest == rest[..n] + rest[n..];
      Associate(Head(BYTES, n), rest[..n], rest[n..]);
    } else if major == ARRAY {
      DecodeManyExact(n, rest);
      var (items, more) := DecodeMany(n, rest).value;
      hide EncodeAll;
      Associate(Head(ARRAY, n), EncodeAll(items), more);
    } else {
      DecodeExact(rest);
      var (i, more) := Decode(rest).value;
      Associate(Head(TAG, n), Encode(i), more);
    }
  }

  lemma {:induction false} DecodeManyExact(n: nat, b: seq<Byte>)
    requires DecodeMany(n, b).Some?
    ensures
      var (items, rest) := DecodeMany(n, b).value;
      (forall k :: 0 <= k < |items| ==> Sized(items[k])) && b == EncodeAll(items) + rest
    decreases |b|, 1
  {
    if n > 0 {
      hide Decode, Encode, Sized;
      DecodeExact(b);
      var (i, more) := Decode(b).value;
      DecodeManyExact(n - 1, more);
      var (items, rest) := DecodeMany(n - 1, more).value;
      assert ([i] + items)[1..] == items;
      Associate(Encode(i), EncodeAll(items), rest);
    }
  }

  /* ----- The bytes themselves ----- */

  /** The bytes of a head, from the first of its major type on (0x40, 0x80 and 0xc0 are those of byte strings,
      arrays and tags), as section 3 of RFC 8949 lays them out. */
  function HeadBytes(first: Byte, n: nat): seq<Byte>
    requires first in {0x40, 0x80, 0xc0} && n < 0x1_0000_0000_0000_0000
  {
    if n <= 23 then [first + n]
    else if n <= 0xff then [first + 24, n]
    else if n <= 0xffff then [first + 25, n / 0x100 % 0x100, n % 0x100]
    else if n <= 0xffff_ffff then
      [first + 26, n / 0x100_0000 % 0x100, n / 0x1_0000 % 0x100, n / 0x100 % 0x100, n % 0x100]
    else
      [first + 27,
       n / 0x100_0000_0000_0000 % 0x100, n / 0x1_0000_0000_0000 % 0x100, n / 0x100_0000_0000 % 0x100,
       n / 0x1_0000_0000 % 0x100, n / 0x100_0000 % 0x100, n / 0x1_0000 % 0x100, n / 0x100 % 0x100, n % 0x100]
  }

  lemma BigEndianStep(n: nat, k: nat)
    ensures BigEndian(n, k + 1) == BigEndian(n / 256, k) + [n % 256]
  {
  }

  lemma HeadIsBytes(major: nat, first: Byte, n: nat)
    requires n < LIMIT
    requires (major, first) in {(BYTES, 0x40), (ARRAY, 0x80), (TAG, 0xc0)}
    ensures Head(major, n) == HeadBytes(first, n)
  {
    assert first == 32 * major;
    assert n <= 23 ==> BigEndian(n, 0) == [];
    assert 23 < n <= 0xff ==> BigEndian(n, 1) == [n] by {
      BigEndianStep(n, 0);
    }
    TwoBytes(n);
    FourBytes(n);
    EightBytes(n);
    hide BigEndian;
  }

  lemma TwoBytes(n: nat)
    ensures BigEndian(n, 2) == [n / 0x100 % 0x100, n % 0x100]
  {
    BigEndianStep(n, 1);
    BigEndianStep(n / 256, 0);
  }

  lemma FourBytes(n: nat)
    ensures BigEndian(n, 4) == [n / 0x100_0000 % 0x100, n / 0x1_0000 % 0x100, n / 0x100 % 0x100, n % 0x100]
  {
    BigEndianStep(n, 3);
    BigEndianStep(n / 256, 2);
    assert n / 256 / 256 == n / 0x1_0000 && n / 0x1_0000 / 0x100 == n / 0x100_0000;
    TwoBytes(n / 0x1_0000);
    hide BigEndian;
  }

  lemma EightBytes(n: nat)
    ensures BigEndian(n, 8) ==
              [n / 0x100_0000_0000_0000 % 0x100, n / 0x1_0000_0000_0000 % 0x100, n / 0x100_0000_0000 % 0x100,
               n / 0x1_0000_0000 % 0x100, n / 0x100_0000 % 0x100, n / 0x1_0000 % 0x100, n / 0x100 % 0x100, n % 0x100]
  {
    var m := n / 0x1_0000_0000;
    FourMore(n, 4);
    FourBytes(m);
    assert m / 0x100_0000 == n / 0x100_0000_0000_0000 && m / 0x1_0000 == n / 0x1_0000_0000_0000;
    assert m / 0x100 == n / 0x100_0000_0000;
    hide BigEndian;
  }

  lemma FourMore(n: nat, k: nat)
    ensures BigEndian(n, k + 4) ==
              BigEndian(n / 0x1_0000_0000, k) + [n / 0x100_0000 % 0x100, n / 0x1_0000 % 0x100, n / 0x100 % 0x100, n % 0x100]
  {
    BigEndianStep(n, k + 3);
    BigEndianStep(n / 256, k + 2);
    assert n / 256 / 256 == n / 0x1_0000;
    BigEndianStep(n / 0x1_0000, k + 1);
    assert n / 0x1_0000 / 256 == n / 0x100_0000;
    BigEndianStep(n / 0x100_0000, k);
    assert n / 0x100_0000 / 256 == n / 0x1_0000_0000;
    hide BigEndian;
  }
}
