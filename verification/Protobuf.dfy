/** The protocol-buffer subset of common/pb_encode.c and common/pb_decode.c: required and optional scalar
    and bytes fields on buffer streams. */
module Protobuf {
  import opened Bits

  const WORD32 := 0x1_0000_0000
  const WORD64 := 0x1_0000_0000_0000_0000

  /* Varints. */

  /** pb_encode_varint: seven bits at a time, low ones first, the top bit set on all but the last byte. */
  function Varint(v: nat): (s: seq<Byte>)
    ensures |s| > 0
  {
    if v < 128 then [v] else [128 + v % 128] + Varint(v / 128)
  }

  datatype Read<T> = Ok(value: T, rest: seq<Byte>) | Bad(rest: seq<Byte>)

  /** What is left of a varint after k of at most ten bytes. */
  function VarintFrom(data: seq<Byte>, k: nat): (r: Read<nat>)
    requires k <= 10
    ensures r.Ok? ==> |r.rest| < |data|
    ensures |r.rest| <= |data|
    decreases |data|
  {
    if k == 10 || data == [] then Bad(data)
    else if data[0] < 128 then Ok(data[0], data[1..])
    else match VarintFrom(data[1..], k + 1)
         case Ok(v, rest) => Ok(data[0] - 128 + 128 * v, rest)
         case Bad(rest) => Bad(rest)
  }

  /** pb_decode_varint */
  function ReadVarint(data: seq<Byte>): (r: Read<nat>)
    ensures r.Ok? ==> |r.rest| < |data| && r.value < WORD64
  {
    match VarintFrom(data, 0)
    case Ok(v, rest) => Ok(v % WORD64, rest)
    case Bad(rest) => Bad(rest)
  }

  /** pb_decode_varint32 */
  function ReadVarint32(data: seq<Byte>): (r: Read<nat>)
    ensures r.Ok? ==> |r.rest| < |data| && r.value < WORD32
  {
    match ReadVarint(data)
    case Ok(v, rest) => Ok(v % WORD32, rest)
    case Bad(rest) => Bad(rest)
  }

  function Pow128(n: nat): (p: nat)
    ensures p > 0
  {
    if n == 0 then 1 else 128 * Pow128(n - 1)
  }

  lemma {:induction false} VarintReadsBack(v: nat, rest: seq<Byte>, k: nat)
    requires k < 10 && v < Pow128(10 - k)
    ensures VarintFrom(Varint(v) + rest, k) == Ok(v, rest)
    decreases v
  {
    var data := Varint(v) + rest;
    if v < 128 {
      assert data[1..] == rest;
    } else {
      assert Pow128(1) == 128;
      assert Pow128(10 - k) == 128 * Pow128(9 - k);
      VarintReadsBack(v / 128, rest, k + 1);
      assert data[1..] == Varint(v / 128) + rest;
    }
  }

  lemma TenBytes()
    ensures WORD64 <= Pow128(10)
  {
    assert Pow128(5) == 34359738368;
    assert Pow128(10) == 128 * (128 * (128 * (128 * (128 * Pow128(5)))));
  }

  /** Every 64-bit number is read back, and nothing more than its bytes. */
  lemma VarintRoundTrip(v: nat, rest: seq<Byte>)
    requires v < WORD64
    ensures ReadVarint(Varint(v) + rest) == Ok(v, rest)
    ensures v < WORD32 ==> ReadVarint32(Varint(v) + rest) == Ok(v, rest)
  {
    hide Pow128, Varint, VarintFrom;
    TenBytes();
    VarintReadsBack(v, rest, 0);
  }

  lemma {:induction false} VarintLength(v: nat, n: nat)
    requires n > 0 && v < Pow128(n)
    ensures |Varint(v)| <= n
    decreases n
  {
    if v >= 128 {
      assert Pow128(1) == 128;
      VarintLength(v / 128, n - 1);
    }
  }

  /* Fields. */

  datatype LType = VarintType | SVarintType | Fixed32 | Fixed64 | BytesType

  /** tag, whether a message must have it, and the size in memory, or the longest byte string. */
  datatype Field = Field(tag: nat, required: bool, ltype: LType, size: nat)

  /** What is kept of a field: the number its memory holds, or its bytes. */
  datatype Value = Num(n: nat) | Blob(bytes: seq<Byte>)

  /** Numbers that fit the field's memory. */
  function Room(size: nat): (r: nat)
    requires size == 1 || size == 2 || size == 4 || size == 8
    ensures 0 < r <= WORD64 && r % 2 == 0
  {
    if size == 1 then 0x100 else if size == 2 then 0x1_0000 else if size == 4 then WORD32 else WORD64
  }

  predicate GoodField(f: Field) {
    && 0 < f.tag < 256
    && (f.ltype == VarintType || f.ltype == SVarintType ==> f.size == 1 || f.size == 2 || f.size == 4 || f.size == 8)
    && (f.ltype == BytesType ==> f.size < WORD32)
  }

  predicate Fits(f: Field, v: Value)
    requires GoodField(f)
  {
    match f.ltype
    case VarintType => v.Num? && v.n < Room(f.size)
    case SVarintType => v.Num? && v.n < Room(f.size)
    case Fixed32 => v.Blob? && |v.bytes| == 4
    case Fixed64 => v.Blob? && |v.bytes| == 8
    case BytesType => v.Blob? && |v.bytes| <= f.size
  }

  function WireType(t: LType): nat {
    match t
    case VarintType => 0
    case SVarintType => 0
    case Fixed32 => 5
    case Fixed64 => 1
    case BytesType => 2
  }

  /** pb_enc_svarint: numbers whose top bit is set become odd. */
  function ZigZag(n: nat, room: nat): nat
    requires n < room
  {
    if 2 * n >= room then 2 * (room - 1 - n) + 1 else 2 * n
  }

  /** pb_dec_svarint on 64 bits, cut to the field's memory. */
  function UnZigZag(z: nat, room: nat): nat
    requires 0 < room && z < WORD64
  {
    (if z % 2 == 1 then WORD64 - 1 - z / 2 else z / 2) % room
  }

  lemma ZigZagRoundTrip(n: nat, size: nat)
    requires (size == 1 || size == 2 || size == 4 || size == 8) && n < Room(size)
    ensures ZigZag(n, Room(size)) < Room(size) && UnZigZag(ZigZag(n, Room(size)), Room(size)) == n
  {
    hide Room, UnZigZag;
    var room := Room(size);
    if 2 * n >= room {
      var q := Copies64(size);
      UnZigZagOdd(room - 1 - n, room, q);
    } else {
      UnZigZagEven(n, room);
    }
  }

  /** How many numbers of this width a 64-bit number holds. */
  lemma Copies64(size: nat) returns (q: nat)
    requires size == 1 || size == 2 || size == 4 || size == 8
    ensures q * Room(size) == WORD64
  {
    q := if size == 1 then 0x100_0000_0000_0000 else if size == 2 then 0x1_0000_0000_0000 else if size == 4 then WORD32 else 1;
  }

  lemma UnZigZagEven(n: nat, room: nat)
    requires 2 * n < room <= WORD64
    ensures UnZigZag(2 * n, room) == n
  {
    DivUnique(n, room, 0, n);
  }

  lemma UnZigZagOdd(k: nat, room: nat, q: nat)
    requires 2 * k + 1 < room && q * room == WORD64
    ensures UnZigZag(2 * k + 1, room) == room - 1 - k
  {
    assert (2 * k + 1) / 2 == k && (q - 1) * room == q * room - room;
    DivUnique(WORD64 - 1 - k, room, q - 1, room - 1 - k);
  }

  function EncodeValue(f: Field, v: Value): seq<Byte>
    requires GoodField(f) && Fits(f, v)
  {
    match f.ltype
    case VarintType => Varint(v.n)
    case SVarintType => Varint(ZigZag(v.n, Room(f.size)))
    case Fixed32 => v.bytes
    case Fixed64 => v.bytes
    case BytesType => Varint(|v.bytes|) + v.bytes
  }

  function Take(data: seq<Byte>, n: nat): (r: Read<Value>)
    ensures |r.rest| <= |data|
  {
    if |data| < n then Bad(data) else Ok(Blob(data[..n]), data[n..])
  }

  /** The decoder of a field type; it does not look at the wire type. */
  function DecodeValue(f: Field, data: seq<Byte>): (r: Read<Value>)
    requires GoodField(f)
    ensures r.Ok? ==> |r.rest| <= |data| && Fits(f, r.value)
  {
    match f.ltype
    case VarintType =>
      (match ReadVarint(data)
       case Ok(v, rest) => Ok(Num(v % Room(f.size)), rest)
       case Bad(rest) => Bad(rest))
    case SVarintType =>
      (match ReadVarint(data)
       case Ok(z, rest) => Ok(Num(UnZigZag(z, Room(f.size))), rest)
       case Bad(rest) => Bad(rest))
    case Fixed32 => Take(data, 4)
    case Fixed64 => Take(data, 8)
    case BytesType =>
      (match ReadVarint32(data)
       case Ok(n, rest) => if n > f.size then Bad(rest) else Take(rest, n)
       case Bad(rest) => Bad(rest))
  }

  /** A field's value is decoded from what it was encoded to. */
  lemma ValueRoundTrip(f: Field, v: Value, rest: seq<Byte>)
    requires GoodField(f) && Fits(f, v)
    ensures DecodeValue(f, EncodeValue(f, v) + rest) == Ok(v, rest)
  {
    hide ReadVarint, Varint;
    match f.ltype
    case VarintType => VarintRoundTrip(v.n, rest);
    case SVarintType =>
      ZigZagRoundTrip(v.n, f.size);
      VarintRoundTrip(ZigZag(v.n, Room(f.size)), rest);
    case Fixed32 => assert (v.bytes + rest)[..4] == v.bytes && (v.bytes + rest)[4..] == rest;
    case Fixed64 => assert (v.bytes + rest)[..8] == v.bytes && (v.bytes + rest)[8..] == rest;
    case BytesType =>
      VarintRoundTrip(|v.bytes|, v.bytes + rest);
      assert Varint(|v.bytes|) + v.bytes + rest == Varint(|v.bytes|) + (v.bytes + rest);
      assert (v.bytes + rest)[..|v.bytes|] == v.bytes && (v.bytes + rest)[|v.bytes|..] == rest;
  }

  /* Messages. */

  type Message = seq<Option<Value>>

  predicate Fields(fields: seq<Field>) {
    && |fields| <= 32
    && (forall i {:trigger fields[i]} :: 0 <= i < |fields| ==> GoodField(fields[i]))
    && (forall i, j {:trigger fields[i], fields[j]} :: 0 <= i < j < |fields| ==> fields[i].tag != fields[j].tag)
  }

  /** Every value fits its field, and required fields have one. */
  predicate GoodMessage(fields: seq<Field>, m: Message)
    requires Fields(fields)
  {
    && |m| == |fields|
    && forall i {:trigger m[i]} :: 0 <= i < |m| ==> if m[i].Some? then Fits(fields[i], m[i].value) else !fields[i].required
  }

  function FieldBytes(f: Field, v: Value): (s: seq<Byte>)
    requires GoodField(f) && Fits(f, v)
    ensures |s| > 0
  {
    Varint(WireType(f.ltype) + 8 * f.tag) + EncodeValue(f, v)
  }

  /** pb_encode for the first n fields. */
  function Encode(fields: seq<Field>, m: Message, n: nat): seq<Byte>
    requires Fields(fields) && GoodMessage(fields, m) && n <= |fields|
  {
    if n == 0 then []
    else
      assert m[n - 1].Some? ==> Fits(fields[n - 1], m[n - 1].value);
      Encode(fields, m, n - 1) + if m[n - 1].Some? then FieldBytes(fields[n - 1], m[n - 1].value) else []
  }

  /** pb_skip_varint: any number of bytes with the top bit set and one without. */
  function SkipVarint(data: seq<Byte>): (r: Option<seq<Byte>>)
    ensures r.Some? ==> |r.value| < |data|
  {
    if data == [] then None else if data[0] < 128 then Some(data[1..]) else SkipVarint(data[1..])
  }

  function Drop(data: seq<Byte>, n: nat): (r: Option<seq<Byte>>)
    ensures r.Some? ==> |r.value| <= |data|
  {
    if |data| < n then None else Some(data[n..])
  }

  function Skip(wireType: nat, data: seq<Byte>): (r: Option<seq<Byte>>)
    ensures r.Some? ==> |r.value| <= |data|
  {
    if wireType == 0 then SkipVarint(data)
    else if wireType == 1 then Drop(data, 8)
    else if wireType == 2 then
      (match ReadVarint32(data)
       case Ok(n, rest) => Drop(rest, n)
       case Bad(_) => None)
    else if wireType == 5 then Drop(data, 4)
    else None
  }

  /** The field with this tag, or |fields|. */
  function Find(fields: seq<Field>, tag: nat): (i: nat)
    ensures i <= |fields|
    ensures i < |fields| ==> fields[i].tag == tag
    ensures i == |fields| ==> forall j :: 0 <= j < |fields| ==> fields[j].tag != tag
  {
    if fields == [] then 0
    else if fields[0].tag == tag then 0
    else 1 + Find(fields[1..], tag)
  }

  datatype Outcome = Decoded(m: Message, rest: seq<Byte>) | Failed

  predicate HasRequired(fields: seq<Field>, m: Message)
    requires |m| == |fields|
  {
    forall i {:trigger m[i]} :: 0 <= i < |m| ==> fields[i].required ==> m[i].Some?
  }

  function Finish(fields: seq<Field>, m: Message, rest: seq<Byte>): Outcome
    requires |m| == |fields|
  {
    if HasRequired(fields, m) then Decoded(m, rest) else Failed
  }

  /** pb_decode: fields in any order until the data ends or a zero tag; unknown ones are skipped. A tag cut
      off by the end of the data ends the message like the end itself. */
  function Decode(fields: seq<Field>, m: Message, data: seq<Byte>): Outcome
    requires Fields(fields) && |m| == |fields|
    decreases |data|
  {
    if data == [] then Finish(fields, m, [])
    else match ReadVarint32(data)
         case Bad(rest) => if rest == [] then Finish(fields, m, []) else Failed
         case Ok(t, rest) =>
           if t == 0 then Finish(fields, m, rest)
           else
             var i := Find(fields, t / 8);
             if i == |fields| then
               (match Skip(t % 8, rest)
                case None => Failed
                case Some(after) => Decode(fields, m, after))
             else
               (match DecodeValue(fields[i], rest)
                case Bad(_) => Failed
                case Ok(v, after) => Decode(fields, m[i := Some(v)], after))
  }

  function Nothing(fields: seq<Field>): (m: Message)
    ensures |m| == |fields|
  {
    seq(|fields|, _ => None)
  }

  /* The round trip, with fields in any order and unknown ones among them. */

  /** A field of the table with a value, or some other field: wire type and bytes. */
  datatype Item = Known(i: nat, v: Value) | Unknown(tag: nat, wireType: nat, payload: seq<Byte>)

  predicate GoodItem(fields: seq<Field>, x: Item)
    requires Fields(fields)
  {
    match x
    case Known(i, v) => i < |fields| && Fits(fields[i], v)
    case Unknown(tag, wireType, payload) =>
      && 0 < tag < WORD32 / 8 && Find(fields, tag) == |fields| && wireType < 8
      && Skip(wireType, payload) == Some([])
  }

  function ItemBytes(fields: seq<Field>, x: Item): (s: seq<Byte>)
    requires Fields(fields) && GoodItem(fields, x)
    ensures |s| > 0
  {
    match x
    case Known(i, v) => FieldBytes(fields[i], v)
    case Unknown(tag, wireType, payload) => Varint(wireType + 8 * tag) + payload
  }

  function Apply(m: Message, x: Item): Message {
    if x.Known? && x.i < |m| then m[x.i := Some(x.v)] else m
  }

  predicate GoodItems(fields: seq<Field>, items: seq<Item>)
    requires Fields(fields)
  {
    forall k {:trigger items[k]} :: 0 <= k < |items| ==> GoodItem(fields, items[k])
  }

  function AllBytes(fields: seq<Field>, items: seq<Item>): seq<Byte>
    requires Fields(fields) && GoodItems(fields, items)
  {
    if items == [] then [] else ItemBytes(fields, items[0]) + AllBytes(fields, items[1..])
  }

  /** The last value of every field. */
  function ApplyAll(m: Message, items: seq<Item>): (r: Message)
    ensures |r| == |m|
    decreases |items|
  {
    if items == [] then m else ApplyAll(Apply(m, items[0]), items[1..])
  }

  lemma {:induction false} SkipMore(data: seq<Byte>, more: seq<Byte>)
    requires SkipVarint(data).Some?
    ensures SkipVarint(data + more) == Some(SkipVarint(data).value + more)
  {
    assert (data + more)[1..] == data[1..] + more;
    if data[0] >= 128 { SkipMore(data[1..], more); }
  }

  lemma {:induction false} VarintMore(data: seq<Byte>, k: nat, more: seq<Byte>)
    requires k <= 10 && VarintFrom(data, k).Ok?
    ensures VarintFrom(data + more, k) == Ok(VarintFrom(data, k).value, VarintFrom(data, k).rest + more)
    decreases |data|
  {
    assert (data + more)[1..] == data[1..] + more;
    if data[0] >= 128 { VarintMore(data[1..], k + 1, more); }
  }

  /** What is skipped does not depend on what follows. */
  lemma SkipExactly(wireType: nat, payload: seq<Byte>, more: seq<Byte>)
    requires Skip(wireType, payload) == Some([])
    ensures Skip(wireType, payload + more) == Some(more)
  {
    if wireType == 0 {
      SkipMore(payload, more);
      assert [] + more == more;
    } else if wireType == 2 {
      VarintMore(payload, 0, more);
      var r := ReadVarint32(payload);
      assert (r.rest + more)[r.value..] == more;
    } else {
      assert (payload + more)[|payload|..] == more;
    }
  }

  lemma {:induction false} FindsField(fields: seq<Field>, i: nat)
    requires i < |fields| && forall j, k {:trigger fields[j], fields[k]} :: 0 <= j < k < |fields| ==> fields[j].tag != fields[k].tag
    ensures Find(fields, fields[i].tag) == i
    decreases |fields|
  {
    if i > 0 {
      assert fields[0].tag != fields[i].tag;
      FindsField(fields[1..], i - 1);
    }
  }

  lemma TagReadsBack(tag: nat, wireType: nat, rest: seq<Byte>)
    requires 0 < tag < WORD32 / 8 && wireType < 8
    ensures ReadVarint32(Varint(wireType + 8 * tag) + rest) == Ok(wireType + 8 * tag, rest)
    ensures (wireType + 8 * tag) / 8 == tag && (wireType + 8 * tag) % 8 == wireType
  {
    VarintRoundTrip(wireType + 8 * tag, rest);
  }

  lemma ItemReadsBack(fields: seq<Field>, m: Message, x: Item, rest: seq<Byte>)
    requires Fields(fields) && GoodItem(fields, x) && |m| == |fields|
    ensures Decode(fields, m, ItemBytes(fields, x) + rest) == Decode(fields, Apply(m, x), rest)
  {
    hide ReadVarint32, Varint, DecodeValue, EncodeValue, Skip, Find, Finish;
    var data := ItemBytes(fields, x) + rest;
    match x
    case Known(i, v) =>
      var f := fields[i];
      assert data == Varint(WireType(f.ltype) + 8 * f.tag) + (EncodeValue(f, v) + rest);
      TagReadsBack(f.tag, WireType(f.ltype), EncodeValue(f, v) + rest);
      FindsField(fields, i);
      ValueRoundTrip(f, v, rest);
    case Unknown(tag, wireType, payload) =>
      assert data == Varint(wireType + 8 * tag) + (payload + rest);
      TagReadsBack(tag, wireType, payload + rest);
      SkipExactly(wireType, payload, rest);
  }

  /** Fields in any order, repeated or not, with unknown ones among them: decoding gives the last value of
      each, stops at the zero tag, and leaves what follows. */
  lemma {:induction false} ItemsRoundTrip(fields: seq<Field>, m: Message, items: seq<Item>, rest: seq<Byte>)
    requires Fields(fields) && GoodItems(fields, items) && |m| == |fields|
    ensures Decode(fields, m, AllBytes(fields, items) + [0] + rest) == Finish(fields, ApplyAll(m, items), rest)
    decreases |items|
  {
    hide Decode, ItemBytes, Finish, Apply;
    if items == [] {
      EndOfMessage(fields, m, rest);
      assert AllBytes(fields, items) + [0] + rest == [0] + rest;
    } else {
      var more := AllBytes(fields, items[1..]) + [0] + rest;
      assert AllBytes(fields, items) + [0] + rest == ItemBytes(fields, items[0]) + more;
      ItemReadsBack(fields, m, items[0], more);
      SameLength(m, items[0]);
      ItemsRoundTrip(fields, Apply(m, items[0]), items[1..], rest);
    }
  }

  lemma SameLength(m: Message, x: Item)
    ensures |Apply(m, x)| == |m|
  {
  }

  lemma EndOfMessage(fields: seq<Field>, m: Message, rest: seq<Byte>)
    requires Fields(fields) && |m| == |fields|
    ensures Decode(fields, m, [0] + rest) == Finish(fields, m, rest)
  {
    assert ([0] + rest)[1..] == rest;
    assert VarintFrom([0] + rest, 0) == Ok(0, rest);
  }

  /** The fields of a message in table order. */
  function ItemsOf(m: Message, n: nat): seq<Item>
    requires n <= |m|
  {
    if n == 0 then [] else ItemsOf(m, n - 1) + if m[n - 1].Some? then [Known(n - 1, m[n - 1].value)] else []
  }

  lemma {:induction false} AllBytesConcat(fields: seq<Field>, a: seq<Item>, b: seq<Item>)
    requires Fields(fields) && GoodItems(fields, a) && GoodItems(fields, b)
    ensures GoodItems(fields, a + b) && AllBytes(fields, a + b) == AllBytes(fields, a) + AllBytes(fields, b)
    decreases |a|
  {
    hide ItemBytes, GoodItem;
    forall k | 0 <= k < |a + b| ensures GoodItem(fields, (a + b)[k]) {
      assert if k < |a| then GoodItem(fields, a[k]) else GoodItem(fields, b[k - |a|]);
    }
    if a == [] {
      assert a + b == b;
    } else {
      AllBytesConcat(fields, a[1..], b);
      assert (a + b)[1..] == a[1..] + b;
    }
  }

  lemma {:induction false} ApplyAllConcat(m: Message, a: seq<Item>, b: seq<Item>)
    ensures ApplyAll(m, a + b) == ApplyAll(ApplyAll(m, a), b)
    decreases |a|
  {
    if a == [] {
      assert a + b == b;
    } else {
      ApplyAllConcat(Apply(m, a[0]), a[1..], b);
      assert (a + b)[1..] == a[1..] + b;
    }
  }

  /** One more item at the end. */
  lemma AllBytesLast(fields: seq<Field>, a: seq<Item>, x: Item)
    requires Fields(fields) && GoodItems(fields, a) && GoodItem(fields, x)
    ensures GoodItems(fields, a + [x]) && AllBytes(fields, a + [x]) == AllBytes(fields, a) + ItemBytes(fields, x)
  {
    hide ItemBytes, GoodItem;
    AllBytesConcat(fields, a, [x]);
    assert AllBytes(fields, [x]) == ItemBytes(fields, x) + AllBytes(fields, [x][1..]);
  }

  lemma ApplyAllLast(m: Message, a: seq<Item>, x: Item)
    ensures ApplyAll(m, a + [x]) == Apply(ApplyAll(m, a), x)
  {
    hide Apply;
    ApplyAllConcat(m, a, [x]);
    assert [x][1..] == [];
    assert ApplyAll(ApplyAll(m, a), [x]) == ApplyAll(Apply(ApplyAll(m, a), x), []);
  }

  /** The first n fields of m, nothing in the rest. */
  function Upto(m: Message, n: nat): (r: Message)
    requires n <= |m|
    ensures |r| == |m|
  {
    seq(|m|, i requires 0 <= i < |m| => if i < n then m[i] else None)
  }

  lemma {:induction false} ItemsApply(m: Message, n: nat)
    requires n <= |m|
    ensures ApplyAll(Upto(m, 0), ItemsOf(m, n)) == Upto(m, n)
  {
    hide ApplyAll;
    if n == 0 {
      assert ApplyAll(Upto(m, 0), []) == Upto(m, 0) by { NoItems(Upto(m, 0)); }
    } else {
      ItemsApply(m, n - 1);
      if m[n - 1].Some? {
        ApplyAllLast(Upto(m, 0), ItemsOf(m, n - 1), Known(n - 1, m[n - 1].value));
        assert Upto(m, n - 1)[n - 1 := m[n - 1]] == Upto(m, n);
      } else {
        assert ItemsOf(m, n) == ItemsOf(m, n - 1);
        assert Upto(m, n - 1) == Upto(m, n);
      }
    }
  }

  lemma NoItems(m: Message)
    ensures ApplyAll(m, []) == m
  {
  }

  lemma {:induction false} EncodeIsItems(fields: seq<Field>, m: Message, n: nat)
    requires Fields(fields) && GoodMessage(fields, m) && n <= |fields|
    ensures GoodItems(fields, ItemsOf(m, n)) && AllBytes(fields, ItemsOf(m, n)) == Encode(fields, m, n)
  {
    hide FieldBytes, AllBytes, Fields, Fits, GoodField;
    if n == 0 {
      NoBytes(fields);
    } else {
      EncodeIsItems(fields, m, n - 1);
      if m[n - 1].Some? {
        AllBytesLast(fields, ItemsOf(m, n - 1), Known(n - 1, m[n - 1].value));
      } else {
        assert ItemsOf(m, n) == ItemsOf(m, n - 1);
        assert Encode(fields, m, n) == Encode(fields, m, n - 1);
      }
    }
  }

  lemma NoBytes(fields: seq<Field>)
    requires Fields(fields)
    ensures AllBytes(fields, []) == []
  {
  }

  /** A message decodes from its encoding, closed by a zero, to itself, and what follows is left. */
  lemma RoundTrip(fields: seq<Field>, m: Message, rest: seq<Byte>)
    requires Fields(fields) && GoodMessage(fields, m)
    ensures Decode(fields, Nothing(fields), Encode(fields, m, |fields|) + [0] + rest) == Decoded(m, rest)
  {
    hide Decode, Encode, ApplyAll, AllBytes, ItemsOf;
    EncodeIsItems(fields, m, |fields|);
    ItemsApply(m, |fields|);
    assert Upto(m, 0) == Nothing(fields);
    assert Upto(m, |m|) == m;
    ItemsRoundTrip(fields, Nothing(fields), ItemsOf(m, |fields|), rest);
  }

  /* The request for sectors. */

  const REQUEST_FIELDS: seq<Field> := [Field(1, true, VarintType, 4), Field(2, true, VarintType, 4), Field(3, true, VarintType, 4)]
  const DISC_READ := 3

  /** A request to read sectors, closed by a zero, fits the 16 bytes it is given. */
  lemma ReadRequestFits(sectorOffset: nat, sectorCount: nat)
    requires sectorOffset < WORD32 && sectorCount < WORD32
    ensures var m := [Some(Num(DISC_READ)), Some(Num(sectorOffset)), Some(Num(sectorCount))];
            Fields(REQUEST_FIELDS) && GoodMessage(REQUEST_FIELDS, m) && |Encode(REQUEST_FIELDS, m, 3)| + 1 <= 15
  {
    var m := [Some(Num(DISC_READ)), Some(Num(sectorOffset)), Some(Num(sectorCount))];
    RequestFieldBytes(0, DISC_READ, 1);
    RequestFieldBytes(1, sectorOffset, 5);
    RequestFieldBytes(2, sectorCount, 5);
    assert Encode(REQUEST_FIELDS, m, 1) == [] + FieldBytes(REQUEST_FIELDS[0], Num(DISC_READ));
    assert Encode(REQUEST_FIELDS, m, 2) == Encode(REQUEST_FIELDS, m, 1) + FieldBytes(REQUEST_FIELDS[1], Num(sectorOffset));
    assert Encode(REQUEST_FIELDS, m, 3) == Encode(REQUEST_FIELDS, m, 2) + FieldBytes(REQUEST_FIELDS[2], Num(sectorCount));
  }

  lemma RequestFieldBytes(i: nat, v: nat, n: nat)
    requires i < 3 && n > 0 && v < WORD32 && v < Pow128(n)
    ensures GoodField(REQUEST_FIELDS[i]) && Fits(REQUEST_FIELDS[i], Num(v)) && |FieldBytes(REQUEST_FIELDS[i], Num(v))| <= 1 + n
  {
    VarintLength(v, n);
    VarintLength(8 * (i + 1), 1);
  }

  /* On the wire. */

  /** Numbers and tags below 128 are one byte; 300 is two, low bits first. */
  lemma KnownVarints(v: nat)
    requires v < 128
    ensures Varint(v) == [v] && Varint(300) == [172, 2]
  {
    assert Varint(2) == [2];
  }

  /** A signed number of any size, in two's complement: 0, -1, 1, -2, ... are written as 0, 1, 2, 3, ... */
  lemma ZigZagOfSigned(x: int, size: nat)
    requires size == 1 || size == 2 || size == 4 || size == 8
    requires -(Room(size) / 2) <= x < Room(size) / 2
    ensures ZigZag(x % Room(size), Room(size)) == if x >= 0 then 2 * x else -2 * x - 1
  {
    assert x % Room(size) == if x >= 0 then x else x + Room(size);
  }

  /** Field bytes of every type: 300, -1, four bytes, eight bytes, and two in a byte string. */
  lemma KnownFields(a: seq<Byte>, b: seq<Byte>, c: Byte, d: Byte)
    requires |a| == 4 && |b| == 8
    ensures FieldBytes(Field(1, true, VarintType, 4), Num(300)) == [8, 172, 2]
    ensures FieldBytes(Field(2, true, SVarintType, 4), Num(0xFFFF_FFFF)) == [16, 1]
    ensures FieldBytes(Field(3, true, Fixed32, 4), Blob(a)) == [29] + a
    ensures FieldBytes(Field(4, true, Fixed64, 8), Blob(b)) == [33] + b
    ensures FieldBytes(Field(5, true, BytesType, 9), Blob([c, d])) == [42, 2, c, d]
  {
    hide Varint;
    KnownVarints(8);
    KnownVarints(16);
    KnownVarints(1);
    KnownVarints(29);
    KnownVarints(33);
    KnownVarints(42);
    KnownVarints(2);
  }

  lemma RequestField(i: nat, v: nat)
    requires i < 3 && v < WORD32
    ensures GoodField(REQUEST_FIELDS[i]) && Fits(REQUEST_FIELDS[i], Num(v))
    ensures FieldBytes(REQUEST_FIELDS[i], Num(v)) == [8 * (i + 1)] + Varint(v)
  {
    hide Varint;
    KnownVarints(8 * (i + 1));
  }

  lemma EncodeStep(fields: seq<Field>, m: Message, n: nat, f: Field, v: Value)
    requires Fields(fields) && GoodMessage(fields, m) && n < |fields| && fields[n] == f && m[n] == Some(v)
    ensures GoodField(f) && Fits(f, v) && Encode(fields, m, n + 1) == Encode(fields, m, n) + FieldBytes(f, v)
  {
    hide FieldBytes;
  }

  lemma SkipsTwo(more: seq<Byte>)
    ensures SkipVarint([172, 2] + more) == Some(more)
  {
    assert ([172, 2] + more)[1..] == [2] + more && ([2] + more)[1..] == more;
    assert SkipVarint([2] + more) == Some(more);
  }

  /** What is skipped for each wire type: a varint, eight bytes, counted bytes, four bytes; others are refused. */
  lemma KnownSkips(a: seq<Byte>, b: seq<Byte>, c: Byte, d: Byte, wireType: nat, more: seq<Byte>)
    requires |a| == 4 && |b| == 8 && wireType !in {0, 1, 2, 5}
    ensures Skip(0, [172, 2] + more) == Some(more)
    ensures Skip(1, b + more) == Some(more)
    ensures Skip(2, [2, c, d] + more) == Some(more)
    ensures Skip(5, a + more) == Some(more)
    ensures Skip(wireType, more) == None
  {
    hide VarintFrom, Varint, SkipVarint;
    SkipsTwo(more);
    assert (b + more)[8..] == more && (a + more)[4..] == more;
    KnownVarints(2);
    VarintRoundTrip(2, [c, d] + more);
    assert [2, c, d] + more == [2] + ([c, d] + more);
    assert ([c, d] + more)[2..] == more;
  }

  /** The bytes of a request: disc read, the offset and the count. */
  lemma RequestBytes(sectorOffset: nat, sectorCount: nat)
    requires sectorOffset < WORD32 && sectorCount < WORD32
    ensures var m := [Some(Num(DISC_READ)), Some(Num(sectorOffset)), Some(Num(sectorCount))];
            && Fields(REQUEST_FIELDS) && GoodMessage(REQUEST_FIELDS, m)
            && Encode(REQUEST_FIELDS, m, 3) == [8, 3, 16] + Varint(sectorOffset) + [24] + Varint(sectorCount)
  {
    hide Varint, Fields, GoodMessage, FieldBytes, Encode, GoodField, Fits;
    ReadRequestFits(sectorOffset, sectorCount);
    var m := [Some(Num(DISC_READ)), Some(Num(sectorOffset)), Some(Num(sectorCount))];
    NoFields(m);
    EncodeStep(REQUEST_FIELDS, m, 0, REQUEST_FIELDS[0], Num(DISC_READ));
    EncodeStep(REQUEST_FIELDS, m, 1, REQUEST_FIELDS[1], Num(sectorOffset));
    EncodeStep(REQUEST_FIELDS, m, 2, REQUEST_FIELDS[2], Num(sectorCount));
    RequestField(0, DISC_READ);
    RequestField(1, sectorOffset);
    RequestField(2, sectorCount);
    KnownVarints(DISC_READ);
    ThreeFields(Varint(sectorOffset), Varint(sectorCount));
  }

  lemma NoFields(m: Message)
    requires Fields(REQUEST_FIELDS) && GoodMessage(REQUEST_FIELDS, m)
    ensures Encode(REQUEST_FIELDS, m, 0) == []
  {
  }

  lemma ThreeFields(a: seq<Byte>, b: seq<Byte>)
    ensures [] + ([8] + [3]) + ([16] + a) + ([24] + b) == [8, 3, 16] + a + [24] + b
  {
  }
}
