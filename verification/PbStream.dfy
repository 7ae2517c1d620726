/** pb_decode.c and pb_encode.c on their buffer streams, in place. */
module PbStream {
  import opened Bits
  import opened Protobuf

  /** A digit of a varint in its place: d << 7k. */
  function Digit(d: nat, k: nat): nat {
    Pow128(k) * d
  }

  lemma DigitShifts(acc: nat, d: nat, w: nat, k: nat)
    ensures acc + Digit(d + 128 * w, k) == acc + Digit(d, k) + Digit(w, k + 1)
    ensures d < 128 && acc < Pow128(k) ==> acc + Digit(d, k) < Pow128(k + 1)
  {
    var p := Pow128(k);
    assert p * (128 * w) == 128 * p * w;
    if d < 128 { assert p * d <= p * 127; }
  }

  const HALF_WORD := 0x8000_0000_0000_0000

  lemma NinthPower()
    ensures Pow128(9) == HALF_WORD
  {
    assert Pow128(4) == 268435456;
    assert Pow128(8) == 72057594037927936;
  }

  lemma TopDigit(acc: nat, d: nat)
    requires acc < HALF_WORD && d < 128
    ensures acc + HALF_WORD * d % WORD64 == (acc + HALF_WORD * d) % WORD64
  {
    assert HALF_WORD * d == WORD64 * (d / 2) + HALF_WORD * (d % 2);
  }

  /** Nine digits fit a word; of the tenth the lowest bit does. */
  lemma NineDigits(acc: nat, d: nat, k: nat)
    requires acc < Pow128(k) && k < 10 && d < 128
    ensures acc < WORD64 && acc + Digit(d, k) % WORD64 == (acc + Digit(d, k)) % WORD64
  {
    hide Pow128;
    NinthPower();
    DigitShifts(acc, d, 0, k);
    if k < 9 {
      SmallerPower(k + 1, 9);
      Small(acc, Digit(d, k));
    } else {
      TopDigit(acc, d);
    }
  }

  lemma Small(acc: nat, x: nat)
    requires acc + x < WORD64
    ensures acc + x % WORD64 == (acc + x) % WORD64
  {
  }

  lemma {:induction false} SmallerPower(a: nat, b: nat)
    requires a <= b
    ensures Pow128(a) <= Pow128(b)
  {
    if a < b { SmallerPower(a, b - 1); }
  }

  /** VarintFrom of what is read so far and what is left agree. */
  predicate VarintSoFar(start: seq<Byte>, acc: nat, k: nat, rest: seq<Byte>) {
    k <= 10 &&
    match VarintFrom(rest, k)
    case Ok(w, r) => VarintFrom(start, 0) == Ok(acc + Digit(w, k), r)
    case Bad(r) => VarintFrom(start, 0) == Bad(r)
  }

  lemma VarintGoesOn(start: seq<Byte>, acc: nat, k: nat, rest: seq<Byte>)
    requires VarintSoFar(start, acc, k, rest) && k < 10 && rest != []
    ensures rest[0] >= 128 ==> VarintSoFar(start, acc + Digit(rest[0] - 128, k), k + 1, rest[1..])
    ensures rest[0] < 128 ==> VarintFrom(start, 0) == Ok(acc + Digit(rest[0], k), rest[1..])
  {
    hide Pow128, Digit;
    if rest[0] >= 128 {
      var r := VarintFrom(rest[1..], k + 1);
      if r.Ok? { DigitShifts(acc, rest[0] - 128, r.value, k); }
    }
  }

  /** In the middle of a varint: acc is the number of the k digits read, dest what the word holds of it. */
  predicate Reading(start: seq<Byte>, acc: nat, k: nat, dest: nat, rest: seq<Byte>) {
    k <= 10 && acc < Pow128(k) && (k < 10 ==> dest == acc) && VarintSoFar(start, acc, k, rest)
  }

  lemma ReadingStarts(start: seq<Byte>)
    ensures Reading(start, 0, 0, 0, start)
  {
  }

  /** *dest |= (uint64_t)(byte & 0x7F) << bitpos */
  function OrShifted(dest: nat, byte: Byte, bitpos: nat): nat {
    dest + Digit(byte % 128, bitpos / 7) % WORD64
  }

  lemma ReadsDigit(start: seq<Byte>, acc: nat, k: nat, dest: nat, rest: seq<Byte>)
    requires Reading(start, acc, k, dest, rest) && k < 10 && rest != []
    ensures var after := OrShifted(dest, rest[0], 7 * k);
            if rest[0] < 128 then ReadVarint(start) == Ok(after, rest[1..])
            else Reading(start, acc + Digit(rest[0] % 128, k), k + 1, after, rest[1..])
  {
    hide Pow128, Digit, VarintSoFar, VarintFrom;
    var d := rest[0] % 128;
    NineDigits(acc, d, k);
    DigitShifts(acc, d, 0, k);
    VarintGoesOn(start, acc, k, rest);
    if k < 9 { NineDigits(acc + Digit(d, k), 0, k + 1); }
  }

  lemma OutOfBytes(start: seq<Byte>, acc: nat, k: nat, dest: nat, rest: seq<Byte>)
    requires Reading(start, acc, k, dest, rest) && (k == 10 || rest == [])
    ensures ReadVarint(start) == Bad(rest)
  {
  }

  lemma SkipDrops(data: seq<Byte>, i: nat)
    requires i < |data| && SkipVarint(data) == SkipVarint(data[i..])
    ensures data[i] < 128 ==> SkipVarint(data) == Some(data[i + 1..])
    ensures data[i] >= 128 ==> SkipVarint(data) == SkipVarint(data[i + 1..])
  {
    assert data[i..][1..] == data[i + 1..];
  }

  class IStream {
    const buf: array<Byte>
    var state: nat
    var bytesLeft: nat

    ghost predicate Valid()
      reads this, buf
    {
      state + bytesLeft <= buf.Length
    }

    /** What has not been read. */
    ghost function Rest(): (s: seq<Byte>)
      reads this, buf
      requires Valid()
      ensures |s| == bytesLeft
    {
      buf[state..state + bytesLeft]
    }

    constructor (buf: array<Byte>)
      ensures Valid() && this.buf == buf && Rest() == buf[..]
    {
      this.buf, state, bytesLeft := buf, 0, buf.Length;
    }

    method Read(count: nat) returns (ok: bool, bytes: seq<Byte>)
      requires Valid()
      modifies this
      ensures Valid()
      ensures ok == (count <= |old(Rest())|)
      ensures ok ==> bytes == old(Rest())[..count] && Rest() == old(Rest())[count..]
      ensures !ok ==> Rest() == old(Rest())
    {
      if bytesLeft < count { return false, []; }
      bytes := buf[state..state + count];
      state := state + count;
      bytesLeft := bytesLeft - count;
      ok := true;
    }

    /** Seven bits a byte, for as long as they start below bit 64; what is shifted out of a word is lost. */
    method DecodeVarint() returns (ok: bool, dest: nat)
      requires Valid()
      modifies this
      ensures Valid() && ok == ReadVarint(old(Rest())).Ok? && Rest() == ReadVarint(old(Rest())).rest
      ensures ok ==> dest == ReadVarint(old(Rest())).value
    {
      hide Reading, ReadVarint, Digit, OrShifted, Rest, Valid;
      ghost var start := Rest();
      ghost var acc: nat, k: nat := 0, 0;
      var bitpos: nat := 0;
      dest := 0;
      ReadingStarts(start);
      while bitpos < 64
        invariant Valid() && bitpos == 7 * k && k <= 10 && Reading(start, acc, k, dest, Rest())
      {
        ghost var rest := Rest();
        var more, byte := Read(1);
        if !more {
          OutOfBytes(start, acc, k, dest, rest);
          return false, dest;
        }
        assert byte == [rest[0]];
        ReadsDigit(start, acc, k, dest, rest);
        dest := OrShifted(dest, byte[0], bitpos);
        bitpos := bitpos + 7;
        if byte[0] < 128 { return true, dest; }
        acc, k := acc + Digit(byte[0] % 128, k), k + 1;
      }
      OutOfBytes(start, acc, k, dest, Rest());
      ok := false;
    }

    method DecodeVarint32() returns (ok: bool, dest: nat)
      requires Valid()
      modifies this
      ensures Valid() && ok == ReadVarint32(old(Rest())).Ok? && Rest() == ReadVarint32(old(Rest())).rest
      ensures ok ==> dest == ReadVarint32(old(Rest())).value
    {
      hide ReadVarint;
      var temp;
      ok, temp := DecodeVarint();
      dest := temp % WORD32;
    }

    method SkipVarint() returns (ok: bool)
      requires Valid()
      modifies this
      ensures Valid() && ok == Protobuf.SkipVarint(old(Rest())).Some?
      ensures ok ==> Some(Rest()) == Protobuf.SkipVarint(old(Rest()))
    {
      ghost var start := Rest();
      ghost var i := 0;
      while true
        invariant Valid() && i <= |start| && Rest() == start[i..]
        invariant Protobuf.SkipVarint(start) == Protobuf.SkipVarint(start[i..])
        decreases bytesLeft
      {
        var more, byte := Read(1);
        if !more { return false; }
        SkipDrops(start, i);
        i := i + 1;
        if byte[0] < 128 { return true; }
      }
    }

    method SkipString() returns (ok: bool)
      requires Valid()
      modifies this
      ensures Valid() && ok == Protobuf.Skip(2, old(Rest())).Some?
      ensures ok ==> Some(Rest()) == Protobuf.Skip(2, old(Rest()))
    {
      hide ReadVarint32, Rest, Valid;
      var length, bytes;
      ok, length := DecodeVarint32();
      if ok { ok, bytes := Read(length); }
    }

    method Skip(wireType: nat) returns (ok: bool)
      requires Valid()
      modifies this
      ensures Valid() && ok == Protobuf.Skip(wireType, old(Rest())).Some?
      ensures ok ==> Some(Rest()) == Protobuf.Skip(wireType, old(Rest()))
    {
      hide ReadVarint32, Protobuf.SkipVarint, Rest, Valid;
      var bytes;
      match wireType
      case 0 => ok := SkipVarint();
      case 1 => ok, bytes := Read(8);
      case 2 => ok := SkipString();
      case 5 => ok, bytes := Read(4);
      case _ => ok := false;
    }

    /** The decoders of the field types; a byte string sets its size before its length is checked. */
    method DecodeValue(f: Field) returns (ok: bool, v: Value)
      requires Valid() && GoodField(f)
      modifies this
      ensures Valid() && ok == Protobuf.DecodeValue(f, old(Rest())).Ok?
      ensures ok ==> v == Protobuf.DecodeValue(f, old(Rest())).value && Rest() == Protobuf.DecodeValue(f, old(Rest())).rest
    {
      hide ReadVarint, ReadVarint32, Rest, Valid;
      var n, bytes;
      match f.ltype
      case VarintType =>
        ok, n := DecodeVarint();
        v := Num(n % Room(f.size));
      case SVarintType =>
        ok, n := DecodeVarint();
        v := Num(if ok then UnZigZag(n, Room(f.size)) else 0);
      case Fixed32 =>
        ok, bytes := Read(4);
        v := Blob(bytes);
      case Fixed64 =>
        ok, bytes := Read(8);
        v := Blob(bytes);
      case BytesType =>
        ok, n := DecodeVarint32();
        v := Blob([]);
        if ok && n > f.size {
          ok := false;
        } else if ok {
          ok, bytes := Read(n);
          v := Blob(bytes);
        }
    }
  }

  /** Fields other than those from i up to current, going round from i. */
  predicate TriedFrom(fields: seq<Field>, i: nat, current: nat, tag: nat) {
    forall j {:trigger fields[j]} :: 0 <= j < |fields| && (if i <= current then i <= j < current else i <= j || j < current) ==> fields[j].tag != tag
  }

  /** pb_field_iterator_t: it stays where the last field was found, and the next search starts there. */
  class FieldIterator {
    const fields: seq<Field>
    var fieldIndex: nat

    predicate Valid()
      reads this
    {
      fieldIndex < |fields|
    }

    constructor (fields: seq<Field>)
      requires fields != []
      ensures Valid() && this.fields == fields && fieldIndex == 0
    {
      this.fields, fieldIndex := fields, 0;
    }

    method Next() returns (notWrapped: bool)
      requires Valid()
      modifies this
      ensures Valid() && fieldIndex == (if old(fieldIndex) + 1 == |fields| then 0 else old(fieldIndex) + 1)
      ensures notWrapped == (fieldIndex != 0)
    {
      fieldIndex := fieldIndex + 1;
      notWrapped := true;
      if fieldIndex == |fields| {
        fieldIndex := 0;
        notWrapped := false;
      }
    }

    /** Wherever the search starts, the field with the tag is found, if there is one. */
    method Find(tag: nat) returns (found: bool)
      requires Valid() && Fields(fields)
      modifies this
      ensures Valid() && found == (Protobuf.Find(fields, tag) < |fields|)
      ensures fieldIndex == if found then Protobuf.Find(fields, tag) else old(fieldIndex)
    {
      hide GoodField;
      var start := fieldIndex;
      if fields[fieldIndex].tag == tag {
        FindsField(fields, fieldIndex);
        return true;
      }
      var _ := Next();
      while fieldIndex != start
        invariant Valid() && fields[start].tag != tag && (fieldIndex != start ==> TriedFrom(fields, start, fieldIndex, tag))
        invariant fieldIndex == start ==> forall j {:trigger fields[j]} :: 0 <= j < |fields| ==> fields[j].tag != tag
        decreases if fieldIndex < start then start - fieldIndex else if fieldIndex == start then 0 else |fields| - fieldIndex + start
      {
        if fields[fieldIndex].tag == tag {
          FindsField(fields, fieldIndex);
          return true;
        }
        var _ := Next();
      }
      found := false;
    }
  }

  /* Messages in memory. */

  /** What the structure holds: required fields always, optional ones if their flag is set. */
  function Stored(fields: seq<Field>, has: seq<bool>, values: seq<Value>): (m: Message)
    requires |has| == |values| == |fields|
    ensures |m| == |fields|
  {
    seq(|fields|, i requires 0 <= i < |fields| => if fields[i].required || has[i] then Some(values[i]) else None)
  }

  /** The same while decoding, when required fields count once they are seen. */
  function Loaded(fields: seq<Field>, seen: set<nat>, has: seq<bool>, values: seq<Value>): (m: Message)
    requires |has| == |values| == |fields|
    ensures |m| == |fields|
  {
    seq(|fields|, i requires 0 <= i < |fields| =>
      if (if fields[i].required then i in seen else has[i]) then Some(values[i]) else None)
  }

  lemma LoadedNothing(fields: seq<Field>, has: seq<bool>, values: seq<Value>)
    requires |has| == |values| == |fields|
    requires forall i {:trigger has[i]} :: 0 <= i < |fields| ==> fields[i].required || !has[i]
    ensures Loaded(fields, {}, has, values) == Nothing(fields)
  {
  }

  lemma LoadedMore(fields: seq<Field>, seen: set<nat>, has: seq<bool>, values: seq<Value>, i: nat, v: Value)
    requires |has| == |values| == |fields| && i < |fields|
    ensures Loaded(fields, seen + {i}, if fields[i].required then has else has[i := true], values[i := v])
         == Loaded(fields, seen, has, values)[i := Some(v)]
  {
  }

  lemma LoadedIsStored(fields: seq<Field>, seen: set<nat>, has: seq<bool>, values: seq<Value>)
    requires |has| == |values| == |fields|
    ensures HasRequired(fields, Loaded(fields, seen, has, values)) <==> forall i {:trigger fields[i]} :: 0 <= i < |fields| && fields[i].required ==> i in seen
    ensures HasRequired(fields, Loaded(fields, seen, has, values)) ==> Loaded(fields, seen, has, values) == Stored(fields, has, values)
  {
    var m := Loaded(fields, seen, has, values);
    forall i {:trigger fields[i]} | 0 <= i < |fields| && fields[i].required ensures m[i].Some? <==> i in seen {}
    if HasRequired(fields, m) {
      assert forall i {:trigger m[i]} :: 0 <= i < |m| ==> m[i] == Stored(fields, has, values)[i];
    }
  }

  /** The structure a message is decoded into. */
  class Record {
    const has: array<bool>
    const values: array<Value>

    predicate Valid(fields: seq<Field>) {
      has.Length == values.Length == |fields|
    }

    constructor (n: nat, zero: Value)
      ensures has.Length == values.Length == n && fresh(has) && fresh(values)
    {
      has := new bool[n];
      values := new Value[n](_ => zero);
    }

    /** pb_message_set_to_defaults */
    method SetToDefaults(fields: seq<Field>)
      requires Valid(fields) && fields != []
      modifies has
      ensures Loaded(fields, {}, has[..], values[..]) == Nothing(fields)
    {
      var iter := new FieldIterator(fields);
      var more := true;
      while more
        invariant iter.Valid() && iter.fields == fields && fresh(iter)
        invariant forall i {:trigger has[i]} :: 0 <= i < (if more then iter.fieldIndex else |fields|) ==> fields[i].required || !has[i]
        decreases if more then |fields| - iter.fieldIndex else 0
      {
        if !fields[iter.fieldIndex].required { has[iter.fieldIndex] := false; }
        more := iter.Next();
      }
      LoadedNothing(fields, has[..], values[..]);
    }

    /** decode_field: an optional field is flagged before it is decoded. */
    method DecodeField(stream: IStream, fields: seq<Field>, i: nat) returns (ok: bool)
      requires stream.Valid() && Valid(fields) && i < |fields| && GoodField(fields[i])
      modifies stream, has, values
      ensures stream.Valid() && ok == Protobuf.DecodeValue(fields[i], old(stream.Rest())).Ok?
      ensures ok ==> stream.Rest() == Protobuf.DecodeValue(fields[i], old(stream.Rest())).rest
      ensures ok ==> values[..] == old(values[..])[i := Protobuf.DecodeValue(fields[i], old(stream.Rest())).value]
      ensures has[..] == if fields[i].required then old(has[..]) else old(has[..])[i := true]
    {
      hide Protobuf.DecodeValue, GoodField;
      if !fields[i].required { has[i] := true; }
      var v;
      ok, v := stream.DecodeValue(fields[i]);
      values[i] := v;
    }

    /** pb_decode */
    method Decode(stream: IStream, fields: seq<Field>) returns (ok: bool)
      requires stream.Valid() && Valid(fields) && fields != [] && Fields(fields)
      modifies stream, has, values
      ensures stream.Valid() && ok == Protobuf.Decode(fields, Nothing(fields), old(stream.Rest())).Decoded?
      ensures ok ==> Protobuf.Decode(fields, Nothing(fields), old(stream.Rest())) == Decoded(Stored(fields, has[..], values[..]), stream.Rest())
    {
      hide ReadVarint32, Protobuf.Skip, Protobuf.Find, Protobuf.DecodeValue, Loaded, Nothing, GoodField, HasRequired, Stored, IStream.Rest, IStream.Valid;
      ghost var start := stream.Rest();
      var seen: set<nat> := {};
      SetToDefaults(fields);
      var iter := new FieldIterator(fields);
      while stream.bytesLeft != 0
        invariant stream.Valid() && iter.Valid() && iter.fields == fields && fresh(iter)
        invariant Protobuf.Decode(fields, Nothing(fields), start)
               == Protobuf.Decode(fields, Loaded(fields, seen, has[..], values[..]), stream.Rest())
        decreases stream.bytesLeft
      {
        var read, t := stream.DecodeVarint32();
        if !read && stream.bytesLeft == 0 { break; }
        if !read { return false; }
        if t == 0 { break; }
        var found := iter.Find(t / 8);
        if !found {
          var skipped := stream.Skip(t % 8);
          if !skipped { return false; }
          continue;
        }
        var i := iter.fieldIndex;
        ghost var r := Protobuf.DecodeValue(fields[i], stream.Rest());
        if r.Ok? { LoadedMore(fields, seen, has[..], values[..], i, r.value); }
        seen := seen + {i % 32};
        var fieldOk := DecodeField(stream, fields, i);
        if !fieldOk { return false; }
      }
      ok := Complete(fields, seen);
      LoadedIsStored(fields, seen, has[..], values[..]);
    }

    /** Required fields were all seen. */
    static method Complete(fields: seq<Field>, seen: set<nat>) returns (ok: bool)
      requires |fields| <= 32
      ensures ok <==> forall i {:trigger fields[i]} :: 0 <= i < |fields| && fields[i].required ==> i in seen
    {
      for i := 0 to |fields|
        invariant forall j {:trigger fields[j]} :: 0 <= j < i && fields[j].required ==> j in seen
      {
        if fields[i].required && i % 32 !in seen { return false; }
      }
      ok := true;
    }
  }
}
