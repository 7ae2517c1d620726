/** pb_encode.c on buffer streams, in place. */
module PbOutput {
  import opened Bits
  import opened Protobuf
  import opened PbStream

  /** (value & 0x7F) | 0x80 */
  function Septet(v: nat): Byte {
    128 + v % 128
  }

  /** The bytes of a varint before the top bit of the last one is unset; none for zero. */
  function Marked(v: nat): seq<Byte> {
    if v == 0 then [] else [Septet(v)] + Marked(v / 128)
  }

  lemma {:induction false} Unmarked(v: nat)
    requires v > 0
    ensures |Marked(v)| > 0 && Marked(v)[|Marked(v)| - 1] >= 128
    ensures Varint(v) == Marked(v)[|Marked(v)| - 1 := Marked(v)[|Marked(v)| - 1] % 128]
    decreases v
  {
    if v >= 128 {
      Unmarked(v / 128);
      var m := Marked(v / 128);
      assert ([128 + v % 128] + m)[|m| := m[|m| - 1] % 128] == [128 + v % 128] + m[|m| - 1 := m[|m| - 1] % 128];
    } else {
      assert Marked(v) == [128 + v];
    }
  }

  lemma AtMostTen(v: nat)
    requires 0 < v < WORD64
    ensures |Marked(v)| <= 10
  {
    hide Marked, Varint, Pow128;
    TenBytes();
    VarintLength(v, 10);
    Unmarked(v);
  }

  lemma MarksNext(out: seq<Byte>, left: nat)
    requires left > 0
    ensures out + Marked(left) == out + [Septet(left)] + Marked(left / 128) && |Marked(left)| > 0
  {
    hide Marked, Septet;
    MarksOne(left);
    Associates(out, [Septet(left)], Marked(left / 128));
  }

  lemma MarksOne(left: nat)
    requires left > 0
    ensures Marked(left) == [Septet(left)] + Marked(left / 128)
  {
    hide Septet;
  }

  lemma Associates<T>(a: seq<T>, b: seq<T>, c: seq<T>)
    ensures a + (b + c) == a + b + c
  {
  }

  lemma MarksNothing()
    ensures Marked(0) == []
  {
  }

  lemma {:induction false} EncodeGrows(fields: seq<Field>, m: Message, n: nat, all: nat)
    requires Fields(fields) && GoodMessage(fields, m) && n <= all <= |fields|
    ensures |Encode(fields, m, n)| <= |Encode(fields, m, all)|
  {
    hide FieldBytes, Fields, GoodMessage;
    if n < all { EncodeGrows(fields, m, n, all - 1); }
  }

  class OStream {
    const buf: array<Byte>
    const maxSize: nat
    var bytesWritten: nat

    ghost predicate Valid()
      reads this
    {
      bytesWritten <= maxSize == buf.Length
    }

    ghost function Written(): (s: seq<Byte>)
      reads this, buf
      requires Valid()
      ensures |s| == bytesWritten
    {
      buf[..bytesWritten]
    }

    constructor (buf: array<Byte>)
      ensures Valid() && this.buf == buf && maxSize == buf.Length && Written() == []
    {
      this.buf, maxSize, bytesWritten := buf, buf.Length, 0;
    }

    /** pb_write */
    method Write(bytes: seq<Byte>) returns (ok: bool)
      requires Valid()
      modifies this, buf
      ensures Valid() && ok == (|old(Written())| + |bytes| <= maxSize)
      ensures Written() == if ok then old(Written()) + bytes else old(Written())
    {
      if bytesWritten + |bytes| > maxSize { return false; }
      ghost var before := Written();
      for i := 0 to |bytes|
        invariant Valid() && bytesWritten == old(bytesWritten) && buf[..bytesWritten + i] == before + bytes[..i]
      {
        buf[bytesWritten + i] := bytes[i];
        assert buf[..bytesWritten + i] == before + bytes[..i];
      }
      bytesWritten := bytesWritten + |bytes|;
      ok := true;
    }

    /** pb_encode_varint */
    method EncodeVarint(v: nat) returns (ok: bool)
      requires Valid() && v < WORD64
      modifies this, buf
      ensures Valid() && ok == (|old(Written())| + |Varint(v)| <= maxSize)
      ensures Written() == if ok then old(Written()) + Varint(v) else old(Written())
    {
      if v == 0 {
        ok := Write([0]);
      } else {
        var bytes := FillBuffer(v);
        ok := Write(bytes);
      }
    }

    /** The loop of pb_encode_varint, which never needs an eleventh byte. */
    static method FillMarked(v: nat) returns (buffer: array<Byte>, i: nat)
      requires 0 < v < WORD64
      ensures fresh(buffer) && i <= buffer.Length == 10 && buffer[..i] == Marked(v)
    {
      hide Marked, Septet;
      AtMostTen(v);
      buffer := new Byte[10](_ => 0);
      i := 0;
      var value := v;
      assert buffer[..0] + Marked(v) == Marked(v);
      while value != 0
        invariant i <= 10 && buffer[..i] + Marked(value) == Marked(v)
        decreases value
      {
        ghost var out := buffer[..i];
        MarksNext(out, value);
        assert i + |Marked(value)| == |Marked(v)|;
        buffer[i] := Septet(value);
        assert buffer[..i + 1] == out + [Septet(value)];
        value := value / 128;
        i := i + 1;
      }
      MarksNothing();
      assert buffer[..i] == Marked(v);
    }

    static method FillBuffer(v: nat) returns (bytes: seq<Byte>)
      requires 0 < v < WORD64
      ensures bytes == Varint(v)
    {
      hide Marked, Varint;
      var buffer, i := FillMarked(v);
      Unmarked(v);
      buffer[i - 1] := buffer[i - 1] % 128;
      bytes := buffer[..i];
      assert bytes == Marked(v)[i - 1 := Marked(v)[i - 1] % 128];
    }

    /** pb_encode_tag_for_field */
    method EncodeTag(f: Field) returns (ok: bool)
      requires Valid() && GoodField(f)
      modifies this, buf
      ensures Valid() && ok == (|old(Written())| + |Varint(WireType(f.ltype) + 8 * f.tag)| <= maxSize)
      ensures Written() == if ok then old(Written()) + Varint(WireType(f.ltype) + 8 * f.tag) else old(Written())
    {
      hide Written, Valid, Varint;
      ok := EncodeVarint(WireType(f.ltype) + 8 * f.tag);
    }

    /** pb_encode_string */
    method EncodeString(bytes: seq<Byte>) returns (ok: bool)
      requires Valid() && |bytes| < WORD64
      modifies this, buf
      ensures Valid() && ok == (|old(Written())| + |Varint(|bytes|) + bytes| <= maxSize)
      ensures ok ==> Written() == old(Written()) + (Varint(|bytes|) + bytes)
    {
      hide Valid, Varint;
      ok := EncodeVarint(|bytes|);
      if ok {
        ok := Write(bytes);
        assert old(Written()) + Varint(|bytes|) + bytes == old(Written()) + (Varint(|bytes|) + bytes);
      }
    }

    /** The encoders of the field types. */
    method EncodeValue(f: Field, v: Value) returns (ok: bool)
      requires Valid() && GoodField(f) && Fits(f, v)
      modifies this, buf
      ensures Valid() && ok == (|old(Written())| + |Protobuf.EncodeValue(f, v)| <= maxSize)
      ensures ok ==> Written() == old(Written()) + Protobuf.EncodeValue(f, v)
    {
      hide Valid, Written, Varint;
      match f.ltype
      case VarintType => ok := EncodeVarint(v.n);
      case SVarintType =>
        ZigZagRoundTrip(v.n, f.size);
        ok := EncodeVarint(ZigZag(v.n, Room(f.size)));
      case Fixed32 => ok := Write(v.bytes);
      case Fixed64 => ok := Write(v.bytes);
      case BytesType => ok := EncodeString(v.bytes);
    }

    method EncodeField(f: Field, v: Value) returns (ok: bool)
      requires Valid() && GoodField(f) && Fits(f, v)
      modifies this, buf
      ensures Valid() && ok == (|old(Written())| + |FieldBytes(f, v)| <= maxSize)
      ensures ok ==> Written() == old(Written()) + FieldBytes(f, v)
    {
      hide Valid, Varint, Protobuf.EncodeValue, GoodField, Fits;
      ok := EncodeTag(f);
      if ok { ok := EncodeValue(f, v); }
    }

    /** pb_encode: it fails exactly when the message does not fit, and otherwise writes its bytes. */
    method Encode(fields: seq<Field>, src: Record) returns (ok: bool)
      requires Valid() && src.Valid(fields) && Fields(fields)
      requires GoodMessage(fields, Stored(fields, src.has[..], src.values[..]))
      modifies this, buf
      ensures var bytes := Protobuf.Encode(fields, old(Stored(fields, src.has[..], src.values[..])), |fields|);
              && Valid() && ok == (|old(Written())| + |bytes| <= maxSize)
              && (ok ==> Written() == old(Written()) + bytes)
    {
      hide FieldBytes, Fields, GoodMessage, Fits, GoodField, Stored;
      ghost var m := Stored(fields, src.has[..], src.values[..]);
      for i := 0 to |fields|
        invariant Valid() && Written() == old(Written()) + Protobuf.Encode(fields, m, i)
      {
        EncodeGrows(fields, m, i + 1, |fields|);
        StoredAt(fields, src.has[..], src.values[..], i);
        if fields[i].required || src.has[i] {
          GoodFieldAt(fields, m, i);
          var done := EncodeField(fields[i], src.values[i]);
          if !done { return false; }
        }
      }
      ok := true;
    }
  }

  lemma StoredAt(fields: seq<Field>, has: seq<bool>, values: seq<Value>, i: nat)
    requires |has| == |values| == |fields| && i < |fields|
    ensures Stored(fields, has, values)[i] == if fields[i].required || has[i] then Some(values[i]) else None
  {
  }

  lemma GoodFieldAt(fields: seq<Field>, m: Message, i: nat)
    requires Fields(fields) && GoodMessage(fields, m) && i < |m| && m[i].Some?
    ensures GoodField(fields[i]) && Fits(fields[i], m[i].value)
  {
  }

  /** The request of sacd_net_input_read: whatever sectors are asked for, it fits the buffer of 16 bytes,
      and decoding what is sent gives back the request. */
  method ReadRequest(pos: nat, blocks: nat) returns (sent: seq<Byte>)
    requires pos < WORD32 && blocks < WORD32
    ensures |sent| <= 15 && sent == [8, 3, 16] + Varint(pos) + [24] + Varint(blocks) + [0]
    ensures Protobuf.Decode(REQUEST_FIELDS, Nothing(REQUEST_FIELDS), sent)
         == Decoded([Some(Num(DISC_READ)), Some(Num(pos)), Some(Num(blocks))], [])
  {
    hide Protobuf.Encode, Protobuf.Decode, GoodMessage, Fields, Varint;
    var outputBuf := new Byte[16](_ => 0);
    var request := new Record(3, Num(0));
    var output := new OStream(outputBuf);
    request.values[0], request.values[1], request.values[2] := Num(DISC_READ), Num(pos), Num(blocks);
    ghost var m := [Some(Num(DISC_READ)), Some(Num(pos)), Some(Num(blocks))];
    assert Stored(REQUEST_FIELDS, request.has[..], request.values[..]) == m;
    ReadRequestFits(pos, blocks);
    var ok := output.Encode(REQUEST_FIELDS, request);
    ok := output.Write([0]);
    sent := output.buf[..output.bytesWritten];
    RoundTrip(REQUEST_FIELDS, m, []);
    RequestBytes(pos, blocks);
    assert sent == Protobuf.Encode(REQUEST_FIELDS, m, 3) + [0] + [];
  }
}
