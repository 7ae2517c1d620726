/** ID3v2 tags as id3.c writes them and id3_tag.c and id3_frame.c read them from memory. */
module Id3 {
  import opened Bits

  /* Sizes. */

  /** The four bytes of ID3_SET_SIZE28. */
  function SetSize28(size: nat): (s: seq<Byte>)
    ensures |s| == 4
  {
    [size / 0x80_0000 % 256, size / 0x8000 % 256, size / 0x80 % 256, size % 0x80]
  }

  function GetSize28(s: seq<Byte>): nat
    requires |s| == 4
  {
    (s[0] as int) % 128 * 0x20_0000 + (s[1] as int) % 128 * 0x4000 + (s[2] as int) % 128 * 0x80 + (s[3] as int) % 128
  }

  /** The plain number the frame reader makes of four size bytes. */
  function BigEndian(s: seq<Byte>): nat
    requires |s| == 4
  {
    (s[0] as int) * 0x100_0000 + (s[1] as int) * 0x1_0000 + (s[2] as int) * 0x100 + (s[3] as int)
  }

  /** The bytes of a tag size are too big by a bit each: the pair is no inverse beyond 14 bits, and what is
      read is then less than what was written. */
  lemma Size28RoundTrip(size: nat)
    requires size < 0x8000_0000
    ensures GetSize28(SetSize28(size)) == size <==> size < 0x4000
    ensures GetSize28(SetSize28(size)) <= size
  {
    SizeParts(size);
    HighBytes(size / 0x4000);
  }

  lemma SizeParts(size: nat)
    ensures var t := size / 0x4000;
            GetSize28(SetSize28(size)) == (t / 512 % 256 % 128 * 128 + t / 2 % 256 % 128) * 0x4000 + size % 0x4000
  {
    HighParts(size);
    LowParts(size);
  }

  lemma HighParts(size: nat)
    ensures size / 0x8000 == size / 0x4000 / 2 && size / 0x80_0000 == size / 0x4000 / 512
  {
  }

  lemma LowParts(size: nat)
    ensures size / 0x80 % 256 % 128 * 0x80 + size % 0x80 == size % 0x4000
  {
    var q := size / 0x80;
    assert q % 256 % 128 == q % 128;
    assert q == 128 * (q / 128) + q % 128;
  }

  lemma HighBytes(t: nat)
    ensures t / 512 % 256 % 128 * 128 + t / 2 % 256 % 128 <= t
    ensures t > 0 ==> t / 512 % 256 % 128 * 128 + t / 2 % 256 % 128 < t
  {
    var a, r := t / 512, t % 512;
    assert t / 2 == 256 * a + r / 2;
    assert t / 2 % 256 == r / 2;
  }

  /** The frame reader does not undo the writer's sizes: only those below 128 are read as written. */
  lemma FrameSizeRoundTrip(size: nat)
    requires size < 0x8000_0000
    ensures BigEndian(SetSize28(size)) == size <==> size < 128
  {
    BytesOfQuotient(size / 0x80);
    Quotients(size);
  }

  lemma BytesOfQuotient(q: nat)
    requires q < 0x100_0000
    ensures q / 0x1_0000 % 256 * 0x1_0000 + q / 256 % 256 * 256 + q % 256 == q
  {
  }

  lemma Quotients(size: nat)
    ensures size / 0x8000 == size / 0x80 / 256 && size / 0x80_0000 == size / 0x80 / 0x1_0000
  {
  }

  function Pair(high: Byte, low: Byte): nat {
    (high as int) * 256 + (low as int)
  }

  /* Frames. */

  datatype Id = Id(a: Byte, b: Byte, c: Byte, d: Byte)

  /** ID3_FRAME_ID */
  function Number(id: Id): nat {
    ((id.a * 256 + id.b) * 256 + id.c) * 256 + id.d
  }

  lemma NumberIsId(x: Id, y: Id)
    requires Number(x) == Number(y)
    ensures x == y
  {
    SameQuotient((x.a * 256 + x.b) * 256 + x.c, x.d, (y.a * 256 + y.b) * 256 + y.c, y.d);
    SameQuotient(x.a * 256 + x.b, x.c, y.a * 256 + y.b, y.c);
    SameQuotient(x.a, x.b, y.a, y.b);
  }

  lemma SameQuotient(p: nat, x: Byte, q: nat, y: Byte)
    requires p * 256 + x == q * 256 + y
    ensures p == q && x == y
  {
  }

  datatype Frame = Frame(id: Id, flags: nat, raw: seq<Byte>)

  /** Neither compressed, encrypted nor grouped. */
  predicate Plain(flags: nat) {
    flags < 0x1_0000 && flags / 0x20 % 8 == 0
  }

  const FD_BUFSIZE := 8192
  const MAX_RAW := 1000000

  predicate LegalStart(b: Byte) {
    48 <= b <= 57 || 65 <= b <= 90
  }

  /** find_frame_description: the first description with this number, or |descs|. */
  function Find(descs: seq<Id>, number: nat): (i: nat)
    ensures i <= |descs|
    ensures i < |descs| ==> Number(descs[i]) == number
    ensures i == |descs| ==> forall j {:trigger descs[j]} :: 0 <= j < |descs| ==> Number(descs[j]) != number
  {
    if descs == [] then 0 else if Number(descs[0]) == number then 0 else 1 + Find(descs[1..], number)
  }

  /** find_v24_id */
  function FindV24(v22: seq<(nat, nat)>, number: nat): nat {
    if v22 == [] then 0 else if v22[0].0 == number then v22[0].1 else FindV24(v22[1..], number)
  }

  /** The tables: descriptions start with a legal letter, and what 2.2 ids turn into is described. */
  datatype Tables = Tables(descs: seq<Id>, v22: seq<(nat, nat)>)

  predicate GoodTables(t: Tables) {
    && (forall i {:trigger t.descs[i]} :: 0 <= i < |t.descs| ==> LegalStart(t.descs[i].a))
    && (forall i {:trigger t.v22[i]} :: 0 <= i < |t.v22| && t.v22[i].1 != 0 ==> Find(t.descs, t.v22[i].1) < |t.descs|)
  }

  lemma {:induction false} V24IsDescribed(t: Tables, v22: seq<(nat, nat)>, number: nat)
    requires forall i {:trigger v22[i]} :: 0 <= i < |v22| && v22[i].1 != 0 ==> Find(t.descs, v22[i].1) < |t.descs|
    requires FindV24(v22, number) != 0
    ensures Find(t.descs, FindV24(v22, number)) < |t.descs|
    decreases |v22|
  {
    if v22[0].0 != number { V24IsDescribed(t, v22[1..], number); }
  }

  /** What one read from memory gives: a value, an error, or bytes past the memory the caller passed. */
  datatype Outcome<+T> = Got(value: T) | Failed | Undefined

  /** The frames one call reads, none or one, and how much of the tag it takes. */
  datatype Step = Step(frames: seq<Frame>, taken: nat)

  /** The body of a frame after its header: bodies over the buffer size are refused. */
  function ReadBody(id: Id, flags: nat, mem: seq<Byte>, left: nat, header: nat, size: nat): (r: Outcome<Step>)
    requires header <= left && header <= |mem|
    ensures r.Got? ==> header <= r.value.taken <= left && r.value.taken <= |mem|
  {
    if header + size > left || size > FD_BUFSIZE then Failed
    else if header + size > |mem| then Undefined
    else Got(Step([Frame(id, flags, mem[header..header + size])], header + size))
  }

  /** id3_read_frame: the next frame of a tag with `left` bytes to go. An id that cannot start a frame is
      padding, to the end of the tag; a frame that is not described is passed over. */
  function ReadFrame(t: Tables, mem: seq<Byte>, left: nat): (r: Outcome<Step>)
    ensures r.Got? ==> 0 < r.value.taken <= left
  {
    if left < 10 then Failed
    else if |mem| < 10 then Undefined
    else if !LegalStart(mem[0]) then Got(Step([], left))
    else
      var size := BigEndian(mem[4..8]);
      if size > MAX_RAW then Failed
      else
        var i := Find(t.descs, Number(Id(mem[0], mem[1], mem[2], mem[3])));
        if i == |t.descs| then (if 10 + size > left then Failed else Got(Step([], 10 + size)))
        else ReadBody(t.descs[i], Pair(mem[8], mem[9]), mem, left, 10, size)
  }

  /** id3_read_frame_v22 */
  function ReadFrameV22(t: Tables, mem: seq<Byte>, left: nat): (r: Outcome<Step>)
    requires GoodTables(t)
    ensures r.Got? ==> 0 < r.value.taken <= left
  {
    if left < 6 then Failed
    else if |mem| < 6 then Undefined
    else if !LegalStart(mem[0]) then Got(Step([], left))
    else
      var size := BigEndian([0] + mem[3..6]);
      var number := FindV24(t.v22, BigEndian([0] + mem[..3]));
      if number == 0 then (if 6 + size > left then Failed else Got(Step([], 6 + size)))
      else if size > MAX_RAW then Failed
      else
        V24IsDescribed(t, t.v22, BigEndian([0] + mem[..3]));
        ReadBody(t.descs[Find(t.descs, number)], 0, mem, left, 6, size)
  }

  function ReadAnyFrame(t: Tables, version: nat, mem: seq<Byte>, left: nat): (r: Outcome<Step>)
    requires GoodTables(t)
    ensures r.Got? ==> 0 < r.value.taken <= left
  {
    if version == 2 then ReadFrameV22(t, mem, left) else ReadFrame(t, mem, left)
  }

  function Beyond(mem: seq<Byte>, n: nat): seq<Byte> {
    if n <= |mem| then mem[n..] else []
  }

  /** The loop of id3_read_tag. */
  function ReadFrames(t: Tables, version: nat, mem: seq<Byte>, left: nat): Outcome<seq<Frame>>
    requires GoodTables(t)
    decreases left
  {
    if left == 0 then Got([])
    else match ReadAnyFrame(t, version, mem, left)
         case Failed => Failed
         case Undefined => Undefined
         case Got(step) =>
           match ReadFrames(t, version, Beyond(mem, step.taken), left - step.taken)
           case Failed => Failed
           case Undefined => Undefined
           case Got(more) => Got(step.frames + more)
  }

  datatype Tag = Tag(version: Byte, revision: Byte, flags: Byte, frames: seq<Frame>)

  /** What the tag header says, the bytes its frames have, and the memory they start at. */
  datatype Header = Header(version: Byte, revision: Byte, flags: Byte, left: nat, ahead: seq<Byte>)

  predicate Extended(flags: Byte) {
    flags / 0x40 % 2 == 1
  }

  /** The start of id3_read_tag, with or without the check for "ID3". An extended header's ten bytes are
      passed over. */
  function ReadHeader(check: bool, mem: seq<Byte>): Outcome<Header>
    decreases check
  {
    if check then
      if |mem| < 3 then Undefined else if mem[..3] != MAGIC then Failed else ReadHeader(false, mem[3..])
    else if |mem| < 7 then Undefined
    else
      var size := GetSize28(mem[3..7]);
      var extended := Extended(mem[2]);
      if mem[0] < 2 || mem[0] > 4 || (extended && size < 10) then Failed
      else Got(Header(mem[0], mem[1], mem[2], if extended then size - 10 else size, Beyond(mem, if extended then 17 else 7)))
  }

  /** id3_read_tag from memory */
  function ReadTag(t: Tables, check: bool, mem: seq<Byte>): Outcome<Tag>
    requires GoodTables(t)
  {
    match ReadHeader(check, mem)
    case Failed => Failed
    case Undefined => Undefined
    case Got(h) =>
      match ReadFrames(t, h.version, h.ahead, h.left)
      case Failed => Failed
      case Undefined => Undefined
      case Got(frames) => Got(Tag(h.version, h.revision, h.flags, frames))
  }

  const MAGIC: seq<Byte> := [73, 68, 51]

  /* Writing. */

  function FrameBytes(f: Frame): (s: seq<Byte>)
    requires f.flags < 0x1_0000
    ensures |s| == 10 + |f.raw|
  {
    [f.id.a, f.id.b, f.id.c, f.id.d] + SetSize28(|f.raw|) + [f.flags / 256, f.flags % 256] + f.raw
  }

  predicate Writable(frames: seq<Frame>) {
    forall i {:trigger frames[i]} :: 0 <= i < |frames| ==> frames[i].flags < 0x1_0000
  }

  function FramesBytes(frames: seq<Frame>): seq<Byte>
    requires Writable(frames)
  {
    if frames == [] then [] else FrameBytes(frames[0]) + FramesBytes(frames[1..])
  }

  /** id3_write_tag */
  function TagBytes(tag: Tag): seq<Byte>
    requires Writable(tag.frames)
  {
    MAGIC + [tag.version, tag.revision, tag.flags] + SetSize28(|FramesBytes(tag.frames)|) + FramesBytes(tag.frames)
  }

  /* What is read back. */

  predicate GoodFrame(t: Tables, f: Frame) {
    f.id in t.descs && Plain(f.flags) && |f.raw| < 0x8000_0000
  }

  /** Frames of known ids, and no flags that change where their data is. */
  predicate GoodFrames(t: Tables, frames: seq<Frame>) {
    forall i {:trigger frames[i]} :: 0 <= i < |frames| ==> GoodFrame(t, frames[i])
  }

  predicate Short(frames: seq<Frame>) {
    forall i {:trigger frames[i]} :: 0 <= i < |frames| ==> |frames[i].raw| < 128
  }

  lemma {:induction false} FindsDesc(descs: seq<Id>, id: Id)
    requires id in descs
    ensures Find(descs, Number(id)) < |descs| && descs[Find(descs, Number(id))] == id
    decreases |descs|
  {
    hide Number;
    if Number(descs[0]) == Number(id) {
      NumberIsId(descs[0], id);
    } else {
      FindsDesc(descs[1..], id);
    }
  }

  lemma FrameHeader(f: Frame, rest: seq<Byte>)
    requires f.flags < 0x1_0000
    ensures var mem := FrameBytes(f) + rest;
            && Id(mem[0], mem[1], mem[2], mem[3]) == f.id
            && mem[4..8] == SetSize28(|f.raw|) && Pair(mem[8], mem[9]) == f.flags
            && mem[10..10 + |f.raw|] == f.raw && mem[10 + |f.raw|..] == rest
  {
    hide SetSize28;
    var size := SetSize28(|f.raw|);
    var mem := FrameBytes(f) + rest;
    assert mem == [f.id.a, f.id.b, f.id.c, f.id.d] + (size + ([f.flags / 256, f.flags % 256] + (f.raw + rest)));
    assert mem[4..] == size + ([f.flags / 256, f.flags % 256] + (f.raw + rest));
    assert mem[8..] == [f.flags / 256, f.flags % 256] + (f.raw + rest);
    assert mem[10..] == f.raw + rest;
  }

  /** One frame, at the start of what is left of a tag: it is read as written exactly when its body is below
      128 bytes and what is left holds it. */
  lemma FrameReadsBack(t: Tables, version: nat, f: Frame, rest: seq<Byte>, left: nat)
    requires GoodTables(t) && GoodFrame(t, f) && version != 2
    ensures var r := ReadAnyFrame(t, version, FrameBytes(f) + rest, left);
            && (r.Got? && r.value.frames == [f] <==> |f.raw| < 128 && 10 + |f.raw| <= left)
            && (r.Got? ==> |r.value.frames| == 1)
            && (r.Got? && r.value.frames == [f] ==> r.value.taken == 10 + |f.raw|)
  {
    hide BigEndian, SetSize28, Find, Number, FrameBytes;
    FrameHeader(f, rest);
    FindsDesc(t.descs, f.id);
    FrameSizeRoundTrip(|f.raw|);
  }

  lemma Prepends<T>(step: seq<T>, more: seq<T>, all: seq<T>)
    requires |step| == 1 && all != []
    ensures step + more == all <==> step == [all[0]] && more == all[1..]
  {
    if step + more == all {
      assert step[0] == all[0] && more == (step + more)[1..];
    }
  }

  lemma ReadsNone(t: Tables, version: nat, mem: seq<Byte>)
    requires GoodTables(t)
    ensures ReadFrames(t, version, mem, 0) == Got([])
  {
  }

  /** All frames are read if and only if the first is, and then the others. */
  lemma ReadsFirst(t: Tables, version: nat, mem: seq<Byte>, left: nat, frames: seq<Frame>)
    requires GoodTables(t) && left > 0 && frames != []
    requires ReadAnyFrame(t, version, mem, left).Got? ==> |ReadAnyFrame(t, version, mem, left).value.frames| == 1
    ensures var r := ReadAnyFrame(t, version, mem, left);
            ReadFrames(t, version, mem, left) == Got(frames)
            <==> r.Got? && r.value.frames == [frames[0]]
                 && ReadFrames(t, version, Beyond(mem, r.value.taken), left - r.value.taken) == Got(frames[1..])
  {
    hide ReadAnyFrame, GoodTables, Beyond;
    var r := ReadAnyFrame(t, version, mem, left);
    if r.Got? {
      var more := ReadFrames(t, version, Beyond(mem, r.value.taken), left - r.value.taken);
      if more.Got? { Prepends(r.value.frames, more.value, frames); }
    }
  }

  /** The frames of a tag, when the reader believes `left` bytes are left: they are read back exactly when all
      bodies are below 128 bytes and `left` is their size. */
  lemma {:induction false} FramesReadBack(t: Tables, version: nat, frames: seq<Frame>, rest: seq<Byte>, left: nat)
    requires GoodTables(t) && GoodFrames(t, frames) && Writable(frames) && version != 2
    requires left <= |FramesBytes(frames)|
    ensures ReadFrames(t, version, FramesBytes(frames) + rest, left) == Got(frames)
       <==> Short(frames) && left == |FramesBytes(frames)|
    decreases |frames|
  {
    hide ReadFrames, ReadAnyFrame, FrameBytes, GoodFrame, GoodTables, Beyond, Short;
    if left == 0 {
      ReadsNone(t, version, FramesBytes(frames) + rest);
      NoneIsShort();
    } else {
      var f := frames[0];
      var after := FramesBytes(frames[1..]) + rest;
      var mem := FrameBytes(f) + after;
      assert FramesBytes(frames) + rest == mem;
      FrameReadsBack(t, version, f, after, left);
      ShortSplits(frames);
      ReadsFirst(t, version, mem, left, frames);
      if |f.raw| < 128 && 10 + |f.raw| <= left {
        BeyondFrame(f, after);
        FramesReadBack(t, version, frames[1..], rest, left - 10 - |f.raw|);
      }
    }
  }

  lemma BeyondFrame(f: Frame, after: seq<Byte>)
    requires f.flags < 0x1_0000
    ensures Beyond(FrameBytes(f) + after, 10 + |f.raw|) == after
  {
    hide FrameBytes;
  }

  lemma NoneIsShort()
    ensures Short([])
  {
  }

  lemma ShortSplits(frames: seq<Frame>)
    requires frames != []
    ensures Short(frames) <==> |frames[0].raw| < 128 && Short(frames[1..])
  {
    if |frames[0].raw| < 128 && Short(frames[1..]) {
      forall i {:trigger frames[i]} | 0 <= i < |frames| ensures |frames[i].raw| < 128 {
        if i > 0 { assert frames[i] == frames[1..][i - 1]; }
      }
    }
    if Short(frames) {
      assert forall i {:trigger frames[1..][i]} :: 0 <= i < |frames| - 1 ==> frames[1..][i] == frames[i + 1];
    }
  }

  /** A written tag of known ids is read back as it was exactly when every body is below 128 bytes and all
      frames together are below 16384. */
  lemma TagRoundTrip(t: Tables, tag: Tag, rest: seq<Byte>)
    requires GoodTables(t) && GoodFrames(t, tag.frames) && Writable(tag.frames)
    requires 3 <= tag.version <= 4 && !Extended(tag.flags) && |FramesBytes(tag.frames)| < 0x8000_0000
    ensures ReadTag(t, true, TagBytes(tag) + rest) == Got(tag)
       <==> Short(tag.frames) && |FramesBytes(tag.frames)| < 0x4000
  {
    hide ReadFrames, FramesBytes, SetSize28, GetSize28, GoodFrames, GoodTables, Writable, Short;
    var frames := FramesBytes(tag.frames);
    var size := SetSize28(|frames|);
    Size28RoundTrip(|frames|);
    var mem := TagBytes(tag) + rest;
    assert mem == MAGIC + ([tag.version, tag.revision, tag.flags] + (size + (frames + rest)));
    assert mem[..3] == MAGIC;
    var hdr := mem[3..];
    assert hdr == [tag.version, tag.revision, tag.flags] + (size + (frames + rest));
    assert hdr[3..] == size + (frames + rest);
    assert hdr[3..7] == size;
    assert Beyond(hdr, 7) == frames + rest;
    FramesReadBack(t, tag.version, tag.frames, rest, GetSize28(size));
  }

  /* On paper: a tag with a title, byte by byte. */

  const TIT2 := Id(84, 73, 84, 50)

  lemma KnownFrame(a: Byte, b: Byte)
    ensures FrameBytes(Frame(TIT2, 0, [0, a, b])) == [84, 73, 84, 50, 0, 0, 0, 3, 0, 0, 0, a, b]
  {
  }

  /** A tag of version 2.3 with one frame is these 23 bytes, and they are read as this tag. */
  lemma KnownTag(t: Tables, a: Byte, b: Byte)
    requires GoodTables(t) && TIT2 in t.descs
    ensures var tag := Tag(3, 0, 0, [Frame(TIT2, 0, [0, a, b])]);
            var bytes := [73, 68, 51, 3, 0, 0, 0, 0, 0, 13, 84, 73, 84, 50, 0, 0, 0, 3, 0, 0, 0, a, b];
            Writable(tag.frames) && TagBytes(tag) == bytes && ReadTag(t, true, bytes) == Got(tag)
  {
    hide ReadTag, FrameBytes, GoodTables;
    var frames := [Frame(TIT2, 0, [0, a, b])];
    var tag := Tag(3, 0, 0, frames);
    KnownFrame(a, b);
    assert frames[1..] == [] && FramesBytes([]) == [];
    assert FramesBytes(frames) == FrameBytes(frames[0]);
    assert TagBytes(tag) == [73, 68, 51, 3, 0, 0, 0, 0, 0, 13, 84, 73, 84, 50, 0, 0, 0, 3, 0, 0, 0, a, b];
    TagRoundTrip(t, tag, []);
    assert TagBytes(tag) + [] == TagBytes(tag);
  }

  /** A title of version 2.2, with three bytes of id and of size, is read as one of the id it has become. */
  lemma KnownFrameV22(t: Tables, a: Byte, left: nat)
    requires GoodTables(t) && FindV24(t.v22, 0x545432) == 0x54495432 && left >= 8
    ensures ReadFrameV22(t, [84, 84, 50, 0, 0, 2, 0, a], left) == Got(Step([Frame(TIT2, 0, [0, a])], 8))
  {
    hide Find;
    var mem := [84, 84, 50, 0, 0, 2, 0, a];
    assert [0] + mem[..3] == [0, 84, 84, 50] && [0] + mem[3..6] == [0, 0, 0, 2];
    V24IsDescribed(t, t.v22, 0x545432);
    NumberIsId(t.descs[Find(t.descs, 0x54495432)], TIT2);
    assert mem[6..8] == [0, a];
  }

  /** With the flag for an extended header, ten bytes, whatever they are, stand in front of the frames and count
      for the size. */
  lemma KnownExtended(t: Tables, ten: seq<Byte>, a: Byte, b: Byte)
    requires GoodTables(t) && TIT2 in t.descs && |ten| == 10
    ensures ReadTag(t, true, [73, 68, 51, 3, 0, 64, 0, 0, 0, 23] + ten + [84, 73, 84, 50, 0, 0, 0, 3, 0, 0, 0, a, b])
            == Got(Tag(3, 0, 64, [Frame(TIT2, 0, [0, a, b])]))
  {
    hide ReadHeader, ReadFrames, FrameBytes, GoodTables, FramesBytes, GoodFrames, Short;
    var frame := Frame(TIT2, 0, [0, a, b]);
    KnownFrame(a, b);
    ExtendedIsSkipped(ten, FrameBytes(frame));
    OneFrame(t, frame);
    FramesReadBack(t, 3, [frame], [], 13);
    assert FrameBytes(frame) + [] == FrameBytes(frame);
  }

  lemma ExtendedIsSkipped(ten: seq<Byte>, rest: seq<Byte>)
    requires |ten| == 10
    ensures ReadHeader(true, [73, 68, 51, 3, 0, 64, 0, 0, 0, 23] + ten + rest) == Got(Header(3, 0, 64, 13, rest))
  {
    var mem := [73, 68, 51, 3, 0, 64, 0, 0, 0, 23] + ten + rest;
    assert mem[..3] == MAGIC;
    assert mem[3..] == [3, 0, 64, 0, 0, 0, 23] + ten + rest;
    assert mem[3..][3..7] == [0, 0, 0, 23];
    assert mem[3..][17..] == rest;
  }

  lemma OneFrame(t: Tables, f: Frame)
    requires TIT2 in t.descs && f.id == TIT2 && f.flags == 0 && |f.raw| == 3
    ensures GoodFrames(t, [f]) && Writable([f]) && Short([f]) && FramesBytes([f]) == FrameBytes(f)
  {
    hide FrameBytes;
    assert [f][1..] == [] && FramesBytes([]) == [];
  }
}
