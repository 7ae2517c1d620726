/** The tag in memory: id3_read_mem, id3_seek_mem, id3_read_tag, id3_read_frame and id3_write_tag in place. */
module Id3Tag {
  import opened Bits
  import opened Id3

  lemma BeyondBeyond(mem: seq<Byte>, p: nat, n: nat)
    ensures Beyond(Beyond(mem, p), n) == Beyond(mem, p + n)
    ensures p + n <= |mem| ==> Beyond(mem, p)[..n] == mem[p..p + n]
  {
  }

  lemma FindStep(descs: seq<Id>, number: nat, i: nat)
    requires i < |descs|
    requires Find(descs, number) == i + Find(descs[i..], number)
    ensures Number(descs[i]) == number ==> Find(descs, number) == i
    ensures Number(descs[i]) != number ==> Find(descs, number) == i + 1 + Find(descs[i + 1..], number)
  {
    assert descs[i..][1..] == descs[i + 1..];
  }

  lemma FindV24Step(v22: seq<(nat, nat)>, number: nat, i: nat)
    requires i < |v22| && FindV24(v22, number) == FindV24(v22[i..], number)
    ensures v22[i].0 == number ==> FindV24(v22, number) == v22[i].1
    ensures v22[i].0 != number ==> FindV24(v22, number) == FindV24(v22[i + 1..], number)
  {
    assert v22[i..][1..] == v22[i + 1..];
  }

  method FindFrameDescription(descs: seq<Id>, id: nat) returns (i: nat)
    ensures i == Find(descs, id)
  {
    i := 0;
    while i < |descs|
      invariant i <= |descs| && Find(descs, id) == i + Find(descs[i..], id)
    {
      FindStep(descs, id, i);
      if Number(descs[i]) == id { return; }
      i := i + 1;
    }
  }

  method FindV24Id(v22: seq<(nat, nat)>, id: nat) returns (v24: nat)
    ensures v24 == FindV24(v22, id)
  {
    for i := 0 to |v22|
      invariant FindV24(v22, id) == FindV24(v22[i..], id)
    {
      FindV24Step(v22, id, i);
      if v22[i].0 == id { return v22[i].1; }
    }
    v24 := 0;
  }

  class TagReader {
    const tables: Tables
    const mem: seq<Byte>
    var ptr: nat
    var pos: nat
    var tagSize: nat
    var version: Byte
    var revision: Byte
    var flags: Byte
    var frames: seq<Frame>

    predicate Valid()
      reads this
    {
      GoodTables(tables) && pos <= tagSize
    }

    constructor (tables: Tables, mem: seq<Byte>)
      requires GoodTables(tables)
      ensures Valid() && this.tables == tables && this.mem == mem && ptr == 0 && pos == 0 && frames == []
    {
      this.tables, this.mem := tables, mem;
      ptr, pos, tagSize, version, revision, flags, frames := 0, 0, 0, 0, 0, 0, [];
    }

    /** What the pointer points to. */
    function Ahead(): seq<Byte>
      reads this
    {
      Beyond(mem, ptr)
    }

    /** id3_seek_mem */
    method Seek(offset: int) returns (ok: bool)
      requires pos <= tagSize && ptr + offset >= 0
      modifies `ptr, `pos
      ensures ok == (0 <= old(pos) + offset <= tagSize)
      ensures if ok then pos == old(pos) + offset && ptr == old(ptr) + offset else pos == old(pos) && ptr == old(ptr)
    {
      if pos + offset > tagSize || pos + offset < 0 { return false; }
      ptr := ptr + offset;
      pos := pos + offset;
      ok := true;
    }

    /** id3_read_mem: the bytes are only looked at if they are copied. */
    method Read(copy: bool, size: nat) returns (ok: bool, bytes: seq<Byte>)
      requires pos <= tagSize
      requires copy && pos + size <= tagSize && size <= FD_BUFSIZE ==> ptr + size <= |mem|
      modifies `ptr, `pos
      ensures ok == (old(pos) + size <= tagSize && (copy ==> size <= FD_BUFSIZE))
      ensures if ok then pos == old(pos) + size && ptr == old(ptr) + size else pos == old(pos) && ptr == old(ptr)
      ensures ok && copy ==> bytes == mem[old(ptr)..old(ptr) + size]
    {
      bytes := [];
      if pos + size > tagSize { return false, bytes; }
      if copy {
        if size > FD_BUFSIZE { return false, bytes; }
        bytes := mem[ptr..ptr + size];
      }
      ptr := ptr + size;
      pos := pos + size;
      ok := true;
    }

    /** One frame was read as the specification says, or refused. */
    twostate predicate Took(ok: bool, r: Outcome<Step>)
      reads this
    {
      && ok == r.Got?
      && (ok ==> frames == old(frames) + r.value.frames && pos == old(pos) + r.value.taken && ptr == old(ptr) + r.value.taken)
    }

    method ReadFrame() returns (ok: bool)
      requires Valid() && version != 2 && Id3.ReadFrame(tables, Ahead(), tagSize - pos) != Undefined
      modifies `ptr, `pos, `frames
      ensures (ok ==> Valid()) && Took(ok, Id3.ReadFrame(tables, old(Ahead()), tagSize - old(pos)))
    {
      hide Find, BigEndian, Number, GoodTables;
      ghost var ahead := Ahead();
      var at := ptr;
      var bytes;
      ok, bytes := Read(false, 10);
      if !ok { return; }
      var buf := mem[at..];
      assert buf == ahead;
      if !LegalStart(buf[0]) {
        ok := Seek(tagSize - pos);
        assert frames == old(frames) + [];
        return;
      }
      var rawSize := BigEndian(buf[4..8]);
      if rawSize > MAX_RAW { return false; }
      var i := FindFrameDescription(tables.descs, Number(Id(buf[0], buf[1], buf[2], buf[3])));
      if i == |tables.descs| {
        ok := Seek(rawSize);
        assert frames == old(frames) + [];
        return;
      }
      ok, bytes := Read(true, rawSize);
      assert ok ==> bytes == ahead[10..10 + rawSize];
      if ok { frames := frames + [Frame(tables.descs[i], Pair(buf[8], buf[9]), bytes)]; }
    }

    method ReadFrameV22() returns (ok: bool)
      requires Valid() && Id3.ReadFrameV22(tables, Ahead(), tagSize - pos) != Undefined
      modifies `ptr, `pos, `frames
      ensures (ok ==> Valid()) && Took(ok, Id3.ReadFrameV22(tables, old(Ahead()), tagSize - old(pos)))
    {
      hide Find, FindV24, BigEndian, Number;
      ghost var ahead := Ahead();
      var at := ptr;
      var bytes;
      ok, bytes := Read(false, 6);
      if !ok { return; }
      var buf := mem[at..];
      assert buf == ahead;
      if !LegalStart(buf[0]) {
        ok := Seek(tagSize - pos);
        assert frames == old(frames) + [];
        return;
      }
      var size := BigEndian([0] + buf[3..6]);
      var number := FindV24Id(tables.v22, BigEndian([0] + buf[..3]));
      if number == 0 {
        ok := Seek(size);
        assert frames == old(frames) + [];
        return;
      }
      if size > MAX_RAW { return false; }
      V24IsDescribed(tables, tables.v22, BigEndian([0] + buf[..3]));
      var i := FindFrameDescription(tables.descs, number);
      ok, bytes := Read(true, size);
      assert ok ==> bytes == ahead[6..6 + size];
      if ok { frames := frames + [Frame(tables.descs[i], 0, bytes)]; }
    }

    method ReadAnyFrame() returns (ok: bool)
      requires Valid() && Id3.ReadAnyFrame(tables, version, Ahead(), tagSize - pos) != Undefined
      modifies `ptr, `pos, `frames
      ensures (ok ==> Valid()) && Took(ok, Id3.ReadAnyFrame(tables, version, old(Ahead()), tagSize - old(pos)))
    {
      hide Id3.ReadFrame, Id3.ReadFrameV22;
      if version == 2 { ok := ReadFrameV22(); } else { ok := ReadFrame(); }
    }

    /** The frames that are left, after those read: every one that is read takes some of the tag, so this ends. */
    method ReadFrames() returns (ok: bool)
      requires Valid() && Id3.ReadFrames(tables, version, Ahead(), tagSize - pos) != Undefined
      modifies `ptr, `pos, `frames
      ensures ok == Id3.ReadFrames(tables, version, old(Ahead()), tagSize - old(pos)).Got?
      ensures ok ==> frames == old(frames) + Id3.ReadFrames(tables, version, old(Ahead()), tagSize - old(pos)).value
    {
      hide Id3.ReadAnyFrame, GoodTables;
      ghost var all := Id3.ReadFrames(tables, version, Ahead(), tagSize - pos);
      ghost var before := frames;
      assert Follows(before, frames, all, all) by { assert before + [] == before; }
      while pos < tagSize
        invariant Valid() && Follows(before, frames, all, Id3.ReadFrames(tables, version, Ahead(), tagSize - pos))
        decreases tagSize - pos
      {
        ghost var r := Id3.ReadAnyFrame(tables, version, Ahead(), tagSize - pos);
        ghost var p := ptr;
        ghost var so := frames;
        ok := ReadAnyFrame();
        if !ok { return; }
        BeyondBeyond(mem, p, r.value.taken);
        FollowsOn(before, so, all, r.value.frames, Id3.ReadFrames(tables, version, Ahead(), tagSize - pos));
      }
      ok := true;
    }

    /** The start of id3_read_tag, before the frames. */
    method ReadHeader(check: bool) returns (ok: bool)
      requires pos == 0 && Id3.ReadHeader(check, Ahead()) != Undefined
      modifies `ptr, `pos, `tagSize, `version, `revision, `flags
      ensures ok == Id3.ReadHeader(check, old(Ahead())).Got?
      ensures ok ==> pos <= tagSize && Id3.ReadHeader(check, old(Ahead())) == Got(Header(version, revision, flags, tagSize - pos, Ahead()))
    {
      hide GetSize28, Extended;
      tagSize := 10;
      var bytes;
      if check {
        var id := mem[ptr..];
        ok, bytes := Read(false, 3);
        if id[..3] != MAGIC {
          var back := Seek(-3);
          return false;
        }
      }
      assert old(Ahead()) == mem[old(ptr)..] && Ahead() == if check then old(Ahead())[3..] else old(Ahead());
      ok := ReadRest();
    }

    method ReadRest() returns (ok: bool)
      requires pos + 7 <= tagSize && Id3.ReadHeader(false, Ahead()) != Undefined
      modifies `ptr, `pos, `tagSize, `version, `revision, `flags
      ensures ok == Id3.ReadHeader(false, old(Ahead())).Got?
      ensures ok ==> pos <= tagSize && Id3.ReadHeader(false, old(Ahead())) == Got(Header(version, revision, flags, tagSize - pos, Ahead()))
    {
      hide GetSize28, Extended;
      ghost var p := ptr;
      var buf := mem[ptr..];
      var bytes;
      ok, bytes := Read(false, 7);
      version, revision, flags := buf[0], buf[1], buf[2];
      tagSize := GetSize28(buf[3..7]);
      pos := 0;
      if version < 2 || version > 4 { return false; }
      var extended := Extended(flags);
      if extended {
        ok, bytes := Read(false, 10);
        if !ok { return; }
      }
      BeyondBeyond(mem, p, if extended then 17 else 7);
    }

    /** id3_read_tag */
    method ReadTag(check: bool) returns (ok: bool)
      requires GoodTables(tables) && pos == 0 && frames == [] && Id3.ReadTag(tables, check, Ahead()) != Undefined
      modifies this
      ensures ok == Id3.ReadTag(tables, check, old(Ahead())).Got?
      ensures ok ==> Tag(version, revision, flags, frames) == Id3.ReadTag(tables, check, old(Ahead())).value
    {
      hide Id3.ReadHeader, Id3.ReadFrames, GoodTables, Ahead;
      ok := ReadHeader(check);
      if ok { ok := ReadFrames(); }
    }
  }

  /** The whole result is what was read so far and then `rest`. */
  ghost predicate Follows(before: seq<Frame>, frames: seq<Frame>, all: Outcome<seq<Frame>>, rest: Outcome<seq<Frame>>) {
    match rest
    case Got(more) => all.Got? && frames + more == before + all.value
    case Failed => all == Failed
    case Undefined => all == Undefined
  }

  function Prepend(step: seq<Frame>, rest: Outcome<seq<Frame>>): Outcome<seq<Frame>> {
    match rest
    case Got(more) => Got(step + more)
    case Failed => Failed
    case Undefined => Undefined
  }

  lemma FollowsOn(before: seq<Frame>, frames: seq<Frame>, all: Outcome<seq<Frame>>, step: seq<Frame>, rest: Outcome<seq<Frame>>)
    requires Follows(before, frames, all, Prepend(step, rest))
    ensures Follows(before, frames + step, all, rest)
  {
    if rest.Got? { assert frames + step + rest.value == frames + (step + rest.value); }
  }

  /* Writing. */

  lemma FramesBytesAdd(frames: seq<Frame>, i: nat)
    requires Writable(frames) && i < |frames|
    ensures Writable(frames[..i]) && Writable(frames[..i + 1])
    ensures FramesBytes(frames[..i + 1]) == FramesBytes(frames[..i]) + FrameBytes(frames[i])
  {
    hide FrameBytes;
    if i == 0 {
      assert frames[..1][1..] == [] && frames[..0] == [];
      assert FramesBytes(frames[..1]) == FrameBytes(frames[0]) + [];
    } else {
      assert Writable(frames[1..]) by { assert forall j {:trigger frames[1..][j]} :: 0 <= j < |frames| - 1 ==> frames[1..][j] == frames[j + 1]; }
      FramesBytesAdd(frames[1..], i - 1);
      assert frames[..i + 1][1..] == frames[1..][..i] && frames[..i][1..] == frames[1..][..i - 1];
    }
  }

  lemma {:induction false} FramesBytesUpto(frames: seq<Frame>, i: nat)
    requires Writable(frames) && i <= |frames|
    ensures Writable(frames[..i]) && |FramesBytes(frames[..i])| <= |FramesBytes(frames)|
    decreases |frames| - i
  {
    hide FrameBytes, FramesBytes;
    if i < |frames| {
      FramesBytesAdd(frames, i);
      FramesBytesUpto(frames, i + 1);
    } else {
      assert frames[..i] == frames;
    }
  }

  /** memcpy into the buffer */
  method Put(buffer: array<Byte>, at: nat, bytes: seq<Byte>)
    requires at + |bytes| <= buffer.Length
    modifies buffer
    ensures buffer[..at + |bytes|] == old(buffer[..at]) + bytes
    ensures buffer[at + |bytes|..] == old(buffer[at + |bytes|..])
  {
    for i := 0 to |bytes|
      invariant buffer[..at + i] == old(buffer[..at]) + bytes[..i]
      invariant buffer[at + |bytes|..] == old(buffer[at + |bytes|..])
    {
      buffer[at + i] := bytes[i];
      assert buffer[..at + i] == old(buffer[..at]) + bytes[..i];
    }
  }

  method WriteHeader(tag: Tag, size: nat, buffer: array<Byte>)
    requires 10 <= buffer.Length
    modifies buffer
    ensures buffer[..10] == MAGIC + [tag.version, tag.revision, tag.flags] + SetSize28(size)
    ensures buffer[10..] == old(buffer[10..])
  {
    hide SetSize28;
    Put(buffer, 0, MAGIC);
    assert buffer[10..] == buffer[3..][7..] == old(buffer[3..])[7..] == old(buffer[10..]);
    Put(buffer, 3, [tag.version, tag.revision, tag.flags] + SetSize28(size));
    assert buffer[..10] == MAGIC + ([tag.version, tag.revision, tag.flags] + SetSize28(size));
  }

  /** id3_write_tag: the size of the frames is added up first, then they are laid out one after another. */
  method WriteTag(tag: Tag, buffer: array<Byte>) returns (length: nat)
    requires Writable(tag.frames) && |TagBytes(tag)| <= buffer.Length
    modifies buffer
    ensures length == |TagBytes(tag)| && buffer[..length] == TagBytes(tag) && buffer[length..] == old(buffer[length..])
  {
    hide FramesBytes, FrameBytes, SetSize28, Writable;
    var frames := tag.frames;
    FramesBytesUpto(frames, 0);
    NoBytes();
    assert frames[..0] == [];
    var size := 0;
    for i := 0 to |frames|
      invariant Writable(frames[..i]) && size == |FramesBytes(frames[..i])| && buffer[..] == old(buffer[..])
    {
      FramesBytesAdd(frames, i);
      FlagsFit(frames, i);
      size := size + |frames[i].raw| + 10;
    }
    assert frames[..|frames|] == frames;
    ghost var header := MAGIC + [tag.version, tag.revision, tag.flags] + SetSize28(size);
    WriteHeader(tag, size, buffer);
    assert buffer[..10] == header + [];
    length := 10;
    for i := 0 to |frames|
      invariant Writable(frames[..i]) && length == 10 + |FramesBytes(frames[..i])| <= buffer.Length
      invariant buffer[..length] == header + FramesBytes(frames[..i]) && buffer[length..] == old(buffer[length..])
    {
      FramesBytesAdd(frames, i);
      FramesBytesUpto(frames, i + 1);
      FlagsFit(frames, i);
      length := WriteFrame(frames[i], buffer, length);
    }
  }

  lemma NoBytes()
    ensures Writable([]) && FramesBytes([]) == []
  {
  }

  lemma FlagsFit(frames: seq<Frame>, i: nat)
    requires Writable(frames) && i < |frames|
    ensures frames[i].flags < 0x1_0000
  {
  }

  method WriteFrame(f: Frame, buffer: array<Byte>, at: nat) returns (after: nat)
    requires f.flags < 0x1_0000 && at + |FrameBytes(f)| <= buffer.Length
    modifies buffer
    ensures after == at + |FrameBytes(f)|
    ensures buffer[..after] == old(buffer[..at]) + FrameBytes(f) && buffer[after..] == old(buffer[after..])
  {
    hide SetSize28;
    var fhdr := [f.id.a, f.id.b, f.id.c, f.id.d] + SetSize28(|f.raw|) + [f.flags / 256, f.flags % 256];
    Put(buffer, at, fhdr);
    Put(buffer, at + 10, f.raw);
    after := at + 10 + |f.raw|;
    assert old(buffer[..at]) + fhdr + f.raw == old(buffer[..at]) + FrameBytes(f);
    assert buffer[after..] == old(buffer[at + 10..])[|f.raw|..];
  }
}
