/** Assembling audio frames from the packets of SACD sectors (scarletbook_read.c). */
module Demux {
  import opened Bits

  const SACD_LSN_SIZE := 2048
  const MAX_DST_SIZE := 65536
  const FRAME_SIZE_64 := 4704
  const DATA_TYPE_AUDIO := 2

  /* A sector: one header byte, two bytes per packet, three or four per frame, then the packets' data. */

  function DstEncoded(header: Byte): bool { header % 2 == 1 }

  function FrameInfoCount(header: Byte): (n: nat)
    ensures n <= 7
  {
    header / 4 % 8
  }

  function PacketInfoCount(header: Byte): (n: nat)
    ensures n <= 7
  {
    header / 32
  }

  /** Bytes of n frame infos. */
  function InfoSize(dst: bool, n: nat): nat { if dst then 4 * n else 3 * n }

  datatype Packet = Packet(frameStart: bool, dataType: nat, length: nat)

  function PacketOf(b0: Byte, b1: Byte): Packet {
    Packet(b0 / 128 == 1, b0 / 8 % 8, b0 % 8 * 256 + b1)
  }

  /** The last byte of a frame info says how many packets the frame has and its channels. */
  function SectorCount(info: Byte): nat { info / 4 % 32 }

  function ChannelCount(info: Byte): nat {
    if info / 2 % 2 == 1 && info % 2 == 0 then 6
    else if info / 2 % 2 == 0 && info % 2 == 1 then 5
    else 2
  }

  function Packets(sector: seq<Byte>): (p: seq<Packet>)
    requires |sector| == SACD_LSN_SIZE
    ensures |p| == PacketInfoCount(sector[0])
  {
    seq(PacketInfoCount(sector[0]), i requires 0 <= i < PacketInfoCount(sector[0]) =>
      PacketOf(sector[1 + 2 * i], sector[2 + 2 * i]))
  }

  function DataStart(sector: seq<Byte>): nat
    requires |sector| == SACD_LSN_SIZE
  {
    1 + 2 * PacketInfoCount(sector[0]) + InfoSize(DstEncoded(sector[0]), FrameInfoCount(sector[0]))
  }

  /** The info bytes after a sector; without DST coding they stay as an earlier sector left them. */
  function Infos(infos: seq<Byte>, sector: seq<Byte>): (r: seq<Byte>)
    requires |sector| == SACD_LSN_SIZE && |infos| == 7
    ensures |r| == 7
  {
    if DstEncoded(sector[0]) then
      seq(7, i requires 0 <= i < 7 =>
        if i < FrameInfoCount(sector[0]) then sector[4 + 2 * PacketInfoCount(sector[0]) + 4 * i] else infos[i])
    else infos
  }

  function Length(packets: seq<Packet>): nat {
    if packets == [] then 0 else Length(packets[..|packets| - 1]) + packets[|packets| - 1].length
  }

  /** A sector whose packets lie inside it. */
  predicate WellFormed(sector: seq<Byte>) {
    |sector| == SACD_LSN_SIZE && DataStart(sector) + Length(Packets(sector)) <= SACD_LSN_SIZE
  }

  /* The packet stream: where frames begin, and their pieces. */

  datatype Event =
    | Begin(dst: bool, sectors: nat, channels: nat)
    | Data(bytes: seq<Byte>)
    | End

  /** The events of the first n packets. */
  function PacketEvents(infos: seq<Byte>, sector: seq<Byte>, n: nat): seq<Event>
    requires WellFormed(sector) && |infos| == 7 && n <= |Packets(sector)|
    decreases n
  {
    if n == 0 then []
    else PacketEvents(infos, sector, n - 1) + EventsOf(infos, sector, n - 1)
  }

  function EventsOf(infos: seq<Byte>, sector: seq<Byte>, i: nat): seq<Event>
    requires WellFormed(sector) && |infos| == 7 && i < |Packets(sector)|
  {
    var p := Packets(sector)[i];
    if p.dataType != DATA_TYPE_AUDIO then []
    else (if p.frameStart then [BeginOf(infos, sector, i)] else []) + [Data(PacketData(sector, i))]
  }

  function BeginOf(infos: seq<Byte>, sector: seq<Byte>, i: nat): Event
    requires |sector| == SACD_LSN_SIZE && |infos| == 7 && i < |Packets(sector)|
  {
    var info := infos[Starts(Packets(sector)[..i])];
    Begin(DstEncoded(sector[0]), SectorCount(info), ChannelCount(info))
  }

  /** Frames begun by these packets. */
  function Starts(packets: seq<Packet>): (n: nat)
    ensures n <= |packets|
  {
    if packets == [] then 0
    else Starts(packets[..|packets| - 1])
         + if packets[|packets| - 1].frameStart && packets[|packets| - 1].dataType == DATA_TYPE_AUDIO then 1 else 0
  }

  function PacketData(sector: seq<Byte>, i: nat): seq<Byte>
    requires WellFormed(sector) && i < |Packets(sector)|
  {
    DataFits(sector, i);
    var from := DataStart(sector) + Length(Packets(sector)[..i]);
    sector[from..from + Packets(sector)[i].length]
  }

  lemma {:induction false} LengthPrefix(packets: seq<Packet>, i: nat)
    requires i <= |packets|
    ensures Length(packets[..i]) <= Length(packets)
  {
    if i == |packets| {
      assert packets[..i] == packets;
    } else {
      LengthPrefix(packets[..|packets| - 1], i);
      assert packets[..|packets| - 1][..i] == packets[..i];
    }
  }

  lemma DataFits(sector: seq<Byte>, i: nat)
    requires WellFormed(sector) && i < |Packets(sector)|
    ensures Length(Packets(sector)[..i + 1]) == Length(Packets(sector)[..i]) + Packets(sector)[i].length
    ensures DataStart(sector) + Length(Packets(sector)[..i + 1]) <= SACD_LSN_SIZE
  {
    var p := Packets(sector);
    LengthPrefix(p, i + 1);
    assert p[..i + 1][..i] == p[..i];
  }

  function SectorEvents(infos: seq<Byte>, sector: seq<Byte>): seq<Event>
    requires WellFormed(sector) && |infos| == 7
  {
    PacketEvents(Infos(infos, sector), sector, |Packets(sector)|)
  }

  predicate AllWellFormed(sectors: seq<seq<Byte>>) {
    forall i {:trigger sectors[i]} :: 0 <= i < |sectors| ==> WellFormed(sectors[i])
  }

  /** The info bytes and the events after these sectors. */
  function Stream(infos: seq<Byte>, sectors: seq<seq<Byte>>): (r: (seq<Byte>, seq<Event>))
    requires |infos| == 7 && AllWellFormed(sectors)
    ensures |r.0| == 7
  {
    if sectors == [] then (infos, [])
    else
      var (before, events) := Stream(infos, sectors[..|sectors| - 1]);
      var sector := sectors[|sectors| - 1];
      (Infos(before, sector), events + SectorEvents(before, sector))
  }

  lemma StreamStart(infos: seq<Byte>)
    requires |infos| == 7
    ensures Stream(infos, []) == (infos, [])
  {
  }

  lemma StreamStep(infos: seq<Byte>, sectors: seq<seq<Byte>>, i: nat)
    requires |infos| == 7 && AllWellFormed(sectors) && i < |sectors|
    ensures AllWellFormed(sectors[..i]) && AllWellFormed(sectors[..i + 1]) && WellFormed(sectors[i])
    ensures var before := Stream(infos, sectors[..i]);
            Stream(infos, sectors[..i + 1]) == (Infos(before.0, sectors[i]), before.1 + SectorEvents(before.0, sectors[i]))
  {
    hide SectorEvents, Infos, WellFormed;
    assert sectors[..i + 1][..i] == sectors[..i];
  }

  lemma StreamStepPrefix(sectors: seq<seq<Byte>>, k: nat)
    requires AllWellFormed(sectors) && k <= |sectors|
    ensures AllWellFormed(sectors[..k])
  {
    hide WellFormed;
  }

  lemma StreamStepSuffix(sectors: seq<seq<Byte>>, k: nat)
    requires AllWellFormed(sectors) && k <= |sectors|
    ensures AllWellFormed(sectors[k..])
  {
    hide WellFormed;
    forall i | 0 <= i < |sectors| - k ensures WellFormed(sectors[k..][i]) {
      assert WellFormed(sectors[k + i]);
    }
  }

  /* The frames of a packet stream. */

  /** What lies between one begin and the next, or nothing open. */
  datatype Group = Idle | Group(dst: bool, sectors: nat, channels: nat, chunks: seq<seq<Byte>>)

  /** The stream split where frames begin; the end of a reading closes a complete frame. */
  function Groups(events: seq<Event>): (g: seq<Group>)
    ensures |g| > 0
  {
    if events == [] then [Idle]
    else
      var before := Groups(events[..|events| - 1]);
      match events[|events| - 1]
      case Begin(dst, sectors, channels) => before + [Group(dst, sectors, channels, [])]
      case End => if Complete(before[|before| - 1]) then before + [Idle] else before
      case Data(bytes) => before[..|before| - 1] + [With(before[|before| - 1], bytes)]
  }

  function With(g: Group, bytes: seq<Byte>): Group {
    if g.Idle? then Idle else g.(chunks := g.chunks + [bytes])
  }

  /** A frame is complete if it is not too long and has all its packets, or for plain DSD whole blocks. */
  predicate Complete(g: Group) {
    && g.Group?
    && 0 < |Joined(g.chunks)| < MAX_DST_SIZE
    && (if g.dst then |g.chunks| == g.sectors else |Joined(g.chunks)| % FRAME_SIZE_64 == 0)
  }

  /** A call of the frame callback. */
  datatype Emission = Emission(bytes: seq<Byte>, channels: nat, dst: bool)

  /** The complete frames, in order. */
  function Frames(groups: seq<Group>): seq<Emission> {
    if groups == [] then []
    else
      var g := groups[|groups| - 1];
      Frames(groups[..|groups| - 1]) + if Complete(g) then [Emission(Joined(g.chunks), g.channels, g.dst)] else []
  }

  /** A call with this frame's bytes. */
  predicate IsCall(g: Group, call: Emission) { g.Group? && call == Emission(Joined(g.chunks), g.channels, g.dst) }

  /** The calls are those of the frames at the places ix, in order. */
  predicate CalledBack(groups: seq<Group>, ix: seq<nat>, calls: seq<Emission>) {
    && |calls| == |ix|
    && (forall k {:trigger ix[k]} :: 0 <= k < |ix| ==> ix[k] < |groups| && IsCall(groups[ix[k]], calls[k]))
    && (forall j, k {:trigger ix[j], ix[k]} :: 0 <= j < k < |ix| ==> ix[j] < ix[k])
  }

  lemma {:induction false} FramesAt(groups: seq<Group>) returns (ix: seq<nat>)
    ensures CalledBack(groups, ix, Frames(groups))
    ensures forall i {:trigger groups[i]} :: 0 <= i < |groups| ==> (i in ix <==> Complete(groups[i]))
  {
    hide Joined, Complete, IsCall;
    ix := [];
    if groups != [] {
      var n := |groups| - 1;
      var before := FramesAt(groups[..n]);
      FrameAt(groups, n, before);
      ix := before + if Complete(groups[n]) then [n] else [];
      forall i | 0 <= i < |groups| ensures i in ix <==> Complete(groups[i]) {
        if i < n { assert groups[..n][i] == groups[i]; } else { assert n !in before; }
      }
    }
  }

  lemma FrameAt(groups: seq<Group>, n: nat, before: seq<nat>)
    requires |groups| == n + 1 && CalledBack(groups[..n], before, Frames(groups[..n]))
    ensures CalledBack(groups, before + if Complete(groups[n]) then [n] else [], Frames(groups))
  {
    hide Joined, Complete, IsCall, Frames;
    var calls := Frames(groups[..n]);
    NextFrame(groups, n);
    forall k | 0 <= k < |before| ensures before[k] < n && IsCall(groups[before[k]], calls[k]) {
      assert groups[..n][before[k]] == groups[before[k]];
    }
  }

  lemma NextFrame(groups: seq<Group>, n: nat)
    requires |groups| == n + 1
    ensures !Complete(groups[n]) ==> Frames(groups) == Frames(groups[..n])
    ensures Complete(groups[n]) ==> exists call :: IsCall(groups[n], call) && Frames(groups) == Frames(groups[..n]) + [call]
  {
    hide Joined;
    var g := groups[n];
    if g.Group? {
      var call := Emission(Joined(g.chunks), g.channels, g.dst);
      assert IsCall(g, call);
      assert Complete(g) ==> Frames(groups) == Frames(groups[..n]) + [call];
    }
  }

  /** In bytes and counts: called back, in order, are exactly the DST coded frames of as many packets as announced
      and the plain ones of whole blocks, if they are neither empty nor too long. ix are their places. */
  lemma FramesExactly(groups: seq<Group>) returns (ix: seq<nat>)
    ensures CalledBack(groups, ix, Frames(groups))
    ensures forall i {:trigger groups[i]} :: 0 <= i < |groups| && groups[i].Group? && groups[i].dst ==>
              (i in ix <==> |groups[i].chunks| == groups[i].sectors && 0 < |Joined(groups[i].chunks)| < 65536)
    ensures forall i {:trigger groups[i]} :: 0 <= i < |groups| && groups[i].Group? && !groups[i].dst ==>
              (i in ix <==> |Joined(groups[i].chunks)| % 4704 == 0 && 0 < |Joined(groups[i].chunks)| < 65536)
  {
    hide Joined, Frames, CalledBack;
    ix := FramesAt(groups);
  }

  /** What has been called back when these events have happened: the group that is still open is not yet out. */
  function Emitted(events: seq<Event>): seq<Emission> {
    var g := Groups(events);
    Frames(g[..|g| - 1])
  }

  lemma NothingEmitted()
    ensures Emitted([]) == []
  {
    var none: seq<Event> := [];
    assert Groups(none) == [Idle];
    assert [Idle][..0] == [];
  }

  /** The frame info bytes of a handle that has read nothing. */
  function NoInfos(): (s: seq<Byte>)
    ensures |s| == 7
  {
    seq(7, _ => 0)
  }

  /** The reader state of scarletbook_handle_t. */
  class Handle {
    var packetInfoIdx: nat
    var header: Byte                    // audio_sector.header
    const packet: array<Packet>         // audio_sector.packet
    const info: array<Byte>             // last bytes of audio_sector.frame
    const data: array<Byte>             // frame.data
    var size: nat
    var started: bool
    var sectorCount: int
    var channelCount: nat
    var dstEncoded: bool
    var calls: seq<Emission>            // calls of the frame callback so far
    ghost var events: seq<Event>        // what the sectors read so far held

    ghost predicate Shape() {
      packet.Length == info.Length == 7 && data.Length == MAX_DST_SIZE && data != info
    }

    /** The frame being assembled is the open group. */
    ghost predicate Assembles(g: Group)
      requires Shape()
      reads this, data
    {
      && size < MAX_DST_SIZE
      && (started <==> g.Group? && |Joined(g.chunks)| < MAX_DST_SIZE)
      && (started ==>
            && data[..size] == Joined(g.chunks) && channelCount == g.channels && dstEncoded == g.dst
            && (dstEncoded ==> sectorCount == g.sectors - |g.chunks|))
    }

    ghost predicate Reading()
      requires Shape()
      reads this, data
    {
      var g := Groups(events);
      Assembles(g[|g| - 1]) && calls == Frames(g[..|g| - 1])
    }

    /** Between calls all packets of the last sector are used up. */
    ghost predicate Valid()
      reads this, packet, info, data
    {
      Shape() && packetInfoIdx == PacketInfoCount(header) && Reading()
    }

    /** scarletbook_frame_init */
    constructor ()
      ensures Valid() && calls == [] && events == [] && info[..] == NoInfos()
      ensures fresh(packet) && fresh(info) && fresh(data)
    {
      packetInfoIdx, header, size, started, calls := 0, 0, 0, false, [];
      sectorCount, channelCount, dstEncoded := 0, 0, false;
      packet := new Packet[7](_ => Packet(false, 0, 0));
      info := new Byte[7](_ => 0);
      data := new Byte[MAX_DST_SIZE];
      events := [];
    }

    /** exec_read_callback: the open frame goes out if it is complete. */
    method ExecReadCallback()
      requires Shape() && Reading()
      modifies this`started, this`calls
      ensures var g := Groups(events); calls == Frames(g)
      ensures started <==> old(started) && !Complete(Groups(events)[|Groups(events)| - 1])
    {
      ghost var g := Groups(events);
      assert g[..|g|] == g;
      if started && size > 0 && ((dstEncoded && sectorCount == 0) || (!dstEncoded && size % FRAME_SIZE_64 == 0)) {
        started := false;
        calls := calls + [Emission(data[..size], channelCount, dstEncoded)];
      }
    }

    /** A packet that begins a frame (lines 637-648). */
    method BeginFrame(b: Byte, dst: bool)
      requires Shape() && Reading()
      modifies this`started, this`calls, this`size, this`dstEncoded, this`sectorCount, this`channelCount, this`events
      ensures Reading() && events == old(events) + [Begin(dst, SectorCount(b), ChannelCount(b))]
    {
      ExecReadCallback();
      size := 0;
      dstEncoded := dst;
      sectorCount := SectorCount(b);
      channelCount := ChannelCount(b);
      started := true;
      ghost var e := Begin(dst, SectorCount(b), ChannelCount(b));
      GroupsGrow(events, e);
      assert data[..0] == [];
      events := events + [e];
    }

    /** memcpy to the end of the frame. */
    method Append(bytes: seq<Byte>)
      requires Shape() && size + |bytes| < MAX_DST_SIZE
      modifies this`size, data
      ensures size == old(size) + |bytes| && data[..size] == old(data[..size]) + bytes
    {
      ghost var before := data[..size];
      for i := 0 to |bytes|
        invariant size == old(size) && data[..size] == before
        invariant forall j :: 0 <= j < i ==> data[size + j] == bytes[j]
      {
        data[size + i] := bytes[i];
      }
      assert data[..size + |bytes|] == before + bytes;
      size := size + |bytes|;
    }

    /** The data of an audio packet (lines 650-667). */
    method AddData(bytes: seq<Byte>)
      requires Shape() && Reading()
      modifies this`size, this`sectorCount, this`started, this`events, data
      ensures Reading() && events == old(events) + [Data(bytes)]
    {
      hide Groups, Joined, Frames;
      ghost var g := Groups(events);
      GroupsGrow(events, Data(bytes));
      if started {
        JoinedGrows(g[|g| - 1].chunks, bytes);
        if size + |bytes| < MAX_DST_SIZE {
          Append(bytes);
          if dstEncoded {
            sectorCount := sectorCount - 1;
          }
        } else {
          started := false;
        }
      } else if g[|g| - 1].Group? {
        JoinedGrows(g[|g| - 1].chunks, bytes);
      }
      events := events + [Data(bytes)];
    }

    /** The header and the packet table of a sector (lines 584-607). */
    method ReadPacketTable(sector: seq<Byte>) returns (at: nat)
      requires Shape() && WellFormed(sector)
      modifies this`header, this`packetInfoIdx, packet
      ensures header == sector[0] && packetInfoIdx == 0 && at == 1 + 2 * PacketInfoCount(header)
      ensures packet[..|Packets(sector)|] == Packets(sector)
    {
      packetInfoIdx := 0;
      header := sector[0];
      at := 1;
      for i := 0 to PacketInfoCount(header)
        invariant at == 1 + 2 * i && header == sector[0] && packetInfoIdx == 0
        invariant forall j :: 0 <= j < i ==> packet[j] == Packets(sector)[j]
      {
        packet[i] := PacketOf(sector[at], sector[at + 1]);
        at := at + 2;
      }
    }

    /** The frame table of a sector (lines 608-620). */
    method ReadFrameTable(sector: seq<Byte>, at: nat) returns (at': nat)
      requires Shape() && WellFormed(sector) && header == sector[0] && at == 1 + 2 * PacketInfoCount(header)
      modifies info
      ensures at' == DataStart(sector) && info[..] == Infos(old(info[..]), sector)
    {
      hide Packets, Length;
      if DstEncoded(header) {
        ghost var infos := old(info[..]);
        for i := 0 to FrameInfoCount(header)
          invariant forall j :: 0 <= j < 7 ==> info[j] == if j < i then sector[at + 4 * j + 3] else infos[j]
        {
          info[i] := sector[at + 4 * i + 3];
        }
        at' := at + 4 * FrameInfoCount(header);
      } else {
        at' := at + 3 * FrameInfoCount(header);
      }
    }

    /** One packet (lines 627-674). */
    method ReadPacket(sector: seq<Byte>, at: nat, frameInfoCounter: nat) returns (at': nat, frameInfoCounter': nat)
      requires Shape() && Reading() && WellFormed(sector) && header == sector[0] && packetInfoIdx < |Packets(sector)|
      requires packet[..|Packets(sector)|] == Packets(sector)
      requires at == DataStart(sector) + Length(Packets(sector)[..packetInfoIdx])
      requires frameInfoCounter == Starts(Packets(sector)[..packetInfoIdx])
      modifies this`started, this`calls, this`size, this`dstEncoded, this`sectorCount, this`channelCount, this`events
      modifies this`packetInfoIdx, data
      ensures Reading() && packetInfoIdx == old(packetInfoIdx) + 1
      ensures events == old(events) + EventsOf(info[..], sector, old(packetInfoIdx))
      ensures at' == DataStart(sector) + Length(Packets(sector)[..packetInfoIdx])
      ensures frameInfoCounter' == Starts(Packets(sector)[..packetInfoIdx])
    {
      hide Groups, Joined, Frames, Packets, DataStart;
      ghost var p := Packets(sector);
      var i := packetInfoIdx;
      frameInfoCounter' := frameInfoCounter;
      assert packet[i] == p[i];
      assert p[..i + 1][..i] == p[..i];
      DataFits(sector, i);
      if packet[i].dataType == DATA_TYPE_AUDIO {
        if packet[i].frameStart {
          BeginFrame(info[frameInfoCounter], DstEncoded(header));
          frameInfoCounter' := frameInfoCounter + 1;
        }
        AddData(sector[at..at + packet[i].length]);
      }
      at' := at + packet[i].length;
      packetInfoIdx := packetInfoIdx + 1;
    }

    method ReadSector(sector: seq<Byte>)
      requires Valid() && WellFormed(sector)
      modifies this`started, this`calls, this`size, this`dstEncoded, this`sectorCount, this`channelCount, this`events
      modifies this`packetInfoIdx, this`header, packet, info, data
      ensures Valid() && info[..] == Infos(old(info[..]), sector)
      ensures events == old(events) + SectorEvents(old(info[..]), sector)
    {
      hide Groups, Joined, Frames, Packets, DataStart, EventsOf;
      var at := ReadPacketTable(sector);
      at := ReadFrameTable(sector, at);
      var frameInfoCounter := 0;
      assert Packets(sector)[..0] == [];
      assert events == old(events) + PacketEvents(info[..], sector, 0);
      while packetInfoIdx < PacketInfoCount(header)
        invariant Shape() && Reading() && header == sector[0] && packetInfoIdx <= PacketInfoCount(header)
        invariant packet[..|Packets(sector)|] == Packets(sector) && info[..] == Infos(old(info[..]), sector)
        invariant at == DataStart(sector) + Length(Packets(sector)[..packetInfoIdx])
        invariant frameInfoCounter == Starts(Packets(sector)[..packetInfoIdx])
        invariant events == old(events) + PacketEvents(info[..], sector, packetInfoIdx)
        decreases PacketInfoCount(header) - packetInfoIdx
      {
        at, frameInfoCounter := ReadPacket(sector, at, frameInfoCounter);
      }
    }

    /** scarletbook_process_frames: the events of the sectors are added to what was read before, whatever
        came in earlier calls, and Valid() says which frames that has called back. */
    method ProcessFrames(sectors: seq<seq<Byte>>, lastBlock: bool)
      requires Valid() && AllWellFormed(sectors)
      modifies this`started, this`calls, this`size, this`dstEncoded, this`sectorCount, this`channelCount, this`events
      modifies this`packetInfoIdx, this`header, packet, info, data
      ensures Valid() && info[..] == Stream(old(info[..]), sectors).0
      ensures events == old(events) + Stream(old(info[..]), sectors).1 + (if lastBlock then [End] else [])
      ensures calls == Emitted(events)
    {
      hide SectorEvents, Infos, Frames, Joined, Groups, WellFormed, Stream, Assembles;
      StreamStart(info[..]);
      ghost var infos := info[..];
      for i := 0 to |sectors|
        invariant Valid() && AllWellFormed(sectors[..i])
        invariant info[..] == Stream(infos, sectors[..i]).0 && events == old(events) + Stream(infos, sectors[..i]).1
      {
        StreamStep(infos, sectors, i);
        ReadSector(sectors[i]);
      }
      assert sectors[..|sectors|] == sectors;
      if lastBlock {
        Finish();
      }
    }

    /** The end of the last call: a complete open frame goes out. */
    method Finish()
      requires Valid()
      modifies this`started, this`calls, this`events
      ensures Valid() && events == old(events) + [End]
    {
      ExecReadCallback();
      GroupsGrow(events, End);
      events := events + [End];
    }
  }

  lemma GroupsGrow(events: seq<Event>, e: Event)
    ensures var before := Groups(events); var g := Groups(events + [e]);
            match e
            case Begin(dst, sectors, channels) => g[..|g| - 1] == before && g[|g| - 1] == Group(dst, sectors, channels, [])
            case End => if Complete(before[|before| - 1]) then g[..|g| - 1] == before && g[|g| - 1] == Idle else g == before
            case Data(bytes) => g[..|g| - 1] == before[..|before| - 1] && g[|g| - 1] == With(before[|before| - 1], bytes)
  {
    assert (events + [e])[..|events|] == events;
  }

  lemma JoinedGrows(chunks: seq<seq<Byte>>, bytes: seq<Byte>)
    ensures Joined(chunks + [bytes]) == Joined(chunks) + bytes
  {
    assert (chunks + [bytes])[..|chunks|] == chunks;
  }

  /* The same result however the sectors are split over calls. */

  lemma {:induction false} StreamConcat(infos: seq<Byte>, a: seq<seq<Byte>>, b: seq<seq<Byte>>)
    requires |infos| == 7 && AllWellFormed(a) && AllWellFormed(b)
    ensures AllWellFormed(a + b)
    ensures var s := Stream(infos, a); var t := Stream(s.0, b); Stream(infos, a + b) == (t.0, s.1 + t.1)
  {
    hide WellFormed, SectorEvents, Infos;
    if b == [] {
      assert a + b == a;
      assert Stream(infos, a).1 + [] == Stream(infos, a).1;
    } else {
      var c := b[..|b| - 1];
      StreamConcat(infos, a, c);
      assert (a + b)[..|a + b| - 1] == a + c;
      var s := Stream(infos, a);
      var t := Stream(s.0, c);
      var more := SectorEvents(t.0, b[|b| - 1]);
      assert s.1 + t.1 + more == s.1 + (t.1 + more);
    }
    forall i | 0 <= i < |a + b| ensures WellFormed((a + b)[i]) {
      assert if i < |a| then WellFormed(a[i]) else WellFormed(b[i - |a|]);
    }
  }

  function Flat(parts: seq<seq<seq<Byte>>>): seq<seq<Byte>> {
    if parts == [] then [] else Flat(parts[..|parts| - 1]) + parts[|parts| - 1]
  }

  predicate PartsWellFormed(parts: seq<seq<seq<Byte>>>) {
    forall i {:trigger parts[i]} :: 0 <= i < |parts| ==> AllWellFormed(parts[i])
  }

  /** The info bytes and events after calls with these parts, only the last of them final. */
  function Calls(infos: seq<Byte>, parts: seq<seq<seq<Byte>>>): (r: (seq<Byte>, seq<Event>))
    requires |infos| == 7 && PartsWellFormed(parts)
    ensures |r.0| == 7
  {
    if parts == [] then (infos, [])
    else
      var (before, events) := Calls(infos, parts[..|parts| - 1]);
      var (after, more) := Stream(before, parts[|parts| - 1]);
      (after, events + more)
  }

  /** Any two ways of cutting the same sectors into calls read the same events, so they call back the
      same frames. */
  lemma {:induction false} SplitIndependent(infos: seq<Byte>, parts: seq<seq<seq<Byte>>>)
    requires |infos| == 7 && PartsWellFormed(parts)
    ensures AllWellFormed(Flat(parts)) && Calls(infos, parts) == Stream(infos, Flat(parts))
    ensures Emitted(Calls(infos, parts).1 + [End]) == Frames(Groups(Stream(infos, Flat(parts)).1))
  {
    if parts != [] {
      var front := parts[..|parts| - 1];
      SplitIndependent(infos, front);
      StreamConcat(infos, Flat(front), parts[|parts| - 1]);
    }
    AtTheEnd(Stream(infos, Flat(parts)).1);
  }

  /** Once the reading has ended, exactly the complete frames have been called back, each once, in order. */
  lemma AtTheEnd(events: seq<Event>)
    ensures Emitted(events + [End]) == Frames(Groups(events))
  {
    hide Groups, Joined;
    GroupsGrow(events, End);
    var g := Groups(events);
    assert g == g[..|g| - 1] + [g[|g| - 1]];
  }

  /** The events of a stream of frames cut into these pieces. */
  function Muxed(groups: seq<Group>): seq<Event> {
    if groups == [] then []
    else
      var g := groups[|groups| - 1];
      Muxed(groups[..|groups| - 1]) + if g.Group? then [Begin(g.dst, g.sectors, g.channels)] + Pieces(g.chunks) else []
  }

  function Pieces(chunks: seq<seq<Byte>>): seq<Event> {
    if chunks == [] then [] else Pieces(chunks[..|chunks| - 1]) + [Data(chunks[|chunks| - 1])]
  }

  lemma {:induction false} PiecesRead(events: seq<Event>, g: Group, chunks: seq<seq<Byte>>)
    requires g.Group? && g.chunks == [] && Groups(events)[|Groups(events)| - 1] == g
    ensures Groups(events + Pieces(chunks)) == Groups(events)[..|Groups(events)| - 1] + [g.(chunks := chunks)]
  {
    hide Groups, Complete;
    if chunks == [] {
      assert events + [] == events;
      assert g.(chunks := chunks) == g;
      assert Groups(events) == Groups(events)[..|Groups(events)| - 1] + [g];
    } else {
      var c := chunks[..|chunks| - 1];
      PiecesRead(events, g, c);
      assert events + Pieces(chunks) == events + Pieces(c) + [Data(chunks[|chunks| - 1])];
      GroupsGrow(events + Pieces(c), Data(chunks[|chunks| - 1]));
      assert c + [chunks[|chunks| - 1]] == chunks;
      var all := Groups(events + Pieces(chunks));
      assert all == all[..|all| - 1] + [all[|all| - 1]];
    }
  }

  lemma NoGroups()
    ensures Groups(Muxed([])) == [Idle]
  {
  }

  lemma {:induction false} MuxedGroups(groups: seq<Group>)
    requires forall i :: 0 <= i < |groups| ==> groups[i].Group?
    ensures Groups(Muxed(groups)) == [Idle] + groups
  {
    hide Groups, Pieces;
    if groups == [] {
      NoGroups();
    } else {
      var front, g := groups[..|groups| - 1], groups[|groups| - 1];
      MuxedGroups(front);
      var e := Begin(g.dst, g.sectors, g.channels);
      var open := Group(g.dst, g.sectors, g.channels, []);
      GroupsGrow(Muxed(front), e);
      LastGroup(Groups(Muxed(front) + [e]), [Idle] + front, open);
      PiecesRead(Muxed(front) + [e], open, g.chunks);
      Reassociate(Muxed(front), e, Pieces(g.chunks));
      assert g == open.(chunks := g.chunks);
      LastGroup([Idle] + groups, [Idle] + front, g);
    }
  }

  lemma Reassociate(a: seq<Event>, e: Event, b: seq<Event>)
    ensures a + ([e] + b) == a + [e] + b
  {
  }

  lemma LastGroup(all: seq<Group>, front: seq<Group>, last: Group)
    requires |all| > 0 && all[..|all| - 1] == front && all[|all| - 1] == last
    ensures all == front + [last]
  {
  }

  /** Any stream of frames, each cut into any pieces, reads back as these frames: the complete ones are
      called back, the others dropped. */
  lemma MuxedReadsBack(groups: seq<Group>)
    requires forall i :: 0 <= i < |groups| ==> groups[i].Group?
    ensures Groups(Muxed(groups)) == [Idle] + groups
    ensures Emitted(Muxed(groups) + [End]) == Frames(groups)
  {
    MuxedGroups(groups);
    AtTheEnd(Muxed(groups));
    FramesOfIdle(groups);
  }

  lemma {:induction false} FramesOfIdle(groups: seq<Group>)
    ensures Frames([Idle] + groups) == Frames(groups)
  {
    if groups == [] {
      assert ([Idle] + groups)[..0] == [];
    } else {
      FramesOfIdle(groups[..|groups| - 1]);
      assert ([Idle] + groups)[..|groups|] == [Idle] + groups[..|groups| - 1];
    }
  }

  /* Writing a sector, and reading it back. */

  datatype Item = Item(frameStart: bool, dataType: nat, bytes: seq<Byte>)

  function PacketBytes(x: Item): seq<Byte>
    requires x.dataType < 8 && |x.bytes| < 2048
  {
    [(if x.frameStart then 128 else 0) + 8 * x.dataType + |x.bytes| / 256, |x.bytes| % 256]
  }

  function InfoBytes(dst: bool, info: Byte): seq<Byte> {
    if dst then [0, 0, 0, info] else [0, 0, 0]
  }

  predicate CanPack(items: seq<Item>) {
    |items| <= 7 && forall i {:trigger items[i]} :: 0 <= i < |items| ==> items[i].dataType < 8 && |items[i].bytes| < 2048
  }

  function PacketTable(items: seq<Item>): (s: seq<Byte>)
    requires CanPack(items)
    ensures |s| == 2 * |items|
  {
    if items == [] then [] else PacketTable(items[..|items| - 1]) + PacketBytes(items[|items| - 1])
  }

  function FrameTable(dst: bool, infos: seq<Byte>): (s: seq<Byte>)
    ensures |s| == InfoSize(dst, |infos|)
  {
    if infos == [] then [] else FrameTable(dst, infos[..|infos| - 1]) + InfoBytes(dst, infos[|infos| - 1])
  }

  function Payload(items: seq<Item>): seq<Byte> {
    if items == [] then [] else Payload(items[..|items| - 1]) + items[|items| - 1].bytes
  }

  /** The sector header: coding, and the counts of frame infos and packets. */
  function HeadByte(dst: bool, m: nat, n: nat): Byte
    requires m <= 7 && n <= 7
  {
    (if dst then 1 else 0) + 4 * m + 32 * n
  }

  function SectorBytes(dst: bool, infos: seq<Byte>, items: seq<Item>): seq<Byte>
    requires CanPack(items) && |infos| <= 7
  {
    [HeadByte(dst, |infos|, |items|)] + PacketTable(items) + FrameTable(dst, infos) + Payload(items)
  }

  lemma {:induction false} PacketTableAt(items: seq<Item>, i: nat)
    requires CanPack(items) && i < |items|
    ensures PacketTable(items)[2 * i..2 * i + 2] == PacketBytes(items[i])
  {
    var front := items[..|items| - 1];
    if i < |front| {
      PacketTableAt(front, i);
      assert PacketTable(items)[2 * i..2 * i + 2] == PacketTable(front)[2 * i..2 * i + 2];
    }
  }

  lemma {:induction false} FrameTableAt(infos: seq<Byte>, i: nat)
    requires i < |infos|
    ensures FrameTable(true, infos)[4 * i + 3] == infos[i]
  {
    if i < |infos| - 1 { FrameTableAt(infos[..|infos| - 1], i); }
  }

  lemma {:induction false} PayloadAt(items: seq<Item>, packets: seq<Packet>, i: nat)
    requires i < |items| == |packets| && forall j :: 0 <= j < |items| ==> packets[j].length == |items[j].bytes|
    ensures Length(packets[..i]) + |items[i].bytes| <= |Payload(items)| == Length(packets)
    ensures Payload(items)[Length(packets[..i])..Length(packets[..i]) + |items[i].bytes|] == items[i].bytes
  {
    var n := |items| - 1;
    var front, before := items[..n], packets[..n];
    PayloadLength(front, before);
    if i < n {
      PayloadAt(front, before, i);
      assert before[..i] == packets[..i];
      var a := Length(packets[..i]);
      assert Payload(items)[a..a + |items[i].bytes|] == Payload(front)[a..a + |items[i].bytes|];
    }
  }

  lemma {:induction false} PayloadLength(items: seq<Item>, packets: seq<Packet>)
    requires |items| == |packets| && forall j :: 0 <= j < |items| ==> packets[j].length == |items[j].bytes|
    ensures |Payload(items)| == Length(packets)
  {
    if items != [] { PayloadLength(items[..|items| - 1], packets[..|items| - 1]); }
  }

  /** Where the parts of a sector that starts with these bytes lie. */
  lemma SectorParts(dst: bool, infos: seq<Byte>, items: seq<Item>, sector: seq<Byte>)
    requires CanPack(items) && |infos| <= 7 && |sector| == SACD_LSN_SIZE && SectorBytes(dst, infos, items) <= sector
    ensures DstEncoded(sector[0]) == dst && FrameInfoCount(sector[0]) == |infos| && PacketInfoCount(sector[0]) == |items|
    ensures DataStart(sector) == 1 + 2 * |items| + InfoSize(dst, |infos|)
    ensures DataStart(sector) + |Payload(items)| <= SACD_LSN_SIZE
    ensures sector[1..1 + 2 * |items|] == PacketTable(items)
    ensures sector[1 + 2 * |items|..DataStart(sector)] == FrameTable(dst, infos)
    ensures sector[DataStart(sector)..DataStart(sector) + |Payload(items)|] == Payload(items)
  {
    hide PacketTable, FrameTable, Payload, HeadByte, DstEncoded, FrameInfoCount, PacketInfoCount;
    HeadReadsBack(dst, |infos|, |items|);
    FourParts(sector, [HeadByte(dst, |infos|, |items|)], PacketTable(items), FrameTable(dst, infos), Payload(items));
    assert sector[0] == sector[..1][0];
  }

  lemma HeadReadsBack(dst: bool, m: nat, n: nat)
    requires m <= 7 && n <= 7
    ensures var head := HeadByte(dst, m, n); DstEncoded(head) == dst && FrameInfoCount(head) == m && PacketInfoCount(head) == n
  {
  }

  /** Where the parts of a concatenation lie. */
  lemma FourParts(s: seq<Byte>, a: seq<Byte>, b: seq<Byte>, c: seq<Byte>, d: seq<Byte>)
    requires a + b + c + d <= s
    ensures |a| + |b| + |c| + |d| <= |s| && s[..|a|] == a && s[|a|..|a| + |b|] == b
    ensures s[|a| + |b|..|a| + |b| + |c|] == c && s[|a| + |b| + |c|..|a| + |b| + |c| + |d|] == d
  {
    assert s == a + b + c + d + s[|a + b + c + d|..];
  }

  lemma PacketBack(x: Item)
    requires x.dataType < 8 && |x.bytes| < 2048
    ensures PacketOf(PacketBytes(x)[0], PacketBytes(x)[1]) == Packet(x.frameStart, x.dataType, |x.bytes|)
  {
    var s := if x.frameStart then 1 else 0;
    var h := |x.bytes| / 256;
    var b := 128 * s + 8 * x.dataType + h;
    assert h < 8;
    DivUnique(b, 128, s, 8 * x.dataType + h);
    DivUnique(b, 8, 16 * s + x.dataType, h);
    DivUnique(16 * s + x.dataType, 8, 2 * s, x.dataType);
  }

  lemma PacketsReadBack(dst: bool, infos: seq<Byte>, items: seq<Item>, sector: seq<Byte>)
    requires CanPack(items) && |infos| <= 7 && |sector| == SACD_LSN_SIZE && SectorBytes(dst, infos, items) <= sector
    ensures |Packets(sector)| == |items|
    ensures forall i :: 0 <= i < |items| ==>
              Packets(sector)[i] == Packet(items[i].frameStart, items[i].dataType, |items[i].bytes|)
  {
    hide SectorBytes, PacketTable, PacketBytes;
    SectorParts(dst, infos, items, sector);
    var table := sector[1..1 + 2 * |items|];
    forall i | 0 <= i < |items|
      ensures Packets(sector)[i] == Packet(items[i].frameStart, items[i].dataType, |items[i].bytes|)
    {
      PacketTableAt(items, i);
      PacketBack(items[i]);
      assert sector[1 + 2 * i] == table[2 * i] == table[2 * i..2 * i + 2][0];
      assert sector[2 + 2 * i] == table[2 * i + 1] == table[2 * i..2 * i + 2][1];
    }
  }

  /** Any sector that starts with these bytes is well formed and has these packets, data and frame infos. */
  lemma SectorReadsBack(dst: bool, infos: seq<Byte>, items: seq<Item>, sector: seq<Byte>)
    requires CanPack(items) && |infos| <= 7 && |sector| == SACD_LSN_SIZE && SectorBytes(dst, infos, items) <= sector
    ensures WellFormed(sector) && |Packets(sector)| == |items| && DstEncoded(sector[0]) == dst
    ensures forall i :: 0 <= i < |items| ==>
              && Packets(sector)[i] == Packet(items[i].frameStart, items[i].dataType, |items[i].bytes|)
              && PacketData(sector, i) == items[i].bytes
    ensures dst ==> forall earlier: seq<Byte>, i :: |earlier| == 7 && 0 <= i < |infos| ==> Infos(earlier, sector)[i] == infos[i]
  {
    hide SectorBytes, Packets, PacketTable, FrameTable, Payload, DataStart;
    SectorParts(dst, infos, items, sector);
    PacketsReadBack(dst, infos, items, sector);
    var p := Packets(sector);
    PayloadLength(items, p);
    var start := DataStart(sector);
    forall i | 0 <= i < |items| ensures PacketData(sector, i) == items[i].bytes {
      PayloadAt(items, p, i);
      SliceOfSlice(sector, start, |Payload(items)|, Length(p[..i]), |items[i].bytes|);
    }
    if dst {
      InfosReadBack(infos, items, sector);
    }
  }

  lemma InfosReadBack(infos: seq<Byte>, items: seq<Item>, sector: seq<Byte>)
    requires CanPack(items) && |infos| <= 7 && |sector| == SACD_LSN_SIZE && SectorBytes(true, infos, items) <= sector
    ensures forall earlier: seq<Byte>, i :: |earlier| == 7 && 0 <= i < |infos| ==> Infos(earlier, sector)[i] == infos[i]
  {
    hide SectorBytes, PacketTable, FrameTable, Payload;
    SectorParts(true, infos, items, sector);
    var table := sector[1 + 2 * |items|..DataStart(sector)];
    forall i | 0 <= i < |infos| ensures sector[4 + 2 * |items| + 4 * i] == infos[i] {
      FrameTableAt(infos, i);
      assert table[4 * i + 3] == sector[4 + 2 * |items| + 4 * i];
    }
  }

  /* How much a call can call back. */

  /** More events call back more frames, after the earlier ones. */
  lemma {:induction false} EmittedGrows(events: seq<Event>, more: seq<Event>)
    ensures Emitted(events) <= Emitted(events + more)
  {
    hide Frames, Groups;
    if more == [] {
      assert events + more == events;
    } else {
      var front, e := more[..|more| - 1], more[|more| - 1];
      EmittedGrows(events, front);
      assert events + more == events + front + [e];
      EmittedStep(events + front, e);
    }
  }

  /** One event calls back at most the frame that was open. */
  lemma EmittedStep(events: seq<Event>, e: Event)
    ensures var g := Groups(events); var open := g[|g| - 1];
            Emitted(events + [e])
            == Emitted(events) + if !e.Data? && Complete(open) then [Emission(Joined(open.chunks), open.channels, open.dst)] else []
  {
    hide Groups, Joined;
    GroupsGrow(events, e);
    var g := Groups(events);
    assert g == g[..|g| - 1] + [g[|g| - 1]];
    LastFrame(g);
  }

  lemma LastFrame(g: seq<Group>)
    requires g != []
    ensures var open := g[|g| - 1];
            Frames(g) == Frames(g[..|g| - 1])
                         + if Complete(open) then [Emission(Joined(open.chunks), open.channels, open.dst)] else []
  {
  }

  function Size(calls: seq<Emission>): nat {
    if calls == [] then 0 else Size(calls[..|calls| - 1]) + |calls[|calls| - 1].bytes|
  }

  lemma SizeMore(calls: seq<Emission>, e: Emission)
    ensures Size(calls + [e]) == Size(calls) + |e.bytes|
  {
    assert (calls + [e])[..|calls|] == calls;
  }

  function DataSize(events: seq<Event>): nat {
    if events == [] then 0
    else DataSize(events[..|events| - 1]) + if events[|events| - 1].Data? then |events[|events| - 1].bytes| else 0
  }

  /** What the open frame may still bring. */
  function OpenSize(events: seq<Event>): nat {
    var g := Groups(events);
    var open := g[|g| - 1];
    if open.Group? && |Joined(open.chunks)| < MAX_DST_SIZE then |Joined(open.chunks)| else 0
  }

  lemma SizeStep(events: seq<Event>, e: Event)
    ensures Size(Emitted(events + [e])) + OpenSize(events + [e])
            <= Size(Emitted(events)) + OpenSize(events) + if e.Data? then |e.bytes| else 0
  {
    var g := Groups(events);
    var open := g[|g| - 1];
    EmittedStep(events, e);
    GroupsGrow(events, e);
    hide Groups, Emitted;
    if e.Data? {
      assert Emitted(events) + [] == Emitted(events);
      if open.Group? { JoinedGrows(open.chunks, e.bytes); }
    } else if Complete(open) {
      SizeMore(Emitted(events), Emission(Joined(open.chunks), open.channels, open.dst));
    } else {
      assert Emitted(events) + [] == Emitted(events);
    }
  }

  /** The frames called back are at most the one that was open and the data that came since. */
  lemma {:induction false} EmittedBound(events: seq<Event>, more: seq<Event>)
    ensures Size(Emitted(events + more)) + OpenSize(events + more) <= Size(Emitted(events)) + OpenSize(events) + DataSize(more)
  {
    hide Emitted, OpenSize, Size;
    if more == [] {
      assert events + more == events;
    } else {
      var front, e := more[..|more| - 1], more[|more| - 1];
      EmittedBound(events, front);
      assert events + more == events + front + [e];
      SizeStep(events + front, e);
    }
  }

  lemma {:induction false} DataSizeConcat(a: seq<Event>, b: seq<Event>)
    ensures DataSize(a + b) == DataSize(a) + DataSize(b)
  {
    if b == [] {
      assert a + b == a;
    } else {
      DataSizeConcat(a, b[..|b| - 1]);
      assert (a + b)[..|a + b| - 1] == a + b[..|b| - 1];
    }
  }

  lemma EventsSize(infos: seq<Byte>, sector: seq<Byte>, i: nat)
    requires WellFormed(sector) && |infos| == 7 && i < |Packets(sector)|
    ensures DataSize(EventsOf(infos, sector, i)) <= Packets(sector)[i].length
  {
    hide Packets;
    if Packets(sector)[i].dataType == DATA_TYPE_AUDIO {
      DataFits(sector, i);
      var d := Data(PacketData(sector, i));
      DataSizeConcat([], [d]);
      assert [d][..0] == [] && [] + [d] == [d];
      DataSizeConcat([BeginOf(infos, sector, i)], [d]);
      assert [BeginOf(infos, sector, i)][..0] == [];
    }
  }

  lemma {:induction false} PacketEventsSize(infos: seq<Byte>, sector: seq<Byte>, n: nat)
    requires WellFormed(sector) && |infos| == 7 && n <= |Packets(sector)|
    ensures DataSize(PacketEvents(infos, sector, n)) <= Length(Packets(sector)[..n])
    decreases n
  {
    hide Packets, EventsOf, WellFormed, DataStart, Length;
    if n > 0 {
      PacketEventsSize(infos, sector, n - 1);
      EventsSize(infos, sector, n - 1);
      DataSizeConcat(PacketEvents(infos, sector, n - 1), EventsOf(infos, sector, n - 1));
      DataFits(sector, n - 1);
    }
  }

  /** No more data than sectors. */
  lemma {:induction false} StreamSize(infos: seq<Byte>, sectors: seq<seq<Byte>>)
    requires |infos| == 7 && AllWellFormed(sectors)
    ensures DataSize(Stream(infos, sectors).1) <= SACD_LSN_SIZE * |sectors|
  {
    hide PacketEvents, Packets, Infos, DataStart;
    if sectors != [] {
      var front, sector := sectors[..|sectors| - 1], sectors[|sectors| - 1];
      StreamSize(infos, front);
      var before := Stream(infos, front);
      assert WellFormed(sector);
      var after := Infos(before.0, sector);
      PacketEventsSize(after, sector, |Packets(sector)|);
      assert Packets(sector)[..|Packets(sector)|] == Packets(sector);
      DataSizeConcat(before.1, SectorEvents(before.0, sector));
    }
  }
}
