/** Whole tracks laid out as sectors: any packets in any pages are read as their events (scarletbook_read.c),
    and every stream of frames has such a layout. */
module SectorLayout {
  import opened Bits
  import opened Demux

  /** What a sector is made from: its coding, frame infos and packets. */
  datatype Page = Page(dst: bool, infos: seq<Byte>, items: seq<Item>)

  predicate Fits(p: Page) {
    CanPack(p.items) && |p.infos| <= 7 && |SectorBytes(p.dst, p.infos, p.items)| <= SACD_LSN_SIZE
  }

  predicate AllFit(pages: seq<Page>) {
    forall i {:trigger pages[i]} :: 0 <= i < |pages| ==> Fits(pages[i])
  }

  function SectorOf(p: Page): (s: seq<Byte>)
    requires Fits(p)
    ensures |s| == SACD_LSN_SIZE && SectorBytes(p.dst, p.infos, p.items) <= s
  {
    var bytes := SectorBytes(p.dst, p.infos, p.items);
    bytes + seq(SACD_LSN_SIZE - |bytes|, _ => 0)
  }

  function SectorsOf(pages: seq<Page>): (s: seq<seq<Byte>>)
    requires AllFit(pages)
    ensures |s| == |pages| && forall i {:trigger s[i]} :: 0 <= i < |pages| ==> s[i] == SectorOf(pages[i])
  {
    seq(|pages|, i requires 0 <= i < |pages| => SectorOf(pages[i]))
  }

  /* What the pages say. */

  /** The frame infos in force after a page. */
  function InfosAfter(infos: seq<Byte>, p: Page): (r: seq<Byte>)
    requires |infos| == 7 && |p.infos| <= 7
    ensures |r| == 7
  {
    if p.dst then p.infos + infos[|p.infos|..] else infos
  }

  function Begins(x: Item): bool { x.frameStart && x.dataType == DATA_TYPE_AUDIO }

  function BeginsIn(items: seq<Item>): (n: nat)
    ensures n <= |items|
  {
    if items == [] then 0 else BeginsIn(items[..|items| - 1]) + if Begins(items[|items| - 1]) then 1 else 0
  }

  /** Frames begin with the infos in turn; packets that are not audio are passed over. */
  function ItemEvents(infos: seq<Byte>, dst: bool, items: seq<Item>): seq<Event>
    requires |infos| == 7 && |items| <= 7
  {
    if items == [] then []
    else
      var front, x := items[..|items| - 1], items[|items| - 1];
      ItemEvents(infos, dst, front)
      + if x.dataType != DATA_TYPE_AUDIO then []
        else (if x.frameStart then [BeginWith(infos[BeginsIn(front)], dst)] else []) + [Data(x.bytes)]
  }

  function BeginWith(info: Byte, dst: bool): Event { Begin(dst, SectorCount(info), ChannelCount(info)) }

  function PageStream(infos: seq<Byte>, pages: seq<Page>): (r: (seq<Byte>, seq<Event>))
    requires |infos| == 7 && AllFit(pages)
    ensures |r.0| == 7
  {
    if pages == [] then (infos, [])
    else
      var p := pages[|pages| - 1];
      assert Fits(p);
      var (before, events) := PageStream(infos, pages[..|pages| - 1]);
      var after := InfosAfter(before, p);
      (after, events + ItemEvents(after, p.dst, p.items))
  }

  /* Reading pages. */

  lemma {:induction false} StartsAreBegins(packets: seq<Packet>, items: seq<Item>)
    requires |packets| == |items|
    requires forall i :: 0 <= i < |items| ==> packets[i] == Packet(items[i].frameStart, items[i].dataType, |items[i].bytes|)
    ensures Starts(packets) == BeginsIn(items)
  {
    if items != [] {
      StartsAreBegins(packets[..|packets| - 1], items[..|items| - 1]);
    }
  }

  lemma {:induction false} PacketsOfPage(infos: seq<Byte>, p: Page, n: nat)
    requires Fits(p) && |infos| == 7 && n <= |p.items|
    ensures WellFormed(SectorOf(p)) && |Packets(SectorOf(p))| == |p.items|
    ensures PacketEvents(infos, SectorOf(p), n) == ItemEvents(infos, p.dst, p.items[..n])
  {
    hide SectorBytes, WellFormed, Packets, PacketData, Starts, BeginsIn, SectorOf;
    var sector := SectorOf(p);
    SectorReadsBack(p.dst, p.infos, p.items, sector);
    if n > 0 {
      PacketsOfPage(infos, p, n - 1);
      assert p.items[..n][..n - 1] == p.items[..n - 1];
      StartsAreBegins(Packets(sector)[..n - 1], p.items[..n - 1]);
    }
  }

  lemma InfosOfPage(infos: seq<Byte>, p: Page)
    requires Fits(p) && |infos| == 7
    ensures Infos(infos, SectorOf(p)) == InfosAfter(infos, p)
  {
    hide SectorBytes, Packets, DstEncoded, FrameInfoCount, PacketInfoCount, SectorOf;
    var sector := SectorOf(p);
    SectorReadsBack(p.dst, p.infos, p.items, sector);
    SectorParts(p.dst, p.infos, p.items, sector);
  }

  lemma PageMore(infos: seq<Byte>, pages: seq<Page>, p: Page)
    requires |infos| == 7 && AllFit(pages) && Fits(p)
    ensures AllFit(pages + [p])
    ensures var s := PageStream(infos, pages);
            PageStream(infos, pages + [p]) == (InfosAfter(s.0, p), s.1 + ItemEvents(InfosAfter(s.0, p), p.dst, p.items))
  {
    hide Fits, InfosAfter, ItemEvents;
    assert (pages + [p])[..|pages|] == pages;
  }

  lemma OnePage(infos: seq<Byte>, p: Page)
    requires |infos| == 7 && Fits(p)
    ensures WellFormed(SectorOf(p)) && Infos(infos, SectorOf(p)) == InfosAfter(infos, p)
    ensures SectorEvents(infos, SectorOf(p)) == ItemEvents(InfosAfter(infos, p), p.dst, p.items)
  {
    hide SectorOf, WellFormed, Infos, InfosAfter, PacketEvents, ItemEvents, Fits, Packets;
    PacketsOfPage(infos, p, 0);
    InfosOfPage(infos, p);
    PacketsOfPage(InfosAfter(infos, p), p, |p.items|);
    assert p.items[..|p.items|] == p.items;
  }

  lemma SectorsJoin(front: seq<Page>, p: Page)
    requires AllFit(front) && Fits(p) && AllWellFormed(SectorsOf(front)) && WellFormed(SectorOf(p))
    ensures AllFit(front + [p]) && SectorsOf(front + [p]) == SectorsOf(front) + [SectorOf(p)]
    ensures AllWellFormed(SectorsOf(front + [p]))
  {
    hide SectorOf, WellFormed, Fits;
    var sectors := SectorsOf(front) + [SectorOf(p)];
    forall i | 0 <= i < |sectors| ensures WellFormed(sectors[i]) {
      if i < |front| { assert WellFormed(SectorsOf(front)[i]); }
    }
    assert SectorsOf(front + [p]) == sectors;
  }

  lemma NoPages(infos: seq<Byte>)
    requires |infos| == 7
    ensures SectorsOf([]) == [] && PageStream(infos, []) == (infos, []) && Stream(infos, []) == (infos, [])
  {
  }

  /** The sectors of any pages are read as what the pages say. */
  lemma {:induction false} PagesReadBack(infos: seq<Byte>, pages: seq<Page>)
    requires |infos| == 7 && AllFit(pages)
    ensures AllWellFormed(SectorsOf(pages)) && Stream(infos, SectorsOf(pages)) == PageStream(infos, pages)
  {
    hide SectorOf, SectorsOf, WellFormed, Infos, InfosAfter, SectorEvents, ItemEvents, Fits, Stream, PageStream;
    if pages == [] {
      NoPages(infos);
    } else {
      var front, p := pages[..|pages| - 1], pages[|pages| - 1];
      PagesReadBack(infos, front);
      assert Fits(p) && front + [p] == pages;
      OnePage(PageStream(infos, front).0, p);
      SectorsJoin(front, p);
      PageMore(infos, front, p);
      var sectors := SectorsOf(pages);
      assert sectors[..|front|] == SectorsOf(front) && sectors[..|front| + 1] == sectors;
      StreamStep(infos, sectors, |front|);
    }
  }

  /** Pages that hold a stream of frames, in any arrangement, read in calls with any parts of their sectors,
      make exactly the complete frames be called back, in order. */
  lemma FramesCalledBack(pages: seq<Page>, groups: seq<Group>, parts: seq<seq<seq<Byte>>>)
    requires AllFit(pages) && PageStream(NoInfos(), pages).1 == Muxed(groups)
    requires forall i :: 0 <= i < |groups| ==> groups[i].Group?
    requires PartsWellFormed(parts) && Demux.Flat(parts) == SectorsOf(pages)
    ensures Emitted(Calls(NoInfos(), parts).1 + [End]) == Frames(groups)
  {
    hide Stream, PageStream, Groups, Frames, SectorsOf, WellFormed;
    PagesReadBack(NoInfos(), pages);
    SplitIndependent(NoInfos(), parts);
    MuxedReadsBack(groups);
    AtTheEnd(Muxed(groups));
  }

  /* A layout for every track. */

  /** The frame info with these counts. */
  function InfoOf(sectors: nat, channels: nat): (b: Byte)
    requires sectors < 32 && channels in {2, 5, 6}
    ensures SectorCount(b) == sectors && ChannelCount(b) == channels
  {
    4 * sectors + if channels == 6 then 2 else if channels == 5 then 1 else 0
  }

  /** A frame of pieces that fit a sector each. Without DST coding there are no infos that say more. */
  predicate CanLay(g: Group, dst: bool) {
    && g.Group? && g.dst == dst && g.chunks != []
    && (forall i {:trigger g.chunks[i]} :: 0 <= i < |g.chunks| ==> |g.chunks[i]| <= if dst then 2041 else 2045)
    && (if dst then g.sectors < 32 && g.channels in {2, 5, 6} else g.sectors == 0 && g.channels == 2)
  }

  predicate AllCanLay(groups: seq<Group>, dst: bool) {
    forall i {:trigger groups[i]} :: 0 <= i < |groups| ==> CanLay(groups[i], dst)
  }

  /** Piece i of a frame, alone on its page; the first one begins the frame. */
  function PageOf(g: Group, dst: bool, i: nat): (p: Page)
    requires CanLay(g, dst) && i < |g.chunks|
    ensures Fits(p)
  {
    var infos := if dst && i == 0 then [InfoOf(g.sectors, g.channels)] else [];
    var items := [Item(i == 0, DATA_TYPE_AUDIO, g.chunks[i])];
    OneItem(dst, infos, items);
    Page(dst, infos, items)
  }

  lemma OneItem(dst: bool, infos: seq<Byte>, items: seq<Item>)
    requires |items| == 1 && items[0].dataType < 8 && |infos| <= 1 && |items[0].bytes| <= 2045 - InfoSize(dst, |infos|)
    ensures CanPack(items) && |SectorBytes(dst, infos, items)| <= SACD_LSN_SIZE
  {
    assert items[..0] == [];
    assert Payload(items) == Payload([]) + items[0].bytes;
    assert |Payload(items)| == |items[0].bytes|;
  }

  function PagesOf(g: Group, dst: bool, n: nat): (p: seq<Page>)
    requires CanLay(g, dst) && n <= |g.chunks|
    ensures AllFit(p) && |p| == n
  {
    if n == 0 then [] else PagesOf(g, dst, n - 1) + [PageOf(g, dst, n - 1)]
  }

  function LayOut(groups: seq<Group>, dst: bool): (p: seq<Page>)
    requires AllCanLay(groups, dst)
    ensures AllFit(p)
  {
    if groups == [] then []
    else
      var g := groups[|groups| - 1];
      assert CanLay(g, dst);
      LayOut(groups[..|groups| - 1], dst) + PagesOf(g, dst, |g.chunks|)
  }

  lemma OneItemEvents(infos: seq<Byte>, dst: bool, x: Item)
    requires |infos| == 7 && x.dataType == DATA_TYPE_AUDIO
    ensures ItemEvents(infos, dst, [x]) == (if x.frameStart then [BeginWith(infos[0], dst)] else []) + [Data(x.bytes)]
  {
    assert [x][..0] == [];
    assert BeginsIn([]) == 0;
  }

  /** Without DST coding the infos stay as they were at first. */
  predicate Untouched(infos: seq<Byte>, dst: bool) { |infos| == 7 && (!dst ==> infos == NoInfos()) }

  lemma {:induction false} GroupLaid(before: seq<Page>, g: Group, dst: bool, n: nat)
    requires AllFit(before) && CanLay(g, dst) && n <= |g.chunks|
    requires Untouched(PageStream(NoInfos(), before).0, dst)
    ensures AllFit(before + PagesOf(g, dst, n))
    ensures var s := PageStream(NoInfos(), before + PagesOf(g, dst, n));
            && Untouched(s.0, dst)
            && s.1 == PageStream(NoInfos(), before).1
                      + if n == 0 then [] else [Begin(dst, g.sectors, g.channels)] + Pieces(g.chunks[..n])
  {
    hide Fits, PageStream, ItemEvents;
    if n == 0 {
      assert before + [] == before;
      assert PageStream(NoInfos(), before).1 + [] == PageStream(NoInfos(), before).1;
    } else {
      GroupLaid(before, g, dst, n - 1);
      var p := PageOf(g, dst, n - 1);
      var pages := before + PagesOf(g, dst, n - 1);
      assert before + PagesOf(g, dst, n) == pages + [p];
      PageMore(NoInfos(), pages, p);
      var after := InfosAfter(PageStream(NoInfos(), pages).0, p);
      OneItemEvents(after, dst, p.items[0]);
      NextPiece(g.chunks, n);
      if n == 1 { FirstInfo(after, g, dst); }
    }
  }

  lemma FirstInfo(infos: seq<Byte>, g: Group, dst: bool)
    requires CanLay(g, dst) && |infos| == 7 && if dst then infos[0] == InfoOf(g.sectors, g.channels) else infos == NoInfos()
    ensures BeginWith(infos[0], dst) == Begin(dst, g.sectors, g.channels)
  {
  }

  lemma NextPiece(chunks: seq<seq<Byte>>, n: nat)
    requires 0 < n <= |chunks|
    ensures Pieces(chunks[..n]) == Pieces(chunks[..n - 1]) + [Data(chunks[n - 1])]
    ensures n == 1 ==> Pieces(chunks[..n]) == [Data(chunks[0])]
  {
    assert chunks[..n][..n - 1] == chunks[..n - 1];
  }

  lemma {:induction false} AllLaid(groups: seq<Group>, dst: bool)
    requires AllCanLay(groups, dst)
    ensures var s := PageStream(NoInfos(), LayOut(groups, dst)); Untouched(s.0, dst) && s.1 == Muxed(groups)
  {
    hide CanLay, Fits, Pieces, PagesOf;
    if groups == [] {
      assert Muxed(groups) == [];
    } else {
      var front, g := groups[..|groups| - 1], groups[|groups| - 1];
      AllLaid(front, dst);
      assert CanLay(g, dst);
      WholeGroup(g, dst);
      GroupLaid(LayOut(front, dst), g, dst, |g.chunks|);
    }
  }

  lemma WholeGroup(g: Group, dst: bool)
    requires CanLay(g, dst)
    ensures g.Group? && |g.chunks| > 0 && g.dst == dst && g.chunks[..|g.chunks|] == g.chunks
  {
  }

  /** Every track of frames, DST coded or not, can be laid out as sectors, and reading them, in any calls,
      calls back exactly the complete frames. */
  lemma TrackReadsBack(groups: seq<Group>, dst: bool, parts: seq<seq<seq<Byte>>>)
    requires AllCanLay(groups, dst) && PartsWellFormed(parts) && Demux.Flat(parts) == SectorsOf(LayOut(groups, dst))
    ensures Emitted(Calls(NoInfos(), parts).1 + [End]) == Frames(groups)
  {
    hide LayOut, PageStream, Frames, SectorsOf, Fits, Muxed;
    AllLaid(groups, dst);
    forall i | 0 <= i < |groups| ensures groups[i].Group? { assert CanLay(groups[i], dst); }
    FramesCalledBack(LayOut(groups, dst), groups, parts);
  }

  lemma CallStep(parts: seq<seq<seq<Byte>>>, i: nat)
    requires PartsWellFormed(parts) && i < |parts|
    ensures PartsWellFormed(parts[..i]) && PartsWellFormed(parts[..i + 1]) && AllWellFormed(parts[i])
    ensures var before := Calls(NoInfos(), parts[..i]);
            var more := Stream(before.0, parts[i]);
            Calls(NoInfos(), parts[..i + 1]) == (more.0, before.1 + more.1)
  {
    hide Stream, AllWellFormed;
    assert parts[..i + 1][..i] == parts[..i];
  }

  lemma CompleteOnes(groups: seq<Group>, dst: bool) returns (ix: seq<nat>)
    requires AllCanLay(groups, dst)
    ensures CalledBack(groups, ix, Frames(groups))
    ensures forall i {:trigger groups[i]} :: 0 <= i < |groups| ==>
              && CanLay(groups[i], dst)
              && var n := |Joined(groups[i].chunks)|;
              (i in ix <==> 0 < n < 65536 && if dst then |groups[i].chunks| == groups[i].sectors else n % 4704 == 0)
  {
    hide Joined, Frames, CalledBack;
    ix := FramesExactly(groups);
  }

  /** A new handle given the laid out track part by part calls back the complete frames: with DST coding those
      of as many packets as announced, otherwise those of whole blocks, none of them empty or too long. */
  method ReadTrack(parts: seq<seq<seq<Byte>>>, ghost groups: seq<Group>, ghost dst: bool)
    returns (calls: seq<Emission>, ghost ix: seq<nat>)
    requires AllCanLay(groups, dst) && parts != [] && PartsWellFormed(parts)
    requires Demux.Flat(parts) == SectorsOf(LayOut(groups, dst))
    ensures calls == Frames(groups) && CalledBack(groups, ix, calls)
    ensures forall i {:trigger groups[i]} :: 0 <= i < |groups| ==>
              && CanLay(groups[i], dst)
              && var n := |Joined(groups[i].chunks)|;
              (i in ix <==> 0 < n < 65536 && if dst then |groups[i].chunks| == groups[i].sectors else n % 4704 == 0)
  {
    hide Stream, Emitted, Frames, LayOut, SectorsOf, AllWellFormed, Handle.Reading;
    var handle := new Handle();
    for i := 0 to |parts|
      invariant handle.Valid() && fresh(handle) && fresh(handle.packet) && fresh(handle.info) && fresh(handle.data)
      invariant PartsWellFormed(parts[..i]) && handle.info[..] == Calls(NoInfos(), parts[..i]).0
      invariant handle.events == Calls(NoInfos(), parts[..i]).1 + if i == |parts| then [End] else []
      invariant i == |parts| ==> handle.calls == Emitted(handle.events)
    {
      CallStep(parts, i);
      handle.ProcessFrames(parts[i], i + 1 == |parts|);
    }
    assert parts[..|parts|] == parts;
    TrackReadsBack(groups, dst, parts);
    calls := handle.calls;
    ix := CompleteOnes(groups, dst);
  }
}
