/** Two sectors byte by byte, with a DST coded frame that is complete and one that may lack a packet
    (scarletbook_read.c, scarletbook.h). */
module KnownTrack {
  import opened Bits
  import opened Demux
  import opened SectorLayout

  /** The fields of a frame info's last byte: its packets are counted by bits 2 to 6, and bits 0 and 1 tell the
      channels. */
  lemma InfoByteIs(top: nat, sectors: nat, bit2: nat, bit3: nat)
    requires top < 2 && sectors < 32 && bit2 < 2 && bit3 < 2
    ensures SectorCount(128 * top + 4 * sectors + 2 * bit2 + bit3) == sectors
    ensures ChannelCount(128 * top + 4 * sectors + 2 * bit2 + bit3) == if bit2 == 1 && bit3 == 0 then 6 else if bit2 == 0 && bit3 == 1 then 5 else 2
  {
    DivUnique(128 * top + 4 * sectors + 2 * bit2 + bit3, 4, 32 * top + sectors, 2 * bit2 + bit3);
    DivUnique(128 * top + 4 * sectors + 2 * bit2 + bit3, 2, 64 * top + 2 * sectors + bit2, bit3);
  }

  function Filled(bytes: seq<Byte>): (s: seq<Byte>)
    requires |bytes| <= 2048
    ensures |s| == 2048
  {
    bytes + seq(2048 - |bytes|, _ => 0)
  }

  /** A frame of two packets begins. */
  function First(a: Byte, b: Byte, c: Byte): seq<Byte> { Filled([37, 144, 3, 0, 0, 0, 8, a, b, c]) }

  /** Its second packet, and a frame with six channels of one packet with this info byte. */
  function Second(d: Byte, info: Byte, e: Byte): seq<Byte> { Filled([69, 16, 1, 144, 1, 0, 0, 0, info, d, e]) }

  function FirstPage(a: Byte, b: Byte, c: Byte): Page { Page(true, [8], [Item(true, 2, [a, b, c])]) }

  function SecondPage(d: Byte, info: Byte, e: Byte): Page {
    Page(true, [info], [Item(false, 2, [d]), Item(true, 2, [e])])
  }

  lemma FirstIs(a: Byte, b: Byte, c: Byte)
    ensures Fits(FirstPage(a, b, c)) && SectorOf(FirstPage(a, b, c)) == First(a, b, c)
  {
    var items := [Item(true, 2, [a, b, c])];
    assert items[..0] == [] && [8][..0] == [];
    assert PacketTable(items) == [144, 3];
    assert FrameTable(true, [8]) == [0, 0, 0, 8];
    assert Payload(items) == [a, b, c];
    assert SectorBytes(true, [8], items) == [37, 144, 3, 0, 0, 0, 8, a, b, c];
  }

  lemma SecondTable(d: Byte, e: Byte)
    ensures var items := [Item(false, 2, [d]), Item(true, 2, [e])];
            CanPack(items) && PacketTable(items) == [16, 1, 144, 1] && Payload(items) == [d, e]
  {
    var items := [Item(false, 2, [d]), Item(true, 2, [e])];
    var front := items[..1];
    assert front == [Item(false, 2, [d])] && front[..0] == [];
    assert PacketTable(front) == [16, 1];
    assert Payload(front) == [d];
  }

  lemma SecondIs(d: Byte, info: Byte, e: Byte)
    ensures Fits(SecondPage(d, info, e)) && SectorOf(SecondPage(d, info, e)) == Second(d, info, e)
  {
    hide PacketTable, Payload;
    SecondTable(d, e);
    assert [info][..0] == [];
    assert FrameTable(true, [info]) == [0, 0, 0, info];
    assert SectorBytes(true, [info], SecondPage(d, info, e).items) == [69, 16, 1, 144, 1, 0, 0, 0, info, d, e];
  }

  function Pages(a: Byte, b: Byte, c: Byte, d: Byte, info: Byte, e: Byte): seq<Page> {
    [FirstPage(a, b, c), SecondPage(d, info, e)]
  }

  lemma PagesFit(a: Byte, b: Byte, c: Byte, d: Byte, info: Byte, e: Byte)
    ensures var pages := Pages(a, b, c, d, info, e);
            AllFit(pages) && SectorsOf(pages) == [First(a, b, c), Second(d, info, e)]
  {
    hide Fits, SectorOf, First, Second;
    FirstIs(a, b, c);
    SecondIs(d, info, e);
  }

  /** The frames held: two packets announced and there, and one packet that is there. */
  function HeldFrames(a: Byte, b: Byte, c: Byte, d: Byte, info: Byte, e: Byte): seq<Group> {
    [Group(true, 2, 2, [[a, b, c], [d]]), Group(true, SectorCount(info), ChannelCount(info), [[e]])]
  }

  lemma FirstEvents(infos: seq<Byte>, a: Byte, b: Byte, c: Byte)
    requires |infos| == 7
    ensures ItemEvents(InfosAfter(infos, FirstPage(a, b, c)), true, FirstPage(a, b, c).items) == [Begin(true, 2, 2), Data([a, b, c])]
  {
    OneItemEvents(InfosAfter(infos, FirstPage(a, b, c)), true, Item(true, 2, [a, b, c]));
  }

  lemma SecondEvents(infos: seq<Byte>, d: Byte, info: Byte, e: Byte)
    requires |infos| == 7
    ensures ItemEvents(InfosAfter(infos, SecondPage(d, info, e)), true, SecondPage(d, info, e).items)
            == [Data([d]), BeginWith(info, true), Data([e])]
  {
    var items := SecondPage(d, info, e).items;
    var front := items[..1];
    assert front == [Item(false, 2, [d])];
    OneItemEvents(InfosAfter(infos, SecondPage(d, info, e)), true, Item(false, 2, [d]));
    assert front[..0] == [];
    assert BeginsIn(front) == 0;
  }

  lemma PagesHold(a: Byte, b: Byte, c: Byte, d: Byte, info: Byte, e: Byte)
    requires AllFit(Pages(a, b, c, d, info, e))
    ensures PageStream(NoInfos(), Pages(a, b, c, d, info, e)).1
            == [Begin(true, 2, 2), Data([a, b, c])] + [Data([d]), BeginWith(info, true), Data([e])]
  {
    hide Fits, ItemEvents, InfosAfter, PageStream, BeginWith, FirstPage, SecondPage;
    var first, second := FirstPage(a, b, c), SecondPage(d, info, e);
    var pages := Pages(a, b, c, d, info, e);
    assert Fits(pages[0]) && Fits(pages[1]);
    assert [] + [first] == [first] && [first] + [second] == pages;
    NoPages(NoInfos());
    PageMore(NoInfos(), [], first);
    FirstEvents(NoInfos(), a, b, c);
    PageMore(NoInfos(), [first], second);
    SecondEvents(PageStream(NoInfos(), [first]).0, d, info, e);
    PageIs(a, b, c, d, info, e);
  }

  lemma PageIs(a: Byte, b: Byte, c: Byte, d: Byte, info: Byte, e: Byte)
    ensures FirstPage(a, b, c).dst && SecondPage(d, info, e).dst
  {
  }

  lemma HeldMuxed(a: Byte, b: Byte, c: Byte, d: Byte, info: Byte, e: Byte)
    ensures Muxed(HeldFrames(a, b, c, d, info, e))
            == [Begin(true, 2, 2), Data([a, b, c])] + [Data([d]), BeginWith(info, true), Data([e])]
  {
    hide SectorCount, ChannelCount;
    var groups := HeldFrames(a, b, c, d, info, e);
    var front := groups[..1];
    var two := [[a, b, c], [d]];
    assert front == [groups[0]] && front[..0] == [];
    assert two[..1] == [[a, b, c]] && [[a, b, c]][..0] == [] && [[e]][..0] == [];
    assert Pieces([[a, b, c]]) == [Data([a, b, c])];
    assert Pieces(two) == [Data([a, b, c]), Data([d])];
    assert Pieces([[e]]) == [Data([e])];
    assert Muxed(front) == [Begin(true, 2, 2), Data([a, b, c]), Data([d])];
  }

  lemma HeldCalls(a: Byte, b: Byte, c: Byte, d: Byte, info: Byte, e: Byte)
    requires info in {6, 10}
    ensures Frames(HeldFrames(a, b, c, d, info, e))
            == [Emission([a, b, c, d], 2, true)] + if info == 6 then [Emission([e], 6, true)] else []
  {
    var groups := HeldFrames(a, b, c, d, info, e);
    var front := groups[..1];
    var two := [[a, b, c], [d]];
    assert front == [groups[0]] && front[..0] == [];
    assert two[..1] == [[a, b, c]] && [[a, b, c]][..0] == [] && [[e]][..0] == [];
    assert Joined([[a, b, c]]) == [a, b, c];
    assert Joined(two) == [a, b, c, d];
    assert Joined([[e]]) == [e];
    InfoByteIs(0, info / 4, 1, 0);
    assert Frames(front) == [Emission([a, b, c, d], 2, true)];
  }

  /** The first frame is called back, all of its packets having come; the second one only if its info byte
      announces the one packet it has. */
  lemma KnownFrames(a: Byte, b: Byte, c: Byte, d: Byte, info: Byte, e: Byte)
    requires info in {6, 10}
    ensures var sectors := [First(a, b, c), Second(d, info, e)];
            && AllWellFormed(sectors)
            && Emitted(Stream(NoInfos(), sectors).1 + [End])
               == [Emission([a, b, c, d], 2, true)] + if info == 6 then [Emission([e], 6, true)] else []
  {
    hide First, Second, Pages, HeldFrames, Fits, Stream, PageStream, Muxed, Frames, Emitted, WellFormed, BeginWith;
    var pages := Pages(a, b, c, d, info, e);
    PagesFit(a, b, c, d, info, e);
    PagesReadBack(NoInfos(), pages);
    PagesHold(a, b, c, d, info, e);
    HeldMuxed(a, b, c, d, info, e);
    HeldAreGroups(a, b, c, d, info, e);
    MuxedReadsBack(HeldFrames(a, b, c, d, info, e));
    HeldCalls(a, b, c, d, info, e);
  }

  lemma HeldAreGroups(a: Byte, b: Byte, c: Byte, d: Byte, info: Byte, e: Byte)
    ensures var groups := HeldFrames(a, b, c, d, info, e); forall i :: 0 <= i < |groups| ==> groups[i].Group?
  {
  }
}
