/** The TZif encoding of a zone (RFC 8536, sections 3.1 and 3.2), and the proof
    that the reader recovers the zone from it. */
module TzEncode {
  import opened TzFile
  import opened Wrappers

  /** One data block. The leap-second records (a time and a 4-byte correction each) and
      the two indicator arrays are kept as bytes; the reader skips them. */
  datatype Zone = Zone(
    transitions: seq<int>, types: seq<Byte>, infos: seq<TtInfo>, chars: seq<Byte>,
    leapcnt: nat, leaps: seq<Byte>, isstd: seq<Byte>, isut: seq<Byte>)

  const COUNT_LIMIT: nat := 0x8000_0000

  ghost predicate WellFormed(z: Zone, wide: bool) {
    && |z.types| == |z.transitions| && |z.infos| > 0
    && |z.leaps| == z.leapcnt * (if wide then 8 + 4 else 4 + 4)
    && |z.transitions| < COUNT_LIMIT && |z.infos| < COUNT_LIMIT && |z.chars| < COUNT_LIMIT
    && z.leapcnt < COUNT_LIMIT && |z.isstd| < COUNT_LIMIT && |z.isut| < COUNT_LIMIT
    && TimesFit(z.transitions, wide)
    && (forall i :: 0 <= i < |z.infos| ==> Fits(z.infos[i].gmtoff, RANGE32))
  }

  function EncodeTime(t: int, wide: bool): (s: seq<Byte>)
    ensures |s| == TimeSize(wide)
  {
    if wide then BE64(t) else BE32(t)
  }

  function EncodeInfo(i: TtInfo): (s: seq<Byte>)
    ensures |s| == 6
  {
    BE32(i.gmtoff) + [i.isdst, i.abbrind]
  }

  function EncodeTimes(ts: seq<int>, wide: bool): (s: seq<Byte>)
    ensures |s| == TimeBytes(|ts|, wide)
  {
    if ts == [] then []
    else EncodeTimes(ts[..|ts| - 1], wide) + EncodeTime(ts[|ts| - 1], wide)
  }

  function EncodeInfos(xs: seq<TtInfo>): (s: seq<Byte>)
    ensures |s| == |xs| * 6
  {
    if xs == [] then [] else EncodeInfos(xs[..|xs| - 1]) + EncodeInfo(xs[|xs| - 1])
  }

  function Header(z: Zone, version: Byte): (s: seq<Byte>)
    ensures |s| == TZ_HEADER_SIZE
  {
    TZ_MAGIC + [version] + [0, 0, 0, 0, 0, 0, 0, 0, 0, 0, 0, 0, 0, 0, 0]
    + BE32(|z.isut|) + BE32(|z.isstd|) + BE32(z.leapcnt)
    + BE32(|z.transitions|) + BE32(|z.infos|) + BE32(|z.chars|)
  }

  function Body(z: Zone, wide: bool): seq<Byte> {
    EncodeTimes(z.transitions, wide) + z.types + EncodeInfos(z.infos) + z.chars + z.leaps + z.isstd + z.isut
  }

  function EncodeBlock(z: Zone, version: Byte, wide: bool): seq<Byte> {
    Header(z, version) + Body(z, wide)
  }

  function ZoneData(z: Zone): TzData {
    TzData(z.transitions, z.types, z.infos, z.chars + [0])
  }

  lemma TimeRoundTrip(t: int, wide: bool)
    requires Fits(t, if wide then RANGE64 else RANGE32)
    ensures ReadTime(EncodeTime(t, wide), wide) == t
  {
    if wide {
      BE64RoundTrip(t);
    } else {
      BE32RoundTrip(t);
    }
  }

  lemma TimesSnoc(t: seq<Byte>, last: seq<Byte>, n: nat, wide: bool)
    requires |t| == TimeBytes(n, wide) && |last| == TimeSize(wide)
    ensures TimesOf(t + last, n + 1, wide) == TimesOf(t, n, wide) + [ReadTime(last, wide)]
  {
    hide ReadTime;
    assert (t + last)[..|t|] == t && (t + last)[|t|..] == last;
  }

  ghost predicate TimesFit(ts: seq<int>, wide: bool) {
    forall i :: 0 <= i < |ts| ==> Fits(ts[i], if wide then RANGE64 else RANGE32)
  }

  lemma TimesFitInit(ts: seq<int>, wide: bool)
    requires TimesFit(ts, wide) && ts != []
    ensures TimesFit(ts[..|ts| - 1], wide) && Fits(ts[|ts| - 1], if wide then RANGE64 else RANGE32)
  {
  }

  lemma {:induction false} TimesRoundTrip(ts: seq<int>, wide: bool)
    requires TimesFit(ts, wide)
    ensures TimesOf(EncodeTimes(ts, wide), |ts|, wide) == ts
  {
    if ts == [] {
      NoTimes(wide);
    } else {
      hide ReadTime, EncodeTime, Fits, TimesOf, TimesFit;
      var init, last := ts[..|ts| - 1], ts[|ts| - 1];
      TimesFitInit(ts, wide);
      TimesRoundTrip(init, wide);
      TimeRoundTrip(last, wide);
      TimesSnoc(EncodeTimes(init, wide), EncodeTime(last, wide), |init|, wide);
    }
  }

  lemma InfoRoundTrip(i: TtInfo)
    requires Fits(i.gmtoff, RANGE32)
    ensures ReadInfo(EncodeInfo(i)) == i
  {
    BE32RoundTrip(i.gmtoff);
    assert EncodeInfo(i)[..4] == BE32(i.gmtoff);
  }

  lemma {:induction false} InfosRoundTrip(xs: seq<TtInfo>)
    requires forall i :: 0 <= i < |xs| ==> Fits(xs[i].gmtoff, RANGE32)
    ensures InfosOf(EncodeInfos(xs), |xs|) == xs
  {
    if xs != [] {
      hide ReadInfo, EncodeInfo, Fits;
      var init, s := xs[..|xs| - 1], EncodeInfos(xs);
      assert s[..(|xs| - 1) * 6] == EncodeInfos(init);
      assert s[(|xs| - 1) * 6..] == EncodeInfo(xs[|xs| - 1]);
      InfosRoundTrip(init);
      InfoRoundTrip(xs[|xs| - 1]);
    }
  }

  lemma HeaderRoundTrip(z: Zone, version: Byte, wide: bool, rest: seq<Byte>)
    requires WellFormed(z, wide)
    ensures var data := Header(z, version) + rest;
            && data[..4] == TZ_MAGIC && data[4] == version
            && HeaderCounts(data) == ZoneCounts(z)
  {
    hide BE32, ReadBE32;
    var data := Header(z, version) + rest;
    BE32RoundTrip(|z.isut|);
    BE32RoundTrip(|z.isstd|);
    BE32RoundTrip(z.leapcnt);
    BE32RoundTrip(|z.transitions|);
    BE32RoundTrip(|z.infos|);
    BE32RoundTrip(|z.chars|);
    assert data[..4] == TZ_MAGIC;
    assert data[20..24] == BE32(|z.isut|);
    assert data[24..28] == BE32(|z.isstd|);
    assert data[28..32] == BE32(z.leapcnt);
    assert data[32..36] == BE32(|z.transitions|);
    assert data[36..40] == BE32(|z.infos|);
    assert data[40..44] == BE32(|z.chars|);
  }

  /** Cutting a concatenation at the boundaries of its parts. */
  lemma Cut(h: seq<Byte>, a: seq<Byte>, b: seq<Byte>, c: seq<Byte>, d: seq<Byte>, e: seq<Byte>)
    ensures var s := h + (a + b + c + d + e);
            && s[|h|..|h| + |a|] == a
            && s[|h| + |a|..|h| + |a| + |b|] == b
            && s[|h| + |a| + |b|..|h| + |a| + |b| + |c|] == c
            && s[|h| + |a| + |b| + |c|..|h| + |a| + |b| + |c| + |d|] == d
  {
  }

  function ZoneCounts(z: Zone): Counts {
    Counts(|z.isut|, |z.isstd|, z.leapcnt, |z.transitions|, |z.infos|, |z.chars|)
  }

  lemma BlockSize(z: Zone, version: Byte, wide: bool)
    requires WellFormed(z, wide)
    ensures CountsOk(ZoneCounts(z))
    ensures |EncodeBlock(z, version, wide)| == TZ_HEADER_SIZE + BodySize(ZoneCounts(z), wide)
  {
    hide EncodeTimes, EncodeInfos, Header, Fits;
  }

  /** The bytes of a block before the parts that the reader skips. */
  lemma BlockIs(z: Zone, version: Byte, wide: bool, rest: seq<Byte>)
    ensures EncodeBlock(z, version, wide) + rest
            == Header(z, version) + (EncodeTimes(z.transitions, wide) + z.types + EncodeInfos(z.infos) + z.chars
                                     + (z.leaps + z.isstd + z.isut + rest))
  {
    hide EncodeTimes, EncodeInfos, Header;
  }

  lemma BlockStarts(z: Zone, version: Byte, wide: bool, rest: seq<Byte>)
    requires WellFormed(z, wide)
    ensures var data := EncodeBlock(z, version, wide) + rest;
            && |data| >= TZ_HEADER_SIZE && data[..4] == TZ_MAGIC && data[4] == version
            && HeaderCounts(data) == ZoneCounts(z)
  {
    BlockIs(z, version, wide, rest);
    hide EncodeBlock, HeaderCounts;
    HeaderRoundTrip(z, version, wide,
      EncodeTimes(z.transitions, wide) + z.types + EncodeInfos(z.infos) + z.chars + (z.leaps + z.isstd + z.isut + rest));
  }

  lemma BlockParts(z: Zone, version: Byte, wide: bool, rest: seq<Byte>)
    requires WellFormed(z, wide)
    ensures CountsOk(ZoneCounts(z))
    ensures var data, c := EncodeBlock(z, version, wide) + rest, ZoneCounts(z);
            && 0 <= TZ_HEADER_SIZE <= TypesAt(c, wide) <= InfosAt(c, wide) <= AbbrsAt(c, wide)
            && AbbrsAt(c, wide) + c.chars <= |data|
            && data[TZ_HEADER_SIZE..TypesAt(c, wide)] == EncodeTimes(z.transitions, wide)
            && data[TypesAt(c, wide)..InfosAt(c, wide)] == z.types
            && data[InfosAt(c, wide)..AbbrsAt(c, wide)] == EncodeInfos(z.infos)
            && data[AbbrsAt(c, wide)..AbbrsAt(c, wide) + c.chars] == z.chars
  {
    hide EncodeTimes, EncodeInfos, Header, Fits, EncodeBlock, Body;
    BlockIs(z, version, wide, rest);
    Cut(Header(z, version), EncodeTimes(z.transitions, wide), z.types, EncodeInfos(z.infos), z.chars,
        z.leaps + z.isstd + z.isut + rest);
  }

  lemma BlockDataIs(z: Zone, version: Byte, wide: bool, rest: seq<Byte>)
    requires WellFormed(z, wide) && BlockOk(EncodeBlock(z, version, wide) + rest, wide)
    ensures BlockData(EncodeBlock(z, version, wide) + rest, wide) == ZoneData(z)
  {
    hide EncodeBlock, EncodeTimes, EncodeInfos, TimesOf, InfosOf, HeaderCounts, BodySize, TypesAt, InfosAt, AbbrsAt;
    BlockStarts(z, version, wide, rest);
    BlockParts(z, version, wide, rest);
    TimesRoundTrip(z.transitions, wide);
    InfosRoundTrip(z.infos);
  }

  /** The reader recovers the zone from its encoding, and stops where the block
      ends, whatever follows. */
  lemma BlockRoundTrip(z: Zone, version: Byte, wide: bool, rest: seq<Byte>)
    requires WellFormed(z, wide)
    ensures ParseBlock(EncodeBlock(z, version, wide) + rest, wide)
            == Some((ZoneData(z), |EncodeBlock(z, version, wide)|))
  {
    hide EncodeBlock, HeaderCounts, BodySize, BlockData, WellFormed, ZoneData;
    BlockStarts(z, version, wide, rest);
    BlockSize(z, version, wide);
    BlockDataIs(z, version, wide, rest);
  }

  /** A version-1 file. */
  lemma FileRoundTripV1(z: Zone, rest: seq<Byte>)
    requires WellFormed(z, false)
    ensures ParseFile(EncodeBlock(z, 0, false) + rest) == Some(ZoneData(z))
  {
    hide EncodeBlock, ParseBlock, WellFormed, HeaderCounts;
    BlockRoundTrip(z, 0, false, rest);
    BlockStarts(z, 0, false, rest);
  }

  /** A file of any other version: one 64-bit block. */
  lemma FileRoundTripWide(z: Zone, version: Byte, rest: seq<Byte>)
    requires WellFormed(z, true) && version !in [0, 50, 51]
    ensures ParseFile(EncodeBlock(z, version, true) + rest) == Some(ZoneData(z))
  {
    hide EncodeBlock, ParseBlock, WellFormed, HeaderCounts;
    BlockRoundTrip(z, version, true, rest);
    BlockStarts(z, version, true, rest);
  }

  /** A version-2 or version-3 file: the first block is skipped, whatever zone it
      describes, and the data comes from the second. */
  lemma FileRoundTripV2(old32: Zone, z: Zone, version: Byte, footer: seq<Byte>)
    requires WellFormed(old32, false) && WellFormed(z, true) && version in [50, 51]
    ensures ParseFile(EncodeBlock(old32, version, false) + EncodeBlock(z, version, true) + footer)
            == Some(ZoneData(z))
  {
    hide EncodeBlock, ParseBlock, WellFormed, HeaderCounts;
    var first, second := EncodeBlock(old32, version, false), EncodeBlock(z, version, true);
    var data := first + second + footer;
    assert data == first + (second + footer);
    assert data[|first|..] == second + footer;
    BlockRoundTrip(old32, version, false, second + footer);
    BlockRoundTrip(z, version, true, footer);
    BlockStarts(old32, version, false, second + footer);
    BlockStarts(z, version, true, footer);
    BlockSize(z, version, true);
  }
}
