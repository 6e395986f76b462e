/** The TZif reader (RFC 8536, sections 3.1 and 3.2): parsing is proved to be the
    inverse of the encoding the standard describes. */
module TzFile {
  import opened DivMod
  import opened Wrappers

  type Byte = x: nat | x < 256

  const TZ_HEADER_SIZE: nat := 44
  const TZ_MAGIC: seq<Byte> := [84, 90, 105, 102]
  const RANGE32: nat := 0x1_0000_0000
  const RANGE64: nat := 0x1_0000_0000_0000_0000

  datatype TtInfo = TtInfo(gmtoff: int, isdst: Byte, abbrind: Byte)

  /** `abbrs` is the designation bytes with a terminator appended. */
  datatype TzData = TzData(transitions: seq<int>, types: seq<Byte>, ttinfo: seq<TtInfo>, abbrs: seq<Byte>)

  // ---- Big-endian integers ----

  function Unsigned32(p: seq<Byte>): (u: nat)
    requires |p| == 4
    ensures u < RANGE32
  {
    ((p[0] as nat * 0x100 + p[1]) * 0x100 + p[2]) * 0x100 + p[3]
  }

  /** Reads a word as two's complement of the given range. */
  function Signed(u: nat, range: nat): int {
    if u < range / 2 then u else u - range
  }

  function ReadBE32(p: seq<Byte>): (x: int)
    requires |p| == 4
    ensures -0x8000_0000 <= x < 0x8000_0000
  {
    Signed(Unsigned32(p), RANGE32)
  }

  /** The high word is sign-extended to 64 bits, shifted and or-ed with the low. */
  function ReadBE64(p: seq<Byte>): int
    requires |p| == 8
  {
    var hi := ReadBE32(p[..4]) % RANGE64;
    var lo := Unsigned32(p[4..]);
    Signed((hi * RANGE32) % RANGE64 + lo, RANGE64)
  }

  predicate Fits(x: int, range: nat) {
    -(range as int) / 2 <= x < range / 2
  }

  function Word(x: int, range: nat): nat
    requires range > 0
  {
    x % range
  }

  function Bytes32(u: nat): (p: seq<Byte>)
    requires u < RANGE32
    ensures |p| == 4
  {
    [u / 0x100 / 0x100 / 0x100, u / 0x100 / 0x100 % 0x100, u / 0x100 % 0x100, u % 0x100]
  }

  function BE32(x: int): (p: seq<Byte>)
    ensures |p| == 4
  {
    Bytes32(Word(x, RANGE32))
  }

  function BE64(x: int): (p: seq<Byte>)
    ensures |p| == 8
  {
    var u := Word(x, RANGE64);
    Bytes32(u / RANGE32) + Bytes32(u % RANGE32)
  }

  lemma Bytes32RoundTrip(u: nat)
    requires u < RANGE32
    ensures Unsigned32(Bytes32(u)) == u
  {
  }

  lemma SignedWord32(x: int)
    requires Fits(x, RANGE32)
    ensures Signed(Word(x, RANGE32), RANGE32) == x
  {
    if x >= 0 {
      DivModUnique(x, 0, x, RANGE32);
    } else {
      DivModUnique(x, -1, x + RANGE32, RANGE32);
    }
  }

  lemma BE32RoundTrip(x: int)
    requires Fits(x, RANGE32)
    ensures ReadBE32(BE32(x)) == x
  {
    Bytes32RoundTrip(Word(x, RANGE32));
    SignedWord32(x);
  }

  lemma BE64RoundTrip(x: int)
    requires Fits(x, RANGE64)
    ensures ReadBE64(BE64(x)) == x
  {
    var u := Word(x, RANGE64);
    var h, l := u / RANGE32, u % RANGE32;
    Bytes32RoundTrip(h);
    Bytes32RoundTrip(l);
    var p := BE64(x);
    assert p[..4] == Bytes32(h) && p[4..] == Bytes32(l);
    var s := ReadBE32(p[..4]);
    if x >= 0 {
      DivModUnique(x, 0, x, RANGE64);
    } else {
      DivModUnique(x, -1, x + RANGE64, RANGE64);
    }
    if h < RANGE32 / 2 {
      DivModUnique(s, 0, h, RANGE64);
      DivModUnique(h * RANGE32, 0, h * RANGE32, RANGE64);
    } else {
      DivModUnique(s, -1, s + RANGE64, RANGE64);
      DivModUnique((s + RANGE64) * RANGE32, RANGE32 - 1, h * RANGE32, RANGE64);
    }
  }

  // ---- One block ----

  datatype Counts = Counts(isut: int, isstd: int, leap: int, time: int, typ: int, chars: int)

  function HeaderCounts(data: seq<Byte>): Counts
    requires |data| >= TZ_HEADER_SIZE
  {
    Counts(ReadBE32(data[20..24]), ReadBE32(data[24..28]), ReadBE32(data[28..32]),
           ReadBE32(data[32..36]), ReadBE32(data[36..40]), ReadBE32(data[40..44]))
  }

  predicate CountsOk(c: Counts) {
    c.time >= 0 && c.typ > 0 && c.chars >= 0 && c.isut >= 0 && c.isstd >= 0 && c.leap >= 0
  }

  function TimeSize(wide: bool): nat {
    if wide then 8 else 4
  }

  /** The bytes taken by `n` transition times, and by `n` leap-second records. */
  function TimeBytes(n: int, wide: bool): int {
    if wide then n * 8 else n * 4
  }

  function LeapBytes(n: int, wide: bool): int {
    if wide then n * 12 else n * 8
  }

  function BodySize(c: Counts, wide: bool): nat
    requires CountsOk(c)
  {
    TimeBytes(c.time, wide) + c.time + c.typ * 6 + c.chars + LeapBytes(c.leap, wide) + c.isstd + c.isut
  }

  function ReadTime(p: seq<Byte>, wide: bool): int
    requires |p| == TimeSize(wide)
  {
    if wide then ReadBE64(p) else ReadBE32(p)
  }

  function ReadInfo(p: seq<Byte>): TtInfo
    requires |p| == 6
  {
    TtInfo(ReadBE32(p[..4]), p[4], p[5])
  }

  function TimesOf(s: seq<Byte>, n: nat, wide: bool): (r: seq<int>)
    requires |s| == TimeBytes(n, wide)
    ensures |r| == n
    decreases n
  {
    if n == 0 then []
    else
      var at := |s| - TimeSize(wide);
      TimesOf(s[..at], n - 1, wide) + [ReadTime(s[at..], wide)]
  }

  function InfosOf(s: seq<Byte>, n: nat): (r: seq<TtInfo>)
    requires |s| == n * 6
    ensures |r| == n
  {
    if n == 0 then [] else InfosOf(s[..(n - 1) * 6], n - 1) + [ReadInfo(s[(n - 1) * 6..])]
  }

  /** Where each part of the body starts. */
  function TypesAt(c: Counts, wide: bool): int {
    TZ_HEADER_SIZE + TimeBytes(c.time, wide)
  }

  function InfosAt(c: Counts, wide: bool): int {
    TypesAt(c, wide) + c.time
  }

  function AbbrsAt(c: Counts, wide: bool): int {
    InfosAt(c, wide) + c.typ * 6
  }

  predicate BlockOk(data: seq<Byte>, wide: bool) {
    && |data| >= TZ_HEADER_SIZE && data[..4] == TZ_MAGIC
    && CountsOk(HeaderCounts(data))
    && TZ_HEADER_SIZE + BodySize(HeaderCounts(data), wide) <= |data|
  }

  /** The parts of a block, cut out of its bytes. */
  function BlockData(data: seq<Byte>, wide: bool): TzData
    requires BlockOk(data, wide)
  {
    var c := HeaderCounts(data);
    TzData(TimesOf(data[TZ_HEADER_SIZE..TypesAt(c, wide)], c.time, wide),
           data[TypesAt(c, wide)..InfosAt(c, wide)],
           InfosOf(data[InfosAt(c, wide)..AbbrsAt(c, wide)], c.typ),
           data[AbbrsAt(c, wide)..AbbrsAt(c, wide) + c.chars] + [0])
  }

  /** The parsed block and the number of bytes it takes, or an error. */
  function ParseBlock(data: seq<Byte>, wide: bool): Option<(TzData, nat)> {
    if BlockOk(data, wide)
    then Some((BlockData(data, wide), TZ_HEADER_SIZE + BodySize(HeaderCounts(data), wide)))
    else None
  }

  lemma TimesStep(s: seq<Byte>, n: nat, i: nat, wide: bool)
    requires |s| == TimeBytes(n, wide) && i < n
    ensures TimeBytes(i + 1, wide) == TimeBytes(i, wide) + TimeSize(wide) <= |s|
    ensures TimesOf(s[..TimeBytes(i + 1, wide)], i + 1, wide)
            == TimesOf(s[..TimeBytes(i, wide)], i, wide)
               + [ReadTime(s[TimeBytes(i, wide)..TimeBytes(i + 1, wide)], wide)]
  {
    var t := s[..TimeBytes(i + 1, wide)];
    assert t[..TimeBytes(i, wide)] == s[..TimeBytes(i, wide)];
    assert t[TimeBytes(i, wide)..] == s[TimeBytes(i, wide)..TimeBytes(i + 1, wide)];
  }

  lemma InfosStep(s: seq<Byte>, n: nat, i: nat)
    requires |s| == n * 6 && i < n
    ensures InfosOf(s[..(i + 1) * 6], i + 1) == InfosOf(s[..i * 6], i) + [ReadInfo(s[i * 6..(i + 1) * 6])]
  {
    var t := s[..(i + 1) * 6];
    assert t[..i * 6] == s[..i * 6];
    assert t[i * 6..] == s[i * 6..(i + 1) * 6];
  }

  method ReadTimes(s: seq<Byte>, n: nat, wide: bool) returns (trans: array<int>)
    requires |s| == TimeBytes(n, wide)
    ensures fresh(trans) && trans[..] == TimesOf(s, n, wide)
  {
    hide TimesOf, ReadBE32, ReadBE64;
    trans := new int[n];
    var i := 0;
    assert trans[..0] == TimesOf(s[..0], 0, wide) by {
      NoTimes(wide);
    }
    while i < n
      invariant 0 <= i <= n && trans.Length == n
      invariant TimeBytes(i, wide) <= |s|
      invariant trans[..i] == TimesOf(s[..TimeBytes(i, wide)], i, wide)
    {
      TimesStep(s, n, i, wide);
      trans[i] := if wide then ReadBE64(s[i * 8..(i + 1) * 8]) else ReadBE32(s[i * 4..(i + 1) * 4]);
      i := i + 1;
    }
    assert s[..TimeBytes(n, wide)] == s && trans[..n] == trans[..];
  }

  lemma NoTimes(wide: bool)
    ensures TimesOf([], 0, wide) == []
  {
  }

  method ReadInfos(s: seq<Byte>, n: nat) returns (tti: array<TtInfo>)
    requires |s| == n * 6
    ensures fresh(tti) && tti[..] == InfosOf(s, n)
  {
    tti := new TtInfo[n](_ => TtInfo(0, 0, 0));
    var i := 0;
    while i < n
      invariant 0 <= i <= n && tti.Length == n
      invariant tti[..i] == InfosOf(s[..i * 6], i)
    {
      InfosStep(s, n, i);
      var e := s[i * 6..(i + 1) * 6];
      tti[i] := TtInfo(ReadBE32(e[..4]), e[4], e[5]);
      i := i + 1;
    }
    assert s[..n * 6] == s && tti[..n] == tti[..];
  }

  method ParseTzifBlock(data: seq<Byte>, wide: bool) returns (r: Option<(TzData, nat)>)
    ensures r == ParseBlock(data, wide)
  {
    hide ReadBE32, TimesOf, InfosOf;
    if |data| < TZ_HEADER_SIZE {
      return None;
    }
    if data[..4] != TZ_MAGIC {
      return None;
    }
    var c := HeaderCounts(data);
    if c.time < 0 || c.typ <= 0 || c.chars < 0 || c.isut < 0 || c.isstd < 0 || c.leap < 0 {
      return None;
    }
    var off := TZ_HEADER_SIZE;
    var need := TimeBytes(c.time, wide) + c.time + c.typ * 6 + c.chars + LeapBytes(c.leap, wide) + c.isstd + c.isut;
    if off + need > |data| {
      return None;
    }
    var trans := ReadTimes(data[off..off + TimeBytes(c.time, wide)], c.time, wide);
    off := off + TimeBytes(c.time, wide);
    var types := data[off..off + c.time];
    off := off + c.time;
    var tti := ReadInfos(data[off..off + c.typ * 6], c.typ);
    off := off + c.typ * 6;
    var abbrs := data[off..off + c.chars] + [0];
    off := off + c.chars;
    off := off + LeapBytes(c.leap, wide);
    off := off + c.isstd;
    off := off + c.isut;
    return Some((TzData(trans[..], types, tti[..], abbrs), off));
  }

  // ---- The whole file ----

  /** A version-2 or version-3 file has a 32-bit block, which is skipped, and then
      a 64-bit block. */
  function ParseFile(data: seq<Byte>): Option<TzData> {
    if |data| < TZ_HEADER_SIZE || data[..4] != TZ_MAGIC then None
    else if data[4] == 50 || data[4] == 51 then
      match ParseBlock(data, false)
      case None => None
      case Some((_, consumed)) =>
        if consumed + TZ_HEADER_SIZE > |data| then None
        else Data(ParseBlock(data[consumed..], true))
    else Data(ParseBlock(data, data[4] != 0))
  }

  function Data(r: Option<(TzData, nat)>): Option<TzData> {
    match r case None => None case Some((d, _)) => Some(d)
  }

  method ParseTzifFile(data: seq<Byte>) returns (r: Option<TzData>)
    ensures r == ParseFile(data)
  {
    if |data| < TZ_HEADER_SIZE || data[..4] != TZ_MAGIC {
      return None;
    }
    var version := data[4];
    if version == 50 || version == 51 {
      var first := ParseTzifBlock(data, false);
      if first.None? {
        return None;
      }
      var consumed := first.value.1;
      if consumed + TZ_HEADER_SIZE > |data| {
        return None;
      }
      var v2 := data[consumed..];
      if |v2| < 4 || v2[..4] != TZ_MAGIC {
        return None;
      }
      var second := ParseTzifBlock(v2, true);
      return if second.None? then None else Some(second.value.0);
    }
    var only := ParseTzifBlock(data, version != 0);
    return if only.None? then None else Some(only.value.0);
  }
}
