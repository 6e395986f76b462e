/** Where everything stands in a zone file, byte by byte (RFC 8536, sections 3.1 and 3.2). */
module TzLayout {
  import opened DivMod
  import opened TzFile
  import opened Wrappers

  /** Four bytes, the first weighing most. */
  function Weighed(a: int, b: int, c: int, d: int): int {
    a * 16_777_216 + b * 65_536 + c * 256 + d
  }

  /** The word at a place, whose first byte carries the sign. */
  function Int32At(data: seq<Byte>, at: nat): int
    requires at + 4 <= |data|
  {
    Weighed(data[at], data[at + 1], data[at + 2], data[at + 3]) - (if data[at] < 128 then 0 else 4_294_967_296)
  }

  function Int64At(data: seq<Byte>, at: nat): int
    requires at + 8 <= |data|
  {
    Int32At(data, at) * 4_294_967_296 + Weighed(data[at + 4], data[at + 5], data[at + 6], data[at + 7])
  }

  lemma WordIsRead(data: seq<Byte>, at: nat)
    requires at + 4 <= |data|
    ensures ReadBE32(data[at..at + 4]) == Int32At(data, at)
  {
    var p := data[at..at + 4];
    assert p[0] == data[at] && p[1] == data[at + 1] && p[2] == data[at + 2] && p[3] == data[at + 3];
  }

  /** Shifting the sign-extended high word and adding the low one, modulo 2^64. */
  lemma ShiftedHigh(s: int, lo: nat)
    requires -0x8000_0000 <= s < 0x8000_0000 && lo < 0x1_0000_0000
    ensures Signed(((s % 0x1_0000_0000_0000_0000) * 0x1_0000_0000) % 0x1_0000_0000_0000_0000 + lo, 0x1_0000_0000_0000_0000)
            == s * 0x1_0000_0000 + lo
  {
    var range := 0x1_0000_0000_0000_0000;
    if s >= 0 {
      DivModUnique(s, 0, s, range);
      DivModUnique(s * 0x1_0000_0000, 0, s * 0x1_0000_0000, range);
    } else {
      DivModUnique(s, -1, s + range, range);
      DivModUnique((s + range) * 0x1_0000_0000, 0x1_0000_0000 - 1, s * 0x1_0000_0000 + range, range);
    }
  }

  lemma LongIsRead(data: seq<Byte>, at: nat)
    requires at + 8 <= |data|
    ensures ReadBE64(data[at..at + 8]) == Int64At(data, at)
  {
    var p := data[at..at + 8];
    assert p[..4] == data[at..at + 4] && p[4..] == data[at + 4..at + 8];
    WordIsRead(data, at);
    var lo := Unsigned32(p[4..]);
    assert lo == Weighed(data[at + 4], data[at + 5], data[at + 6], data[at + 7]);
    hide Int32At, Unsigned32, Weighed;
    ShiftedHigh(ReadBE32(p[..4]), lo);
  }

  /** The bytes of a body, from the six counts in the header: 8 or 4 a transition time and
      1 its type, 6 a local time type, 1 a designation character, 8 + 4 or 4 + 4 a
      leap-second record, and 1 each of the two indicators. */
  function BodyBytes(data: seq<Byte>, wide: bool): int
    requires |data| >= 44
  {
    Int32At(data, 32) * (if wide then 8 else 4) + Int32At(data, 32) + Int32At(data, 36) * 6 + Int32At(data, 40)
    + Int32At(data, 28) * (if wide then 8 + 4 else 4 + 4) + Int32At(data, 24) + Int32At(data, 20)
  }

  /** Exactly these bytes are a block, of exactly that length. */
  ghost predicate IsBlock(data: seq<Byte>, wide: bool) {
    && |data| >= 44 && data[..4] == [0x54, 0x5A, 0x69, 0x66]
    && Int32At(data, 20) >= 0 && Int32At(data, 24) >= 0 && Int32At(data, 28) >= 0
    && Int32At(data, 32) >= 0 && Int32At(data, 36) > 0 && Int32At(data, 40) >= 0
    && 44 + BodyBytes(data, wide) <= |data|
  }

  lemma CountsAre(data: seq<Byte>)
    requires |data| >= 44
    ensures HeaderCounts(data) == Counts(Int32At(data, 20), Int32At(data, 24), Int32At(data, 28),
                                         Int32At(data, 32), Int32At(data, 36), Int32At(data, 40))
  {
    hide Int32At, ReadBE32;
    WordIsRead(data, 20);
    WordIsRead(data, 24);
    WordIsRead(data, 28);
    WordIsRead(data, 32);
    WordIsRead(data, 36);
    WordIsRead(data, 40);
  }

  lemma BlockAccepted(data: seq<Byte>, wide: bool)
    ensures ParseBlock(data, wide).Some? <==> IsBlock(data, wide)
    ensures IsBlock(data, wide) ==> ParseBlock(data, wide).value.1 == 44 + BodyBytes(data, wide)
  {
    hide Int32At, HeaderCounts, BlockData;
    if |data| >= 44 {
      CountsAre(data);
    }
  }

  /** Entry `i` of a table of transition times. */
  lemma TimeIsRead(s: seq<Byte>, n: nat, i: nat, wide: bool)
    requires |s| == TimeBytes(n, wide) && i < n
    ensures TimesOf(s, n, wide)[i] == if wide then Int64At(s, i * 8) else Int32At(s, i * 4)
  {
    hide Int32At, Int64At, TimesOf, ReadBE32, ReadBE64;
    TimesStep(s, n, n - 1, wide);
    var at := TimeBytes(n - 1, wide);
    assert s[..TimeBytes(n, wide)] == s;
    if i < n - 1 {
      TimeIsRead(s[..at], n - 1, i, wide);
      Within(s, at, i * TimeSize(wide), wide);
    } else {
      ReadTimeIs(s, at, wide);
    }
  }

  lemma ReadTimeIs(s: seq<Byte>, at: nat, wide: bool)
    requires at + TimeSize(wide) <= |s|
    ensures ReadTime(s[at..at + TimeSize(wide)], wide) == if wide then Int64At(s, at) else Int32At(s, at)
  {
    hide Int32At, Int64At, ReadBE32, ReadBE64;
    if wide {
      LongIsRead(s, at);
    } else {
      WordIsRead(s, at);
    }
  }

  lemma Within(s: seq<Byte>, end: nat, at: nat, wide: bool)
    requires at + TimeSize(wide) <= end <= |s|
    ensures if wide then Int64At(s[..end], at) == Int64At(s, at) else Int32At(s[..end], at) == Int32At(s, at)
  {
  }

  lemma InfoIsRead(s: seq<Byte>, n: nat, i: nat)
    requires |s| == n * 6 && i < n
    ensures InfosOf(s, n)[i] == TtInfo(Int32At(s, i * 6), s[i * 6 + 4], s[i * 6 + 5])
  {
    var at := (n - 1) * 6;
    if i < n - 1 {
      InfoIsRead(s[..at], n - 1, i);
    } else {
      hide ReadBE32, Int32At;
      assert s[at..][..4] == s[at..at + 4];
      WordIsRead(s, at);
    }
  }

  /** What a block holds, each value read at its own place. */
  lemma BlockHolds(data: seq<Byte>, wide: bool)
    requires IsBlock(data, wide)
    ensures ParseBlock(data, wide).Some?
    ensures var d, times, infos, chars := ParseBlock(data, wide).value.0, Int32At(data, 32), Int32At(data, 36), Int32At(data, 40);
            var typesAt := 44 + times * (if wide then 8 else 4); var infosAt := typesAt + times; var charsAt := infosAt + infos * 6;
            && |d.transitions| == times && |d.types| == times && |d.ttinfo| == infos
            && (forall i :: 0 <= i < times ==>
                  d.transitions[i] == (if wide then Int64At(data, 44 + i * 8) else Int32At(data, 44 + i * 4)))
            && (forall i :: 0 <= i < times ==> d.types[i] == data[typesAt + i])
            && (forall i :: 0 <= i < infos ==>
                  d.ttinfo[i] == TtInfo(Int32At(data, infosAt + i * 6), data[infosAt + i * 6 + 4], data[infosAt + i * 6 + 5]))
            && d.abbrs == data[charsAt..charsAt + chars] + [0]
  {
    hide TimesOf, InfosOf, HeaderCounts, Int32At, Int64At;
    BlockAccepted(data, wide);
    CountsAre(data);
    var c := HeaderCounts(data);
    var ts, xs := data[44..TypesAt(c, wide)], data[InfosAt(c, wide)..AbbrsAt(c, wide)];
    forall i | 0 <= i < c.time
      ensures TimesOf(ts, c.time, wide)[i] == if wide then Int64At(data, 44 + i * 8) else Int32At(data, 44 + i * 4)
    {
      TimeIsRead(ts, c.time, i, wide);
      Moved(data, 44, TypesAt(c, wide), i * TimeSize(wide), wide);
    }
    forall i | 0 <= i < c.typ
      ensures InfosOf(xs, c.typ)[i] == TtInfo(Int32At(data, InfosAt(c, wide) + i * 6), data[InfosAt(c, wide) + i * 6 + 4],
                                              data[InfosAt(c, wide) + i * 6 + 5])
    {
      InfoIsRead(xs, c.typ, i);
      Moved(data, InfosAt(c, wide), AbbrsAt(c, wide), i * 6, false);
    }
  }

  lemma Moved(s: seq<Byte>, from: nat, end: nat, at: nat, wide: bool)
    requires from <= end <= |s| && at + TimeSize(wide) <= end - from
    ensures if wide then Int64At(s[from..end], at) == Int64At(s, from + at) else Int32At(s[from..end], at) == Int32At(s, from + at)
  {
  }

  /** The fifth byte decides: with a zero the file is one 32-bit block; with the digit 2 or 3
      a 32-bit block is skipped and the data stands in the 64-bit block behind it; with
      anything else the file is one 64-bit block. */
  lemma FileHolds(data: seq<Byte>)
    ensures |data| < 44 ==> ParseFile(data).None?
    ensures |data| >= 44 && data[4] in [0x32, 0x33] ==>
              && (ParseFile(data).Some? <==> IsBlock(data, false) && IsBlock(data[44 + BodyBytes(data, false)..], true))
              && (ParseFile(data).Some? ==>
                    ParseFile(data) == Data(ParseBlock(data[44 + BodyBytes(data, false)..], true)))
    ensures |data| >= 44 && data[4] !in [0x32, 0x33] ==>
              && (ParseFile(data).Some? <==> IsBlock(data, data[4] != 0))
              && ParseFile(data) == Data(ParseBlock(data, data[4] != 0))
  {
    hide BlockOk, BlockData, HeaderCounts, Int32At;
    if |data| >= 44 {
      BlockAccepted(data, false);
      BlockAccepted(data, true);
      if IsBlock(data, false) {
        BlockAccepted(data[44 + BodyBytes(data, false)..], true);
      }
    }
  }
}
