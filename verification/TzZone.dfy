/** From the bytes of a zone file to the offset in force at an instant. */
module TzZone {
  import opened TzFile
  import opened TzEncode
  import opened TzLookup
  import opened Wrappers

  /** Whatever the bytes, a parsed file has a type for each transition and some
      type to fall back on, which is all that the lookup asks for. */
  lemma ParsedShape(data: seq<Byte>)
    requires ParseFile(data).Some?
    ensures var d := ParseFile(data).value; |d.types| == |d.transitions| && |d.ttinfo| > 0
  {
    hide TimesOf, InfosOf, HeaderCounts, TZ_MAGIC;
  }

  /** The offset in force at `t` according to the file. */
  function OffsetInBytes(data: seq<Byte>, t: int): Option<(int, bool)> {
    if ParseFile(data).None? then None
    else
      ParsedShape(data);
      OffsetAt(ParseFile(data).value, t)
  }

  /** For every file that parses, sorted or not. */
  method OffsetInFile(data: seq<Byte>, t: int) returns (r: Option<(int, bool)>)
    ensures ParseFile(data).None? ==> r == None
    ensures ParseFile(data).Some? ==>
              exists i :: -1 <= i < |ParseFile(data).value.transitions|
                && |ParseFile(data).value.types| == |ParseFile(data).value.transitions|
                && During(ParseFile(data).value.transitions, i, t) && r == SetBy(ParseFile(data).value, i)
    ensures ParseFile(data).Some? && Sorted(ParseFile(data).value.transitions) ==> r == OffsetInBytes(data, t)
  {
    hide ParseFile, OffsetAt, Sorted, During, SetBy;
    var parsed := ParseTzifFile(data);
    if parsed.None? {
      return None;
    }
    ParsedShape(data);
    r := OffsetForInstant(parsed.value, t);
  }

  /** What a zone says of its `k`th local time type, if it has one. */
  function OfType(z: Zone, k: nat): Option<(int, bool)> {
    if k < |z.infos| then Some((z.infos[k].gmtoff, z.infos[k].isdst != 0)) else None
  }

  /** Every zone with its transitions in order, written as a version-1 file: the
      bytes give, at each instant, the offset of the type that the last transition
      at or before it set, or of type 0 before the first transition. */
  lemma OffsetFromV1(z: Zone, rest: seq<Byte>, i: int, t: int)
    requires WellFormed(z, false) && Sorted(z.transitions)
    requires -1 <= i < |z.transitions| && (i >= 0 ==> z.transitions[i] <= t)
    requires i + 1 < |z.transitions| ==> t < z.transitions[i + 1]
    ensures OffsetInBytes(EncodeBlock(z, 0, false) + rest, t) == OfType(z, if i == -1 then 0 else z.types[i])
  {
    FileRoundTripV1(z, rest);
    SortedDuring(ZoneData(z), i, t);
    hide ParseFile, EncodeBlock, OffsetAt, Sorted, During;
  }

  /** The same for a version-2 or version-3 file, whatever its first block holds. */
  lemma OffsetFromV2(old32: Zone, z: Zone, version: Byte, footer: seq<Byte>, i: int, t: int)
    requires WellFormed(old32, false) && WellFormed(z, true) && version in [50, 51] && Sorted(z.transitions)
    requires -1 <= i < |z.transitions| && (i >= 0 ==> z.transitions[i] <= t)
    requires i + 1 < |z.transitions| ==> t < z.transitions[i + 1]
    ensures OffsetInBytes(EncodeBlock(old32, version, false) + EncodeBlock(z, version, true) + footer, t)
            == OfType(z, if i == -1 then 0 else z.types[i])
  {
    FileRoundTripV2(old32, z, version, footer);
    SortedDuring(ZoneData(z), i, t);
    hide ParseFile, EncodeBlock, OffsetAt, Sorted, During;
  }
}
