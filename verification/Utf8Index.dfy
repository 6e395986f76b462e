/** The map from UTF-16 indices to byte offsets in the UTF-8 form of a string. */
module Utf8Index {

  type Unit = int

  predicate IsHigh(c: Unit) {
    0xD800 <= c <= 0xDBFF
  }

  predicate IsLow(c: Unit) {
    0xDC00 <= c <= 0xDFFF
  }

  predicate PairAt(u: seq<Unit>, i: nat) {
    i + 1 < |u| && IsHigh(u[i]) && IsLow(u[i + 1])
  }

  /** Bytes that the loop counts for a unit that starts no pair. */
  function UnitLength(c: Unit): nat {
    if c < 0x80 then 1 else if c < 0x800 then 2 else 3
  }

  /** The map from index `i` on, where the unit at `i` starts at byte `bpos`. */
  function MapFrom(u: seq<Unit>, i: nat, bpos: nat): (r: seq<int>)
    requires i <= |u|
    ensures |r| == |u| - i + 1
    decreases |u| - i
  {
    if i == |u| then [bpos]
    else if PairAt(u, i) then [bpos, bpos] + MapFrom(u, i + 2, bpos + 4)
    else [bpos] + MapFrom(u, i + 1, bpos + UnitLength(u[i]))
  }

  function IndexMap(u: seq<Unit>): (r: seq<int>)
    ensures |r| == |u| + 1
  {
    MapFrom(u, 0, 0)
  }

  // ---- UTF-16 and UTF-8, from their definitions ----

  predicate WellFormed(u: seq<Unit>) {
    if u == [] then true
    else if PairAt(u, 0) then WellFormed(u[2..])
    else 0 <= u[0] < 0x10000 && !IsHigh(u[0]) && !IsLow(u[0]) && WellFormed(u[1..])
  }

  function CodePoints(u: seq<Unit>): seq<int> {
    if u == [] then []
    else if PairAt(u, 0) then [0x10000 + (u[0] - 0xD800) * 0x400 + (u[1] - 0xDC00)] + CodePoints(u[2..])
    else [u[0]] + CodePoints(u[1..])
  }

  /** One code point as in section 3 of RFC 3629. */
  function Utf8(cp: int): seq<int> {
    if cp < 0x80 then [cp]
    else if cp < 0x800 then [0xC0 + cp / 0x40, 0x80 + cp % 0x40]
    else if cp < 0x10000 then [0xE0 + cp / 0x1000, 0x80 + cp / 0x40 % 0x40, 0x80 + cp % 0x40]
    else [0xF0 + cp / 0x40000, 0x80 + cp / 0x1000 % 0x40, 0x80 + cp / 0x40 % 0x40, 0x80 + cp % 0x40]
  }

  /** The first byte gives the length, and the bytes carry the code point's bits, six in
      each byte behind the first. */
  lemma CodePointBits(cp: int)
    requires 0 <= cp < 0x11_0000
    ensures var b := Utf8(cp);
            && (|b| == 1 ==> cp < 0x80 && b[0] == cp)
            && (|b| == 2 ==> 0x80 <= cp < 0x800 && 0xC0 <= b[0] < 0xE0 && (b[0] - 0xC0) * 64 + (b[1] - 0x80) == cp)
            && (|b| == 3 ==> 0x800 <= cp < 0x1_0000 && 0xE0 <= b[0] < 0xF0
                             && ((b[0] - 0xE0) * 64 + (b[1] - 0x80)) * 64 + (b[2] - 0x80) == cp)
            && (|b| == 4 ==> 0x1_0000 <= cp && 0xF0 <= b[0] < 0xF8
                             && (((b[0] - 0xF0) * 64 + (b[1] - 0x80)) * 64 + (b[2] - 0x80)) * 64 + (b[3] - 0x80) == cp)
            && 1 <= |b| <= 4 && forall k :: 0 < k < |b| ==> 0x80 <= b[k] < 0xC0
  {
    SixBits(cp);
  }

  lemma SixBits(cp: nat)
    ensures cp == cp / 0x40 * 0x40 + cp % 0x40
    ensures cp / 0x40 == cp / 0x1000 * 0x40 + cp / 0x40 % 0x40
    ensures cp / 0x1000 == cp / 0x40000 * 0x40 + cp / 0x1000 % 0x40
  {
  }

  function Encode(cps: seq<int>): seq<int> {
    if cps == [] then [] else Utf8(cps[0]) + Encode(cps[1..])
  }

  function ToUtf8(u: seq<Unit>): seq<int> {
    Encode(CodePoints(u))
  }

  /** Units in the first code point, and its bytes. */
  function Step(u: seq<Unit>): nat {
    if PairAt(u, 0) then 2 else 1
  }

  function FirstBytes(u: seq<Unit>): seq<int>
    requires u != []
  {
    Utf8(if PairAt(u, 0) then 0x10000 + (u[0] - 0xD800) * 0x400 + (u[1] - 0xDC00) else u[0])
  }

  lemma ToUtf8Step(u: seq<Unit>)
    requires u != []
    ensures Step(u) <= |u| && ToUtf8(u) == FirstBytes(u) + ToUtf8(u[Step(u)..])
  {
    hide Utf8;
  }

  lemma StepLength(u: seq<Unit>)
    requires u != [] && WellFormed(u)
    ensures WellFormed(u[Step(u)..])
    ensures |FirstBytes(u)| == if PairAt(u, 0) then 4 else UnitLength(u[0])
    ensures Step(u) == if PairAt(u, 0) then 2 else 1
  {
  }

  lemma PrefixStep(u: seq<Unit>, k: nat)
    requires 0 < k <= |u| && WellFormed(u) && WellFormed(u[..k])
    ensures Step(u[..k]) == Step(u) <= k && FirstBytes(u[..k]) == FirstBytes(u)
    ensures WellFormed(u[Step(u)..]) && WellFormed(u[Step(u)..k])
    ensures u[..k][Step(u)..] == u[Step(u)..k]
  {
    hide Utf8;
    var p := u[..k];
    assert p[0] == u[0];
    assert k > 1 ==> p[1] == u[1];
    assert p[Step(p)..] == u[Step(p)..k];
  }

  lemma ConcatStep(a: seq<Unit>, b: seq<Unit>)
    requires a != [] && WellFormed(a) && WellFormed(a + b)
    ensures 0 < Step(a) <= |a| && Step(a + b) == Step(a) && FirstBytes(a + b) == FirstBytes(a)
    ensures (a + b)[Step(a)..] == a[Step(a)..] + b && WellFormed(a[Step(a)..]) && WellFormed(a[Step(a)..] + b)
  {
    hide Utf8;
    assert (a + b)[0] == a[0] && (|a| > 1 ==> (a + b)[1] == a[1]);
    assert (a + b)[Step(a)..] == a[Step(a)..] + b;
  }

  lemma NoBytes()
    ensures ToUtf8([]) == []
  {
  }

  lemma {:induction false} ConcatSplits(a: seq<Unit>, b: seq<Unit>)
    requires WellFormed(a) && WellFormed(a + b)
    ensures WellFormed(b) && ToUtf8(a + b) == ToUtf8(a) + ToUtf8(b)
    decreases |a|
  {
    hide ToUtf8, FirstBytes, WellFormed, Step;
    if a == [] {
      assert a + b == b;
      NoBytes();
    } else {
      ConcatStep(a, b);
      ConcatSplits(a[Step(a)..], b);
      ToUtf8Step(a);
      ToUtf8Step(a + b);
      assert FirstBytes(a) + (ToUtf8(a[Step(a)..]) + ToUtf8(b)) == (FirstBytes(a) + ToUtf8(a[Step(a)..])) + ToUtf8(b);
    }
  }

  /** A prefix that ends between two code points splits the bytes. */
  lemma PrefixSplits(u: seq<Unit>, k: nat)
    requires WellFormed(u) && k <= |u| && WellFormed(u[..k])
    ensures WellFormed(u[k..]) && ToUtf8(u) == ToUtf8(u[..k]) + ToUtf8(u[k..])
  {
    hide ToUtf8, WellFormed;
    assert u[..k] + u[k..] == u;
    ConcatSplits(u[..k], u[k..]);
  }

  lemma PairShift(u: seq<Unit>, i: nat)
    requires i < |u|
    ensures u[i..][0] == u[i] && (PairAt(u[i..], 0) <==> PairAt(u, i))
  {
  }

  /** One code point further in the string is one step further in the map. */
  lemma OffsetStep(u: seq<Unit>, i: nat, bpos: nat, k: nat) returns (step: nat, bytes: nat)
    requires i < k <= |u| && WellFormed(u[i..]) && WellFormed(u[i..k])
    ensures 0 < step && i + step <= k && WellFormed(u[i + step..]) && WellFormed(u[i + step..k])
    ensures |ToUtf8(u[i..k])| == bytes + |ToUtf8(u[i + step..k])|
    ensures MapFrom(u, i, bpos)[k - i] == MapFrom(u, i + step, bpos + bytes)[k - i - step]
  {
    hide ToUtf8, FirstBytes, WellFormed, Step, PairAt, UnitLength, MapFrom;
    var rest := u[i..];
    assert rest[..k - i] == u[i..k];
    PairShift(u, i);
    StepLength(rest);
    PrefixStep(rest, k - i);
    ToUtf8Step(u[i..k]);
    MapFromStep(u, i, bpos);
    step, bytes := Step(rest), |FirstBytes(rest)|;
    assert rest[step..] == u[i + step..] && rest[step..k - i] == u[i + step..k];
  }

  /** Every boundary between code points is mapped to its byte offset, counted
      from the byte at which the rest of the string starts. */
  lemma {:induction false} MapFromOffset(u: seq<Unit>, i: nat, bpos: nat, k: nat)
    requires i <= k <= |u| && WellFormed(u[i..]) && WellFormed(u[i..k])
    ensures MapFrom(u, i, bpos)[k - i] == bpos + |ToUtf8(u[i..k])|
    decreases |u| - i
  {
    if k == i {
      assert u[i..k] == [];
      NoBytes();
    } else {
      hide ToUtf8, WellFormed, MapFrom;
      var step, bytes := OffsetStep(u, i, bpos, k);
      MapFromOffset(u, i + step, bpos + bytes, k);
    }
  }

  lemma MapFromStep(u: seq<Unit>, i: nat, bpos: nat)
    requires i < |u|
    ensures PairAt(u, i) ==> i + 2 <= |u|
    ensures MapFrom(u, i, bpos) ==
      if PairAt(u, i) then [bpos, bpos] + MapFrom(u, i + 2, bpos + 4)
      else [bpos] + MapFrom(u, i + 1, bpos + UnitLength(u[i]))
  {
  }

  lemma MapFromEnd(u: seq<Unit>, bpos: nat)
    ensures MapFrom(u, |u|, bpos) == [bpos]
  {
  }

  /** The index map gives each code-point boundary its UTF-8 byte offset. */
  lemma IndexMapIsOffset(u: seq<Unit>, k: nat)
    requires WellFormed(u) && k <= |u| && WellFormed(u[..k])
    ensures IndexMap(u)[k] == |ToUtf8(u[..k])| <= |ToUtf8(u)|
  {
    WholeMap(u);
    hide *;
    assert u[0..] == u && u[0..k] == u[..k];
    MapFromOffset(u, 0, 0, k);
    PrefixSplits(u, k);
  }

  /** A field between code points is mapped to exactly its own bytes. */
  lemma FieldBytes(u: seq<Unit>, b: nat, e: nat)
    requires WellFormed(u) && b <= e <= |u| && WellFormed(u[..b]) && WellFormed(u[..e])
    ensures 0 <= IndexMap(u)[b] <= IndexMap(u)[e] <= |ToUtf8(u)|
    ensures ToUtf8(u)[IndexMap(u)[b]..IndexMap(u)[e]] == ToUtf8(u[b..e])
  {
    IndexMapIsOffset(u, b);
    IndexMapIsOffset(u, e);
    PrefixSplits(u, e);
    assert u[..e][..b] == u[..b] && u[..e][b..] == u[b..e];
    PrefixSplits(u[..e], b);
    hide ToUtf8, IndexMap;
  }

  // ---- The code ----

  datatype PartField = PartField(begin: int, end: int, field: int)

  function Clamped(n: int, top: nat): nat {
    if n < 0 then 0 else if n > top then top else n
  }

  function Mapped(u: seq<Unit>, f: PartField): PartField {
    f.(begin := IndexMap(u)[Clamped(f.begin, |u|)], end := IndexMap(u)[Clamped(f.end, |u|)])
  }

  /** One round of the loop, read off the map. */
  lemma MapSteps(whole: seq<int>, u: seq<Unit>, i: nat, bpos: nat)
    requires i < |u| && |whole| == |u| + 1 && whole[i..] == MapFrom(u, i, bpos)
    ensures whole[i] == bpos
    ensures var c := u[i];
      if 0xD800 <= c <= 0xDBFF && i + 1 < |u| && 0xDC00 <= u[i + 1] <= 0xDFFF
      then whole[i + 1] == bpos && whole[i + 2..] == MapFrom(u, i + 2, bpos + 4)
      else whole[i + 1..] == MapFrom(u, i + 1, bpos + (if c < 0x80 then 1 else if c < 0x800 then 2 else 3))
  {
    hide MapFrom;
    MapFromStep(u, i, bpos);
    var rest := whole[i..];
    assert rest[0] == whole[i] && rest[1..] == whole[i + 1..];
    if PairAt(u, i) {
      assert rest[1] == whole[i + 1] && rest[2..] == whole[i + 2..];
    }
  }

  lemma WholeMap(u: seq<Unit>)
    ensures IndexMap(u) == MapFrom(u, 0, 0)
  {
  }

  method BuildMap(ubuf: seq<Unit>) returns (u2b: array<int>)
    ensures fresh(u2b) && u2b[..] == IndexMap(ubuf)
  {
    hide MapFrom, IndexMap;
    WholeMap(ubuf);
    hide PairAt, UnitLength;
    u2b := new int[|ubuf| + 1];
    ghost var whole := IndexMap(ubuf);
    var bpos: nat := 0;
    var i := 0;
    while i < |ubuf|
      invariant i <= |ubuf| && whole[i..] == MapFrom(ubuf, i, bpos)
      invariant forall k :: 0 <= k < i ==> u2b[k] == whole[k]
    {
      MapSteps(whole, ubuf, i, bpos);
      u2b[i] := bpos;
      var c := ubuf[i];
      if c < 0x80 {
        bpos := bpos + 1;
      } else if c < 0x800 {
        bpos := bpos + 2;
      } else if 0xD800 <= c <= 0xDBFF && i + 1 < |ubuf| && 0xDC00 <= ubuf[i + 1] <= 0xDFFF {
        i := i + 1;
        u2b[i] := bpos;
        bpos := bpos + 4;
      } else {
        bpos := bpos + 3;
      }
      i := i + 1;
    }
    MapFromEnd(ubuf, bpos);
    u2b[|ubuf|] := bpos;
    assert whole[|ubuf|..] == [whole[|ubuf|]];
  }

  method UcharFieldsToUtf8(ubuf: seq<Unit>, fields: array<PartField>)
    modifies fields
    ensures forall f :: 0 <= f < fields.Length ==> fields[f] == Mapped(ubuf, old(fields[f]))
  {
    hide IndexMap;
    var u2b := BuildMap(ubuf);
    var f := 0;
    while f < fields.Length
      invariant f <= fields.Length && u2b[..] == IndexMap(ubuf)
      invariant forall k :: 0 <= k < f ==> fields[k] == Mapped(ubuf, old(fields[k]))
      invariant forall k :: f <= k < fields.Length ==> fields[k] == old(fields[k])
    {
      var b, e := fields[f].begin, fields[f].end;
      if b < 0 { b := 0; }
      if e < 0 { e := 0; }
      if b > |ubuf| { b := |ubuf|; }
      if e > |ubuf| { e := |ubuf|; }
      assert u2b[..][b] == u2b[b] && u2b[..][e] == u2b[e];
      fields[f] := fields[f].(begin := u2b[b], end := u2b[e]);
      f := f + 1;
    }
  }
}
