/** The parts of a formatted string: each byte is given to the innermost field that
    covers it, and each run of bytes with one owner is written out as a part. */
module IcuParts {
  import opened Utf8Index

  const PARTS_MAX_FIELDS: nat := 64
  const PART_SEP: int := 0x1E
  const TYPE_SEP: int := 0x1F

  type Bytes = seq<int>

  /** `field_type` of a number or a date: the field's code and the bytes of the part. */
  type Labels = (int, Bytes) -> Bytes

  const LITERAL: Bytes := [0x6C, 0x69, 0x74, 0x65, 0x72, 0x61, 0x6C]

  // ---- Owners ----

  function Low(f: PartField): int {
    if f.begin < 0 then 0 else f.begin
  }

  function High(f: PartField, ulen: nat): int {
    if f.end > ulen then ulen else f.end
  }

  /** The owner of byte `i` once the first `n` fields have been laid over it. */
  function Owner(fields: seq<PartField>, ulen: nat, i: nat, n: nat): (o: int)
    requires n <= |fields|
    ensures -1 <= o < n
  {
    if n == 0 then -1
    else
      var prev := Owner(fields, ulen, i, n - 1);
      var f := fields[n - 1];
      var b, e := Low(f), High(f, ulen);
      if b <= i < e && (prev < 0 || e - b <= fields[prev].end - fields[prev].begin) then n - 1 else prev
  }

  function Owners(fields: seq<PartField>, ulen: nat): (r: seq<int>)
    ensures |r| == ulen
    ensures forall i :: 0 <= i < ulen ==> r[i] == Owner(fields, ulen, i, |fields|)
  {
    seq(ulen, i requires 0 <= i < ulen => Owner(fields, ulen, i, |fields|))
  }

  predicate InRange(f: PartField, ulen: nat) {
    0 <= f.begin && f.end <= ulen
  }

  predicate Covers(f: PartField, i: int) {
    f.begin <= i < f.end
  }

  function Span(f: PartField): int {
    f.end - f.begin
  }

  /** The owner of a byte is a smallest field that covers it, the last of them if
      several are as small; there is none exactly if no field covers the byte. */
  lemma {:induction false} OwnerIsInnermost(fields: seq<PartField>, ulen: nat, i: nat, n: nat)
    requires n <= |fields| && i < ulen && forall f :: f in fields[..n] ==> InRange(f, ulen)
    ensures var o := Owner(fields, ulen, i, n);
            && (o < 0 <==> forall g :: 0 <= g < n ==> !Covers(fields[g], i))
            && (o >= 0 ==> Covers(fields[o], i))
            && (o >= 0 ==> forall g :: 0 <= g < n && Covers(fields[g], i) ==>
                  Span(fields[o]) < Span(fields[g]) || (Span(fields[o]) == Span(fields[g]) && g <= o))
  {
    if n > 0 {
      assert fields[n - 1] in fields[..n];
      assert forall f :: f in fields[..n - 1] ==> f in fields[..n];
      OwnerIsInnermost(fields, ulen, i, n - 1);
    }
  }

  // ---- Parts ----

  datatype Part = Part(kind: Bytes, value: Bytes)

  /** The end of the run of equal owners that `i` belongs to. */
  function RunEnd(owner: seq<int>, i: nat): (j: nat)
    requires i < |owner|
    ensures i < j <= |owner|
    ensures forall k :: i <= k < j ==> owner[k] == owner[i]
    ensures j < |owner| ==> owner[j] != owner[i]
    decreases |owner| - i
  {
    if i + 1 == |owner| || owner[i + 1] != owner[i] then i + 1 else RunEnd(owner, i + 1)
  }

  function KindOf(fields: seq<PartField>, typeOf: Labels, o: int, value: Bytes): Bytes
    requires o < |fields|
  {
    if o < 0 then LITERAL else typeOf(fields[o].field, value)
  }

  predicate Below(owner: seq<int>, n: nat) {
    forall k :: 0 <= k < |owner| ==> owner[k] < n
  }

  function Parts(s: Bytes, owner: seq<int>, fields: seq<PartField>, typeOf: Labels, i: nat): seq<Part>
    requires |owner| == |s| && i <= |s| && Below(owner, |fields|)
    decreases |s| - i
  {
    if i == |s| then []
    else
      var j := RunEnd(owner, i);
      [Part(KindOf(fields, typeOf, owner[i], s[i..j]), s[i..j])] + Parts(s, owner, fields, typeOf, j)
  }

  function AllParts(s: Bytes, fields: seq<PartField>, typeOf: Labels): seq<Part> {
    OwnersBelow(s, fields);
    Parts(s, Owners(fields, |s|), fields, typeOf, 0)
  }

  lemma OwnersBelow(s: Bytes, fields: seq<PartField>)
    ensures Below(Owners(fields, |s|), |fields|)
  {
  }

  function Values(parts: seq<Part>): Bytes {
    if parts == [] then [] else parts[0].value + Values(parts[1..])
  }

  /** The values of the parts make up the string. */
  lemma {:induction false} ValuesMakeString(s: Bytes, owner: seq<int>, fields: seq<PartField>, typeOf: Labels, i: nat)
    requires |owner| == |s| && i <= |s| && Below(owner, |fields|)
    ensures Values(Parts(s, owner, fields, typeOf, i)) == s[i..]
    decreases |s| - i
  {
    if i == |s| {
      assert s[i..] == [];
    } else {
      hide KindOf;
      var j := RunEnd(owner, i);
      ValuesMakeString(s, owner, fields, typeOf, j);
      assert s[i..j] + s[j..] == s[i..];
    }
  }

  lemma PartsMakeString(s: Bytes, fields: seq<PartField>, typeOf: Labels)
    ensures Values(AllParts(s, fields, typeOf)) == s
  {
    OwnersBelow(s, fields);
    ValuesMakeString(s, Owners(fields, |s|), fields, typeOf, 0);
    assert s[0..] == s;
  }

  /** The part that a byte is in. */
  function PartOf(parts: seq<Part>, i: nat): Part
    requires i < |Values(parts)|
  {
    if i < |parts[0].value| then parts[0] else PartOf(parts[1..], i - |parts[0].value|)
  }

  lemma {:induction false} LabelFrom(s: Bytes, owner: seq<int>, fields: seq<PartField>, typeOf: Labels, from: nat, i: nat)
    requires |owner| == |s| && from <= i < |s| && Below(owner, |fields|)
    ensures |Values(Parts(s, owner, fields, typeOf, from))| == |s| - from
    ensures var p := PartOf(Parts(s, owner, fields, typeOf, from), i - from);
            p.kind == KindOf(fields, typeOf, owner[i], p.value)
    decreases |s| - from
  {
    hide KindOf;
    ValuesMakeString(s, owner, fields, typeOf, from);
    var j := RunEnd(owner, from);
    if i >= j {
      LabelFrom(s, owner, fields, typeOf, j, i);
    }
  }

  /** Each byte is in a part labelled by the byte's owner. */
  lemma LabelOfByte(s: Bytes, fields: seq<PartField>, typeOf: Labels, i: nat)
    requires i < |s|
    ensures |Values(AllParts(s, fields, typeOf))| == |s|
    ensures var p := PartOf(AllParts(s, fields, typeOf), i);
            p.kind == KindOf(fields, typeOf, Owner(fields, |s|, i, |fields|), p.value)
  {
    OwnersBelow(s, fields);
    LabelFrom(s, Owners(fields, |s|), fields, typeOf, 0, i);
  }

  // ---- The output ----

  /** Parts are separated by one control character, a part's type from its value by another. */
  function Written(parts: seq<Part>): Bytes {
    if parts == [] then []
    else if |parts| == 1 then parts[0].kind + [TYPE_SEP] + parts[0].value
    else Written(parts[..|parts| - 1]) + [PART_SEP] + parts[|parts| - 1].kind + [TYPE_SEP] + parts[|parts| - 1].value
  }

  lemma WrittenNext(parts: seq<Part>, p: Part)
    ensures Written(parts + [p]) ==
      (if parts == [] then [] else Written(parts) + [PART_SEP]) + p.kind + [TYPE_SEP] + p.value
    ensures Written(parts) == [] <==> parts == []
  {
    assert (parts + [p])[..|parts|] == parts;
  }

  /** Copies `bytes` to `out` at `at`. */
  method CopyTo(out: array<int>, at: nat, bytes: Bytes)
    requires at + |bytes| <= out.Length
    modifies out
    ensures out[..at + |bytes|] == old(out[..at]) + bytes
  {
    var k := 0;
    while k < |bytes|
      invariant k <= |bytes|
      invariant forall i :: 0 <= i < at ==> out[i] == old(out[i])
      invariant forall i :: 0 <= i < k ==> out[at + i] == bytes[i]
    {
      out[at + k] := bytes[k];
      k := k + 1;
    }
  }

  method AppendPart(out: array<int>, cap: nat, olen: nat, kind: Bytes, value: Bytes) returns (status: int, olen': nat)
    requires olen < cap <= out.Length
    modifies out
    ensures var text := (if olen > 0 then [0x1E] else []) + kind + [0x1F] + value;
            && status == (if olen + |text| < cap then 0 else -1)
            && (status == 0 ==> olen' == olen + |text| && out[..olen'] == old(out[..olen]) + text && out[olen'] == 0)
  {
    olen' := olen;
    if olen' > 0 {
      if olen' + 1 >= cap {
        return -1, olen';
      }
      CopyTo(out, olen', [PART_SEP]);
      olen' := olen' + 1;
    }
    if olen' + |kind| + 1 + |value| >= cap {
      return -1, olen';
    }
    CopyTo(out, olen', kind);
    olen' := olen' + |kind|;
    CopyTo(out, olen', [TYPE_SEP]);
    olen' := olen' + 1;
    CopyTo(out, olen', value);
    olen' := olen' + |value|;
    out[olen'] := 0;
    status := 0;
  }

  lemma {:induction false} WrittenGrows(a: seq<Part>, b: seq<Part>)
    ensures |Written(a)| <= |Written(a + b)|
    decreases |b|
  {
    if b == [] {
      assert a + b == a;
    } else {
      WrittenGrows(a + [b[0]], b[1..]);
      assert a + [b[0]] + b[1..] == a + b;
      WrittenNext(a, b[0]);
    }
  }

  function Int8(n: int): int {
    (n + 128) % 256 - 128
  }

  /** Lays the fields over the bytes, one after another. */
  method LayFields(fields: seq<PartField>, ulen: nat) returns (owner: array<int>)
    requires |fields| <= PARTS_MAX_FIELDS
    ensures fresh(owner) && owner[..] == Owners(fields, ulen)
  {
    hide Low, High;
    owner := new int[ulen](i => -1);
    var f := 0;
    while f < |fields|
      invariant f <= |fields|
      invariant forall k :: 0 <= k < ulen ==> owner[k] == Owner(fields, ulen, k, f)
    {
      LayField(fields, ulen, f, owner);
      f := f + 1;
    }
  }

  method LayField(fields: seq<PartField>, ulen: nat, f: nat, owner: array<int>)
    requires f < |fields| <= PARTS_MAX_FIELDS && owner.Length == ulen
    requires forall k :: 0 <= k < ulen ==> owner[k] == Owner(fields, ulen, k, f)
    modifies owner
    ensures forall k :: 0 <= k < ulen ==> owner[k] == Owner(fields, ulen, k, f + 1)
  {
    var b, e := fields[f].begin, fields[f].end;
    if b < 0 { b := 0; }
    if e > ulen { e := ulen; }
    if b >= e {
      return;
    }
    var span := e - b;
    var i := b;
    while i < e
      invariant b <= i <= e
      invariant forall k :: b <= k < i ==> owner[k] == Owner(fields, ulen, k, f + 1)
      invariant forall k :: 0 <= k < ulen && !(b <= k < i) ==> owner[k] == Owner(fields, ulen, k, f)
    {
      var prev := owner[i];
      if prev < 0 {
        owner[i] := Int8(f);
      } else {
        var pspan := fields[prev].end - fields[prev].begin;
        if span <= pspan {
          owner[i] := Int8(f);
        }
      }
      i := i + 1;
    }
  }

  lemma PartsStep(s: Bytes, owner: seq<int>, fields: seq<PartField>, typeOf: Labels, i: nat, j: nat)
    requires |owner| == |s| && i < |s| && Below(owner, |fields|) && j == RunEnd(owner, i)
    ensures Parts(s, owner, fields, typeOf, i) ==
      [Part(KindOf(fields, typeOf, owner[i], s[i..j]), s[i..j])] + Parts(s, owner, fields, typeOf, j)
  {
  }

  lemma {:induction false} RunEndIs(owner: seq<int>, i: nat, j: nat)
    requires i < j <= |owner| && (forall k :: i <= k < j ==> owner[k] == owner[i]) && (j < |owner| ==> owner[j] != owner[i])
    ensures RunEnd(owner, i) == j
    decreases j - i
  {
    if i + 1 < j {
      RunEndIs(owner, i + 1, j);
    }
  }

  /** Succeeds exactly if the text and its final zero fit, and then `out` holds it. */
  method EmitPartsFromFields(utf8: Bytes, fields: seq<PartField>, typeOf: Labels, out: array<int>, cap: nat)
    returns (status: int)
    requires cap <= out.Length && |fields| <= PARTS_MAX_FIELDS
    modifies out
    ensures var text := Written(AllParts(utf8, fields, typeOf));
            && status == (if |text| < cap then 0 else -1)
            && (status == 0 ==> out[..|text|] == text && out[|text|] == 0)
  {
    hide Owners, RunEnd, KindOf, Parts, AllParts, Written;
    if cap == 0 {
      return -1;
    }
    ghost var all := AllParts(utf8, fields, typeOf);
    WholeParts(utf8, fields, typeOf);
    if |utf8| == 0 {
      out[0] := 0;
      return 0;
    }
    var owner := LayFields(fields, |utf8|);
    ghost var owners := owner[..];
    var olen: nat := 0;
    out[0] := 0;
    ghost var done: seq<Part> := [];
    var i := 0;
    while i < |utf8|
      invariant i <= |utf8| && owner[..] == owners && done + Parts(utf8, owners, fields, typeOf, i) == all
      invariant olen < cap && out[..olen] == Written(done) && out[olen] == 0
    {
      var f := owner[i];
      var j := i + 1;
      while j < |utf8| && owner[j] == f
        invariant i < j <= |utf8| && forall k :: i <= k < j ==> owner[k] == f
      {
        j := j + 1;
      }
      RunEndIs(owners, i, j);
      PartsStep(utf8, owners, fields, typeOf, i, j);
      ghost var rest := Parts(utf8, owners, fields, typeOf, j);
      var kind := KindOf(fields, typeOf, f, utf8[i..j]);
      ghost var part := Part(kind, utf8[i..j]);
      WrittenNext(done, part);
      WrittenGrows(done + [part], rest);
      assert done + [part] + rest == all;
      var ok;
      ok, olen := AppendPart(out, cap, olen, kind, utf8[i..j]);
      if ok != 0 {
        return -1;
      }
      done := done + [part];
      i := j;
    }
    PartsEnd(utf8, owners, fields, typeOf);
    assert done == all;
    status := 0;
  }

  lemma PartsEnd(s: Bytes, owner: seq<int>, fields: seq<PartField>, typeOf: Labels)
    requires |owner| == |s| && Below(owner, |fields|)
    ensures Parts(s, owner, fields, typeOf, |s|) == []
  {
  }

  lemma WholeParts(s: Bytes, fields: seq<PartField>, typeOf: Labels)
    ensures Below(Owners(fields, |s|), |fields|)
    ensures AllParts(s, fields, typeOf) == Parts(s, Owners(fields, |s|), fields, typeOf, 0)
    ensures |s| == 0 ==> AllParts(s, fields, typeOf) == []
    ensures Written([]) == []
  {
    OwnersBelow(s, fields);
  }

  // ---- Reading the parts back ----

  function Split(text: Bytes, sep: int): (r: seq<Bytes>)
    ensures |r| > 0
  {
    if text == [] then [[]]
    else
      var rest := Split(text[1..], sep);
      if text[0] == sep then [[]] + rest else [[text[0]] + rest[0]] + rest[1..]
  }

  lemma {:induction false} SplitPlain(a: Bytes, sep: int)
    requires sep !in a
    ensures Split(a, sep) == [a]
  {
    if a != [] {
      SplitPlain(a[1..], sep);
      assert [a[0]] + a[1..] == a;
    }
  }

  lemma SplitHead(x: int, t: Bytes, sep: int)
    ensures Split([x] + t, sep) ==
      if x == sep then [[]] + Split(t, sep) else [[x] + Split(t, sep)[0]] + Split(t, sep)[1..]
  {
    assert ([x] + t)[1..] == t;
  }

  lemma FrontFirst(x: int, a: seq<Bytes>, b: seq<Bytes>)
    requires |a| > 0
    ensures [[]] + (a + b) == [[]] + a + b
    ensures [[x] + (a + b)[0]] + (a + b)[1..] == [[x] + a[0]] + a[1..] + b
  {
    assert (a + b)[1..] == a[1..] + b;
  }

  lemma {:induction false} SplitJoined(a: Bytes, b: Bytes, sep: int)
    ensures Split(a + [sep] + b, sep) == Split(a, sep) + Split(b, sep)
  {
    hide *;
    if a == [] {
      assert a + [sep] + b == [sep] + b;
      SplitHead(sep, b, sep);
      SplitPlain([], sep);
    } else {
      var x, t := a[0], a[1..];
      assert a == [x] + t && a + [sep] + b == [x] + (t + [sep] + b);
      SplitHead(x, t + [sep] + b, sep);
      SplitHead(x, t, sep);
      SplitJoined(t, b, sep);
      FrontFirst(x, Split(t, sep), Split(b, sep));
    }
  }

  function Chunk(p: Part): Bytes {
    p.kind + [TYPE_SEP] + p.value
  }

  function Chunks(parts: seq<Part>): seq<Bytes> {
    if parts == [] then [] else Chunks(parts[..|parts| - 1]) + [Chunk(parts[|parts| - 1])]
  }

  predicate Unmarked(b: Bytes) {
    0x1E !in b && 0x1F !in b
  }

  lemma {:induction false} ChunkAt(parts: seq<Part>, g: nat)
    requires g < |parts|
    ensures |Chunks(parts)| == |parts| && Chunks(parts)[g] == Chunk(parts[g])
  {
    var init := parts[..|parts| - 1];
    if g < |init| {
      ChunkAt(init, g);
    } else if init != [] {
      ChunkAt(init, 0);
    }
  }

  lemma LastChunk(parts: seq<Part>)
    requires parts != []
    ensures var init, last := parts[..|parts| - 1], parts[|parts| - 1];
            && Written(parts) == (if init == [] then [] else Written(init) + [PART_SEP]) + Chunk(last)
            && Chunks(parts) == (if init == [] then [] else Chunks(init)) + [Chunk(last)]
  {
    if |parts| == 1 {
      assert Chunks(parts[..0]) == [];
    }
  }

  lemma {:induction false} CutIntoChunks(parts: seq<Part>)
    requires parts != [] && forall p :: p in parts ==> Unmarked(p.kind) && Unmarked(p.value)
    ensures Split(Written(parts), 0x1E) == Chunks(parts)
    decreases |parts|
  {
    hide Split, Written, Chunks, Chunk;
    var init, last := parts[..|parts| - 1], parts[|parts| - 1];
    ChunkReadBack(last);
    LastChunk(parts);
    SplitPlain(Chunk(last), PART_SEP);
    if init == [] {
      assert [] + Chunk(last) == Chunk(last) && [] + [Chunk(last)] == [Chunk(last)];
    } else {
      CutIntoChunks(init);
      SplitJoined(Written(init), Chunk(last), PART_SEP);
    }
  }

  /** The text is cut back into the parts: at every byte 0x1E into one piece a part, and
      each piece at its byte 0x1F into type and value. */
  lemma PartsReadBack(parts: seq<Part>)
    requires parts != [] && forall p :: p in parts ==> Unmarked(p.kind) && Unmarked(p.value)
    ensures var pieces := Split(Written(parts), 0x1E);
            && |pieces| == |parts|
            && forall g :: 0 <= g < |parts| ==> Split(pieces[g], 0x1F) == [parts[g].kind, parts[g].value]
  {
    hide *;
    CutIntoChunks(parts);
    ChunkAt(parts, 0);
    forall g | 0 <= g < |parts| ensures Split(Chunks(parts)[g], 0x1F) == [parts[g].kind, parts[g].value] {
      ChunkAt(parts, g);
      assert parts[g] in parts;
      ChunkReadBack(parts[g]);
    }
  }

  lemma ChunkReadBack(p: Part)
    requires Unmarked(p.kind) && Unmarked(p.value)
    ensures Split(Chunk(p), 0x1F) == [p.kind, p.value] && 0x1E !in Chunk(p)
  {
    hide Split;
    SplitJoined(p.kind, p.value, TYPE_SEP);
    SplitPlain(p.kind, TYPE_SEP);
    SplitPlain(p.value, TYPE_SEP);
  }
}
