/** From the fields of a UTF-16 string to the labels of its UTF-8 bytes. */
module FieldParts {
  import opened Utf8Index
  import opened IcuParts

  // ---- The map between boundaries ----

  /** The start of the code point that the index is in the middle of, or the index. */
  function Start(u: seq<Unit>, k: nat): (r: nat)
    ensures k - 1 <= r <= k
  {
    if 0 < k < |u| && IsLow(u[k]) then k - 1 else k
  }

  lemma WellFormedStep(u: seq<Unit>, i: nat)
    requires i < |u| && WellFormed(u[i..])
    ensures !IsLow(u[i])
    ensures PairAt(u, i) ==> i + 2 <= |u| && IsLow(u[i + 1]) && WellFormed(u[i + 2..])
    ensures !PairAt(u, i) ==> WellFormed(u[i + 1..])
  {
    hide UnitLength;
    PairShift(u, i);
    assert u[i..][1..] == u[i + 1..];
    assert PairAt(u, i) ==> u[i..][2..] == u[i + 2..];
  }

  lemma WellFormedBack(u: seq<Unit>, i: nat, k: nat)
    requires i < |u| && WellFormed(u[i..]) && k <= |u|
    ensures PairAt(u, i) && i + 2 <= k && WellFormed(u[i + 2..k]) ==> WellFormed(u[i..k])
    ensures !PairAt(u, i) && i + 1 <= k && WellFormed(u[i + 1..k]) ==> WellFormed(u[i..k])
  {
    hide UnitLength;
    PairShift(u, i);
    if i < k {
      var s := u[i..k];
      assert s[0] == u[i] && s[1..] == u[i + 1..k];
      assert i + 2 <= k ==> s[1] == u[i + 1] && s[2..] == u[i + 2..k];
    }
  }

  lemma MapIndex(u: seq<Unit>, i: nat, bpos: nat, k: nat)
    requires i < |u| && i <= k <= |u|
    ensures PairAt(u, i) ==> i + 2 <= |u|
    ensures MapFrom(u, i, bpos)[k - i] ==
      if k == i || (PairAt(u, i) && k == i + 1) then bpos
      else if PairAt(u, i) then MapFrom(u, i + 2, bpos + 4)[k - i - 2]
      else MapFrom(u, i + 1, bpos + UnitLength(u[i]))[k - i - 1]
  {
    hide *;
    MapFromStep(u, i, bpos);
    if PairAt(u, i) {
      AfterTwo(bpos, MapFrom(u, i + 2, bpos + 4), k - i);
    } else {
      AfterOne(bpos, MapFrom(u, i + 1, bpos + UnitLength(u[i])), k - i);
    }
  }

  lemma AfterTwo(x: int, s: seq<int>, n: nat)
    requires n < |s| + 2
    ensures ([x, x] + s)[n] == if n < 2 then x else s[n - 2]
  {
  }

  lemma AfterOne(x: int, s: seq<int>, n: nat)
    requires n < |s| + 1
    ensures ([x] + s)[n] == if n < 1 then x else s[n - 1]
  {
  }

  lemma StartAfter(u: seq<Unit>, i: nat, k: nat)
    requires i <= k <= |u| && (i < |u| ==> !IsLow(u[i]))
    ensures i <= Start(u, k) && Start(u, i) == i
    ensures i < |u| && PairAt(u, i) ==> Start(u, i + 1) == i
  {
  }

  /** An index inside a code point is mapped where the code point starts. */
  lemma {:induction false} StartFrom(u: seq<Unit>, i: nat, bpos: nat, k: nat)
    requires i <= k <= |u| && WellFormed(u[i..])
    ensures i <= Start(u, k) && WellFormed(u[i..Start(u, k)])
    ensures MapFrom(u, i, bpos)[k - i] == MapFrom(u, i, bpos)[Start(u, k) - i]
    decreases |u| - i
  {
    hide *;
    Nothing(u, i);
    if i < |u| {
      WellFormedStep(u, i);
    }
    StartAfter(u, i, k);
    if i < |u| && Start(u, k) > i {
      var next := if PairAt(u, i) then i + 2 else i + 1;
      var later := if PairAt(u, i) then bpos + 4 else bpos + UnitLength(u[i]);
      StartFrom(u, next, later, k);
      WellFormedBack(u, i, Start(u, k));
      MapIndex(u, i, bpos, k);
      MapIndex(u, i, bpos, Start(u, k));
    } else if i < |u| {
      if k == i + 1 && !PairAt(u, i) {
        StartFrom(u, k, bpos, k);
      }
      MapIndex(u, i, bpos, k);
      MapIndex(u, i, bpos, i);
    }
  }

  lemma Nothing(u: seq<Unit>, i: nat)
    requires i <= |u|
    ensures WellFormed(u[i..i])
  {
  }

  lemma MapAtStart(u: seq<Unit>, k: nat)
    requires WellFormed(u) && k <= |u|
    ensures WellFormed(u[..Start(u, k)])
    ensures IndexMap(u)[k] == |ToUtf8(u[..Start(u, k)])| <= |ToUtf8(u)|
  {
    WholeMap(u);
    hide WellFormed, MapFrom, ToUtf8, IndexMap, Start;
    assert u[0..] == u && u[0..Start(u, k)] == u[..Start(u, k)];
    StartFrom(u, 0, 0, k);
    IndexMapIsOffset(u, Start(u, k));
  }

  /** The first unit of the code point that byte `i` belongs to. */
  ghost function UnitOf(u: seq<Unit>, i: nat): (k: nat)
    requires WellFormed(u) && i < |ToUtf8(u)|
    decreases |u|
  {
    NoBytes();
    ToUtf8Step(u);
    StepLength(u);
    if i < |FirstBytes(u)| then 0 else Step(u) + UnitOf(u[Step(u)..], i - |FirstBytes(u)|)
  }

  lemma UnitOfStep(u: seq<Unit>, i: nat)
    requires WellFormed(u) && i < |ToUtf8(u)|
    ensures u != [] && 0 < Step(u) <= |u| && WellFormed(u[Step(u)..])
    ensures |ToUtf8(u)| == |FirstBytes(u)| + |ToUtf8(u[Step(u)..])|
    ensures UnitOf(u, i) == if i < |FirstBytes(u)| then 0 else Step(u) + UnitOf(u[Step(u)..], i - |FirstBytes(u)|)
  {
    NoBytes();
    ToUtf8Step(u);
    StepLength(u);
    hide WellFormed, ToUtf8, FirstBytes, Step;
  }

  lemma {:induction false} BytesBefore(u: seq<Unit>, k: nat, i: nat)
    requires WellFormed(u) && k <= |u| && WellFormed(u[..k]) && i < |ToUtf8(u)|
    ensures |ToUtf8(u[..k])| <= i <==> k <= UnitOf(u, i)
    decreases |u|
  {
    hide WellFormed, ToUtf8, FirstBytes, Step, UnitOf;
    if k == 0 {
      assert u[..k] == [];
      NoBytes();
    } else {
      UnitOfStep(u, i);
      PrefixStep(u, k);
      ToUtf8Step(u[..k]);
      if i >= |FirstBytes(u)| {
        assert u[Step(u)..][..k - Step(u)] == u[Step(u)..k];
        BytesBefore(u[Step(u)..], k - Step(u), i - |FirstBytes(u)|);
      }
    }
  }

  // ---- Fields ----

  function MappedFields(u: seq<Unit>, fields: seq<PartField>): (r: seq<PartField>)
    ensures |r| == |fields| && forall g :: 0 <= g < |r| ==> r[g] == Mapped(u, fields[g])
  {
    seq(|fields|, g requires 0 <= g < |fields| => Mapped(u, fields[g]))
  }

  lemma MappedInRange(u: seq<Unit>, f: PartField)
    requires WellFormed(u)
    ensures InRange(Mapped(u, f), |ToUtf8(u)|)
  {
    hide WellFormed, IndexMap, ToUtf8, Start;
    MapAtStart(u, Clamped(f.begin, |u|));
    MapAtStart(u, Clamped(f.end, |u|));
  }

  /** The code point that a byte belongs to: it starts there, and has two units exactly
      if they are a surrogate pair. */
  lemma {:induction false} UnitOfStarts(u: seq<Unit>, i: nat)
    requires WellFormed(u) && i < |ToUtf8(u)|
    ensures UnitOf(u, i) < |u| && WellFormed(u[UnitOf(u, i)..])
    decreases |u|
  {
    hide WellFormed, ToUtf8, FirstBytes, Step, UnitOf;
    UnitOfStep(u, i);
    assert u[0..] == u;
    if i >= |FirstBytes(u)| {
      var rest, j := u[Step(u)..], i - |FirstBytes(u)|;
      UnitOfStarts(rest, j);
      assert rest[UnitOf(rest, j)..] == u[UnitOf(u, i)..];
    }
  }

  /** The field holds the code point at unit `k`: it begins before the end of the code
      point and goes on at least to that end. */
  predicate Holds(u: seq<Unit>, f: PartField, k: nat) {
    var end := k + (if PairAt(u, k) then 2 else 1);
    f.begin < end <= f.end
  }

  lemma StartHolds(u: seq<Unit>, f: PartField, k: nat)
    requires k < |u| && WellFormed(u[k..])
    ensures Holds(u, f, k) <==> Start(u, Clamped(f.begin, |u|)) <= k < Start(u, Clamped(f.end, |u|))
  {
    WellFormedStep(u, k);
    if k + 1 < |u| && !PairAt(u, k) {
      WellFormedStep(u, k + 1);
    }
    hide WellFormed;
  }

  /** A byte is covered by a mapped field exactly if the field holds its code point. */
  lemma CoversHeld(u: seq<Unit>, f: PartField, i: nat)
    requires WellFormed(u) && i < |ToUtf8(u)|
    ensures Covers(Mapped(u, f), i) <==> Holds(u, f, UnitOf(u, i))
  {
    hide WellFormed, IndexMap, ToUtf8, Start, UnitOf, Holds;
    var b, e := Clamped(f.begin, |u|), Clamped(f.end, |u|);
    MapAtStart(u, b);
    MapAtStart(u, e);
    BytesBefore(u, Start(u, b), i);
    BytesBefore(u, Start(u, e), i);
    UnitOfStarts(u, i);
    StartHolds(u, f, UnitOf(u, i));
  }

  /** `o` is the innermost of the fields that hold a code point: the one that spans
      the fewest bytes, and the last of those. */
  ghost predicate Innermost(u: seq<Unit>, fields: seq<PartField>, k: nat, o: nat) {
    && o < |fields| && Holds(u, fields[o], k)
    && forall g :: 0 <= g < |fields| && Holds(u, fields[g], k) ==>
         var here, there := Span(Mapped(u, fields[o])), Span(Mapped(u, fields[g]));
         here < there || (here == there && g <= o)
  }

  lemma OwnerIsHolder(u: seq<Unit>, fields: seq<PartField>, i: nat)
    requires WellFormed(u) && i < |ToUtf8(u)|
    ensures var o := Owner(MappedFields(u, fields), |ToUtf8(u)|, i, |fields|);
            && (o >= 0 ==> Innermost(u, fields, UnitOf(u, i), o))
            && (o < 0 ==> forall g :: 0 <= g < |fields| ==> !Holds(u, fields[g], UnitOf(u, i)))
  {
    hide WellFormed, ToUtf8, UnitOf, Mapped, Owner, Holds, InRange, Covers, Span;
    var mapped := MappedFields(u, fields);
    forall g | 0 <= g < |fields|
      ensures InRange(mapped[g], |ToUtf8(u)|) && (Covers(mapped[g], i) <==> Holds(u, fields[g], UnitOf(u, i)))
    {
      MappedInRange(u, fields[g]);
      CoversHeld(u, fields[g], i);
    }
    OwnerIsInnermost(mapped, |ToUtf8(u)|, i, |fields|);
  }

  /** Whatever fields come with a well-formed string, in order or not and inside it
      or not: the parts make up its bytes, and each byte's part is labelled by the
      innermost field that holds its code point, or as "literal" if none does. */
  lemma FieldsLabelBytes(u: seq<Unit>, fields: seq<PartField>, typeOf: Labels, i: nat)
    requires WellFormed(u) && i < |ToUtf8(u)|
    ensures Values(AllParts(ToUtf8(u), MappedFields(u, fields), typeOf)) == ToUtf8(u)
    ensures var part := PartOf(AllParts(ToUtf8(u), MappedFields(u, fields), typeOf), i);
            if exists g :: 0 <= g < |fields| && Holds(u, fields[g], UnitOf(u, i))
            then exists o: nat :: Innermost(u, fields, UnitOf(u, i), o) && part.kind == typeOf(fields[o].field, part.value)
            else part.kind == [0x6C, 0x69, 0x74, 0x65, 0x72, 0x61, 0x6C]
  {
    hide WellFormed, ToUtf8, UnitOf, Owner, Holds, Innermost, AllParts, Values, PartOf, IndexMap;
    var mapped := MappedFields(u, fields);
    PartsMakeString(ToUtf8(u), mapped, typeOf);
    LabelOfByte(ToUtf8(u), mapped, typeOf, i);
    OwnerIsHolder(u, fields, i);
    var o := Owner(mapped, |ToUtf8(u)|, i, |fields|);
    if o >= 0 {
      InnermostHolds(u, fields, UnitOf(u, i), o);
      assert mapped[o].field == fields[o].field;
    }
  }

  lemma InnermostHolds(u: seq<Unit>, fields: seq<PartField>, k: nat, o: nat)
    requires Innermost(u, fields, k, o)
    ensures o < |fields| && Holds(u, fields[o], k)
  {
    hide Holds, Mapped;
  }

  lemma {:induction false} PartsUnmarked(s: Bytes, owner: seq<int>, fields: seq<PartField>, typeOf: Labels, i: nat)
    requires |owner| == |s| && i <= |s| && Below(owner, |fields|)
    requires Unmarked(s) && Unmarked(LITERAL) && forall f, v :: Unmarked(typeOf(f, v))
    ensures forall p :: p in Parts(s, owner, fields, typeOf, i) ==> Unmarked(p.kind) && Unmarked(p.value)
    ensures i < |s| ==> Parts(s, owner, fields, typeOf, i) != []
    decreases |s| - i
  {
    hide LITERAL;
    if i < |s| {
      var j := RunEnd(owner, i);
      PartsStep(s, owner, fields, typeOf, i, j);
      PartsUnmarked(s, owner, fields, typeOf, j);
    }
  }

  /** With the bytes 0x1E and 0x1F neither in the labels nor in the string, what is
      written is cut back into the parts. */
  lemma WrittenReadsBack(s: Bytes, fields: seq<PartField>, typeOf: Labels)
    requires s != [] && Unmarked(s) && forall f, v :: Unmarked(typeOf(f, v))
    ensures var parts := AllParts(s, fields, typeOf); var pieces := Split(Written(parts), 0x1E);
            && Values(parts) == s && |pieces| == |parts|
            && forall g :: 0 <= g < |parts| ==> Split(pieces[g], 0x1F) == [parts[g].kind, parts[g].value]
  {
    PartsMakeString(s, fields, typeOf);
    WholeParts(s, fields, typeOf);
    assert Unmarked(LITERAL);
    PartsUnmarked(s, Owners(fields, |s|), fields, typeOf, 0);
    hide Split, Written, Unmarked, Parts, Owners, LITERAL;
    PartsReadBack(AllParts(s, fields, typeOf));
  }

  /** The end of both formatting functions: the fields are mapped in place and the
      parts written. */
  method EmitParts(ubuf: seq<Unit>, utf8: Bytes, fields: array<PartField>, typeOf: Labels, out: array<int>, cap: nat)
    returns (status: int)
    requires fields.Length <= PARTS_MAX_FIELDS && cap <= out.Length && utf8 == ToUtf8(ubuf)
    modifies fields, out
    ensures var text := Written(AllParts(utf8, MappedFields(ubuf, old(fields[..])), typeOf));
            && status == (if |text| < cap then 0 else -1)
            && (status == 0 ==> out[..|text|] == text && out[|text|] == 0)
  {
    hide Mapped, ToUtf8, AllParts, Written;
    ghost var before := fields[..];
    UcharFieldsToUtf8(ubuf, fields);
    assert fields[..] == MappedFields(ubuf, before);
    status := EmitPartsFromFields(utf8, fields[..], typeOf, out, cap);
  }
}
