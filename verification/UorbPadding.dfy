/** Padding of uORB message structs: padding fields are inserted before embedded structs and at the end
    so that everything is aligned to eight bytes. */
module UorbPadding {
  import Decimal

  datatype Type = Header | Builtin(bytes: nat) | Embedded(children: seq<Field>)

  /** `arrayLen` is 1 for a field that is not an array; `size` is the element size, which the pass fills in. */
  datatype Field = Field(name: string, ty: Type, arrayLen: nat, size: nat)

  const ALIGN := 8

  /** How many bytes bring an offset to the next multiple of eight. */
  function Gap(offset: nat): nat { (ALIGN - offset % ALIGN) % ALIGN }

  function PaddingField(index: nat, bytes: nat): Field {
    Field("_padding" + Decimal.Print(index), Builtin(1), bytes, 1)
  }

  /** Fields in order, the offset behind them, and how many padding fields there are so far. */
  datatype Layout = Layout(fields: seq<Field>, end: nat, paddings: nat)

  function Prepend(front: seq<Field>, l: Layout): Layout { l.(fields := front + l.fields) }

  /** What one field becomes at an offset. */
  function Emit(f: Field, offset: nat, paddings: nat): Layout
    decreases f
  {
    match f.ty
    case Header => Layout([f], offset, paddings)
    case Builtin(bytes) => Layout([f.(size := bytes)], offset + bytes * f.arrayLen, paddings)
    case Embedded(children) =>
      var size := Padded(children).end;
      var sized, gap := f.(size := size), Gap(offset);
      if gap == 0 then Layout([sized], offset + size * f.arrayLen, paddings)
      else Layout([PaddingField(paddings, gap), sized], offset + gap + size * f.arrayLen, paddings + 1)
  }

  /** The fields from one offset on, without the padding at the end. */
  function Place(fields: seq<Field>, offset: nat, paddings: nat): Layout
    decreases fields, 0
  {
    if fields == [] then Layout([], offset, paddings)
    else
      var first := Emit(fields[0], offset, paddings);
      Prepend(first.fields, Place(fields[1..], first.end, first.paddings))
  }

  /** The whole struct. */
  function Padded(fields: seq<Field>): Layout
    decreases fields, 1
  {
    var l := Place(fields, 0, 0);
    var gap := Gap(l.end);
    if gap == 0 then l
    else Layout(l.fields + [PaddingField(l.paddings, gap)], l.end + gap, l.paddings + 1)
  }

  lemma {:induction false} PrependTwice(a: seq<Field>, b: seq<Field>, l: Layout)
    ensures Prepend(a, Prepend(b, l)) == Prepend(a + b, l)
  {
    assert a + (b + l.fields) == (a + b) + l.fields;
  }

  lemma {:induction false} SplitAt(fields: seq<Field>, i: nat)
    requires i < |fields|
    ensures fields == fields[..i] + [fields[i]] + fields[i + 1..]
    ensures fields[i..] == [fields[i]] + fields[i + 1..]
  {
  }

  /** The padding pass: walks the list, inserting as it goes. */
  method AddPaddingBytes(original: seq<Field>) returns (fields: seq<Field>, structSize: nat, paddingAtEnd: nat)
    ensures fields == Padded(original).fields && structSize == Padded(original).end
    ensures paddingAtEnd == Gap(Place(original, 0, 0).end)
    decreases original, 1
  {
    hide Emit, Prepend;
    fields, structSize := original, 0;
    var i, paddingIdx := 0, 0;
    ghost var k := 0;
    ghost var done := [];
    StartLayout(Place(original, 0, 0), original);
    while i < |fields|
      invariant i == |done| && k <= |original| && fields == done + original[k..]
      invariant Place(original, 0, 0) == Prepend(done, Place(original[k..], structSize, paddingIdx))
      decreases |original| - k
    {
      SplitAt(original, k);
      ghost var e := Emit(original[k], structSize, paddingIdx);
      fields, i, structSize, paddingIdx :=
        PadField(fields, i, structSize, paddingIdx, done, original[k], original[k + 1..]);
      assert original[k..][1..] == original[k + 1..];
      PrependTwice(done, e.fields, Place(original[k + 1..], structSize, paddingIdx));
      done := done + e.fields;
      k := k + 1;
    }
    EndLayout(done, structSize, paddingIdx);
    paddingAtEnd := ALIGN - structSize % ALIGN;
    if paddingAtEnd == ALIGN {
      paddingAtEnd := 0;
    } else {
      fields := fields + [Field("_padding" + Decimal.Print(paddingIdx), Builtin(1), paddingAtEnd, 1)];
      structSize := structSize + paddingAtEnd;
    }
  }

  lemma {:induction false} StartLayout(l: Layout, original: seq<Field>)
    ensures Prepend([], l) == l && [] + original == original && original[0..] == original
  {
    assert [] + l.fields == l.fields;
  }

  lemma {:induction false} EndLayout(done: seq<Field>, end: nat, paddings: nat)
    ensures Prepend(done, Layout([], end, paddings)) == Layout(done, end, paddings) && done + [] == done
  {
  }

  /** One turn of the loop: field i gets its size, behind a padding field where needed. */
  method PadField(fields: seq<Field>, i: nat, structSize: nat, paddingIdx: nat, ghost done: seq<Field>,
                  ghost f: Field, ghost rest: seq<Field>)
    returns (fields': seq<Field>, i': nat, structSize': nat, paddingIdx': nat)
    requires i == |done| && fields == done + ([f] + rest)
    ensures var e := Emit(f, structSize, paddingIdx);
            && fields' == (done + e.fields) + rest && i' == |done + e.fields|
            && structSize' == e.end && paddingIdx' == e.paddings
    decreases f
  {
    hide Padded;
    fields', i', structSize', paddingIdx' := fields, i, structSize, paddingIdx;
    var field := fields[i];
    if !field.ty.Header? {
      if field.ty.Builtin? {
        field := field.(size := field.ty.bytes);
      } else {
        var numPadding := ALIGN - structSize % ALIGN;
        if numPadding != ALIGN {
          var padding := Field("_padding" + Decimal.Print(paddingIdx), Builtin(1), numPadding, 1);
          paddingIdx' := paddingIdx + 1;
          structSize' := structSize + numPadding;
          fields' := fields[..i] + [padding] + fields[i..];
          i' := i + 1;
        }
        var _, size, _ := AddPaddingBytes(field.ty.children);
        field := field.(size := size);
      }
      fields' := fields'[i' := field];
      structSize' := structSize' + field.size * field.arrayLen;
    }
    i' := i' + 1;
  }

  // ---- What the layout means ----

  /** The bytes a field takes. */
  function Extent(f: Field): nat { if f.ty.Header? then 0 else f.size * f.arrayLen }

  function Total(fs: seq<Field>): nat {
    if fs == [] then 0 else Extent(fs[0]) + Total(fs[1..])
  }

  /** At this offset, an embedded struct is aligned to eight bytes and so is each of its array elements;
      with `natural`, a builtin is aligned to its own size. */
  predicate FieldAligned(f: Field, offset: nat, natural: bool) {
    && (f.ty.Embedded? ==> offset % ALIGN == 0 && f.size % ALIGN == 0)
    && (natural && f.ty.Builtin? && f.ty.bytes > 0 ==> offset % f.ty.bytes == 0)
  }

  /** All fields of a list that starts at `offset`. */
  predicate Aligned(fs: seq<Field>, offset: nat, natural: bool) {
    fs == [] || (FieldAligned(fs[0], offset, natural) && Aligned(fs[1..], offset + Extent(fs[0]), natural))
  }

  /** A field with its element size filled in. */
  function Sized(f: Field): Field {
    match f.ty
    case Header => f
    case Builtin(bytes) => f.(size := bytes)
    case Embedded(children) => f.(size := Padded(children).end)
  }

  /** One to seven bytes, named by their number. */
  predicate IsPadding(f: Field, index: nat) {
    0 < f.arrayLen < 8 && f.name == "_padding" + Decimal.Print(index) && f.ty == Builtin(1) && f.size == 1
  }

  /** `out` is the original fields in order, sized, with padding fields number m up to n inserted. */
  predicate Interleaves(out: seq<Field>, original: seq<Field>, m: nat, n: nat)
    decreases |out|
  {
    if out == [] then original == [] && m == n
    else
      || (IsPadding(out[0], m) && Interleaves(out[1..], original, m + 1, n))
      || (original != [] && out[0] == Sized(original[0]) && Interleaves(out[1..], original[1..], m, n))
  }

  lemma {:induction false} AlignedConcat(a: seq<Field>, b: seq<Field>, offset: nat, natural: bool)
    ensures Total(a + b) == Total(a) + Total(b)
    ensures Aligned(a + b, offset, natural) <==> Aligned(a, offset, natural) && Aligned(b, offset + Total(a), natural)
    decreases |a|
  {
    hide FieldAligned;
    if a == [] {
      assert a + b == b;
    } else {
      assert (a + b)[1..] == a[1..] + b;
      AlignedConcat(a[1..], b, offset + Extent(a[0]), natural);
    }
  }

  lemma {:induction false} InterleavesConcat(a: seq<Field>, b: seq<Field>, f: seq<Field>, g: seq<Field>, l: nat,
                                             m: nat, n: nat)
    requires Interleaves(a, f, l, m) && Interleaves(b, g, m, n)
    ensures Interleaves(a + b, f + g, l, n)
    decreases |a|
  {
    hide Sized;
    if a == [] {
      assert a + b == b && f + g == g;
    } else {
      assert (a + b)[1..] == a[1..] + b && (a + b)[0] == a[0];
      if IsPadding(a[0], l) && Interleaves(a[1..], f, l + 1, m) {
        InterleavesConcat(a[1..], b, f, g, l + 1, m, n);
      } else {
        assert (f + g)[0] == f[0] && (f + g)[1..] == f[1..] + g;
        InterleavesConcat(a[1..], b, f[1..], g, l, m, n);
      }
    }
  }

  lemma {:induction false} GapCloses(offset: nat)
    ensures Gap(offset) < ALIGN && (offset + Gap(offset)) % ALIGN == 0
    ensures Gap(offset) == 0 <==> offset % ALIGN == 0
  {
  }

  lemma {:induction false} One(f: Field, offset: nat, natural: bool)
    ensures Total([f]) == Extent(f) && (Aligned([f], offset, natural) <==> FieldAligned(f, offset, natural))
  {
    assert [f][1..] == [];
  }

  lemma {:induction false} PaddingOne(index: nat, n: nat)
    requires 0 < n < ALIGN
    ensures Interleaves([PaddingField(index, n)], [], index, index + 1)
  {
    var p := PaddingField(index, n);
    assert [p][1..] == [] && IsPadding(p, index);
  }

  lemma {:induction false} SizedOne(f: Field, n: nat)
    ensures Interleaves([Sized(f)], [f], n, n)
  {
    hide Sized;
    assert [Sized(f)][1..] == [] && [f][1..] == [];
  }

  /** One field: sizes add up, a struct is aligned, and at most one padding field goes in front. */
  lemma {:induction false} EmitSound(f: Field, offset: nat, paddings: nat)
    requires f.ty.Embedded? ==> Padded(f.ty.children).end % ALIGN == 0
    ensures var e := Emit(f, offset, paddings);
            && e.end == offset + Total(e.fields) && Aligned(e.fields, offset, false)
            && Interleaves(e.fields, [f], paddings, e.paddings)
  {
    hide Padded, Aligned, Total, Interleaves;
    var gap := Gap(offset);
    GapCloses(offset);
    SizedOne(f, paddings);
    One(Sized(f), offset, false);
    if f.ty.Embedded? && gap != 0 {
      var p := PaddingField(paddings, gap);
      One(p, offset, false);
      One(Sized(f), offset + gap, false);
      AlignedConcat([p], [Sized(f)], offset, false);
      PaddingOne(paddings, gap);
      SizedOne(f, paddings + 1);
      InterleavesConcat([p], [Sized(f)], [], [f], paddings, paddings + 1, paddings + 1);
      assert [p] + [Sized(f)] == [p, Sized(f)] && [] + [f] == [f];
    }
  }

  /** The same for a list of fields. */
  lemma {:induction false} PlaceSound(fields: seq<Field>, offset: nat, paddings: nat)
    ensures var l := Place(fields, offset, paddings);
            && l.end == offset + Total(l.fields) && Aligned(l.fields, offset, false)
            && Interleaves(l.fields, fields, paddings, l.paddings)
    decreases fields, 0
  {
    hide Emit, Padded, Aligned, Total, Interleaves;
    if fields == [] {
      Nothing(offset, paddings);
    } else {
      var f, rest := fields[0], fields[1..];
      if f.ty.Embedded? {
        PaddedSound(f.ty.children);
      }
      EmitSound(f, offset, paddings);
      var e := Emit(f, offset, paddings);
      PlaceSound(rest, e.end, e.paddings);
      var l := Place(rest, e.end, e.paddings);
      AlignedConcat(e.fields, l.fields, offset, false);
      InterleavesConcat(e.fields, l.fields, [f], rest, paddings, e.paddings, l.paddings);
      assert [f] + rest == fields;
    }
  }

  lemma {:induction false} Nothing(offset: nat, paddings: nat)
    ensures Total([]) == 0 && Aligned([], offset, false) && Interleaves([], [], paddings, paddings)
  {
  }

  /** MAIN RESULT. For every nested field list, the padded struct has a size that is a multiple of eight and
      the sum of its parts, every embedded struct in it starts at a multiple of eight, and the original
      fields are there in order, with numbered padding fields between them and nothing else. */
  lemma {:induction false} PaddedSound(fields: seq<Field>)
    ensures var l := Padded(fields);
            && l.end == Total(l.fields) && l.end % ALIGN == 0
            && Aligned(l.fields, 0, false)
            && Interleaves(l.fields, fields, 0, l.paddings)
    decreases fields, 1
  {
    hide Place, Aligned, Total, Interleaves;
    PlaceSound(fields, 0, 0);
    var l := Place(fields, 0, 0);
    GapCloses(l.end);
    if Gap(l.end) != 0 {
      var p := PaddingField(l.paddings, Gap(l.end));
      One(p, l.end, false);
      AlignedConcat(l.fields, [p], 0, false);
      PaddingOne(l.paddings, Gap(l.end));
      InterleavesConcat(l.fields, [p], fields, [], 0, l.paddings, l.paddings + 1);
      assert fields + [] == fields;
    }
  }

  // ---- Nested structs ----

  /** Array element j of an embedded struct field starts at a multiple of eight, and so does all that is nested in it,
      down to the given number of levels. */
  ghost predicate ElementAligned(f: Field, offset: nat, j: nat, levels: nat)
    requires f.ty.Embedded? && levels > 0
    decreases levels, 0
  {
    var start := offset + j * f.size;
    start % ALIGN == 0 && DeeplyAligned(Padded(f.ty.children).fields, start, levels - 1)
  }

  /** The same for all fields of a list that starts at `offset`. */
  ghost predicate DeeplyAligned(fs: seq<Field>, offset: nat, levels: nat)
    decreases levels, 1, |fs|
  {
    fs == [] || (
      && (fs[0].ty.Embedded? && levels > 0 ==>
            forall j: nat :: j < fs[0].arrayLen ==> ElementAligned(fs[0], offset, j, levels))
      && DeeplyAligned(fs[1..], offset + Extent(fs[0]), levels))
  }

  lemma {:induction false} SumsOfMultiples(a: nat, b: nat, c: nat)
    requires a % ALIGN == 0 && b % ALIGN == 0 && c % ALIGN == 0
    ensures (a + b + c) % ALIGN == 0
  {
    assert a + b + c == ALIGN * (a / ALIGN + b / ALIGN + c / ALIGN);
  }

  lemma {:induction false} MovedBy(base: nat, fs: seq<Field>, offset: nat, levels: nat)
    requires base % ALIGN == 0 && Aligned(fs, offset, false)
    ensures DeeplyAligned(fs, base + offset, levels)
    decreases levels, |fs|
  {
    hide Padded, Total, Interleaves;
    if fs == [] {
    } else {
      var f := fs[0];
      if f.ty.Embedded? && levels > 0 {
        forall j: nat {:trigger ElementAligned(f, base + offset, j, levels)} | j < f.arrayLen
          ensures ElementAligned(f, base + offset, j, levels)
        {
          Multiple(f.size, j);
          PaddedSound(f.ty.children);
          var start := base + offset + f.size * j;
          assert start % ALIGN == 0 by { SumsOfMultiples(base, offset, f.size * j); }
          MovedBy(start, Padded(f.ty.children).fields, 0, levels - 1);
        }
      }
      MovedBy(base, fs[1..], offset + Extent(f), levels);
    }
  }

  /** Placed at a multiple of eight, the padded struct has every embedded struct at a multiple of eight: at every depth
      of nesting, and every element of every array. */
  lemma {:induction false} DeeplyPadded(fields: seq<Field>, base: nat, levels: nat)
    requires base % ALIGN == 0
    ensures DeeplyAligned(Padded(fields).fields, base, levels)
  {
    hide Padded, DeeplyAligned;
    PaddedSound(fields);
    MovedBy(base, Padded(fields).fields, 0, levels);
  }

  // ---- Sorted fields ----

  /** The size used for sorting: embedded types go to the end. */
  function SizeofFieldType(f: Field): nat { if f.ty.Builtin? then f.ty.bytes else 0 }

  predicate SortedBySize(fs: seq<Field>) {
    forall i, j :: 0 <= i < j < |fs| ==> SizeofFieldType(fs[i]) >= SizeofFieldType(fs[j])
  }

  predicate BuiltinSizes(fs: seq<Field>) {
    forall i :: 0 <= i < |fs| ==>
      SizeofFieldType(fs[i]) in {0, 1, 2, 4, 8} && (fs[i].ty.Builtin? ==> fs[i].ty.bytes > 0)
  }

  /** Behind the builtins at most one padding field is needed, and after it everything stays aligned. */
  lemma {:induction false} EmbeddedTail(fields: seq<Field>, offset: nat, paddings: nat)
    requires forall i :: 0 <= i < |fields| ==> !fields[i].ty.Builtin?
    ensures var l := Place(fields, offset, paddings);
            && Aligned(l.fields, offset, true)
            && paddings <= l.paddings <= paddings + 1
            && (l.paddings == paddings + 1 || offset % ALIGN == 0 ==> l.end % ALIGN == 0)
            && (offset % ALIGN == 0 ==> l.paddings == paddings)
    decreases |fields|
  {
    hide Padded, Aligned, Total;
    Empty(offset);
    if fields == [] {
    } else {
      var f, rest := fields[0], fields[1..];
      if f.ty.Embedded? {
        PaddedSound(f.ty.children);
      }
      EmitNatural(f, offset, paddings);
      var e := Emit(f, offset, paddings);
      EmbeddedTail(rest, e.end, e.paddings);
      AlignedConcat(e.fields, Place(rest, e.end, e.paddings).fields, offset, true);
    }
  }

  lemma {:induction false} Empty(offset: nat)
    ensures Aligned([], offset, true) && Total([]) == 0
  {
  }

  lemma {:induction false} EmitNatural(f: Field, offset: nat, paddings: nat)
    requires f.ty.Embedded? ==> Padded(f.ty.children).end % ALIGN == 0
    requires f.ty.Builtin? ==> f.ty.bytes > 0 && offset % f.ty.bytes == 0
    ensures var e := Emit(f, offset, paddings);
            && e.end == offset + Total(e.fields) && Aligned(e.fields, offset, true)
            && (f.ty.Embedded? ==> e.end % ALIGN == 0)
            && e.paddings == if f.ty.Embedded? && offset % ALIGN != 0 then paddings + 1 else paddings
  {
    hide Padded, Aligned, Total, Gap;
    var gap := Gap(offset);
    GapCloses(offset);
    One(Sized(f), offset, true);
    if f.ty.Embedded? {
      var p := PaddingField(paddings, gap);
      One(p, offset, true);
      One(Sized(f), offset + gap, true);
      AlignedConcat([p], [Sized(f)], offset, true);
      assert [p] + [Sized(f)] == [p, Sized(f)];
      Multiple(Sized(f).size, f.arrayLen);
      SumsOfMultiples(offset + gap, Sized(f).size * f.arrayLen, 0);
    }
  }

  lemma {:induction false} Multiple(size: nat, count: nat)
    requires size % ALIGN == 0
    ensures (size * count) % ALIGN == 0
  {
    var q := size / ALIGN;
    assert size * count == ALIGN * (q * count);
  }

  lemma {:induction false} StaysDivisible(offset: nat, bytes: nat, count: nat, next: nat)
    requires bytes in {1, 2, 4, 8} && next in {1, 2, 4, 8} && next <= bytes && offset % bytes == 0
    ensures (offset + bytes * count) % next == 0
  {
    var z := bytes / next * (offset / bytes + count);
    assert offset + bytes * count == bytes * (offset / bytes + count);
    if next == 1 {
    } else if next == 2 {
      assert bytes * (offset / bytes + count) == 2 * z;
    } else if next == 4 {
      assert bytes * (offset / bytes + count) == 4 * z;
    } else {
      assert bytes * (offset / bytes + count) == 8 * z;
    }
  }

  lemma {:induction false} SortedPlace(fields: seq<Field>, offset: nat, paddings: nat)
    requires SortedBySize(fields) && BuiltinSizes(fields)
    requires fields != [] && fields[0].ty.Builtin? ==> offset % fields[0].ty.bytes == 0
    ensures var l := Place(fields, offset, paddings);
            && Aligned(l.fields, offset, true)
            && paddings <= l.paddings <= paddings + 1 && (l.paddings == paddings + 1 ==> l.end % ALIGN == 0)
    decreases |fields|
  {
    hide Aligned, Total, Padded;
    if fields == [] || !fields[0].ty.Builtin? {
      EmbeddedTail(fields, offset, paddings);
    } else {
      var f, rest := fields[0], fields[1..];
      var e := Emit(f, offset, paddings);
      EmitNatural(f, offset, paddings);
      if rest != [] && rest[0].ty.Builtin? {
        assert SizeofFieldType(fields[1]) == rest[0].ty.bytes;
        StaysDivisible(offset, f.ty.bytes, f.arrayLen, rest[0].ty.bytes);
      }
      SortedPlace(rest, e.end, e.paddings);
      AlignedConcat(e.fields, Place(rest, e.end, e.paddings).fields, offset, true);
    }
  }

  /** With the fields sorted by descending size, every builtin is naturally aligned and at most one padding
      field is inserted. */
  lemma {:induction false} SortedPadded(fields: seq<Field>)
    requires SortedBySize(fields) && BuiltinSizes(fields)
    ensures Aligned(Padded(fields).fields, 0, true) && Padded(fields).paddings <= 1
  {
    hide Place, Aligned, Total;
    SortedPlace(fields, 0, 0);
    var l := Place(fields, 0, 0);
    GapCloses(l.end);
    PlaceSound(fields, 0, 0);
    var p := PaddingField(l.paddings, Gap(l.end));
    One(p, l.end, true);
    AlignedConcat(l.fields, [p], 0, true);
  }

  // ---- The size of an embedded struct ----

  /** The bytes of a field without any padding. */
  function Bytes(f: Field): nat { Extent(Sized(f)) }

  function TotalBytes(fields: seq<Field>): nat {
    if fields == [] then 0 else Bytes(fields[0]) + TotalBytes(fields[1..])
  }

  function BuiltinPart(f: Field): nat { if f.ty.Builtin? then Bytes(f) else 0 }

  function BuiltinBytes(fields: seq<Field>): nat {
    if fields == [] then 0 else BuiltinPart(fields[0]) + BuiltinBytes(fields[1..])
  }

  /** All padding of a list that starts at `offset`: each run of builtins is filled up on its own. */
  function Waste(fields: seq<Field>, offset: nat): nat {
    if fields == [] then Gap(offset)
    else if fields[0].ty.Embedded? then Gap(offset) + Waste(fields[1..], 0)
    else Waste(fields[1..], offset + Bytes(fields[0]))
  }

  lemma {:induction false} WasteRepeats(fields: seq<Field>, a: nat, b: nat)
    requires a % ALIGN == b % ALIGN
    ensures Waste(fields, a) == Waste(fields, b)
    decreases |fields|
  {
    hide Bytes;
    if fields == [] || fields[0].ty.Embedded? {
    } else {
      WasteRepeats(fields[1..], a + Bytes(fields[0]), b + Bytes(fields[0]));
    }
  }

  lemma {:induction false} EmitSize(f: Field, offset: nat, paddings: nat)
    ensures var end := Emit(f, offset, paddings).end;
      && end == offset + Bytes(f) + (if f.ty.Embedded? then Gap(offset) else 0)
      && (f.ty.Embedded? ==> end % ALIGN == 0)
  {
    hide Padded, Gap, Total, Aligned, Interleaves;
    if f.ty.Embedded? {
      PaddedSound(f.ty.children);
      GapCloses(offset);
      Multiple(Padded(f.ty.children).end, f.arrayLen);
      SumsOfMultiples(offset + Gap(offset), Padded(f.ty.children).end * f.arrayLen, 0);
    }
  }

  lemma {:induction false} PlaceSize(fields: seq<Field>, offset: nat, paddings: nat)
    ensures var end := Place(fields, offset, paddings).end;
      end + Gap(end) == offset + TotalBytes(fields) + Waste(fields, offset)
    decreases |fields|
  {
    hide Emit, Bytes, Gap;
    if fields == [] {
    } else {
      var e := Emit(fields[0], offset, paddings);
      EmitSize(fields[0], offset, paddings);
      PlaceSize(fields[1..], e.end, e.paddings);
      if fields[0].ty.Embedded? {
        WasteRepeats(fields[1..], e.end, 0);
      }
    }
  }

  /** The size of a padded struct is that of its fields and the waste. */
  lemma {:induction false} PaddedSize(fields: seq<Field>)
    ensures Padded(fields).end == TotalBytes(fields) + Waste(fields, 0)
  {
    hide Place;
    PlaceSize(fields, 0, 0);
  }

  lemma {:induction false} WasteOfTail(fields: seq<Field>)
    requires forall i :: 0 <= i < |fields| ==> !fields[i].ty.Builtin?
    ensures Waste(fields, 0) == 0 && BuiltinBytes(fields) == 0
  {
    if fields == [] {
    } else {
      WasteOfTail(fields[1..]);
    }
  }

  lemma {:induction false} SortedWaste(fields: seq<Field>, offset: nat)
    requires SortedBySize(fields) && BuiltinSizes(fields)
    ensures Waste(fields, offset) == Gap(offset + BuiltinBytes(fields))
    decreases |fields|
  {
    hide Bytes, Gap;
    if fields == [] {
    } else if fields[0].ty.Embedded? {
      assert forall i :: 0 <= i < |fields| ==> SizeofFieldType(fields[0]) >= SizeofFieldType(fields[i]);
      WasteOfTail(fields[1..]);
    } else {
      SortedWaste(fields[1..], offset + Bytes(fields[0]));
      assert fields[0].ty.Header? ==> Bytes(fields[0]) == 0 by { HeaderBytes(fields[0]); }
    }
  }

  lemma {:induction false} HeaderBytes(f: Field)
    ensures f.ty.Header? ==> Bytes(f) == 0
  {
  }

  lemma {:induction false} BytesConcat(a: seq<Field>, b: seq<Field>)
    ensures TotalBytes(a + b) == TotalBytes(a) + TotalBytes(b)
    ensures BuiltinBytes(a + b) == BuiltinBytes(a) + BuiltinBytes(b)
  {
    hide Bytes;
    if a == [] {
      assert a + b == b;
    } else {
      assert (a + b)[1..] == a[1..] + b && (a + b)[0] == a[0];
      BytesConcat(a[1..], b);
    }
  }

  function Removed(b: seq<Field>, i: nat): seq<Field>
    requires i < |b|
  {
    b[..i] + b[i + 1..]
  }

  lemma {:induction false} BytesRemoved(b: seq<Field>, i: nat)
    requires i < |b|
    ensures TotalBytes(b) == Bytes(b[i]) + TotalBytes(Removed(b, i))
    ensures BuiltinBytes(b) == BuiltinPart(b[i]) + BuiltinBytes(Removed(b, i))
  {
    hide Bytes;
    var tail := [b[i]] + b[i + 1..];
    assert b == b[..i] + tail && tail[1..] == b[i + 1..];
    BytesConcat(b[..i], tail);
    BytesConcat(b[..i], b[i + 1..]);
  }

  lemma {:induction false} OneRemoved(b: seq<Field>, i: nat)
    requires i < |b|
    ensures multiset(Removed(b, i)) == multiset(b) - multiset{b[i]} && |Removed(b, i)| == |b| - 1
  {
    assert b == b[..i] + ([b[i]] + b[i + 1..]);
  }

  /** Any order of the same fields has the same bytes. */
  lemma {:induction false} SameBytes(a: seq<Field>, b: seq<Field>)
    requires multiset(a) == multiset(b)
    ensures TotalBytes(a) == TotalBytes(b) && BuiltinBytes(a) == BuiltinBytes(b)
    decreases |a|
  {
    hide TotalBytes, BuiltinBytes, Bytes, BuiltinPart, Removed;
    if a == [] {
      assert |b| == |multiset(b)|;
    } else {
      assert a[0] in multiset(b);
      var i :| 0 <= i < |b| && b[i] == a[0];
      OneRemoved(a, 0);
      OneRemoved(b, i);
      SameBytes(Removed(a, 0), Removed(b, i));
      BytesRemoved(a, 0);
      BytesRemoved(b, i);
    }
  }

  /** A struct that embeds another counts it with the fields as they are written, while the other one's own header
      has them sorted. The two sizes are the same exactly if the runs of builtins between embedded structs waste no
      more than all builtins together would; otherwise the counted size is larger. */
  lemma {:induction false} EmbeddedSize(fields: seq<Field>, sorted: seq<Field>)
    requires multiset(fields) == multiset(sorted) && SortedBySize(sorted) && BuiltinSizes(sorted)
    ensures Padded(fields).end == Padded(sorted).end <==> Waste(fields, 0) == Gap(BuiltinBytes(fields))
    ensures Padded(fields).end >= Padded(sorted).end
  {
    hide Padded, Waste, Gap;
    SameBytes(fields, sorted);
    PaddedSize(fields);
    PaddedSize(sorted);
    SortedWaste(sorted, 0);
    LeastWaste(fields, 0);
  }

  lemma {:induction false} GapSplits(a: nat, b: nat)
    ensures Gap(a) + Gap(b) >= Gap(a + b)
  {
  }

  lemma {:induction false} LeastWaste(fields: seq<Field>, offset: nat)
    ensures Waste(fields, offset) >= Gap(offset + BuiltinBytes(fields))
    decreases |fields|
  {
    hide Bytes, Gap;
    if fields == [] {
    } else if fields[0].ty.Embedded? {
      LeastWaste(fields[1..], 0);
      GapSplits(offset, BuiltinBytes(fields[1..]));
    } else {
      HeaderBytes(fields[0]);
      LeastWaste(fields[1..], offset + Bytes(fields[0]));
    }
  }

  /** Two bytes around an embedded struct: counted with 24 bytes, 16 in its own header. */
  lemma {:induction false} EmbeddedSizeDiffers()
    ensures var inner, a, b := Field("inner", Embedded([Field("x", Builtin(8), 1, 0)]), 1, 0),
                               Field("a", Builtin(1), 1, 0), Field("b", Builtin(1), 1, 0);
      Padded([a, inner, b]).end == 24 && Padded([a, b, inner]).end == 16
  {
    hide Padded, TotalBytes, Waste;
    var x := Field("x", Builtin(8), 1, 0);
    var inner, a, b := Field("inner", Embedded([x]), 1, 0), Field("a", Builtin(1), 1, 0), Field("b", Builtin(1), 1, 0);
    NoSize(0);
    NoSize(1);
    NoSize(8);
    PaddedSize([x]);
    SizeCons(x, [], 0);
    assert [x] + [] == [x] && [b] + [] == [b] && [inner] + [] == [inner];
    assert [a] + [inner, b] == [a, inner, b] && [inner] + [b] == [inner, b];
    assert [a] + [b, inner] == [a, b, inner] && [b] + [inner] == [b, inner];
    PaddedSize([a, inner, b]);
    SizeCons(a, [inner, b], 0);
    SizeCons(inner, [b], 1);
    SizeCons(b, [], 0);
    PaddedSize([a, b, inner]);
    SizeCons(a, [b, inner], 0);
    SizeCons(b, [inner], 1);
    SizeCons(inner, [], 2);
  }

  lemma {:induction false} NoSize(offset: nat)
    ensures TotalBytes([]) == 0 && Waste([], offset) == Gap(offset)
  {
  }

  lemma {:induction false} SizeCons(f: Field, rest: seq<Field>, offset: nat)
    ensures TotalBytes([f] + rest) == Bytes(f) + TotalBytes(rest)
    ensures Waste([f] + rest, offset)
         == if f.ty.Embedded? then Gap(offset) + Waste(rest, 0) else Waste(rest, offset + Bytes(f))
  {
    hide Bytes, Gap;
    assert ([f] + rest)[1..] == rest;
  }
}
