/** tools/mkbootimg.py: packed header fields, padding to a page boundary with bit masks, and the layout of
    an image whose sections each start on a page. */
module ImageLayout {
  import opened Bytes
  import opened LittleEndian
  import opened Options

  // ---------- packed fields ----------

  /** One struct.pack call: an unsigned number of `width` bytes, or a byte string cut or zero-filled to
      `width`. */
  datatype Field = Number(value: int, width: nat) | Text(bytes: seq<byte>, width: nat)

  /** struct.pack raises for a number that is negative or too large. */
  predicate Fits(field: Field)
  {
    field.Number? ==> 0 <= field.value < Pow256(field.width)
  }

  predicate AllFit(fields: seq<Field>)
  {
    forall i :: 0 <= i < |fields| ==> Fits(fields[i])
  }

  /** A number of 32 bits. */
  predicate IsWord(value: int)
  {
    0 <= value < 0x1_0000_0000
  }

  predicate IsLong(value: int)
  {
    0 <= value < 0x1_0000_0000_0000_0000
  }

  /** What fits a field: a number of its width, and any text, which is cut. */
  lemma FitsExactly(field: Field)
    ensures field.Number? && field.width == 4 ==> (Fits(field) <==> IsWord(field.value))
    ensures field.Number? && field.width == 8 ==> (Fits(field) <==> IsLong(field.value))
    ensures field.Text? ==> Fits(field)
  {
    Pow256Values();
    assert Pow256(6) == 0x100 * (0x100 * Pow256(4));
    assert Pow256(8) == 0x100 * (0x100 * Pow256(6));
  }

  predicate InWidth(field: Field)
  {
    field.Number? ==> if field.width == 8 then IsLong(field.value) else IsWord(field.value)
  }

  predicate AllInWidth(fields: seq<Field>)
  {
    forall i :: 0 <= i < |fields| ==> InWidth(fields[i])
  }

  lemma AllFitExactly(fields: seq<Field>)
    requires forall i :: 0 <= i < |fields| && fields[i].Number? ==> fields[i].width == 4 || fields[i].width == 8
    ensures AllFit(fields) <==> AllInWidth(fields)
  {
    forall i | 0 <= i < |fields| ensures Fits(fields[i]) <==> InWidth(fields[i]) {
      FitsExactly(fields[i]);
    }
  }

  lemma AllFitConcat(a: seq<Field>, b: seq<Field>)
    ensures AllFit(a + b) <==> AllFit(a) && AllFit(b)
  {
    if AllFit(a + b) {
      assert forall i :: 0 <= i < |a| ==> a[i] == (a + b)[i];
      assert forall i :: 0 <= i < |b| ==> b[i] == (a + b)[|a| + i];
    }
  }

  function PackString(bytes: seq<byte>, width: nat): (out: seq<byte>)
    ensures |out| == width
  {
    if |bytes| >= width then bytes[..width] else bytes + Zeros(width - |bytes|)
  }

  function Encode(field: Field): (out: seq<byte>)
    ensures |out| == field.width
  {
    match field
    case Number(value, width) => Pack(if value < 0 then 0 else value, width)
    case Text(bytes, width) => PackString(bytes, width)
  }

  function Encoded(fields: seq<Field>): (chunks: seq<seq<byte>>)
    ensures |chunks| == |fields|
  {
    seq(|fields|, i requires 0 <= i < |fields| => Encode(fields[i]))
  }

  /** The bytes that a series of pack calls writes. */
  function EncodeAll(fields: seq<Field>): seq<byte>
  {
    Flatten(Encoded(fields))
  }

  /** Where field i starts. */
  function Offset(fields: seq<Field>, i: nat): nat
    requires i <= |fields|
  {
    if i == 0 then 0 else Offset(fields, i - 1) + fields[i - 1].width
  }

  lemma {:induction false} OffsetOfPrefix(fields: seq<Field>, more: seq<Field>, i: nat)
    requires i <= |fields|
    ensures Offset(fields + more, i) == Offset(fields, i)
    decreases i
  {
    if i > 0 {
      OffsetOfPrefix(fields, more, i - 1);
    }
  }

  lemma {:induction false} OffsetIsLength(fields: seq<Field>, i: nat)
    requires i <= |fields|
    ensures Offset(fields, i) == |Flatten(Encoded(fields)[..i])|
    decreases i
  {
    if i > 0 {
      OffsetIsLength(fields, i - 1);
      FlattenTake(Encoded(fields), i - 1);
    }
  }

  lemma EncodedLength(fields: seq<Field>)
    ensures |EncodeAll(fields)| == Offset(fields, |fields|)
  {
    OffsetIsLength(fields, |fields|);
    assert Encoded(fields)[..|fields|] == Encoded(fields);
  }

  lemma EncodeAllConcat(a: seq<Field>, b: seq<Field>)
    ensures EncodeAll(a + b) == EncodeAll(a) + EncodeAll(b)
  {
    assert Encoded(a + b) == Encoded(a) + Encoded(b);
    FlattenConcat(Encoded(a), Encoded(b));
  }

  function Read32(file: seq<byte>, at: nat): nat
  {
    Unpack(Slice(file, at, at + 4))
  }

  function Read64(file: seq<byte>, at: nat): nat
  {
    Unpack(Slice(file, at, at + 8))
  }

  /** The encoded fields are in the file from position `at` on. */
  predicate Holds(file: seq<byte>, at: nat, fields: seq<Field>)
  {
    Slice(file, at, at + |EncodeAll(fields)|) == EncodeAll(fields)
  }

  lemma SubSlice(file: seq<byte>, at: nat, whole: seq<byte>, from: nat, to: nat)
    requires Slice(file, at, at + |whole|) == whole && from <= to <= |whole|
    ensures Slice(file, at + from, at + to) == whole[from..to]
  {
    if from < to {
      assert at + |whole| <= |file|;
      var a, b := file[at + from..at + to], whole[from..to];
      forall k | 0 <= k < |a| ensures a[k] == b[k] {
        assert file[at..at + |whole|][from + k] == a[k];
      }
      assert a == b;
    }
  }

  lemma EncodedAt(fields: seq<Field>, i: nat)
    requires i < |fields|
    ensures Encoded(fields)[i] == Encode(fields[i])
  {
  }

  /** What stands at the offset of a field is its encoding. */
  lemma FieldStands(file: seq<byte>, at: nat, fields: seq<Field>, i: nat, from: nat, to: nat)
    requires i < |fields| && Holds(file, at, fields)
    requires from == at + Offset(fields, i) && to == from + fields[i].width
    ensures Slice(file, from, to) == Encode(fields[i])
  {
    OffsetIsLength(fields, i);
    EncodedAt(fields, i);
    ChunkInFile(file, at, Encoded(fields), EncodeAll(fields), Offset(fields, i), i, from, to);
  }

  lemma ChunkInFile(file: seq<byte>, at: nat, chunks: seq<seq<byte>>, whole: seq<byte>, before: nat, i: nat,
                    from: nat, to: nat)
    requires i < |chunks| && whole == Flatten(chunks) && Slice(file, at, at + |whole|) == whole
    requires before == |Flatten(chunks[..i])| && from == at + before && to == from + |chunks[i]|
    ensures Slice(file, from, to) == chunks[i]
  {
    FlattenAt(chunks, i);
    SubSlice(file, at, whole, before, before + |chunks[i]|);
  }

  lemma NumberUnpacks(field: Field)
    requires field.Number? && Fits(field)
    ensures Unpack(Encode(field)) == field.value
  {
    PackUnpack(field.value, field.width);
  }

  /** A number that could be packed is read back from its offset. */
  lemma NumberReadsBack(file: seq<byte>, at: nat, fields: seq<Field>, i: nat)
    requires i < |fields| && fields[i].Number? && Fits(fields[i]) && Holds(file, at, fields)
    ensures Unpack(Slice(file, at + Offset(fields, i), at + Offset(fields, i) + fields[i].width)) == fields[i].value
  {
    var from := at + Offset(fields, i);
    var to := from + fields[i].width;
    FieldStands(file, at, fields, i, from, to);
    NumberInFile(file, from, to, fields[i]);
  }

  lemma NumberInFile(file: seq<byte>, from: nat, to: nat, field: Field)
    requires field.Number? && Fits(field) && Slice(file, from, to) == Encode(field)
    ensures Unpack(Slice(file, from, to)) == field.value
  {
    NumberUnpacks(field);
  }

  lemma TextReadsBack(file: seq<byte>, at: nat, fields: seq<Field>, i: nat)
    requires i < |fields| && fields[i].Text? && Holds(file, at, fields)
    ensures Slice(file, at + Offset(fields, i), at + Offset(fields, i) + fields[i].width)
         == PackString(fields[i].bytes, fields[i].width)
  {
    var from := at + Offset(fields, i);
    FieldStands(file, at, fields, i, from, from + fields[i].width);
  }

  // ---------- pages ----------

  function NumberOfPages(size: nat, page: nat): nat
    requires page > 0
  {
    (size + page - 1) / page
  }

  function RoundUp(size: nat, page: nat): nat
    requires page > 0
  {
    page * NumberOfPages(size, page)
  }

  /** The number of zero bytes pad_file appends at position `tell`. */
  function PadLength(tell: nat, padding: nat): nat
    requires padding > 0
  {
    var misaligned := BitAnd(tell, padding - 1);
    if misaligned > padding then 0 else BitAnd(padding - misaligned, padding - 1)
  }

  lemma RoundUpBounds(size: nat, page: nat)
    requires page > 0
    ensures size <= RoundUp(size, page) < size + page
    ensures RoundUp(size, page) % page == 0
    ensures size % page == 0 ==> RoundUp(size, page) == size
  {
    var n, r := (size + page - 1) / page, (size + page - 1) % page;
    assert size + page - 1 == page * n + r;
    DivModUnique(page * n, page, n, 0);
    if size % page == 0 {
      var q := size / page;
      assert size + page - 1 == page * q + (page - 1);
      DivModUnique(size + page - 1, page, q, page - 1);
    }
  }

  lemma RoundUpUnique(size: nat, page: nat, aligned: nat)
    requires page > 0 && size <= aligned < size + page && aligned % page == 0
    ensures aligned == RoundUp(size, page)
  {
    var q := aligned / page;
    assert size + page - 1 == page * q + (size + page - 1 - aligned);
    DivModUnique(size + page - 1, page, q, size + page - 1 - aligned);
  }

  lemma PadLengthIs(tell: nat, k: nat)
    ensures PadLength(tell, Pow2(k)) == if tell % Pow2(k) == 0 then 0 else Pow2(k) - tell % Pow2(k)
  {
    var page := Pow2(k);
    var m := tell % page;
    MaskIsModulo(tell, k);
    MaskIsModulo(page - m, k);
    if m == 0 {
      DivModUnique(page, page, 1, 0);
    } else {
      ModSmall(page - m, page);
    }
  }

  lemma NextBoundary(tell: nat, page: nat)
    requires page > 0
    ensures tell + (if tell % page == 0 then 0 else page - tell % page) == RoundUp(tell, page)
  {
    if tell % page == 0 {
      RoundUpBounds(tell, page);
    } else {
      var q := tell / page;
      DivModUnique(page * (q + 1), page, q + 1, 0);
      RoundUpUnique(tell, page, page * (q + 1));
    }
  }

  /** The bit masks of pad_file reach the same boundary as the ceiling division of get_number_of_pages. */
  lemma PaddingReachesPageBoundary(tell: nat, k: nat)
    ensures tell + PadLength(tell, Pow2(k)) == RoundUp(tell, Pow2(k))
  {
    PadLengthIs(tell, k);
    NextBoundary(tell, Pow2(k));
  }

  // ---------- images ----------

  /** What one write followed by pad_file makes of the file. */
  function PadFile(file: seq<byte>, padding: nat): seq<byte>
    requires padding > 0
  {
    file + Zeros(PadLength(|file|, padding))
  }

  function Filler(size: nat, page: nat): seq<byte>
    requires page > 0
  {
    RoundUpBounds(size, page);
    Zeros(RoundUp(size, page) - size)
  }

  /** Sections one after the other, each filled up to a page boundary. */
  function Image(sections: seq<seq<byte>>, page: nat): seq<byte>
    requires page > 0
  {
    if sections == [] then []
    else
      var last := sections[|sections| - 1];
      Image(sections[..|sections| - 1], page) + last + Filler(|last|, page)
  }

  /** Where a reader that rounds the sizes of the earlier sections up to pages expects section i. */
  function Start(sections: seq<seq<byte>>, i: nat, page: nat): nat
    requires page > 0 && i <= |sections|
  {
    if i == 0 then 0 else Start(sections, i - 1, page) + RoundUp(|sections[i - 1]|, page)
  }

  lemma {:induction false} StartOfPrefix(sections: seq<seq<byte>>, last: seq<byte>, i: nat, page: nat)
    requires page > 0 && i <= |sections|
    ensures Start(sections + [last], i, page) == Start(sections, i, page)
    decreases i
  {
    if i > 0 {
      StartOfPrefix(sections, last, i - 1, page);
    }
  }

  lemma ImageSnoc(sections: seq<seq<byte>>, last: seq<byte>, page: nat)
    requires page > 0
    ensures Image(sections + [last], page) == Image(sections, page) + last + Filler(|last|, page)
    ensures |last + Filler(|last|, page)| == RoundUp(|last|, page)
  {
    assert (sections + [last])[..|sections|] == sections;
    RoundUpBounds(|last|, page);
  }

  lemma AddAligned(a: nat, b: nat, page: nat)
    requires page > 0 && a % page == 0 && b % page == 0
    ensures (a + b) % page == 0
  {
    var q, r := a / page, b / page;
    assert a + b == page * (q + r);
    DivModUnique(a + b, page, q + r, 0);
  }

  lemma {:induction false} ImageLength(sections: seq<seq<byte>>, page: nat)
    requires page > 0
    ensures |Image(sections, page)| == Start(sections, |sections|, page)
    ensures |Image(sections, page)| % page == 0
    decreases |sections|
  {
    if sections != [] {
      var init, last := sections[..|sections| - 1], sections[|sections| - 1];
      assert sections == init + [last];
      ImageLength(init, page);
      ImageSnoc(init, last, page);
      StartOfPrefix(init, last, |init|, page);
      RoundUpBounds(|last|, page);
      AddAligned(|Image(init, page)|, RoundUp(|last|, page), page);
    } else {
      ModSmall(0, page);
    }
  }

  /** Every section lies where the reader expects it. */
  lemma {:induction false} SectionLands(sections: seq<seq<byte>>, i: nat, page: nat)
    requires page > 0 && i < |sections|
    ensures var at := Start(sections, i, page);
      at + |sections[i]| <= |Image(sections, page)| && Image(sections, page)[at..at + |sections[i]|] == sections[i]
    decreases |sections|
  {
    var init, last := sections[..|sections| - 1], sections[|sections| - 1];
    assert sections == init + [last];
    ImageLength(init, page);
    ImageSnoc(init, last, page);
    StartOfPrefix(init, last, i, page);
    if i < |init| {
      SectionLands(init, i, page);
      var at := Start(sections, i, page);
      assert Image(sections, page)[at..at + |sections[i]|] == Image(init, page)[at..at + |sections[i]|];
    } else {
      assert i == |init|;
    }
  }

  /** write_padded_file on a page-aligned file appends exactly one section. */
  lemma PadFileAppendsSection(sections: seq<seq<byte>>, data: seq<byte>, k: nat)
    ensures PadFile(Image(sections, Pow2(k)) + data, Pow2(k)) == Image(sections + [data], Pow2(k))
  {
    var page := Pow2(k);
    var file := Image(sections, page);
    ImageLength(sections, page);
    ImageSnoc(sections, data, page);
    RoundUpBounds(|data|, page);
    AddAligned(|file|, RoundUp(|data|, page), page);
    RoundUpUnique(|file + data|, page, |file| + RoundUp(|data|, page));
    PaddingReachesPageBoundary(|file + data|, k);
    assert PadLength(|file + data|, page) == RoundUp(|data|, page) - |data|;
  }

  /** A section that is absent occupies nothing. */
  lemma EmptySection(sections: seq<seq<byte>>, page: nat)
    requires page > 0
    ensures Image(sections + [[]], page) == Image(sections, page)
  {
    ImageSnoc(sections, [], page);
    ModSmall(0, page);
    RoundUpBounds(0, page);
  }

  /** write_padded_file: nothing at all when there is no input. */
  function WritePadded(file: seq<byte>, input: Option<seq<byte>>, padding: nat): seq<byte>
    requires padding > 0
  {
    match input
    case None => file
    case Some(data) => PadFile(file + data, padding)
  }

  function Contents(file: Option<seq<byte>>): seq<byte>
  {
    if file == None then [] else file.value
  }

  function Size(file: Option<seq<byte>>): nat
  {
    |Contents(file)|
  }

  lemma WritePaddedAppendsSection(sections: seq<seq<byte>>, input: Option<seq<byte>>, k: nat)
    ensures WritePadded(Image(sections, Pow2(k)), input, Pow2(k)) == Image(sections + [Contents(input)], Pow2(k))
  {
    if input == None {
      EmptySection(sections, Pow2(k));
    } else {
      PadFileAppendsSection(sections, input.value, k);
    }
  }

  /** A file that starts with `data`, padded, is an image of one section. */
  lemma FirstSection(data: seq<byte>, k: nat)
    ensures PadFile(data, Pow2(k)) == Image([data], Pow2(k))
  {
    PadFileAppendsSection([], data, k);
    assert Image([], Pow2(k)) + data == data;
    assert [] + [data] == [data];
  }

  /** A reader that walks sections by rounding their sizes up to pages. */
  function ReadSections(file: seq<byte>, page: nat, at: nat, sizes: seq<nat>): (sections: seq<seq<byte>>)
    requires page > 0
    ensures |sections| == |sizes|
    decreases |sizes|
  {
    if sizes == [] then []
    else [Slice(file, at, at + sizes[0])] + ReadSections(file, page, at + RoundUp(sizes[0], page), sizes[1..])
  }

  function Sizes(sections: seq<seq<byte>>): (sizes: seq<nat>)
    ensures |sizes| == |sections|
  {
    seq(|sections|, i requires 0 <= i < |sections| => |sections[i]|)
  }

  /** From section i on, the reader recovers every section. */
  lemma {:induction false} SectionsReadBack(sections: seq<seq<byte>>, i: nat, page: nat)
    requires page > 0 && i <= |sections|
    ensures ReadSections(Image(sections, page), page, Start(sections, i, page), Sizes(sections)[i..]) == sections[i..]
    decreases |sections| - i
  {
    if i < |sections| {
      var at, rest := Start(sections, i, page), Sizes(sections)[i..];
      SectionLands(sections, i, page);
      assert rest[0] == |sections[i]| && rest[1..] == Sizes(sections)[i + 1..];
      assert Start(sections, i + 1, page) == at + RoundUp(|sections[i]|, page);
      SectionsReadBack(sections, i + 1, page);
      assert sections[i..] == [sections[i]] + sections[i + 1..];
    }
  }
}
