/** tools/mkbootimg.py, boot images of header versions 0 to 2: the header, the padded sections, and the
    reader that finds every section again. */
module BootImageSpec {
  import opened Bytes
  import opened ImageLayout
  import opened LittleEndian
  import opened Options

  const NameSize := 16
  const ArgsSize := 512
  const ExtraArgsSize := 1024
  const HeaderV1Size := 1648
  const HeaderV2Size := 1660

  /** The parsed command line, with the contents of the input files; imageId is the SHA-1 digest that
      write_header computes over them. */
  datatype Args = Args(version: int, pageSize: nat, base: int, kernelOffset: int, ramdiskOffset: int,
                       secondOffset: int, tagsOffset: int, dtbOffset: int, osWord: int, board: seq<byte>,
                       cmdline: seq<byte>, extraCmdline: seq<byte>, imageId: seq<byte>,
                       kernel: Option<seq<byte>>, ramdisk: Option<seq<byte>>, second: Option<seq<byte>>,
                       recoveryDtbo: Option<seq<byte>>, dtb: Option<seq<byte>>)

  /** What the argument parser accepts, for the header versions modelled here. */
  ghost predicate Accepted(args: Args)
  {
    && args.version <= 2
    && (args.pageSize == 0x800 || args.pageSize == 0x1000 || args.pageSize == 0x2000 || args.pageSize == 0x4000)
  }

  function PageExponent(pageSize: nat): nat
  {
    if pageSize == 0x800 then 11 else if pageSize == 0x1000 then 12 else if pageSize == 0x2000 then 13 else 14
  }

  lemma PageSizeIsPowerOfTwo(args: Args)
    requires Accepted(args)
    ensures args.pageSize == Pow2(PageExponent(args.pageSize))
  {
    assert Pow2(2) == 4;
    assert Pow2(4) == 2 * (2 * Pow2(2));
    assert Pow2(6) == 2 * (2 * Pow2(4));
    assert Pow2(8) == 2 * (2 * Pow2(6));
    assert Pow2(10) == 2 * (2 * Pow2(8));
    assert Pow2(12) == 2 * (2 * Pow2(10));
    assert Pow2(14) == 2 * (2 * Pow2(12));
  }

  function BootMagic(): (magic: seq<byte>)
    ensures |magic| == 8 && forall i :: 0 <= i < 8 ==> magic[i] == "ANDROID!"[i] as int
  {
    [0x41, 0x4E, 0x44, 0x52, 0x4F, 0x49, 0x44, 0x21]
  }

  function DtboOffset(args: Args): nat
    requires args.pageSize > 0
  {
    args.pageSize * (1 + NumberOfPages(Size(args.kernel), args.pageSize)
                       + NumberOfPages(Size(args.ramdisk), args.pageSize)
                       + NumberOfPages(Size(args.second), args.pageSize))
  }

  // ---------- the header ----------

  /** The fields every version has, 1632 bytes. */
  function CommonFields(args: Args): (fields: seq<Field>)
    ensures |fields| == 15
  {
    [ Text(BootMagic(), 8),
      Number(Size(args.kernel), 4),
      Number(args.base + args.kernelOffset, 4),
      Number(Size(args.ramdisk), 4),
      Number(if Size(args.ramdisk) > 0 then args.base + args.ramdiskOffset else 0, 4),
      Number(Size(args.second), 4),
      Number(if Size(args.second) > 0 then args.base + args.secondOffset else 0, 4),
      Number(args.base + args.tagsOffset, 4),
      Number(args.pageSize, 4),
      Number(args.version, 4),
      Number(args.osWord, 4),
      Text(args.board, NameSize),
      Text(args.cmdline, ArgsSize),
      Text(args.imageId, 32),
      Text(args.extraCmdline, ExtraArgsSize) ]
  }

  function DtboFields(args: Args): (fields: seq<Field>)
    requires args.pageSize > 0
    ensures |fields| == 2
  {
    if args.recoveryDtbo.Some? then [Number(Size(args.recoveryDtbo), 4), Number(DtboOffset(args), 8)]
    else [Number(0, 4), Number(0, 8)]
  }

  function SizeFields(args: Args): seq<Field>
  {
    if args.version == 1 then [Number(HeaderV1Size, 4)]
    else if args.version == 2 then [Number(HeaderV2Size, 4)]
    else []
  }

  function DtbFields(args: Args): seq<Field>
  {
    [Number(Size(args.dtb), 4), Number(args.base + args.dtbOffset, 8)]
  }

  function LeadingFields(args: Args): seq<Field>
    requires args.pageSize > 0
  {
    if args.version > 0 then CommonFields(args) + DtboFields(args) + SizeFields(args) else CommonFields(args)
  }

  function HeaderFields(args: Args): seq<Field>
    requires args.pageSize > 0
  {
    if args.version > 1 then LeadingFields(args) + DtbFields(args) else LeadingFields(args)
  }

  datatype Outcome = CannotPack | EmptyDtb | Written(file: seq<byte>)

  /** Two groups of fields and the padding, or the first error. The second group is written only with a DTB,
      which must not be empty. */
  function PackHeader(leading: seq<Field>, dtbFields: Option<seq<Field>>, dtbSize: nat, padding: nat): Outcome
    requires padding > 0
  {
    if !AllFit(leading) then CannotPack
    else if dtbFields == None then Written(PadFile(EncodeAll(leading), padding))
    else if dtbSize == 0 then EmptyDtb
    else if !AllFit(dtbFields.value) then CannotPack
    else Written(PadFile(EncodeAll(leading) + EncodeAll(dtbFields.value), padding))
  }

  function Header(args: Args): Outcome
    requires args.pageSize > 0
  {
    PackHeader(LeadingFields(args), if args.version > 1 then Some(DtbFields(args)) else None, Size(args.dtb),
               args.pageSize)
  }

  /** write_data up to the recovery DTBO. */
  function BeforeDtbo(args: Args, header: seq<byte>): seq<byte>
    requires args.pageSize > 0
  {
    var file := WritePadded(header, args.kernel, args.pageSize);
    var file := WritePadded(file, args.ramdisk, args.pageSize);
    WritePadded(file, args.second, args.pageSize)
  }

  function Data(args: Args, header: seq<byte>): seq<byte>
    requires args.pageSize > 0
  {
    var file := BeforeDtbo(args, header);
    var file := if 0 < args.version < 3 then WritePadded(file, args.recoveryDtbo, args.pageSize) else file;
    if args.version == 2 then WritePadded(file, args.dtb, args.pageSize) else file
  }

  function BootImage(args: Args): Outcome
    requires args.pageSize > 0
  {
    match Header(args)
    case Written(header) => Written(Data(args, header))
    case failed => failed
  }

  // ---------- the header fits its page and its own size field ----------

  lemma CommonOffsets(args: Args)
    ensures var f := CommonFields(args);
      && Offset(f, 0) == 0 && Offset(f, 1) == 8 && Offset(f, 2) == 12 && Offset(f, 3) == 16 && Offset(f, 4) == 20
      && Offset(f, 5) == 24 && Offset(f, 6) == 28 && Offset(f, 7) == 32 && Offset(f, 8) == 36 && Offset(f, 9) == 40
      && Offset(f, 10) == 44 && Offset(f, 11) == 48 && Offset(f, 12) == 64 && Offset(f, 13) == 576
      && Offset(f, 14) == 608 && Offset(f, 15) == 1632
  {
    var f := CommonFields(args);
    assert Offset(f, 0) == 0;
    assert Offset(f, 1) == 8;
    assert Offset(f, 2) == 12;
    assert Offset(f, 3) == 16;
    assert Offset(f, 4) == 20;
    assert Offset(f, 5) == 24;
    assert Offset(f, 6) == 28;
    assert Offset(f, 7) == 32;
    assert Offset(f, 8) == 36;
    assert Offset(f, 9) == 40;
    assert Offset(f, 10) == 44;
    assert Offset(f, 11) == 48;
    assert Offset(f, 12) == 64;
    assert Offset(f, 13) == 576;
    assert Offset(f, 14) == 608;
    assert Offset(f, 15) == 1632;
  }

  lemma EncodedWidths(fields: seq<Field>)
    ensures |fields| == 1 ==> |EncodeAll(fields)| == fields[0].width
    ensures |fields| == 2 ==> |EncodeAll(fields)| == fields[0].width + fields[1].width
    ensures |fields| == 2 ==> Offset(fields, 0) == 0 && Offset(fields, 1) == fields[0].width
    ensures fields == [] ==> EncodeAll(fields) == []
  {
    EncodedLength(fields);
    if |fields| == 1 {
      assert Offset(fields, 0) == 0;
    } else if |fields| == 2 {
      assert Offset(fields, 0) == 0;
      assert Offset(fields, 1) == fields[0].width;
    }
  }

  /** The header is its four groups, one after the other. */
  lemma HeaderGroups(args: Args)
    requires args.pageSize > 0 && 0 < args.version <= 2
    ensures EncodeAll(HeaderFields(args))
         == EncodeAll(CommonFields(args)) + EncodeAll(DtboFields(args)) + EncodeAll(SizeFields(args))
            + (if args.version == 2 then EncodeAll(DtbFields(args)) else [])
    ensures |EncodeAll(CommonFields(args))| == 1632 && |EncodeAll(DtboFields(args))| == 12
    ensures |EncodeAll(SizeFields(args))| == 4 && |EncodeAll(DtbFields(args))| == 12
  {
    EncodeAllConcat(CommonFields(args), DtboFields(args));
    EncodeAllConcat(CommonFields(args) + DtboFields(args), SizeFields(args));
    EncodeAllConcat(LeadingFields(args), DtbFields(args));
    CommonOffsets(args);
    EncodedLength(CommonFields(args));
    EncodedWidths(DtboFields(args));
    EncodedWidths(SizeFields(args));
    EncodedWidths(DtbFields(args));
  }

  /** The size the header announces is the number of bytes before its padding, and they fit one page. */
  lemma HeaderSizeIsAnnounced(args: Args)
    requires Accepted(args) && 0 < args.version
    ensures |EncodeAll(HeaderFields(args))| == if args.version == 1 then HeaderV1Size else HeaderV2Size
    ensures RoundUp(|EncodeAll(HeaderFields(args))|, args.pageSize) == args.pageSize
  {
    HeaderGroups(args);
    OnePage(|EncodeAll(HeaderFields(args))|, args.pageSize);
  }

  lemma OnePage(size: nat, page: nat)
    requires 0 < size <= page
    ensures NumberOfPages(size, page) == 1 && RoundUp(size, page) == page
  {
    DivModUnique(size + page - 1, page, 1, size - 1);
  }

  // ---------- sections ----------

  function SectionsAfter(args: Args, header: seq<byte>): (sections: seq<seq<byte>>)
    ensures |sections| == if args.version == 2 then 6 else 5
  {
    var sections := [header, Contents(args.kernel), Contents(args.ramdisk), Contents(args.second),
                     Contents(args.recoveryDtbo)];
    if args.version == 2 then sections + [Contents(args.dtb)] else sections
  }

  function Sections(args: Args): (sections: seq<seq<byte>>)
    requires args.pageSize > 0
    ensures |sections| == if args.version == 2 then 6 else 5
  {
    SectionsAfter(args, EncodeAll(HeaderFields(args)))
  }

  lemma FourSections(header: seq<byte>, a: Option<seq<byte>>, b: Option<seq<byte>>, c: Option<seq<byte>>, k: nat)
    ensures WritePadded(WritePadded(WritePadded(PadFile(header, Pow2(k)), a, Pow2(k)), b, Pow2(k)), c, Pow2(k))
         == Image([header, Contents(a), Contents(b), Contents(c)], Pow2(k))
  {
    FirstSection(header, k);
    WritePaddedAppendsSection([header], a, k);
    assert [header] + [Contents(a)] == [header, Contents(a)];
    WritePaddedAppendsSection([header, Contents(a)], b, k);
    assert [header, Contents(a)] + [Contents(b)] == [header, Contents(a), Contents(b)];
    WritePaddedAppendsSection([header, Contents(a), Contents(b)], c, k);
    assert [header, Contents(a), Contents(b)] + [Contents(c)] == [header, Contents(a), Contents(b), Contents(c)];
  }

  /** Writing the parts one after the other is laying out the sections page by page. */
  lemma BootImageIsItsSections(args: Args)
    requires Accepted(args) && 0 < args.version && Header(args).Written?
    ensures BeforeDtbo(args, Header(args).file) == Image(Sections(args)[..4], args.pageSize)
    ensures BootImage(args) == Written(Image(Sections(args), args.pageSize))
  {
    PageSizeIsPowerOfTwo(args);
    EncodeAllConcat(LeadingFields(args), DtbFields(args));
    DataIsSections(args, EncodeAll(HeaderFields(args)), PageExponent(args.pageSize));
  }

  lemma DataIsSections(args: Args, header: seq<byte>, k: nat)
    requires args.pageSize == Pow2(k) && 0 < args.version <= 2
    ensures var first := PadFile(header, args.pageSize);
      && BeforeDtbo(args, first) == Image(SectionsAfter(args, header)[..4], args.pageSize)
      && Data(args, first) == Image(SectionsAfter(args, header), args.pageSize)
  {
    var s := SectionsAfter(args, header);
    FourSections(header, args.kernel, args.ramdisk, args.second, k);
    assert s[..4] == [header, Contents(args.kernel), Contents(args.ramdisk), Contents(args.second)];
    WritePaddedAppendsSection(s[..4], args.recoveryDtbo, k);
    assert s[..4] + [s[4]] == s[..5];
    if args.version == 2 {
      WritePaddedAppendsSection(s[..5], args.dtb, k);
      assert s[..5] + [s[5]] == s;
    } else {
      assert s[..5] == s;
    }
  }

  lemma DtboStart(args: Args, header: seq<byte>)
    requires args.pageSize > 0 && RoundUp(|header|, args.pageSize) == args.pageSize
    ensures Start(SectionsAfter(args, header), 4, args.pageSize) == DtboOffset(args)
    ensures Start(SectionsAfter(args, header)[..4], 4, args.pageSize) == DtboOffset(args)
  {
    var s, p := SectionsAfter(args, header), args.pageSize;
    var a, b, c := NumberOfPages(|s[1]|, p), NumberOfPages(|s[2]|, p), NumberOfPages(|s[3]|, p);
    assert Start(s, 1, p) == p;
    assert Start(s, 2, p) == p + p * a;
    assert Start(s, 3, p) == p + p * a + p * b;
    assert Start(s, 4, p) == p + p * a + p * b + p * c;
    Distribute(p, a, b, c);
    StartOfPrefix(s[..4], s[4], 4, p);
    assert s[..4] + [s[4]] == s[..5];
    if args.version == 2 {
      StartOfPrefix(s[..5], s[5], 4, p);
      assert s[..5] + [s[5]] == s;
    } else {
      assert s[..5] == s;
    }
  }

  lemma Distribute(p: nat, a: nat, b: nat, c: nat)
    ensures p * (1 + a + b + c) == p + p * a + p * b + p * c
  {
  }

  lemma DtboBytesLand(args: Args, header: seq<byte>, file: seq<byte>)
    requires args.pageSize > 0 && RoundUp(|header|, args.pageSize) == args.pageSize
    requires file == Image(SectionsAfter(args, header), args.pageSize)
    ensures |Image(SectionsAfter(args, header)[..4], args.pageSize)| == DtboOffset(args)
    ensures Slice(file, DtboOffset(args), DtboOffset(args) + Size(args.recoveryDtbo)) == Contents(args.recoveryDtbo)
  {
    DtboStart(args, header);
    ImageLength(SectionsAfter(args, header)[..4], args.pageSize);
    SectionLands(SectionsAfter(args, header), 4, args.pageSize);
  }

  /** Recovery DTBO offset: what the header announces is the file position at which write_data starts writing
      it, and its bytes are there in the finished image. */
  lemma DtboOffsetIsWhereItLands(args: Args)
    requires Accepted(args) && 0 < args.version && Header(args).Written? && args.recoveryDtbo.Some?
    ensures |BeforeDtbo(args, Header(args).file)| == DtboOffset(args)
    ensures var file := BootImage(args).file;
      && Read32(file, 1632) == Size(args.recoveryDtbo)
      && Read64(file, 1636) == DtboOffset(args)
      && Slice(file, DtboOffset(args), DtboOffset(args) + Size(args.recoveryDtbo)) == args.recoveryDtbo.value
  {
    BootImageIsItsSections(args);
    HeaderSizeIsAnnounced(args);
    DtboBytesLand(args, EncodeAll(HeaderFields(args)), BootImage(args).file);
    FieldsFit(args);
    GroupsAreInTheFile(args);
    DtboFieldsReadBack(args, BootImage(args).file);
  }

  lemma FieldsFit(args: Args)
    requires args.pageSize > 0 && 0 < args.version <= 2 && Header(args).Written?
    ensures AllFit(CommonFields(args)) && AllFit(DtboFields(args))
    ensures args.version == 2 ==> AllFit(DtbFields(args))
  {
    FitParts(CommonFields(args), DtboFields(args), SizeFields(args));
  }

  lemma FitParts(a: seq<Field>, b: seq<Field>, c: seq<Field>)
    requires AllFit(a + b + c)
    ensures AllFit(a) && AllFit(b)
  {
    assert forall i :: 0 <= i < |a| ==> a[i] == (a + b + c)[i];
    assert forall i :: 0 <= i < |b| ==> b[i] == (a + b + c)[|a| + i];
  }

  lemma FourPieces(file: seq<byte>, a: seq<byte>, b: seq<byte>, c: seq<byte>, d: seq<byte>)
    requires a + b + c + d <= file
    ensures Slice(file, 0, |a|) == a && Slice(file, |a|, |a| + |b|) == b
    ensures Slice(file, |a| + |b|, |a| + |b| + |c|) == c
    ensures Slice(file, |a| + |b| + |c|, |a| + |b| + |c| + |d|) == d
  {
    var whole := a + b + c + d;
    SliceOfPrefix(whole, file, 0, |a|);
    SliceOfPrefix(whole, file, |a|, |a| + |b|);
    SliceOfPrefix(whole, file, |a| + |b|, |a| + |b| + |c|);
    SliceOfPrefix(whole, file, |a| + |b| + |c|, |whole|);
  }

  lemma ImageStartsWith(sections: seq<seq<byte>>, page: nat)
    requires page > 0 && sections != []
    ensures sections[0] <= Image(sections, page)
  {
    SectionLands(sections, 0, page);
  }

  lemma HeaderComesFirst(args: Args)
    requires Accepted(args) && 0 < args.version && Header(args).Written?
    ensures EncodeAll(HeaderFields(args)) <= BootImage(args).file
  {
    BootImageIsItsSections(args);
    ImageStartsWith(Sections(args), args.pageSize);
  }

  lemma GroupsHeld(file: seq<byte>, a: seq<Field>, b: seq<Field>, c: seq<Field>, d: seq<byte>)
    requires EncodeAll(a) + EncodeAll(b) + EncodeAll(c) + d <= file
    ensures Holds(file, 0, a) && Holds(file, |EncodeAll(a)|, b) && Holds(file, |EncodeAll(a)| + |EncodeAll(b)|, c)
    ensures var at := |EncodeAll(a)| + |EncodeAll(b)| + |EncodeAll(c)|; Slice(file, at, at + |d|) == d
  {
    FourPieces(file, EncodeAll(a), EncodeAll(b), EncodeAll(c), d);
  }

  /** The header groups lie at the start of the image. */
  lemma GroupsAreInTheFile(args: Args)
    requires Accepted(args) && 0 < args.version && Header(args).Written?
    ensures var file := BootImage(args).file;
      && Holds(file, 0, CommonFields(args)) && Holds(file, 1632, DtboFields(args))
      && Holds(file, 1644, SizeFields(args))
      && (args.version == 2 ==> Holds(file, 1648, DtbFields(args)))
  {
    HeaderComesFirst(args);
    HeaderGroups(args);
    GroupsHeld(BootImage(args).file, CommonFields(args), DtboFields(args), SizeFields(args),
               if args.version == 2 then EncodeAll(DtbFields(args)) else []);
  }

  lemma DtboFieldsReadBack(args: Args, file: seq<byte>)
    requires args.pageSize > 0 && AllFit(DtboFields(args)) && Holds(file, 1632, DtboFields(args))
    ensures Read32(file, 1632) == Size(args.recoveryDtbo)
    ensures Read64(file, 1636) == if args.recoveryDtbo.Some? then DtboOffset(args) else 0
  {
    var fields := DtboFields(args);
    EncodedWidths(fields);
    NumberReadsBack(file, 1632, fields, 0);
    NumberReadsBack(file, 1632, fields, 1);
  }

  lemma DtbFieldsReadBack(args: Args, file: seq<byte>)
    requires AllFit(DtbFields(args)) && Holds(file, 1648, DtbFields(args))
    ensures Read32(file, 1648) == Size(args.dtb)
  {
    var fields := DtbFields(args);
    EncodedWidths(fields);
    NumberReadsBack(file, 1648, fields, 0);
  }

  lemma CommonFieldsReadBack(args: Args, file: seq<byte>)
    requires AllFit(CommonFields(args)) && Holds(file, 0, CommonFields(args))
    ensures Read32(file, 8) == Size(args.kernel) && Read32(file, 16) == Size(args.ramdisk)
    ensures Read32(file, 24) == Size(args.second) && Read32(file, 36) == args.pageSize
    ensures Read32(file, 40) == args.version
  {
    CommonOffsets(args);
    HeaderNumber(file, CommonFields(args), 1);
    HeaderNumber(file, CommonFields(args), 3);
    HeaderNumber(file, CommonFields(args), 5);
    HeaderNumber(file, CommonFields(args), 8);
    HeaderNumber(file, CommonFields(args), 9);
  }

  lemma HeaderNumber(file: seq<byte>, fields: seq<Field>, i: nat)
    requires i < |fields| && fields[i].Number? && fields[i].width == 4 && AllFit(fields) && Holds(file, 0, fields)
    ensures Read32(file, Offset(fields, i)) == fields[i].value
  {
    NumberReadsBack(file, 0, fields, i);
  }

  /** The addresses the header gives a boot loader; those of absent parts are zero. */
  lemma AddressesInHeader(args: Args, file: seq<byte>)
    requires AllFit(CommonFields(args)) && Holds(file, 0, CommonFields(args))
    ensures Read32(file, 12) == args.base + args.kernelOffset
    ensures Read32(file, 20) == if Size(args.ramdisk) > 0 then args.base + args.ramdiskOffset else 0
    ensures Read32(file, 28) == if Size(args.second) > 0 then args.base + args.secondOffset else 0
    ensures Read32(file, 32) == args.base + args.tagsOffset && Read32(file, 44) == args.osWord
  {
    CommonOffsets(args);
    HeaderNumber(file, CommonFields(args), 2);
    HeaderNumber(file, CommonFields(args), 4);
    HeaderNumber(file, CommonFields(args), 6);
    HeaderNumber(file, CommonFields(args), 7);
    HeaderNumber(file, CommonFields(args), 10);
  }

  lemma TextsInHeader(args: Args, file: seq<byte>)
    requires Holds(file, 0, CommonFields(args))
    ensures Slice(file, 0, 8) == BootMagic() && Slice(file, 48, 64) == PackString(args.board, 16)
    ensures Slice(file, 64, 576) == PackString(args.cmdline, 512)
    ensures Slice(file, 576, 608) == PackString(args.imageId, 32)
    ensures Slice(file, 608, 1632) == PackString(args.extraCmdline, 1024)
  {
    var fields := CommonFields(args);
    CommonOffsets(args);
    TextReadsBack(file, 0, fields, 0);
    TextReadsBack(file, 0, fields, 11);
    TextReadsBack(file, 0, fields, 12);
    TextReadsBack(file, 0, fields, 13);
    TextReadsBack(file, 0, fields, 14);
    assert PackString(BootMagic(), 8) == BootMagic();
  }

  lemma DataKeepsHeader(args: Args, header: seq<byte>)
    requires args.pageSize > 0
    ensures header <= Data(args, header)
  {
  }

  lemma PrefixFields(a: seq<Field>, b: seq<Field>)
    requires AllFit(a + b)
    ensures AllFit(a) && EncodeAll(a) <= EncodeAll(a + b)
  {
    assert forall i :: 0 <= i < |a| ==> a[i] == (a + b)[i];
    EncodeAllConcat(a, b);
  }

  lemma PrefixHeld(file: seq<byte>, header: seq<byte>, fields: seq<Field>)
    requires EncodeAll(fields) <= header <= file
    ensures Holds(file, 0, fields)
  {
    SliceOfPrefix(EncodeAll(fields), file, 0, |EncodeAll(fields)|);
  }

  lemma CommonFieldsInHeader(args: Args)
    requires args.pageSize > 0 && Header(args).Written?
    ensures AllFit(CommonFields(args)) && EncodeAll(CommonFields(args)) <= Header(args).file
  {
    if args.version > 0 {
      ConcatAssoc(CommonFields(args), DtboFields(args), SizeFields(args));
      PrefixFields(CommonFields(args), DtboFields(args) + SizeFields(args));
    }
  }

  /** In every header version the common fields come first. */
  lemma CommonFieldsInImage(args: Args)
    requires args.pageSize > 0 && Header(args).Written?
    ensures AllFit(CommonFields(args)) && Holds(BootImage(args).file, 0, CommonFields(args))
  {
    CommonFieldsInHeader(args);
    DataKeepsHeader(args, Header(args).file);
    PrefixHeld(BootImage(args).file, Header(args).file, CommonFields(args));
  }

  /** What a boot loader finds in the header besides the sizes, whatever the header version: magic, page size and
      version, where each part is to be loaded, the texts, and the identifier. */
  lemma HeaderTellsWhereToLoad(args: Args)
    requires Accepted(args) && Header(args).Written?
    ensures var file := BootImage(args).file;
      && Slice(file, 0, 8) == BootMagic() && Read32(file, 36) == args.pageSize && Read32(file, 40) == args.version
      && Read32(file, 12) == args.base + args.kernelOffset
      && Read32(file, 20) == (if Size(args.ramdisk) > 0 then args.base + args.ramdiskOffset else 0)
      && Read32(file, 28) == (if Size(args.second) > 0 then args.base + args.secondOffset else 0)
      && Read32(file, 32) == args.base + args.tagsOffset && Read32(file, 44) == args.osWord
      && Slice(file, 48, 64) == PackString(args.board, 16) && Slice(file, 576, 608) == PackString(args.imageId, 32)
      && Slice(file, 64, 576) == PackString(args.cmdline, 512)
      && Slice(file, 608, 1632) == PackString(args.extraCmdline, 1024)
  {
    CommonFieldsInImage(args);
    CommonFieldsReadBack(args, BootImage(args).file);
    AddressesInHeader(args, BootImage(args).file);
    TextsInHeader(args, BootImage(args).file);
  }

  /** Version 2 adds the address of the DTB, and versions 1 and 2 the size of the header itself. */
  lemma LaterHeaderFields(args: Args)
    requires Accepted(args) && 0 < args.version && Header(args).Written?
    ensures Read32(BootImage(args).file, 1644) == if args.version == 1 then 1648 else 1660
    ensures args.version == 2 ==> Read64(BootImage(args).file, 1652) == args.base + args.dtbOffset
    ensures args.recoveryDtbo == None ==>
      Read32(BootImage(args).file, 1632) == 0 && Read64(BootImage(args).file, 1636) == 0
  {
    FieldsFit(args);
    GroupsAreInTheFile(args);
    DtboFieldsReadBack(args, BootImage(args).file);
    SizeReadsBack(args, BootImage(args).file);
    if args.version == 2 {
      DtbAddressReadsBack(args, BootImage(args).file);
    }
  }

  lemma SizeReadsBack(args: Args, file: seq<byte>)
    requires 0 < args.version <= 2 && Holds(file, 1644, SizeFields(args))
    ensures Read32(file, 1644) == if args.version == 1 then 1648 else 1660
  {
    Pow256Values();
    NumberReadsBack(file, 1644, SizeFields(args), 0);
  }

  lemma DtbAddressReadsBack(args: Args, file: seq<byte>)
    requires AllFit(DtbFields(args)) && Holds(file, 1648, DtbFields(args))
    ensures Read64(file, 1652) == args.base + args.dtbOffset
  {
    EncodedWidths(DtbFields(args));
    NumberReadsBack(file, 1648, DtbFields(args), 1);
  }

  // ---------- when an image is written ----------

  predicate CommonWords(args: Args)
  {
    && IsWord(Size(args.kernel)) && IsWord(args.base + args.kernelOffset)
    && IsWord(Size(args.ramdisk)) && (Size(args.ramdisk) > 0 ==> IsWord(args.base + args.ramdiskOffset))
    && IsWord(Size(args.second)) && (Size(args.second) > 0 ==> IsWord(args.base + args.secondOffset))
    && IsWord(args.base + args.tagsOffset) && IsWord(args.pageSize) && IsWord(args.version) && IsWord(args.osWord)
  }

  lemma CommonFit(args: Args)
    ensures AllFit(CommonFields(args)) <==> CommonWords(args)
  {
    AllFitExactly(CommonFields(args));
    CommonInWidth(args, CommonFields(args));
  }

  lemma CommonInWidth(args: Args, f: seq<Field>)
    requires f == CommonFields(args)
    ensures AllInWidth(f) <==> CommonWords(args)
  {
    assert AllInWidth(f) ==>
      && InWidth(f[1]) && InWidth(f[2]) && InWidth(f[3]) && InWidth(f[4]) && InWidth(f[5])
      && InWidth(f[6]) && InWidth(f[7]) && InWidth(f[8]) && InWidth(f[9]) && InWidth(f[10]);
  }

  lemma LaterFit(args: Args)
    requires args.pageSize > 0
    ensures AllFit(DtboFields(args))
      <==> (args.recoveryDtbo.Some? ==> IsWord(Size(args.recoveryDtbo)) && IsLong(DtboOffset(args)))
    ensures AllFit(SizeFields(args))
    ensures AllFit(DtbFields(args)) <==> IsWord(Size(args.dtb)) && IsLong(args.base + args.dtbOffset)
  {
    var o, d := DtboFields(args), DtbFields(args);
    FitsExactly(o[0]);
    FitsExactly(o[1]);
    FitsExactly(d[0]);
    FitsExactly(d[1]);
    if SizeFields(args) != [] {
      FitsExactly(SizeFields(args)[0]);
    }
  }

  /** An image is written exactly if every number fits its field and, in version 2, there is a DTB; the error for a
      missing one comes only behind those of the fields before it. */
  lemma WrittenExactly(args: Args)
    requires Accepted(args)
    ensures var leading := CommonWords(args)
        && (args.version > 0 && args.recoveryDtbo.Some? ==>
              IsWord(Size(args.recoveryDtbo)) && IsLong(DtboOffset(args)));
      && (BootImage(args).EmptyDtb? <==> leading && args.version == 2 && Size(args.dtb) == 0)
      && (BootImage(args).Written? <==>
            && leading
            && (args.version == 2 ==>
                  Size(args.dtb) > 0 && IsWord(Size(args.dtb)) && IsLong(args.base + args.dtbOffset)))
  {
    CommonFit(args);
    LaterFit(args);
    AllFitConcat(CommonFields(args), DtboFields(args));
    AllFitConcat(CommonFields(args) + DtboFields(args), SizeFields(args));
  }

  // ---------- reading a boot image ----------

  datatype Read = Read(kernel: seq<byte>, ramdisk: seq<byte>, second: seq<byte>, recoveryDtbo: seq<byte>, dtb: seq<byte>)

  /** A boot loader's view: the sizes are in the header, the header takes one page, and every section starts on
      the page after the one before it. */
  function ReadBootImage(file: seq<byte>): Read
  {
    var page, version := Read32(file, 36), Read32(file, 40);
    if page == 0 then Read([], [], [], [], [])
    else
      var sizes := [Read32(file, 8), Read32(file, 16), Read32(file, 24), Read32(file, 1632)];
      if version == 2 then
        var s := ReadSections(file, page, page, sizes + [Read32(file, 1648)]);
        Read(s[0], s[1], s[2], s[3], s[4])
      else
        var s := ReadSections(file, page, page, sizes);
        Read(s[0], s[1], s[2], s[3], [])
  }

  lemma SizesOfSections(args: Args, header: seq<byte>)
    requires args.pageSize > 0 && 0 < args.version <= 2 && RoundUp(|header|, args.pageSize) == args.pageSize
    ensures var sizes := [Size(args.kernel), Size(args.ramdisk), Size(args.second), Size(args.recoveryDtbo)];
      Sizes(SectionsAfter(args, header))[1..] == if args.version == 2 then sizes + [Size(args.dtb)] else sizes
    ensures Start(SectionsAfter(args, header), 1, args.pageSize) == args.pageSize
  {
    var s := SectionsAfter(args, header);
    assert Start(s, 0, args.pageSize) == 0;
    assert forall i :: 0 <= i < |s| ==> Sizes(s)[i] == |s[i]|;
  }

  /** The numbers a reader needs are in the header. */
  lemma HeaderReadsBack(args: Args)
    requires Accepted(args) && 0 < args.version && Header(args).Written?
    ensures var file := BootImage(args).file;
      && Read32(file, 8) == Size(args.kernel) && Read32(file, 16) == Size(args.ramdisk)
      && Read32(file, 24) == Size(args.second) && Read32(file, 1632) == Size(args.recoveryDtbo)
      && Read32(file, 36) == args.pageSize && Read32(file, 40) == args.version
      && (args.version == 2 ==> Read32(file, 1648) == Size(args.dtb))
  {
    var file := BootImage(args).file;
    FieldsFit(args);
    GroupsAreInTheFile(args);
    CommonFieldsReadBack(args, file);
    DtboFieldsReadBack(args, file);
    if args.version == 2 {
      DtbFieldsReadBack(args, file);
    }
  }

  /** Boot image round trip: for every set of input files, the reader recovers each of them. */
  lemma BootImageReadsBack(args: Args)
    requires Accepted(args) && 0 < args.version && Header(args).Written?
    ensures ReadBootImage(BootImage(args).file)
         == Read(Contents(args.kernel), Contents(args.ramdisk), Contents(args.second), Contents(args.recoveryDtbo),
                 if args.version == 2 then Contents(args.dtb) else [])
  {
    HeaderReadsBack(args);
    HeaderSizeIsAnnounced(args);
    BootImageIsItsSections(args);
    SectionsAfterHeaderReadBack(args, EncodeAll(HeaderFields(args)));
  }

  /** Header version 0 has neither recovery DTBO nor DTB: a reader of three sections recovers them. */
  lemma OldBootImageReadsBack(args: Args)
    requires Accepted(args) && args.version <= 0 && Header(args).Written?
    ensures var file := BootImage(args).file;
      && Read32(file, 36) == args.pageSize
      && ReadSections(file, args.pageSize, args.pageSize, [Read32(file, 8), Read32(file, 16), Read32(file, 24)])
         == [Contents(args.kernel), Contents(args.ramdisk), Contents(args.second)]
  {
    var header, k := EncodeAll(CommonFields(args)), PageExponent(args.pageSize);
    PageSizeIsPowerOfTwo(args);
    FourSections(header, args.kernel, args.ramdisk, args.second, k);
    CommonFieldsInImage(args);
    CommonFieldsReadBack(args, BootImage(args).file);
    CommonOffsets(args);
    EncodedLength(CommonFields(args));
    ThreeSectionsReadBack(header, Contents(args.kernel), Contents(args.ramdisk), Contents(args.second), args.pageSize);
  }

  lemma ThreeSectionsReadBack(header: seq<byte>, a: seq<byte>, b: seq<byte>, c: seq<byte>, page: nat)
    requires 0 < |header| <= page
    ensures ReadSections(Image([header, a, b, c], page), page, page, [|a|, |b|, |c|]) == [a, b, c]
  {
    var s := [header, a, b, c];
    OnePage(|header|, page);
    assert Start(s, 0, page) == 0;
    assert Start(s, 1, page) == page;
    assert Sizes(s)[1..] == [|a|, |b|, |c|];
    SectionsReadBack(s, 1, page);
  }

  lemma SectionsAfterHeaderReadBack(args: Args, header: seq<byte>)
    requires args.pageSize > 0 && 0 < args.version <= 2 && RoundUp(|header|, args.pageSize) == args.pageSize
    ensures var sizes := [Size(args.kernel), Size(args.ramdisk), Size(args.second), Size(args.recoveryDtbo)];
      var s := SectionsAfter(args, header);
      ReadSections(Image(s, args.pageSize), args.pageSize, args.pageSize,
                   if args.version == 2 then sizes + [Size(args.dtb)] else sizes) == s[1..]
  {
    SizesOfSections(args, header);
    SectionsReadBack(SectionsAfter(args, header), 1, args.pageSize);
  }

  // ---------- the command line ----------

  /** The two fields into which the argument, with its terminating zero byte, is split. */
  function SplitCmdline(arg: seq<byte>): (seq<byte>, seq<byte>)
  {
    var asciiz := arg + [0];
    (Slice(asciiz, 0, ArgsSize - 1) + [0], Slice(asciiz, ArgsSize - 1, |asciiz|))
  }

  /** A zero-terminated field. */
  function Asciiz(field: seq<byte>): seq<byte>
  {
    if field == [] || field[0] == 0 then [] else [field[0]] + Asciiz(field[1..])
  }

  lemma {:induction false} AsciizStops(text: seq<byte>, rest: seq<byte>)
    requires 0 !in text && (rest != [] ==> rest[0] == 0)
    ensures Asciiz(text + rest) == text
  {
    if text != [] {
      assert (text + rest)[1..] == text[1..] + rest;
      AsciizStops(text[1..], rest);
    }
  }

  lemma FieldReadsBack(text: seq<byte>, end: seq<byte>, width: nat)
    requires 0 !in text && (forall i :: 0 <= i < |end| ==> end[i] == 0) && |text + end| <= width
    ensures Asciiz(PackString(text + end, width)) == text
  {
    var rest := end + Zeros(width - |text + end|);
    assert PackString(text + end, width) == text + rest;
    AsciizStops(text, rest);
  }

  lemma SplitShort(arg: seq<byte>)
    requires |arg| < ArgsSize - 1
    ensures SplitCmdline(arg).0 == arg + [0, 0] && SplitCmdline(arg).1 == []
  {
    assert SplitCmdline(arg).0 == arg + [0, 0];
  }

  lemma SplitLong(arg: seq<byte>)
    requires |arg| >= ArgsSize - 1
    ensures SplitCmdline(arg).0 == arg[..ArgsSize - 1] + [0]
    ensures SplitCmdline(arg).1 == arg[ArgsSize - 1..] + [0]
  {
    var asciiz := arg + [0];
    assert Slice(asciiz, 0, ArgsSize - 1) == arg[..ArgsSize - 1];
    assert Slice(asciiz, ArgsSize - 1, |asciiz|) == arg[ArgsSize - 1..] + [0];
  }

  /** Both parts fit their fields, and joining the two fields gives the command line back. */
  lemma CommandLineReadsBack(arg: seq<byte>)
    requires 0 !in arg && |arg| + 1 <= ArgsSize + ExtraArgsSize - 1
    ensures var (cmdline, extra) := SplitCmdline(arg);
      && |cmdline| <= ArgsSize && |extra| <= ExtraArgsSize
      && Asciiz(PackString(cmdline, ArgsSize)) + Asciiz(PackString(extra, ExtraArgsSize)) == arg
  {
    if |arg| < ArgsSize - 1 {
      SplitShort(arg);
      FieldReadsBack(arg, [0, 0], ArgsSize);
      EmptyFieldReadsBack(ExtraArgsSize);
    } else {
      SplitLong(arg);
      FieldReadsBack(arg[..ArgsSize - 1], [0], ArgsSize);
      FieldReadsBack(arg[ArgsSize - 1..], [0], ExtraArgsSize);
    }
  }

  /** A boot loader that joins the two fields of the header gets the command line given to the tool. */
  lemma ImageCarriesCommandLine(args: Args, arg: seq<byte>)
    requires Accepted(args) && Header(args).Written? && (args.cmdline, args.extraCmdline) == SplitCmdline(arg)
    requires 0 !in arg && |arg| + 1 <= ArgsSize + ExtraArgsSize - 1
    ensures var file := BootImage(args).file; Asciiz(Slice(file, 64, 576)) + Asciiz(Slice(file, 608, 1632)) == arg
  {
    HeaderTellsWhereToLoad(args);
    CommandLineReadsBack(arg);
  }

  lemma EmptyFieldReadsBack(width: nat)
    ensures Asciiz(PackString([], width)) == []
  {
  }
}
