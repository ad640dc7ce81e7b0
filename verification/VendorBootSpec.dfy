/** tools/mkbootimg.py, vendor boot images of header version 4: the ramdisk table builder, the header and the
    padded sections, and the reader that finds every fragment again. */
module VendorBootSpec {
  import opened Bytes
  import opened ImageLayout
  import opened LittleEndian
  import opened Options

  const NameSize := 16
  const ArgsSize := 2048
  const HeaderSize := 2128
  const RamdiskNameSize := 32
  const BoardIdSize := 16
  const TableEntrySize := 108

  // ---------- the table builder ----------

  datatype TableEntry = TableEntry(data: seq<byte>, offset: nat, kind: int, name: seq<byte>, boardId: seq<nat>)

  datatype Table = Table(entries: seq<TableEntry>, totalSize: nat, names: set<seq<byte>>)

  datatype Added = Ok | BannedName | DuplicatedName | BadBoardId

  function BannedRamdiskName(): (name: seq<byte>)
    ensures |name| == 7 && forall i :: 0 <= i < 7 ==> name[i] == "default"[i] as int
  {
    [0x64, 0x65, 0x66, 0x61, 0x75, 0x6C, 0x74]
  }

  /** rstrip(b'\x00') */
  function Stripped(name: seq<byte>): seq<byte>
  {
    if name != [] && name[|name| - 1] == 0 then Stripped(name[..|name| - 1]) else name
  }

  /** array.array('I', ids) raises on a number that does not fit 32 bits; any other length is an error too. */
  predicate GoodBoardId(boardId: seq<int>)
  {
    |boardId| == BoardIdSize && forall j :: 0 <= j < |boardId| ==> 0 <= boardId[j] < TwoTo32
  }

  function BoardIds(boardId: Option<seq<int>>): (ids: seq<nat>)
    requires boardId.Some? ==> GoodBoardId(boardId.value)
    ensures |ids| == BoardIdSize && forall j :: 0 <= j < |ids| ==> ids[j] < TwoTo32
  {
    match boardId
    case None => seq(BoardIdSize, _ => 0)
    case Some(value) => seq(BoardIdSize, j requires 0 <= j < |value| && 0 <= value[j] < TwoTo32 => value[j])
  }

  function Add(table: Table, data: seq<byte>, kind: int, name: seq<byte>, boardId: Option<seq<int>>): (Table, Added)
  {
    var stripped := Stripped(name);
    if stripped == BannedRamdiskName() then (table, BannedName)
    else if stripped in table.names then (table, DuplicatedName)
    else
      var named := table.(names := table.names + {stripped});
      if boardId.Some? && !GoodBoardId(boardId.value) then (named, BadBoardId)
      else
        var entry := TableEntry(data, table.totalSize, kind, name, BoardIds(boardId));
        (named.(entries := table.entries + [entry], totalSize := table.totalSize + |data|), Ok)
  }

  /** The name without the zero bytes at its end. */
  lemma {:induction false} StrippedExactly(name: seq<byte>)
    ensures Stripped(name) <= name && (Stripped(name) != [] ==> Stripped(name)[|Stripped(name)| - 1] != 0)
    ensures forall i :: |Stripped(name)| <= i < |name| ==> name[i] == 0
  {
    if name != [] && name[|name| - 1] == 0 {
      StrippedExactly(name[..|name| - 1]);
      assert forall i :: 0 <= i < |name| - 1 ==> name[i] == name[..|name| - 1][i];
    }
  }

  predicate Describes(entry: TableEntry, data: seq<byte>, kind: int, name: seq<byte>, boardId: Option<seq<int>>)
  {
    && entry.data == data && entry.kind == kind && entry.name == name && |entry.boardId| == 16
    && match boardId
       case None => forall j :: 0 <= j < 16 ==> entry.boardId[j] == 0
       case Some(ids) => |ids| == 16 && forall j :: 0 <= j < 16 ==> entry.boardId[j] == ids[j]
  }

  /** A fragment is accepted exactly if its stripped name is neither "default" nor used already, and its board id, if
      any, is sixteen numbers of 32 bits; it is then the last entry, as given, and its name is used. */
  lemma AcceptsExactly(table: Table, data: seq<byte>, kind: int, name: seq<byte>, boardId: Option<seq<int>>)
    ensures var (after, added) := Add(table, data, kind, name, boardId);
      && (added == BannedName <==> Stripped(name) == BannedRamdiskName())
      && (added == DuplicatedName <==> Stripped(name) != BannedRamdiskName() && Stripped(name) in table.names)
      && (added == Ok <==>
            && Stripped(name) != BannedRamdiskName() && Stripped(name) !in table.names
            && (boardId.Some? ==>
                  |boardId.value| == 16 && forall j :: 0 <= j < 16 ==> 0 <= boardId.value[j] < 0x1_0000_0000))
      && (added == Ok ==>
            && |after.entries| == |table.entries| + 1 && after.entries[..|table.entries|] == table.entries
            && Describes(after.entries[|table.entries|], data, kind, name, boardId)
            && after.entries[|table.entries|].offset == table.totalSize
            && after.names == table.names + {Stripped(name)} && after.totalSize == table.totalSize + |data|)
  {
  }

  function Datas(entries: seq<TableEntry>): (datas: seq<seq<byte>>)
    ensures |datas| == |entries|
  {
    seq(|entries|, k requires 0 <= k < |entries| => entries[k].data)
  }

  /** All fragments, one after the other. */
  function Ramdisks(entries: seq<TableEntry>): seq<byte>
  {
    Flatten(Datas(entries))
  }

  /** Each fragment's offset is the length of the fragments before it. */
  predicate Contiguous(entries: seq<TableEntry>)
  {
    forall k :: 0 <= k < |entries| ==> entries[k].offset == |Ramdisks(entries[..k])|
  }

  predicate DistinctNames(entries: seq<TableEntry>)
  {
    && (forall k :: 0 <= k < |entries| ==> Stripped(entries[k].name) != BannedRamdiskName())
    && forall j, k :: 0 <= j < k < |entries| ==> Stripped(entries[j].name) != Stripped(entries[k].name)
  }

  predicate BoardsPackable(entries: seq<TableEntry>)
  {
    forall k :: 0 <= k < |entries| ==> GoodBoardId(entries[k].boardId)
  }

  /** What the builder maintains. */
  ghost predicate Sound(table: Table)
  {
    && Contiguous(table.entries) && table.totalSize == |Ramdisks(table.entries)|
    && DistinctNames(table.entries) && BoardsPackable(table.entries)
    && BannedRamdiskName() !in table.names
    && forall k :: 0 <= k < |table.entries| ==> Stripped(table.entries[k].name) in table.names
  }

  lemma RamdisksSnoc(entries: seq<TableEntry>, entry: TableEntry)
    ensures Ramdisks(entries + [entry]) == Ramdisks(entries) + entry.data
  {
    assert Datas(entries + [entry]) == Datas(entries) + [entry.data];
    FlattenAppend(Datas(entries), entry.data);
  }

  lemma ContiguousSnoc(entries: seq<TableEntry>, entry: TableEntry)
    requires Contiguous(entries) && entry.offset == |Ramdisks(entries)|
    ensures Contiguous(entries + [entry])
  {
    var more := entries + [entry];
    forall k | 0 <= k < |more| ensures more[k].offset == |Ramdisks(more[..k])| {
      if k < |entries| {
        assert more[..k] == entries[..k];
      } else {
        assert more[..k] == entries;
      }
    }
  }

  lemma DistinctSnoc(entries: seq<TableEntry>, entry: TableEntry)
    requires DistinctNames(entries) && Stripped(entry.name) != BannedRamdiskName()
    requires forall k :: 0 <= k < |entries| ==> Stripped(entries[k].name) != Stripped(entry.name)
    ensures DistinctNames(entries + [entry])
  {
  }

  /** An accepted entry goes behind the others. */
  lemma AppendKeepsSound(table: Table, entry: TableEntry, stripped: seq<byte>)
    requires Sound(table) && stripped == Stripped(entry.name)
    requires stripped != BannedRamdiskName() && stripped !in table.names
    requires entry.offset == table.totalSize && GoodBoardId(entry.boardId)
    ensures Sound(Table(table.entries + [entry], table.totalSize + |entry.data|, table.names + {stripped}))
    ensures Ramdisks(table.entries + [entry]) == Ramdisks(table.entries) + entry.data
  {
    RamdisksSnoc(table.entries, entry);
    ContiguousSnoc(table.entries, entry);
    DistinctSnoc(table.entries, entry);
  }

  /** No call, accepted or refused, breaks the table. */
  lemma AddKeepsSound(table: Table, data: seq<byte>, kind: int, name: seq<byte>, boardId: Option<seq<int>>)
    requires Sound(table)
    ensures var (after, added) := Add(table, data, kind, name, boardId);
      && Sound(after)
      && (added != Ok ==> after.entries == table.entries && after.totalSize == table.totalSize)
      && (added == Ok ==> Ramdisks(after.entries) == Ramdisks(table.entries) + data)
  {
    if Add(table, data, kind, name, boardId).1 == Ok {
      AppendKeepsSound(table, TableEntry(data, table.totalSize, kind, name, BoardIds(boardId)), Stripped(name));
    }
  }

  /** The fragments partition the ramdisk section: the first starts at 0, each starts where the one before it
      ends, and the last ends at the announced total. */
  lemma FragmentsPartitionTheSection(table: Table, k: nat)
    requires Sound(table) && k < |table.entries|
    ensures var e := table.entries;
      && e[0].offset == 0
      && e[k].offset + |e[k].data| == (if k + 1 < |e| then e[k + 1].offset else table.totalSize)
      && Slice(Ramdisks(e), e[k].offset, e[k].offset + |e[k].data|) == e[k].data
  {
    var e := table.entries;
    FlattenAt(Datas(e), k);
    FlattenTake(Datas(e), k);
    assert Datas(e)[..k] == Datas(e[..k]);
    assert Datas(e)[..k + 1] == Datas(e[..k + 1]);
    if k + 1 == |e| {
      assert e[..k + 1] == e;
    }
  }

  // ---------- the image ----------

  datatype Args = Args(pageSize: nat, base: int, kernelOffset: int, ramdiskOffset: int, tagsOffset: int,
                       dtbOffset: int, vendorCmdline: seq<byte>, board: seq<byte>,
                       dtb: Option<seq<byte>>, bootconfig: Option<seq<byte>>)

  function VendorMagic(): (magic: seq<byte>)
    ensures |magic| == 8 && forall i :: 0 <= i < 8 ==> magic[i] == "VNDRBOOT"[i] as int
  {
    [0x56, 0x4E, 0x44, 0x52, 0x42, 0x4F, 0x4F, 0x54]
  }

  function HeaderFields(args: Args, table: Table): (fields: seq<Field>)
    ensures |fields| == 16
  {
    [ Text(VendorMagic(), 8),
      Number(4, 4),
      Number(args.pageSize, 4),
      Number(args.base + args.kernelOffset, 4),
      Number(args.base + args.ramdiskOffset, 4),
      Number(table.totalSize, 4),
      Text(args.vendorCmdline, ArgsSize),
      Number(args.base + args.tagsOffset, 4),
      Text(args.board, NameSize),
      Number(HeaderSize, 4),
      Number(Size(args.dtb), 4),
      Number(args.base + args.dtbOffset, 8),
      Number(|table.entries| * TableEntrySize, 4),
      Number(|table.entries|, 4),
      Number(TableEntrySize, 4),
      Number(Size(args.bootconfig), 4) ]
  }

  function FixedFields(entry: TableEntry): (fields: seq<Field>)
    ensures |fields| == 4
  {
    [Number(|entry.data|, 4), Number(entry.offset, 4), Number(entry.kind, 4), Text(entry.name, RamdiskNameSize)]
  }

  function BoardFields(entry: TableEntry): (fields: seq<Field>)
    ensures |fields| == |entry.boardId|
  {
    seq(|entry.boardId|, j requires 0 <= j < |entry.boardId| => Number(entry.boardId[j], 4))
  }

  function EntryFields(entry: TableEntry): seq<Field>
  {
    FixedFields(entry) + BoardFields(entry)
  }

  function EncodedEntries(entries: seq<TableEntry>): (chunks: seq<seq<byte>>)
    ensures |chunks| == |entries|
  {
    seq(|entries|, k requires 0 <= k < |entries| => EncodeAll(EntryFields(entries[k])))
  }

  function TableBytes(entries: seq<TableEntry>): seq<byte>
  {
    Flatten(EncodedEntries(entries))
  }

  predicate EntriesFit(entries: seq<TableEntry>)
  {
    forall k :: 0 <= k < |entries| ==> AllFit(EntryFields(entries[k]))
  }

  /** The sections, written and padded one after the other behind a header. */
  function WriteSections(header: seq<byte>, ramdisks: seq<byte>, dtb: Option<seq<byte>>, table: seq<byte>,
                         bootconfig: Option<seq<byte>>, padding: nat): seq<byte>
    requires padding > 0
  {
    var file := PadFile(header, padding);
    var file := PadFile(file + ramdisks, padding);
    var file := WritePadded(file, dtb, padding);
    var file := PadFile(file + table, padding);
    WritePadded(file, bootconfig, padding)
  }

  /** None when a value does not fit its field. */
  function VendorBootImage(args: Args, table: Table): Option<seq<byte>>
    requires args.pageSize > 0
  {
    if AllFit(HeaderFields(args, table)) && EntriesFit(table.entries) then
      Some(WriteSections(EncodeAll(HeaderFields(args, table)), Ramdisks(table.entries), args.dtb,
                         TableBytes(table.entries), args.bootconfig, args.pageSize))
    else None
  }

  predicate HeaderWords(args: Args, table: Table)
  {
    && IsWord(args.pageSize) && IsWord(args.base + args.kernelOffset) && IsWord(args.base + args.ramdiskOffset)
    && IsWord(table.totalSize) && IsWord(args.base + args.tagsOffset) && IsWord(Size(args.dtb))
    && IsLong(args.base + args.dtbOffset) && IsWord(108 * |table.entries|) && IsWord(Size(args.bootconfig))
  }

  predicate EntryWords(entry: TableEntry)
  {
    && IsWord(|entry.data|) && IsWord(entry.offset) && IsWord(entry.kind)
    && forall j :: 0 <= j < |entry.boardId| ==> IsWord(entry.boardId[j])
  }

  lemma HeaderFitsExactly(args: Args, table: Table)
    ensures AllFit(HeaderFields(args, table)) <==> HeaderWords(args, table)
  {
    AllFitExactly(HeaderFields(args, table));
    HeaderInWidth(args, table, HeaderFields(args, table));
  }

  lemma HeaderInWidth(args: Args, table: Table, f: seq<Field>)
    requires f == HeaderFields(args, table)
    ensures AllInWidth(f) <==> HeaderWords(args, table)
  {
    assert AllInWidth(f) ==>
      && InWidth(f[2]) && InWidth(f[3]) && InWidth(f[4]) && InWidth(f[5]) && InWidth(f[7]) && InWidth(f[10])
      && InWidth(f[11]) && InWidth(f[12]) && InWidth(f[15]);
    assert |table.entries| <= |table.entries| * TableEntrySize;
  }

  lemma EntryFitsExactly(entry: TableEntry)
    ensures AllFit(EntryFields(entry)) <==> EntryWords(entry)
  {
    var fixed, board := FixedFields(entry), BoardFields(entry);
    AllFitConcat(fixed, board);
    FitsExactly(fixed[0]);
    FitsExactly(fixed[1]);
    FitsExactly(fixed[2]);
    FitsExactly(fixed[3]);
    forall j | 0 <= j < |board| ensures Fits(board[j]) <==> IsWord(entry.boardId[j]) {
      FitsExactly(board[j]);
    }
    if AllFit(board) {
      forall j | 0 <= j < |board| ensures IsWord(entry.boardId[j]) {
        assert Fits(board[j]);
      }
    }
  }

  /** An image is written exactly if every number of the header and of every fragment fits its field. */
  lemma WrittenExactly(args: Args, table: Table)
    requires args.pageSize > 0
    ensures VendorBootImage(args, table).Some?
      <==> HeaderWords(args, table) && forall k :: 0 <= k < |table.entries| ==> EntryWords(table.entries[k])
  {
    HeaderFitsExactly(args, table);
    forall k | 0 <= k < |table.entries| ensures AllFit(EntryFields(table.entries[k])) <==> EntryWords(table.entries[k]) {
      EntryFitsExactly(table.entries[k]);
    }
  }

  // ---------- reading a vendor boot image ----------

  datatype Fragment = Fragment(data: seq<byte>, kind: int, name: seq<byte>, boardId: seq<nat>)

  datatype Read = Unreadable | Read(fragments: seq<Fragment>, dtb: seq<byte>, bootconfig: seq<byte>)

  function ReadFragment(ramdisks: seq<byte>, entry: seq<byte>): Fragment
  {
    var size, offset := Read32(entry, 0), Read32(entry, 4);
    Fragment(Slice(ramdisks, offset, offset + size), Read32(entry, 8), Stripped(Slice(entry, 12, 44)),
             seq(BoardIdSize, j requires j >= 0 => Read32(entry, 44 + 4 * j)))
  }

  function ReadVendorBoot(file: seq<byte>): Read
  {
    var page := Read32(file, 12);
    if page == 0 then Unreadable
    else
      var sizes := [Read32(file, 2096), Read32(file, 24), Read32(file, 2100), Read32(file, 2112), Read32(file, 2124)];
      var s := ReadSections(file, page, 0, sizes);
      Read(ReadFragments(s[1], s[3], Read32(file, 2116), Read32(file, 2120)), s[2], s[4])
  }

  function ReadFragments(ramdisks: seq<byte>, table: seq<byte>, count: nat, entrySize: nat): seq<Fragment>
  {
    seq(count, k requires k >= 0 => ReadFragment(ramdisks, Slice(table, k * entrySize, k * entrySize + entrySize)))
  }

  // ---------- round trip ----------

  lemma HeaderOffsets(args: Args, table: Table)
    ensures var f := HeaderFields(args, table);
      && Offset(f, 0) == 0 && Offset(f, 1) == 8 && Offset(f, 2) == 12 && Offset(f, 3) == 16 && Offset(f, 4) == 20
      && Offset(f, 5) == 24 && Offset(f, 6) == 28 && Offset(f, 7) == 2076 && Offset(f, 8) == 2080
      && Offset(f, 11) == 2104 && Offset(f, 9) == 2096 && Offset(f, 10) == 2100
      && Offset(f, 12) == 2112 && Offset(f, 13) == 2116 && Offset(f, 14) == 2120 && Offset(f, 15) == 2124
      && Offset(f, 16) == HeaderSize
  {
    var f := HeaderFields(args, table);
    assert Offset(f, 0) == 0;
    assert Offset(f, 1) == 8;
    assert Offset(f, 2) == 12;
    assert Offset(f, 3) == 16;
    assert Offset(f, 4) == 20;
    assert Offset(f, 5) == 24;
    assert Offset(f, 6) == 28;
    assert Offset(f, 7) == 2076;
    assert Offset(f, 8) == 2080;
    assert Offset(f, 9) == 2096;
    assert Offset(f, 10) == 2100;
    assert Offset(f, 11) == 2104;
    assert Offset(f, 12) == 2112;
    assert Offset(f, 13) == 2116;
    assert Offset(f, 14) == 2120;
    assert Offset(f, 15) == 2124;
    assert Offset(f, 16) == 2128;
  }

  /** The header is as long as it announces, which is more than the smallest page. */
  lemma HeaderLength(args: Args, table: Table)
    ensures |EncodeAll(HeaderFields(args, table))| == HeaderSize
  {
    HeaderOffsets(args, table);
    EncodedLength(HeaderFields(args, table));
  }

  lemma HeaderReadsBack(args: Args, table: Table, file: seq<byte>)
    requires AllFit(HeaderFields(args, table)) && Holds(file, 0, HeaderFields(args, table))
    ensures Read32(file, 12) == args.pageSize && Read32(file, 24) == table.totalSize
    ensures Read32(file, 2096) == HeaderSize && Read32(file, 2100) == Size(args.dtb)
    ensures Read32(file, 2112) == |table.entries| * TableEntrySize && Read32(file, 2116) == |table.entries|
    ensures Read32(file, 2120) == TableEntrySize && Read32(file, 2124) == Size(args.bootconfig)
  {
    var fields := HeaderFields(args, table);
    HeaderOffsets(args, table);
    HeaderNumber(file, fields, 2);
    HeaderNumber(file, fields, 5);
    HeaderNumber(file, fields, 9);
    HeaderNumber(file, fields, 10);
    HeaderNumber(file, fields, 12);
    HeaderNumber(file, fields, 13);
    HeaderNumber(file, fields, 14);
    HeaderNumber(file, fields, 15);
  }

  lemma HeaderNumber(file: seq<byte>, fields: seq<Field>, i: nat)
    requires i < |fields| && fields[i].Number? && fields[i].width == 4 && AllFit(fields) && Holds(file, 0, fields)
    ensures Read32(file, Offset(fields, i)) == fields[i].value
  {
    NumberReadsBack(file, 0, fields, i);
  }

  lemma FirstThreeSections(header: seq<byte>, ramdisks: seq<byte>, dtb: Option<seq<byte>>, k: nat)
    ensures WritePadded(PadFile(PadFile(header, Pow2(k)) + ramdisks, Pow2(k)), dtb, Pow2(k))
         == Image([header, ramdisks, Contents(dtb)], Pow2(k))
  {
    FirstSection(header, k);
    PadFileAppendsSection([header], ramdisks, k);
    assert [header] + [ramdisks] == [header, ramdisks];
    WritePaddedAppendsSection([header, ramdisks], dtb, k);
    assert [header, ramdisks] + [Contents(dtb)] == [header, ramdisks, Contents(dtb)];
  }

  lemma TwoMoreSections(three: seq<seq<byte>>, table: seq<byte>, bootconfig: Option<seq<byte>>, k: nat)
    ensures WritePadded(PadFile(Image(three, Pow2(k)) + table, Pow2(k)), bootconfig, Pow2(k))
         == Image(three + [table] + [Contents(bootconfig)], Pow2(k))
  {
    PadFileAppendsSection(three, table, k);
    WritePaddedAppendsSection(three + [table], bootconfig, k);
  }

  lemma SectionsOfImage(header: seq<byte>, ramdisks: seq<byte>, dtb: Option<seq<byte>>, table: seq<byte>,
                        bootconfig: Option<seq<byte>>, k: nat)
    ensures WriteSections(header, ramdisks, dtb, table, bootconfig, Pow2(k))
         == Image([header, ramdisks, Contents(dtb), table, Contents(bootconfig)], Pow2(k))
  {
    FirstThreeSections(header, ramdisks, dtb, k);
    TwoMoreSections([header, ramdisks, Contents(dtb)], table, bootconfig, k);
    assert [header, ramdisks, Contents(dtb)] + [table] + [Contents(bootconfig)]
        == [header, ramdisks, Contents(dtb), table, Contents(bootconfig)];
  }

  lemma ImageHoldsFirst(file: seq<byte>, fields: seq<Field>, sections: seq<seq<byte>>, page: nat)
    requires page > 0 && sections != [] && sections[0] == EncodeAll(fields) && file == Image(sections, page)
    ensures Holds(file, 0, fields)
  {
    SectionLands(sections, 0, page);
  }

  lemma FiveSizes(s: seq<seq<byte>>)
    requires |s| == 5
    ensures Sizes(s)[0..] == [|s[0]|, |s[1]|, |s[2]|, |s[3]|, |s[4]|]
  {
  }

  // ---------- table entries ----------

  lemma {:induction false} UniformOffsets(chunks: seq<seq<byte>>, k: nat, width: nat)
    requires k <= |chunks| && forall i :: 0 <= i < |chunks| ==> |chunks[i]| == width
    ensures |Flatten(chunks[..k])| == k * width
    decreases k
  {
    if k > 0 {
      UniformOffsets(chunks, k - 1, width);
      FlattenTake(chunks, k - 1);
      assert k * width == (k - 1) * width + width;
    }
  }

  lemma {:induction false} BoardOffsets(entry: TableEntry, j: nat)
    requires j <= |entry.boardId|
    ensures Offset(EntryFields(entry), 4 + j) == 44 + 4 * j
    decreases j
  {
    var f := EntryFields(entry);
    if j == 0 {
      assert Offset(f, 1) == 4;
      assert Offset(f, 2) == 8;
      assert Offset(f, 3) == 12;
      assert Offset(f, 4) == 44;
    } else {
      BoardOffsets(entry, j - 1);
      assert f[4 + j - 1] == BoardFields(entry)[j - 1];
    }
  }

  lemma EntryLength(entry: TableEntry)
    requires |entry.boardId| == BoardIdSize
    ensures |EncodeAll(EntryFields(entry))| == TableEntrySize
  {
    BoardOffsets(entry, BoardIdSize);
    EncodedLength(EntryFields(entry));
  }

  lemma TableLength(entries: seq<TableEntry>)
    requires BoardsPackable(entries)
    ensures |TableBytes(entries)| == |entries| * TableEntrySize
  {
    var chunks := EncodedEntries(entries);
    forall k | 0 <= k < |chunks| ensures |chunks[k]| == TableEntrySize {
      EntryLength(entries[k]);
    }
    UniformOffsets(chunks, |chunks|, TableEntrySize);
    assert chunks[..|chunks|] == chunks;
  }

  lemma EntryInTable(entries: seq<TableEntry>, k: nat)
    requires BoardsPackable(entries) && k < |entries|
    ensures Slice(TableBytes(entries), k * TableEntrySize, k * TableEntrySize + TableEntrySize)
         == EncodeAll(EntryFields(entries[k]))
  {
    var chunks := EncodedEntries(entries);
    forall i | 0 <= i < |chunks| ensures |chunks[i]| == TableEntrySize {
      EntryLength(entries[i]);
    }
    UniformOffsets(chunks, k, TableEntrySize);
    FlattenAt(chunks, k);
  }

  lemma SliceAll(bytes: seq<byte>)
    ensures Slice(bytes, 0, |bytes|) == bytes
  {
  }

  lemma {:induction false} StrippedIgnoresZeros(name: seq<byte>, count: nat)
    ensures Stripped(name + Zeros(count)) == Stripped(name)
    decreases count
  {
    if count > 0 {
      var padded := name + Zeros(count);
      assert padded[..|padded| - 1] == name + Zeros(count - 1);
      StrippedIgnoresZeros(name, count - 1);
    } else {
      assert name + Zeros(0) == name;
    }
  }

  lemma NumberAt(bytes: seq<byte>, fields: seq<Field>, i: nat, at: nat)
    requires i < |fields| && fields[i].Number? && fields[i].width == 4 && AllFit(fields)
    requires bytes == EncodeAll(fields) && at == Offset(fields, i)
    ensures Read32(bytes, at) == fields[i].value
  {
    SliceAll(bytes);
    NumberReadsBack(bytes, 0, fields, i);
  }

  lemma StrippedPacked(name: seq<byte>, width: nat)
    requires |name| <= width
    ensures Stripped(PackString(name, width)) == Stripped(name)
  {
    StrippedIgnoresZeros(name, width - |name|);
    assert PackString(name, width) == name + Zeros(width - |name|);
  }

  lemma FixedFieldsReadBack(entry: TableEntry, bytes: seq<byte>)
    requires |entry.name| <= RamdiskNameSize
    requires AllFit(EntryFields(entry)) && bytes == EncodeAll(EntryFields(entry))
    ensures Read32(bytes, 0) == |entry.data| && Read32(bytes, 4) == entry.offset && Read32(bytes, 8) == entry.kind
    ensures Stripped(Slice(bytes, 12, 44)) == Stripped(entry.name)
  {
    var f := EntryFields(entry);
    assert Offset(f, 0) == 0;
    assert Offset(f, 1) == 4;
    assert Offset(f, 2) == 8;
    assert Offset(f, 3) == 12;
    NumberAt(bytes, f, 0, 0);
    NumberAt(bytes, f, 1, 4);
    NumberAt(bytes, f, 2, 8);
    SliceAll(bytes);
    TextReadsBack(bytes, 0, f, 3);
    StrippedPacked(entry.name, RamdiskNameSize);
  }

  lemma BoardReadsBack(entry: TableEntry, bytes: seq<byte>, j: nat)
    requires j < |entry.boardId| && AllFit(EntryFields(entry)) && bytes == EncodeAll(EntryFields(entry))
    ensures Read32(bytes, 44 + 4 * j) == entry.boardId[j]
  {
    BoardOffsets(entry, j);
    assert EntryFields(entry)[4 + j] == BoardFields(entry)[j];
    NumberAt(bytes, EntryFields(entry), 4 + j, 44 + 4 * j);
  }

  lemma FragmentFromFields(ramdisks: seq<byte>, bytes: seq<byte>, want: Fragment, offset: nat)
    requires |want.boardId| == BoardIdSize && Slice(ramdisks, offset, offset + |want.data|) == want.data
    requires Read32(bytes, 0) == |want.data| && Read32(bytes, 4) == offset && Read32(bytes, 8) == want.kind
    requires Stripped(Slice(bytes, 12, 44)) == want.name
    requires forall j :: 0 <= j < BoardIdSize ==> Read32(bytes, 44 + 4 * j) == want.boardId[j]
    ensures ReadFragment(ramdisks, bytes) == want
  {
    assert ReadFragment(ramdisks, bytes).boardId == want.boardId;
  }

  lemma EntryReadsBack(ramdisks: seq<byte>, entry: TableEntry, bytes: seq<byte>)
    requires |entry.boardId| == BoardIdSize && |entry.name| <= RamdiskNameSize
    requires AllFit(EntryFields(entry)) && bytes == EncodeAll(EntryFields(entry))
    requires Slice(ramdisks, entry.offset, entry.offset + |entry.data|) == entry.data
    ensures ReadFragment(ramdisks, bytes)
         == Fragment(entry.data, entry.kind, Stripped(entry.name), entry.boardId)
  {
    FixedFieldsReadBack(entry, bytes);
    forall j | 0 <= j < BoardIdSize ensures Read32(bytes, 44 + 4 * j) == entry.boardId[j] {
      BoardReadsBack(entry, bytes, j);
    }
    FragmentFromFields(ramdisks, bytes, Fragment(entry.data, entry.kind, Stripped(entry.name), entry.boardId),
                       entry.offset);
  }

  /** What a loader should find: every fragment under its name, with its type and board identifiers. */
  function Expected(entries: seq<TableEntry>): (fragments: seq<Fragment>)
    ensures |fragments| == |entries|
  {
    seq(|entries|, k requires 0 <= k < |entries| =>
      Fragment(entries[k].data, entries[k].kind, Stripped(entries[k].name), entries[k].boardId))
  }

  predicate NamesFit(entries: seq<TableEntry>)
  {
    forall k :: 0 <= k < |entries| ==> |entries[k].name| <= RamdiskNameSize
  }

  lemma FragmentReadsBack(table: Table, k: nat)
    requires Sound(table) && NamesFit(table.entries) && EntriesFit(table.entries) && k < |table.entries|
    ensures ReadFragment(Ramdisks(table.entries),
                         Slice(TableBytes(table.entries), k * TableEntrySize, k * TableEntrySize + TableEntrySize))
         == Expected(table.entries)[k]
  {
    var e := table.entries;
    FragmentsPartitionTheSection(table, k);
    EntryInTable(e, k);
    EntryReadsBack(Ramdisks(e), e[k], EncodeAll(EntryFields(e[k])));
  }

  lemma FragmentsPointwise(ramdisks: seq<byte>, table: seq<byte>, want: seq<Fragment>)
    requires forall k :: 0 <= k < |want| ==>
      ReadFragment(ramdisks, Slice(table, k * TableEntrySize, k * TableEntrySize + TableEntrySize)) == want[k]
    ensures ReadFragments(ramdisks, table, |want|, TableEntrySize) == want
  {
  }

  lemma FragmentsReadBack(table: Table)
    requires Sound(table) && NamesFit(table.entries) && EntriesFit(table.entries)
    ensures ReadFragments(Ramdisks(table.entries), TableBytes(table.entries), |table.entries|, TableEntrySize)
         == Expected(table.entries)
  {
    forall k | 0 <= k < |Expected(table.entries)|
      ensures ReadFragment(Ramdisks(table.entries),
                           Slice(TableBytes(table.entries), k * TableEntrySize, k * TableEntrySize + TableEntrySize))
           == Expected(table.entries)[k]
    {
      FragmentReadsBack(table, k);
    }
    FragmentsPointwise(Ramdisks(table.entries), TableBytes(table.entries), Expected(table.entries));
  }

  /** Vendor boot image round trip, for every power-of-two page size and every table the builder can produce:
      a reader that rounds section sizes up to pages recovers every fragment, the DTB and the bootconfig. */
  lemma VendorBootReadsBack(args: Args, table: Table, k: nat)
    requires args.pageSize == Pow2(k) && Sound(table) && NamesFit(table.entries)
    requires VendorBootImage(args, table).Some?
    ensures ReadVendorBoot(VendorBootImage(args, table).value)
         == Read(Expected(table.entries), Contents(args.dtb), Contents(args.bootconfig))
  {
    var e, file := table.entries, VendorBootImage(args, table).value;
    var header := EncodeAll(HeaderFields(args, table));
    var s := [header, Ramdisks(e), Contents(args.dtb), TableBytes(e), Contents(args.bootconfig)];
    SectionsOfImage(header, Ramdisks(e), args.dtb, TableBytes(e), args.bootconfig, k);
    ImageHoldsFirst(file, HeaderFields(args, table), s, args.pageSize);
    HeaderReadsBack(args, table, file);
    HeaderLength(args, table);
    TableLength(e);
    FiveSizes(s);
    SectionsReadBack(s, 0, args.pageSize);
    assert s[0..] == s;
    FragmentsReadBack(table);
  }

  /** The addresses the header gives a boot loader. */
  lemma AddressesInHeader(args: Args, table: Table, file: seq<byte>)
    requires AllFit(HeaderFields(args, table)) && Holds(file, 0, HeaderFields(args, table))
    ensures Read32(file, 16) == args.base + args.kernelOffset && Read32(file, 20) == args.base + args.ramdiskOffset
    ensures Read32(file, 2076) == args.base + args.tagsOffset && Read64(file, 2104) == args.base + args.dtbOffset
    ensures Read32(file, 8) == 4
  {
    var fields := HeaderFields(args, table);
    HeaderOffsets(args, table);
    HeaderNumber(file, fields, 1);
    HeaderNumber(file, fields, 3);
    HeaderNumber(file, fields, 4);
    HeaderNumber(file, fields, 7);
    NumberReadsBack(file, 0, fields, 11);
  }

  lemma TextsInHeader(args: Args, table: Table, file: seq<byte>)
    requires Holds(file, 0, HeaderFields(args, table))
    ensures Slice(file, 0, 8) == VendorMagic()
    ensures Slice(file, 28, 2076) == PackString(args.vendorCmdline, 2048)
    ensures Slice(file, 2080, 2096) == PackString(args.board, 16)
  {
    var fields := HeaderFields(args, table);
    HeaderOffsets(args, table);
    TextReadsBack(file, 0, fields, 0);
    TextReadsBack(file, 0, fields, 6);
    TextReadsBack(file, 0, fields, 8);
    assert PackString(VendorMagic(), 8) == VendorMagic();
  }

  lemma HeaderInImage(args: Args, table: Table, k: nat)
    requires args.pageSize == Pow2(k) && VendorBootImage(args, table).Some?
    ensures Holds(VendorBootImage(args, table).value, 0, HeaderFields(args, table))
  {
    var e, header := table.entries, EncodeAll(HeaderFields(args, table));
    var s := [header, Ramdisks(e), Contents(args.dtb), TableBytes(e), Contents(args.bootconfig)];
    SectionsOfImage(header, Ramdisks(e), args.dtb, TableBytes(e), args.bootconfig, k);
    ImageHoldsFirst(VendorBootImage(args, table).value, HeaderFields(args, table), s, args.pageSize);
  }

  /** What a boot loader finds in the header besides the sizes: magic, version and page size, the load address of each
      part, the command line and the board's name. */
  lemma HeaderTellsWhereToLoad(args: Args, table: Table, k: nat)
    requires args.pageSize == Pow2(k) && VendorBootImage(args, table).Some?
    ensures var file := VendorBootImage(args, table).value;
      && Slice(file, 0, 8) == VendorMagic() && Read32(file, 8) == 4 && Read32(file, 12) == args.pageSize
      && Read32(file, 16) == args.base + args.kernelOffset && Read32(file, 20) == args.base + args.ramdiskOffset
      && Slice(file, 28, 2076) == PackString(args.vendorCmdline, 2048)
      && Read32(file, 2076) == args.base + args.tagsOffset
      && Slice(file, 2080, 2096) == PackString(args.board, 16)
      && Read64(file, 2104) == args.base + args.dtbOffset
  {
    var file := VendorBootImage(args, table).value;
    HeaderInImage(args, table, k);
    HeaderReadsBack(args, table, file);
    AddressesInHeader(args, table, file);
    TextsInHeader(args, table, file);
  }

  /** Names identify fragments in the finished image. */
  lemma NamesIdentifyFragments(table: Table, j: nat, k: nat)
    requires Sound(table) && j < |table.entries| && k < |table.entries|
    ensures Expected(table.entries)[j].name == Expected(table.entries)[k].name <==> j == k
    ensures Expected(table.entries)[j].name != BannedRamdiskName()
  {
    if j < k {
      assert Stripped(table.entries[j].name) != Stripped(table.entries[k].name);
    } else if k < j {
      assert Stripped(table.entries[k].name) != Stripped(table.entries[j].name);
    }
  }
}
