/** The builder object and the writer. */
module VendorBoot {
  import opened BootImage
  import opened Bytes
  import opened ImageLayout
  import opened Options
  import opened VendorBootSpec

  class TableBuilder {
    var entries: seq<TableEntry>
    var ramdiskTotalSize: nat
    var ramdiskNames: set<seq<byte>>

    function View(): Table
      reads this
    {
      Table(entries, ramdiskTotalSize, ramdiskNames)
    }

    constructor ()
      ensures Sound(View()) && entries == []
    {
      entries, ramdiskTotalSize, ramdiskNames := [], 0, {};
    }

    method AddEntry(data: seq<byte>, kind: int, name: seq<byte>, boardId: Option<seq<int>>) returns (added: Added)
      requires Sound(View())
      modifies this
      ensures (View(), added) == Add(old(View()), data, kind, name, boardId)
      ensures Sound(View())
    {
      AddKeepsSound(View(), data, kind, name, boardId);
      var stripped := Stripped(name);
      if stripped == BannedRamdiskName() {
        return BannedName;
      }
      if stripped in ramdiskNames {
        return DuplicatedName;
      }
      ramdiskNames := ramdiskNames + {stripped};
      if boardId.Some? && !GoodBoardId(boardId.value) {
        return BadBoardId;
      }
      entries := entries + [TableEntry(data, ramdiskTotalSize, kind, name, BoardIds(boardId))];
      ramdiskTotalSize := ramdiskTotalSize + |data|;
      return Ok;
    }

    method WriteRamdisksPadded(output: OutFile, alignment: nat)
      requires alignment > 0
      modifies output
      ensures output.bytes == PadFile(old(output.bytes) + Ramdisks(entries), alignment)
    {
      for k := 0 to |entries|
        invariant output.bytes == old(output.bytes) + Ramdisks(entries[..k])
      {
        RamdisksSnoc(entries[..k], entries[k]);
        assert entries[..k + 1] == entries[..k] + [entries[k]];
        output.Write(entries[k].data);
      }
      assert entries[..|entries|] == entries;
      output.Pad(alignment);
    }

    /** Stops at the first value that does not fit its field. */
    method WriteEntriesPadded(output: OutFile, alignment: nat) returns (ok: bool)
      requires alignment > 0
      modifies output
      ensures ok <==> EntriesFit(entries)
      ensures ok ==> output.bytes == PadFile(old(output.bytes) + TableBytes(entries), alignment)
    {
      ghost var written := [];
      for k := 0 to |entries|
        invariant TableSoFar(entries, k) == Some(written)
        invariant output.bytes == old(output.bytes) + written
      {
        ok := output.WriteFields(EntryFields(entries[k]));
        if !ok {
          return;
        }
        TableStep(entries, k, written);
        ConcatAssoc(old(output.bytes), written, EncodeAll(EntryFields(entries[k])));
        written := written + EncodeAll(EntryFields(entries[k]));
      }
      assert entries[..|entries|] == entries;
      output.Pad(alignment);
      ok := true;
    }
  }

  /** What the table loop has written after k rounds. */
  ghost function TableSoFar(entries: seq<TableEntry>, k: nat): Option<seq<byte>>
    requires k <= |entries|
  {
    if EntriesFit(entries[..k]) then Some(TableBytes(entries[..k])) else None
  }

  lemma TableGrows(entries: seq<TableEntry>, entry: TableEntry)
    ensures TableBytes(entries + [entry]) == TableBytes(entries) + EncodeAll(EntryFields(entry))
  {
    var chunk := EncodeAll(EntryFields(entry));
    assert EncodedEntries(entries + [entry]) == EncodedEntries(entries) + [chunk];
    FlattenAppend(EncodedEntries(entries), chunk);
  }

  lemma TableStep(entries: seq<TableEntry>, k: nat, written: seq<byte>)
    requires k < |entries| && TableSoFar(entries, k) == Some(written) && AllFit(EntryFields(entries[k]))
    ensures TableSoFar(entries, k + 1) == Some(written + EncodeAll(EntryFields(entries[k])))
  {
    TableGrows(entries[..k], entries[k]);
    assert entries[..k + 1] == entries[..k] + [entries[k]];
  }

  method WriteHeader(args: Args, table: Table, output: OutFile) returns (ok: bool)
    requires args.pageSize > 0 && output.bytes == []
    modifies output
    ensures ok <==> AllFit(HeaderFields(args, table))
    ensures ok ==> output.bytes == PadFile(EncodeAll(HeaderFields(args, table)), args.pageSize)
  {
    ok := output.WriteFields(HeaderFields(args, table));
    if ok {
      output.Pad(args.pageSize);
    }
  }

  method WriteVendorBoot(args: Args, builder: TableBuilder) returns (file: Option<seq<byte>>)
    requires args.pageSize > 0
    ensures file == VendorBootImage(args, builder.View())
  {
    var output := new OutFile();
    var ok := WriteHeader(args, builder.View(), output);
    if !ok {
      return None;
    }
    builder.WriteRamdisksPadded(output, args.pageSize);
    output.WritePaddedFile(args.dtb, args.pageSize);
    ok := builder.WriteEntriesPadded(output, args.pageSize);
    if !ok {
      return None;
    }
    output.WritePaddedFile(args.bootconfig, args.pageSize);
    return Some(output.bytes);
  }
}
