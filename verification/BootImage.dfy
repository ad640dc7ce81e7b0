/** The writer itself: it appends to the output file and stops at the first value it cannot pack. */
module BootImage {
  import opened BootImageSpec
  import opened Bytes
  import opened ImageLayout
  import opened LittleEndian
  import opened Options

  class OutFile {
    var bytes: seq<byte>

    constructor ()
      ensures bytes == []
    {
      bytes := [];
    }

    method Write(data: seq<byte>)
      modifies this
      ensures bytes == old(bytes) + data
    {
      bytes := bytes + data;
    }

    method Pad(padding: nat)
      requires padding > 0
      modifies this
      ensures bytes == PadFile(old(bytes), padding)
    {
      var pad := PadLength(|bytes|, padding);
      Write(Zeros(pad));
    }

    method WritePaddedFile(input: Option<seq<byte>>, padding: nat)
      requires padding > 0
      modifies this
      ensures bytes == WritePadded(old(bytes), input, padding)
    {
      if input == None {
        return;
      }
      Write(input.value);
      Pad(padding);
    }

    /** Consecutive writes of packed values. */
    method WriteFields(fields: seq<Field>) returns (ok: bool)
      modifies this
      ensures ok <==> AllFit(fields)
      ensures ok ==> bytes == old(bytes) + EncodeAll(fields)
    {
      for i := 0 to |fields|
        invariant AllFit(fields[..i])
        invariant bytes == old(bytes) + EncodeAll(fields[..i])
      {
        if fields[i].Number? && !(0 <= fields[i].value < Pow256(fields[i].width)) {
          assert !Fits(fields[i]);
          return false;
        }
        EncodeStep(fields, i);
        Write(Encode(fields[i]));
      }
      assert fields[..|fields|] == fields;
      return true;
    }
  }

  lemma EncodeStep(fields: seq<Field>, i: nat)
    requires i < |fields|
    ensures EncodeAll(fields[..i + 1]) == EncodeAll(fields[..i]) + Encode(fields[i])
    ensures AllFit(fields[..i + 1]) <==> AllFit(fields[..i]) && Fits(fields[i])
  {
    assert fields[..i + 1] == fields[..i] + [fields[i]];
    EncodeAllConcat(fields[..i], [fields[i]]);
    assert Encoded([fields[i]]) == [Encode(fields[i])];
    FlattenAppend([], Encode(fields[i]));
    assert [] + [Encode(fields[i])] == [Encode(fields[i])];
  }

  method WritePackedHeader(leading: seq<Field>, dtbFields: Option<seq<Field>>, dtbSize: nat, padding: nat,
                           output: OutFile)
    returns (outcome: Outcome)
    requires padding > 0 && output.bytes == []
    modifies output
    ensures outcome == PackHeader(leading, dtbFields, dtbSize, padding)
    ensures outcome.Written? ==> output.bytes == outcome.file
  {
    var ok := output.WriteFields(leading);
    if !ok {
      return CannotPack;
    }
    if dtbFields.Some? {
      if dtbSize == 0 {
        return EmptyDtb;
      }
      ok := output.WriteFields(dtbFields.value);
      if !ok {
        return CannotPack;
      }
    }
    output.Pad(padding);
    return Written(output.bytes);
  }

  method WriteHeader(args: Args, output: OutFile) returns (outcome: Outcome)
    requires args.pageSize > 0 && output.bytes == []
    modifies output
    ensures outcome == Header(args)
    ensures outcome.Written? ==> output.bytes == outcome.file
  {
    outcome := WritePackedHeader(LeadingFields(args), if args.version > 1 then Some(DtbFields(args)) else None,
                                 Size(args.dtb), args.pageSize, output);
  }

  method WriteData(args: Args, output: OutFile)
    requires args.pageSize > 0
    modifies output
    ensures output.bytes == Data(args, old(output.bytes))
  {
    output.WritePaddedFile(args.kernel, args.pageSize);
    output.WritePaddedFile(args.ramdisk, args.pageSize);
    output.WritePaddedFile(args.second, args.pageSize);
    if 0 < args.version < 3 {
      output.WritePaddedFile(args.recoveryDtbo, args.pageSize);
    }
    if args.version == 2 {
      output.WritePaddedFile(args.dtb, args.pageSize);
    }
  }

  method WriteBootImage(args: Args) returns (outcome: Outcome)
    requires args.pageSize > 0
    ensures outcome == BootImageSpec.BootImage(args)
  {
    var output := new OutFile();
    outcome := WriteHeader(args, output);
    if outcome.Written? {
      WriteData(args, output);
      outcome := Written(output.bytes);
    }
  }
}
