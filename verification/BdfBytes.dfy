/** What the parser and the printer of tools/bdftool.py do to the bytes of a file: exactly which files, and which
    entries of a file, come out as they went in. */
module BdfBytes {
  import opened BdfSpec
  import opened BdfSwap
  import opened Bytes
  import opened LittleEndian
  import opened Options

  // ---------- elements as the printer would have written them ----------

  /** The announced length, with its padding, fits in what is there, and the padding is zero. */
  predicate WellPadded(s: seq<byte>)
    requires |s| >= HeaderSize
  {
    && HeaderSize + Align4(LengthOf(s)) <= |s|
    && forall i :: HeaderSize + LengthOf(s) <= i < HeaderSize + Align4(LengthOf(s)) ==> s[i] == 0
  }

  /** A list of well-padded elements with nothing left over. */
  predicate CanonicalSubs(s: seq<byte>)
    decreases |s|
  {
    if |s| <= HeaderSize then s == [] else WellPadded(s) && CanonicalSubs(After(s))
  }

  /** The same, and the body of every entry is itself such a list. */
  predicate CanonicalTop(buf: seq<byte>)
    decreases |buf|
  {
    if |buf| <= HeaderSize then buf == []
    else WellPadded(buf) && CanonicalSubs(BodyOf(buf)) && CanonicalTop(After(buf))
  }

  predicate Canonical(data: seq<byte>)
  {
    Slice(data, 0, |Magic()|) == Magic() && CanonicalTop(Rest(data, Align4(|Magic()|)))
  }

  lemma WordsInRange(s: seq<byte>)
    requires |s| >= HeaderSize
    ensures IdOf(s) < TwoTo32 && LengthOf(s) < TwoTo32 && |BodyOf(s)| <= LengthOf(s)
  {
    UnpackPack(s[..4]);
    UnpackPack(s[4..8]);
    Pow256Values();
  }

  /** What is well padded is what the printer writes. */
  lemma WellPaddedIsPrinted(s: seq<byte>)
    requires |s| >= HeaderSize && WellPadded(s)
    ensures |BodyOf(s)| == LengthOf(s) && s == Element(IdOf(s), BodyOf(s)) + After(s)
  {
    UnpackPack(s[..4]);
    UnpackPack(s[4..8]);
    var from, to := HeaderSize + LengthOf(s), HeaderSize + Align4(LengthOf(s));
    assert s[from..to] == Zeros(to - from);
    assert s == s[..4] + s[4..8] + (s[HeaderSize..from] + s[from..to]) + s[to..];
  }

  /** What the printer writes is well padded. */
  lemma PrintedIsWellPadded(id: nat, body: seq<byte>, rest: seq<byte>)
    requires id < TwoTo32 && |body| < TwoTo32
    ensures var s := Element(id, body) + rest;
      WellPadded(s) && BodyOf(s) == body && After(s) == rest
  {
    var s := Element(id, body) + rest;
    assert s[4..8] == Pack(|body|, 4);
    Pack32(|body|);
    assert s[HeaderSize..HeaderSize + |body|] == body;
    assert s[HeaderSize + Align4(|body|)..] == rest;
    assert s[HeaderSize + |body|..HeaderSize + Align4(|body|)] == Zeros(Align4(|body|) - |body|);
    forall i | HeaderSize + |body| <= i < HeaderSize + Align4(|body|) ensures s[i] == 0 {
      assert s[i] == s[HeaderSize + |body|..HeaderSize + Align4(|body|)][i - HeaderSize - |body|];
    }
  }

  // ---------- printing what was parsed ----------

  /** A body is printed as it was if and only if it is canonical. */
  lemma {:induction false} SubsPreservedExactly(s: seq<byte>)
    ensures SerializeSubs(ParseSubs(s)) == s <==> CanonicalSubs(s)
    ensures PackableSubs(ParseSubs(s))
    decreases |s|
  {
    if |s| > HeaderSize {
      var rest := ParseSubs(After(s));
      WordsInRange(s);
      SubsPreservedExactly(After(s));
      PrintedFirst(s, rest);
      PackableFirst(s, rest);
      if WellPadded(s) {
        WellPaddedIsPrinted(s);
        SameFront(Element(IdOf(s), BodyOf(s)), SerializeSubs(rest), After(s));
      } else if SerializeSubs(ParseSubs(s)) == s {
        PrintedIsWellPadded(IdOf(s), BodyOf(s), SerializeSubs(rest));
      }
    }
  }

  lemma SameFront(front: seq<byte>, a: seq<byte>, b: seq<byte>)
    ensures front + a == front + b <==> a == b
  {
    assert a == (front + a)[|front|..] && b == (front + b)[|front|..];
  }

  lemma PrintedFirst(s: seq<byte>, rest: seq<Sub>)
    requires |s| > HeaderSize
    ensures SerializeSubs([Sub(IdOf(s), BodyOf(s))] + rest) == Element(IdOf(s), BodyOf(s)) + SerializeSubs(rest)
  {
    assert ([Sub(IdOf(s), BodyOf(s))] + rest)[1..] == rest;
  }

  lemma PackableFirst(s: seq<byte>, rest: seq<Sub>)
    requires |s| > HeaderSize && PackableSubs(rest)
    ensures PackableSubs([Sub(IdOf(s), BodyOf(s))] + rest)
  {
    WordsInRange(s);
  }

  // ---------- entry by entry ----------

  /** What the printer makes of an entry. */
  function Printed(entry: Entry): seq<byte>
  {
    Element(entry.id, SerializeSubs(entry.subs))
  }

  /** The bytes from one entry of the list to the next, or to the end of the data. */
  function FirstChunk(buf: seq<byte>): (chunk: seq<byte>)
    requires |buf| > HeaderSize
    ensures |chunk| >= HeaderSize && chunk + After(buf) == buf
  {
    Slice(buf, 0, HeaderSize + Align4(LengthOf(buf)))
  }

  function Chunks(buf: seq<byte>): (chunks: seq<seq<byte>>)
    ensures |chunks| == |ParseTop(buf)|
    ensures forall i :: 0 <= i < |chunks| ==> |chunks[i]| >= HeaderSize
    decreases |buf|
  {
    if |buf| <= HeaderSize then [] else [FirstChunk(buf)] + Chunks(After(buf))
  }

  /** What is too short to be an entry. */
  function Leftover(buf: seq<byte>): (rest: seq<byte>)
    ensures |rest| <= HeaderSize
    decreases |buf|
  {
    if |buf| <= HeaderSize then buf else Leftover(After(buf))
  }

  function PrintedAll(top: seq<Entry>): (printed: seq<seq<byte>>)
    ensures |printed| == |top|
    ensures forall i :: 0 <= i < |top| ==> printed[i] == Printed(top[i])
  {
    if top == [] then [] else [Printed(top[0])] + PrintedAll(top[1..])
  }

  /** The data is its chunks and at most eight bytes behind them; the printed list is its printed entries. */
  lemma {:induction false} DataIsChunks(buf: seq<byte>)
    ensures buf == Flatten(Chunks(buf)) + Leftover(buf)
    decreases |buf|
  {
    if |buf| <= HeaderSize {
      assert Flatten([]) + buf == buf;
    } else {
      DataIsChunks(After(buf));
      assert Chunks(buf)[1..] == Chunks(After(buf));
      ConcatAssoc(FirstChunk(buf), Flatten(Chunks(After(buf))), Leftover(After(buf)));
    }
  }

  lemma {:induction false} PrintedListIsEntries(top: seq<Entry>)
    ensures SerializeTop(top) == Flatten(PrintedAll(top))
  {
    if top != [] {
      PrintedListIsEntries(top[1..]);
      assert PrintedAll(top)[1..] == PrintedAll(top[1..]);
    }
  }

  /** A chunk as the printer would have written it. */
  predicate CanonicalEntry(chunk: seq<byte>)
    requires |chunk| >= HeaderSize
  {
    WellPadded(chunk) && CanonicalSubs(BodyOf(chunk))
  }

  /** The chunk carries the whole entry. */
  lemma ChunkCarriesEntry(buf: seq<byte>)
    requires |buf| > HeaderSize
    ensures var chunk := FirstChunk(buf);
      && IdOf(chunk) == IdOf(buf) && LengthOf(chunk) == LengthOf(buf) && BodyOf(chunk) == BodyOf(buf)
      && After(chunk) == [] && (WellPadded(chunk) <==> WellPadded(buf))
  {
    var chunk := FirstChunk(buf);
    assert chunk[..4] == buf[..4] && chunk[4..8] == buf[4..8];
    assert forall i :: 0 <= i < |chunk| ==> chunk[i] == buf[i];
  }

  /** The entry a chunk stands for. */
  function EntryIn(chunk: seq<byte>): Entry
    requires |chunk| >= HeaderSize
  {
    Entry(IdOf(chunk), ParseSubs(BodyOf(chunk)))
  }

  lemma {:induction false} ChunkOfEntry(buf: seq<byte>, i: nat)
    requires i < |ParseTop(buf)|
    ensures ParseTop(buf)[i] == EntryIn(Chunks(buf)[i])
    ensures After(Chunks(buf)[i]) == []
    decreases |buf|
  {
    if i == 0 {
      ChunkCarriesEntry(buf);
    } else {
      ChunkOfEntry(After(buf), i - 1);
    }
  }

  /** An entry is printed as it was if and only if it is canonical. */
  lemma EntryPreservedExactly(chunk: seq<byte>)
    requires |chunk| >= HeaderSize && After(chunk) == [] && PackableEntry(EntryIn(chunk))
    ensures Printed(EntryIn(chunk)) == chunk <==> CanonicalEntry(chunk)
  {
    var body := SerializeSubs(ParseSubs(BodyOf(chunk)));
    SubsPreservedExactly(BodyOf(chunk));
    assert Printed(EntryIn(chunk)) + [] == Printed(EntryIn(chunk));
    if CanonicalEntry(chunk) {
      WellPaddedIsPrinted(chunk);
    } else if Printed(EntryIn(chunk)) == chunk {
      PrintedIsWellPadded(IdOf(chunk), body, []);
    }
  }

  // ---------- the whole file ----------

  predicate AllCanonical(chunks: seq<seq<byte>>)
  {
    forall i :: 0 <= i < |chunks| ==> |chunks[i]| >= HeaderSize && CanonicalEntry(chunks[i])
  }

  lemma AllCanonicalCons(first: seq<byte>, rest: seq<seq<byte>>)
    requires |first| >= HeaderSize
    ensures AllCanonical([first] + rest) <==> CanonicalEntry(first) && AllCanonical(rest)
  {
    var all := [first] + rest;
    assert all[0] == first;
    if AllCanonical(all) {
      assert forall i :: 0 <= i < |rest| ==> rest[i] == all[i + 1];
    }
  }

  /** Canonical is canonical entry by entry, with nothing behind the last one. */
  lemma {:induction false} CanonicalByEntries(buf: seq<byte>)
    ensures CanonicalTop(buf) <==> Leftover(buf) == [] && AllCanonical(Chunks(buf))
    decreases |buf|
  {
    if |buf| > HeaderSize {
      CanonicalByEntries(After(buf));
      ChunkCarriesEntry(buf);
      AllCanonicalCons(FirstChunk(buf), Chunks(After(buf)));
    }
  }

  lemma PackableCons(first: Entry, rest: seq<Entry>)
    ensures Packable([first] + rest) <==> PackableEntry(first) && Packable(rest)
  {
    var all := [first] + rest;
    assert all[0] == first && all[1..] == rest;
    if Packable(all) {
      assert forall i :: 0 <= i < |rest| ==> rest[i] == all[i + 1];
    }
  }

  lemma PrintedCons(first: Entry, rest: seq<Entry>)
    ensures SerializeTop([first] + rest) == Printed(first) + SerializeTop(rest)
  {
    assert ([first] + rest)[1..] == rest;
  }

  /** The first entry can be printed, and is printed as the front of the list, exactly if it is canonical. */
  lemma FrontPreservedExactly(buf: seq<byte>, printed: seq<byte>)
    requires |buf| > HeaderSize
    ensures PackableEntry(EntryIn(buf)) && Printed(EntryIn(buf)) + printed == buf
        <==> CanonicalEntry(buf) && printed == After(buf)
  {
    var body := SerializeSubs(ParseSubs(BodyOf(buf)));
    WordsInRange(buf);
    SubsPreservedExactly(BodyOf(buf));
    if CanonicalEntry(buf) {
      WellPaddedIsPrinted(buf);
      SameFront(Printed(EntryIn(buf)), printed, After(buf));
    } else if PackableEntry(EntryIn(buf)) && Printed(EntryIn(buf)) + printed == buf {
      PrintedIsWellPadded(IdOf(buf), body, printed);
    }
  }

  lemma {:induction false} ListPreservedExactly(buf: seq<byte>)
    ensures Packable(ParseTop(buf)) && SerializeTop(ParseTop(buf)) == buf <==> CanonicalTop(buf)
    decreases |buf|
  {
    if |buf| > HeaderSize {
      var rest := ParseTop(After(buf));
      ListPreservedExactly(After(buf));
      PackableCons(EntryIn(buf), rest);
      PrintedCons(EntryIn(buf), rest);
      FrontPreservedExactly(buf, SerializeTop(rest));
    }
  }

  /** A file with the right magic is rewritten byte for byte if and only if it is canonical. */
  lemma FilePreservedExactly(data: seq<byte>)
    requires Parse(data).Some?
    ensures var (header, top) := Parse(data).value;
      Serialize(header, top) == Some(data) <==> Canonical(data)
  {
    var (header, top) := Parse(data).value;
    var buf := Rest(data, Align4(|Magic()|));
    assert header + buf == data;
    ListPreservedExactly(buf);
    SameFront(header, SerializeTop(top), buf);
  }

  // ---------- the swap ----------

  /** The entry's bytes in the file the swap writes are those it has in the file it read. */
  predicate KeepsBytes(data: seq<byte>, swaps: seq<Swap>, i: nat)
    requires Parse(data).Some? && i < |Parse(data).value.1|
  {
    SwapTopPointwise(Parse(data).value.1, swaps);
    Printed(SwapTop(Parse(data).value.1, swaps).0[i]) == Chunks(Rest(data, Align4(|Magic()|)))[i]
  }

  /** Both files entry by entry: the one read has its chunks and at most eight bytes behind them, the one written has
      the printed entries. */
  lemma FilesByEntries(data: seq<byte>, swaps: seq<Swap>)
    requires Parse(data).Some?
    ensures var (header, top) := Parse(data).value;
      var buf := Rest(data, Align4(|Magic()|));
      && data == header + (Flatten(Chunks(buf)) + Leftover(buf)) && |Chunks(buf)| == |top|
      && (Packable(SwapTop(top, swaps).0) ==>
            Serialize(header, SwapTop(top, swaps).0) == Some(header + Flatten(PrintedAll(SwapTop(top, swaps).0))))
  {
    DataIsChunks(Rest(data, Align4(|Magic()|)));
    PrintedListIsEntries(SwapTop(Parse(data).value.1, swaps).0);
  }

  /** An entry no swap selects keeps its bytes if and only if they are canonical. */
  lemma UnselectedKeepsBytesExactly(data: seq<byte>, swaps: seq<Swap>, i: nat)
    requires Parse(data).Some? && i < |Parse(data).value.1|
    requires Untouched(Parse(data).value.1[i], swaps) && Packable(SwapTop(Parse(data).value.1, swaps).0)
    ensures KeepsBytes(data, swaps, i) <==> CanonicalEntry(Chunks(Rest(data, Align4(|Magic()|)))[i])
  {
    var top, buf := Parse(data).value.1, Rest(data, Align4(|Magic()|));
    SwapTopPointwise(top, swaps);
    SwapEntryMeans(top[i], swaps);
    ChunkOfEntry(buf, i);
    assert PackableEntry(SwapTop(top, swaps).0[i]);
    EntryPreservedExactly(Chunks(buf)[i]);
  }

  /** The promise of the swap command: all other entries are preserved byte for byte. */
  predicate OthersPreserved(data: seq<byte>, swaps: seq<Swap>)
    requires Parse(data).Some?
  {
    forall i :: 0 <= i < |Parse(data).value.1| && Untouched(Parse(data).value.1[i], swaps) ==>
      KeepsBytes(data, swaps, i)
  }

  /** Whenever the swap writes a file, the promise holds if and only if every other entry is canonical where it stands
      in the file that was read. */
  lemma OthersPreservedExactly(data: seq<byte>, swaps: seq<Swap>)
    requires Parse(data).Some? && Packable(SwapTop(Parse(data).value.1, swaps).0)
    ensures var top, chunks := Parse(data).value.1, Chunks(Rest(data, Align4(|Magic()|)));
      OthersPreserved(data, swaps) <==>
        (forall i :: 0 <= i < |top| && Untouched(top[i], swaps) ==> CanonicalEntry(chunks[i]))
  {
    var top := Parse(data).value.1;
    forall i | 0 <= i < |top| && Untouched(top[i], swaps) {
      UnselectedKeepsBytesExactly(data, swaps, i);
    }
  }

  /** In a canonical file the promise holds, whatever is swapped. */
  lemma CanonicalKeepsPromise(data: seq<byte>, swaps: seq<Swap>)
    requires Canonical(data) && Packable(SwapTop(Parse(data).value.1, swaps).0)
    ensures OthersPreserved(data, swaps)
  {
    CanonicalByEntries(Rest(data, Align4(|Magic()|)));
    OthersPreservedExactly(data, swaps);
  }

  // ---------- files that are not preserved ----------

  /** A file with one entry whose only body is not a multiple of four bytes long, announced without the padding of that
      body and padded itself. */
  function Unaligned(header: seq<byte>, id: nat, sid: nat, body: seq<byte>): seq<byte>
  {
    header + Element(id, Element(sid, body)[..HeaderSize + |body|])
  }

  lemma BareElement(s: seq<byte>, sid: nat, body: seq<byte>)
    requires sid < TwoTo32 && |body| < TwoTo32
    requires s == Pack(sid, 4) + Pack(|body|, 4) + body
    ensures IdOf(s) == sid && LengthOf(s) == |body| && BodyOf(s) == body && After(s) == []
  {
    assert s[..4] == Pack(sid, 4) && s[4..8] == Pack(|body|, 4);
    Pack32(sid);
    Pack32(|body|);
    assert s[HeaderSize..] == body;
  }

  lemma ShortBodyParses(sid: nat, body: seq<byte>)
    requires sid < TwoTo32 && |body| < TwoTo32 && |body| % 4 != 0
    ensures var short := Element(sid, body)[..HeaderSize + |body|];
      && |short| == HeaderSize + |body| && ParseSubs(short) == [Sub(sid, body)] && !CanonicalSubs(short)
  {
    var short := Element(sid, body)[..HeaderSize + |body|];
    assert short == Pack(sid, 4) + Pack(|body|, 4) + body;
    BareElement(short, sid, body);
    assert ParseSubs([]) == [];
  }

  /** All padding is zero, no list ends in an empty body and nothing is left over, yet the entry is printed with
      another length. */
  lemma UnalignedIsRewritten(header: seq<byte>, id: nat, sid: nat, body: seq<byte>)
    requires |header| == Align4(|Magic()|) && Magic() <= header
    requires id < TwoTo32 && sid < TwoTo32 && |body| < TwoTo32 - HeaderSize && |body| % 4 != 0
    ensures var data, top := Unaligned(header, id, sid, body), [Entry(id, [Sub(sid, body)])];
      && Parse(data) == Some((header, top)) && NoEmptyTail(top)
      && !Canonical(data) && Serialize(header, top) != Some(data)
  {
    var short := Element(sid, body)[..HeaderSize + |body|];
    HeaderReads(header, Element(id, short));
    UnalignedParses(id, sid, body);
    FilePreservedExactly(Unaligned(header, id, sid, body));
  }

  lemma UnalignedParses(id: nat, sid: nat, body: seq<byte>)
    requires id < TwoTo32 && sid < TwoTo32 && |body| < TwoTo32 - HeaderSize && |body| % 4 != 0
    ensures var buf := Element(id, Element(sid, body)[..HeaderSize + |body|]);
      ParseTop(buf) == [Entry(id, [Sub(sid, body)])] && !CanonicalTop(buf)
  {
    var short := Element(sid, body)[..HeaderSize + |body|];
    ShortBodyParses(sid, body);
    assert Element(id, short) + [] == Element(id, short);
    ElementReads(id, short, []);
    assert ParseTop([]) == [];
  }

  /** The printed length of such an entry differs from the announced one. */
  lemma UnalignedLengths(id: nat, sid: nat, body: seq<byte>)
    requires id < TwoTo32 && |body| < TwoTo32 - HeaderSize - 4 && |body| % 4 != 0
    ensures LengthOf(Element(id, Element(sid, body)[..HeaderSize + |body|])) == HeaderSize + |body|
    ensures LengthOf(Printed(Entry(id, [Sub(sid, body)]))) == HeaderSize + Align4(|body|) > HeaderSize + |body|
  {
    var short := Element(sid, body)[..HeaderSize + |body|];
    assert [Sub(sid, body)][1..] == [] && Element(sid, body) + [] == Element(sid, body);
    assert SerializeSubs([Sub(sid, body)]) == Element(sid, body);
    AnnouncedLength(id, short);
    AnnouncedLength(id, Element(sid, body));
  }

  lemma AnnouncedLength(id: nat, body: seq<byte>)
    requires |body| < TwoTo32
    ensures LengthOf(Element(id, body)) == |body|
  {
    assert Element(id, body)[4..8] == Pack(|body|, 4);
    Pack32(|body|);
  }
}
