/** The program itself: nested parsing and printing loops over growing lists, and the swap loop that
    overwrites the entries where they are. */
module BdfTool {
  import opened BdfSpec
  import opened BdfSwap
  import opened Bytes
  import opened Options

  lemma ParseSubsStep(done: seq<Sub>, s: seq<byte>)
    requires |s| > HeaderSize
    ensures done + ParseSubs(s) == done + [Sub(IdOf(s), BodyOf(s))] + ParseSubs(After(s))
  {
  }

  method ParseBody(body: seq<byte>) returns (subs: seq<Sub>)
    ensures subs == ParseSubs(body)
  {
    var s := body;
    subs := [];
    while |s| > HeaderSize
      invariant subs + ParseSubs(s) == ParseSubs(body)
      decreases |s|
    {
      ParseSubsStep(subs, s);
      subs := subs + [Sub(IdOf(s), BodyOf(s))];
      s := After(s);
    }
  }

  lemma ParseTopStep(done: seq<Entry>, buf: seq<byte>)
    requires |buf| > HeaderSize
    ensures done + ParseTop(buf) == done + [Entry(IdOf(buf), ParseSubs(BodyOf(buf)))] + ParseTop(After(buf))
  {
  }

  method ParseEntries(data: seq<byte>) returns (top: seq<Entry>)
    ensures top == ParseTop(data)
  {
    var buf := data;
    top := [];
    while |buf| > HeaderSize
      invariant top + ParseTop(buf) == ParseTop(data)
      decreases |buf|
    {
      ParseTopStep(top, buf);
      var subs := ParseBody(BodyOf(buf));
      top := top + [Entry(IdOf(buf), subs)];
      buf := After(buf);
    }
  }

  method ParseFile(data: seq<byte>) returns (parsed: Option<(seq<byte>, seq<Entry>)>)
    ensures parsed == Parse(data)
  {
    var magicLen := Align4(|Magic()|);
    if Slice(data, 0, |Magic()|) != Magic() {
      return None;
    }
    var top := ParseEntries(Rest(data, magicLen));
    parsed := Some((Slice(data, 0, magicLen), top));
  }

  lemma {:induction false} SerializeSubsSnoc(subs: seq<Sub>, sub: Sub, printed: seq<byte>)
    requires printed == Element(sub.sid, sub.body)
    ensures SerializeSubs(subs + [sub]) == SerializeSubs(subs) + printed
    decreases |subs|
  {
    if subs == [] {
      assert [sub][1..] == [];
    } else {
      SerializeSubsSnoc(subs[1..], sub, printed);
      assert (subs + [sub])[1..] == subs[1..] + [sub];
      ConcatAssoc(Element(subs[0].sid, subs[0].body), SerializeSubs(subs[1..]), printed);
    }
  }

  lemma {:induction false} SerializeTopSnoc(top: seq<Entry>, entry: Entry, printed: seq<byte>)
    requires printed == Element(entry.id, SerializeSubs(entry.subs))
    ensures SerializeTop(top + [entry]) == SerializeTop(top) + printed
    decreases |top|
  {
    if top == [] {
      assert [entry][1..] == [];
    } else {
      SerializeTopSnoc(top[1..], entry, printed);
      assert (top + [entry])[1..] == top[1..] + [entry];
      ConcatAssoc(Element(top[0].id, SerializeSubs(top[0].subs)), SerializeTop(top[1..]), printed);
    }
  }

  /** What the inner printing loop has produced after j rounds. */
  function BodySoFar(subs: seq<Sub>, j: nat): Option<seq<byte>>
    requires j <= |subs|
  {
    if PackableSubs(subs[..j]) then Some(SerializeSubs(subs[..j])) else None
  }

  lemma BodyGrows(subs: seq<Sub>, sub: Sub)
    requires PackableSubs(subs) && sub.sid < TwoTo32 && |sub.body| < TwoTo32
    ensures PackableSubs(subs + [sub])
  {
  }

  lemma BodyStep(subs: seq<Sub>, j: nat, out: seq<byte>)
    requires j < |subs| && BodySoFar(subs, j) == Some(out)
    requires subs[j].sid < TwoTo32 && |subs[j].body| < TwoTo32
    ensures BodySoFar(subs, j + 1) == Some(out + Element(subs[j].sid, subs[j].body))
  {
    BodyGrows(subs[..j], subs[j]);
    SerializeSubsSnoc(subs[..j], subs[j], Element(subs[j].sid, subs[j].body));
    PrefixSnoc(subs, j);
  }

  lemma BodyDone(subs: seq<Sub>)
    ensures BodySoFar(subs, |subs|) == if PackableSubs(subs) then Some(SerializeSubs(subs)) else None
  {
    assert subs[..|subs|] == subs;
  }

  method SerializeBody(subs: seq<Sub>) returns (body: Option<seq<byte>>)
    ensures body == if PackableSubs(subs) then Some(SerializeSubs(subs)) else None
  {
    var out := [];
    for j := 0 to |subs|
      invariant BodySoFar(subs, j) == Some(out)
    {
      if subs[j].sid >= TwoTo32 || |subs[j].body| >= TwoTo32 {
        return None;
      }
      BodyStep(subs, j, out);
      out := out + Element(subs[j].sid, subs[j].body);
    }
    BodyDone(subs);
    body := Some(out);
  }

  lemma PackableGrows(top: seq<Entry>, entry: Entry)
    requires Packable(top) && PackableEntry(entry)
    ensures Packable(top + [entry])
  {
  }

  lemma FileGrows(header: seq<byte>, top: seq<Entry>, entry: Entry, printed: seq<byte>)
    requires Packable(top) && PackableEntry(entry) && printed == Element(entry.id, SerializeSubs(entry.subs))
    ensures Serialize(header, top + [entry]) == Some(header + SerializeTop(top) + printed)
  {
    PackableGrows(top, entry);
    SerializeTopSnoc(top, entry, printed);
    ConcatAssoc(header, SerializeTop(top), printed);
  }

  lemma PrefixSnoc<T>(s: seq<T>, i: nat)
    requires i < |s|
    ensures s[..i + 1] == s[..i] + [s[i]]
  {
  }

  lemma FileStart(header: seq<byte>)
    ensures Serialize(header, []) == Some(header)
  {
    assert header + SerializeTop([]) == header;
  }

  method SerializeFile(header: seq<byte>, top: seq<Entry>) returns (file: Option<seq<byte>>)
    ensures file == Serialize(header, top)
  {
    var out := header;
    FileStart(header);
    for i := 0 to |top|
      invariant Serialize(header, top[..i]) == Some(out)
    {
      var body := SerializeBody(top[i].subs);
      if body == None || |body.value| >= TwoTo32 || top[i].id >= TwoTo32 {
        assert !PackableEntry(top[i]);
        return None;
      }
      PrefixSnoc(top, i);
      FileGrows(header, top[..i], top[i], Element(top[i].id, body.value));
      out := out + Element(top[i].id, body.value);
    }
    assert top[..|top|] == top;
    file := Some(out);
  }

  method SwapBodies(subs: seq<Sub>, payload: seq<byte>) returns (swapped: seq<Sub>)
    ensures swapped == SwapData(subs, payload)
  {
    swapped := [];
    for j := 0 to |subs|
      invariant swapped == SwapData(subs, payload)[..j]
    {
      var body := subs[j].body;
      if subs[j].sid == DataId {
        body := payload;
      }
      swapped := swapped + [Sub(subs[j].sid, body)];
    }
  }

  method SwapOne(subs: seq<Sub>, name: string, swaps: seq<Swap>) returns (swapped: seq<Sub>, n: nat)
    ensures (swapped, n) == ApplySwaps(subs, name, swaps)
  {
    swapped, n := subs, 0;
    for k := 0 to |swaps|
      invariant ApplySwaps(subs, name, swaps)
             == (ApplySwaps(swapped, name, swaps[k..]).0, n + ApplySwaps(swapped, name, swaps[k..]).1)
    {
      assert swaps[k..][0] == swaps[k] && swaps[k..][1..] == swaps[k + 1..];
      if Selects(swaps[k].target, name) {
        swapped := SwapBodies(swapped, swaps[k].payload);
        n := n + 1;
      }
    }
  }

  lemma SwapTopSnoc(top: seq<Entry>, entry: Entry, swaps: seq<Swap>)
    ensures SwapTop(top + [entry], swaps).0 == SwapTop(top, swaps).0 + [SwapEntry(entry, swaps).0]
    ensures SwapTop(top + [entry], swaps).1 == SwapTop(top, swaps).1 + SwapEntry(entry, swaps).1
    decreases |top|
  {
    if top != [] {
      SwapTopSnoc(top[1..], entry, swaps);
      assert (top + [entry])[1..] == top[1..] + [entry];
    } else {
      assert top + [entry] == [entry] && [entry][1..] == [];
      assert SwapTop([], swaps) == ([], 0);
      assert SwapTop([entry], swaps).1 == SwapEntry(entry, swaps).1 + SwapTop([entry][1..], swaps).1;
    }
  }

  /** One entry of the list. */
  method SwapAt(top: array<Entry>, i: nat, swaps: seq<Swap>) returns (n: nat)
    requires i < top.Length
    modifies top
    ensures top[..] == old(top[..])[i := SwapEntry(old(top[i]), swaps).0] && n == SwapEntry(old(top[i]), swaps).1
  {
    n := 0;
    var name := NameOf(top[i].subs);
    if name.Some? {
      var subs;
      subs, n := SwapOne(top[i].subs, name.value, swaps);
      top[i] := top[i].(subs := subs);
    }
  }

  /** The list after the first i rounds of the swap loop. */
  ghost function SwappedSoFar(was: seq<Entry>, swaps: seq<Swap>, i: nat): seq<Entry>
    requires i <= |was|
  {
    SwapTop(was[..i], swaps).0 + was[i..]
  }

  lemma SwapStep(was: seq<Entry>, swaps: seq<Swap>, i: nat)
    requires i < |was|
    ensures |SwappedSoFar(was, swaps, i)| == |was| && SwappedSoFar(was, swaps, i)[i] == was[i]
    ensures SwappedSoFar(was, swaps, i)[i := SwapEntry(was[i], swaps).0] == SwappedSoFar(was, swaps, i + 1)
    ensures SwapTop(was[..i + 1], swaps).1 == SwapTop(was[..i], swaps).1 + SwapEntry(was[i], swaps).1
  {
    SwapTopPointwise(was[..i], swaps);
    SwapTopSnoc(was[..i], was[i], swaps);
    assert was[..i + 1] == was[..i] + [was[i]];
  }

  lemma SwapDone(was: seq<Entry>, swaps: seq<Swap>)
    ensures SwappedSoFar(was, swaps, 0) == was && SwapTop(was[..0], swaps).1 == 0
    ensures (SwappedSoFar(was, swaps, |was|), SwapTop(was[..|was|], swaps).1) == SwapTop(was, swaps)
  {
    assert was[..|was|] == was;
    assert SwappedSoFar(was, swaps, |was|) == SwapTop(was, swaps).0;
  }

  /** The swap loop, on the list of entries itself. */
  method SwapInPlace(top: array<Entry>, swaps: seq<Swap>) returns (n: nat)
    modifies top
    ensures (top[..], n) == SwapTop(old(top[..]), swaps)
  {
    ghost var was := top[..];
    n := 0;
    SwapDone(was, swaps);
    for i := 0 to top.Length
      invariant top[..] == SwappedSoFar(was, swaps, i)
      invariant n == SwapTop(was[..i], swaps).1
    {
      SwapStep(was, swaps, i);
      assert top[..][i] == was[i];
      var m := SwapAt(top, i, swaps);
      n := n + m;
    }
    SwapDone(was, swaps);
  }

  datatype SwapResult = BadMagic | NoEntriesMatched | CannotPack | Written(file: seq<byte>)

  /** The swap command from file to file. */
  method SwapCommand(data: seq<byte>, swaps: seq<Swap>) returns (result: SwapResult)
    ensures Parse(data) == None ==> result == BadMagic
    ensures Parse(data).Some? ==>
      var (header, top) := Parse(data).value;
      var (after, n) := SwapTop(top, swaps);
      result == if n == 0 then NoEntriesMatched
        else match Serialize(header, after) case None => CannotPack case Some(file) => Written(file)
  {
    var parsed := ParseFile(data);
    if parsed == None {
      return BadMagic;
    }
    var (header, top) := parsed.value;
    var list := new Entry[|top|](i requires 0 <= i < |top| => top[i]);
    assert list[..] == top;
    var n := SwapInPlace(list, swaps);
    if n == 0 {
      return NoEntriesMatched;
    }
    var file := SerializeFile(header, list[..]);
    result := match file case None => CannotPack case Some(f) => Written(f);
  }
}
