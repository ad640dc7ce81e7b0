/** The swap command: which entries a name selects and what becomes of their data bodies. */
module BdfSwap {
  import opened BdfSpec
  import opened Bytes
  import opened Options

  datatype Swap = Swap(target: string, payload: seq<byte>)

  const NameId := 0
  const DataId := 1

  // ---------- names ----------

  predicate Ascii(bytes: seq<byte>)
  {
    forall i :: 0 <= i < |bytes| ==> bytes[i] < 0x80
  }

  function Decoded(bytes: seq<byte>): string
    requires Ascii(bytes)
  {
    seq(|bytes|, i requires 0 <= i < |bytes| => bytes[i] as char)
  }

  function HexDigit(n: nat): char
    requires n < 16
  {
    "0123456789abcdef"[n]
  }

  function Escaped(b: byte, quote: char): string
  {
    if b == 0x5C || (b < 0x80 && b as char == quote) then ['\\', b as char]
    else if b == 0x09 then "\\t"
    else if b == 0x0A then "\\n"
    else if b == 0x0D then "\\r"
    else if b < 0x20 || b >= 0x7F then ['\\', 'x', HexDigit(b / 16), HexDigit(b % 16)]
    else [b as char]
  }

  function EscapedAll(bytes: seq<byte>, quote: char): string
  {
    if bytes == [] then [] else Escaped(bytes[0], quote) + EscapedAll(bytes[1..], quote)
  }

  /** Python's repr of a bytes value. */
  function Repr(bytes: seq<byte>): string
  {
    var quote := if 0x27 in bytes && 0x22 !in bytes then '\"' else '\'';
    ['b', quote] + EscapedAll(bytes, quote) + [quote]
  }

  function NameOfBytes(bytes: seq<byte>): string
  {
    if Ascii(bytes) then Decoded(bytes) else Repr(bytes)
  }

  function NameOf(subs: seq<Sub>): Option<string>
  {
    if subs == [] then None
    else if subs[0].sid == NameId then Some(NameOfBytes(subs[0].body))
    else NameOf(subs[1..])
  }

  const VariantMark: string := ",variant="

  predicate MarkAt(name: string, i: nat)
  {
    i + |VariantMark| <= |name| && name[i..i + |VariantMark|] == VariantMark
  }

  /** name.split(",variant=")[0] */
  function BaseName(name: string): string
  {
    if MarkAt(name, 0) || name == "" then "" else [name[0]] + BaseName(name[1..])
  }

  lemma MarkShifts(name: string, i: nat)
    requires name != "" && i > 0
    ensures MarkAt(name, i) <==> MarkAt(name[1..], i - 1)
  {
    if i + |VariantMark| <= |name| {
      assert name[i..i + |VariantMark|] == name[1..][i - 1..i - 1 + |VariantMark|];
    }
  }

  /** The base name ends at the first variant mark, or is the whole name when there is none. */
  lemma {:induction false} BaseNameEndsAtFirstMark(name: string)
    ensures BaseName(name) <= name
    ensures BaseName(name) != name ==> MarkAt(name, |BaseName(name)|)
    ensures forall i :: 0 <= i < |BaseName(name)| ==> !MarkAt(name, i)
  {
    if !MarkAt(name, 0) && name != "" {
      var rest := name[1..];
      BaseNameEndsAtFirstMark(rest);
      forall i | 0 <= i < |BaseName(name)| ensures !MarkAt(name, i) {
        if i > 0 {
          assert !MarkAt(rest, i - 1);
          MarkShifts(name, i);
        }
      }
      assert name == [name[0]] + rest;
      if BaseName(name) != name {
        MarkShifts(name, |BaseName(name)|);
      }
    }
  }

  predicate Selects(target: string, name: string)
  {
    name == target || BaseName(name) == target
  }

  /** A target selects a name exactly if it is the whole name, or is what stands before the name's first variant mark. */
  lemma SelectsExactly(target: string, name: string)
    ensures Selects(target, name)
      <==> || target == name
           || (|target| <= |name| && name[..|target|] == target && MarkAt(name, |target|)
               && forall i :: 0 <= i < |target| ==> !MarkAt(name, i))
  {
    BaseNameEndsAtFirstMark(name);
    assert name[..|BaseName(name)|] == BaseName(name);
  }

  // ---------- the loops, as functions ----------

  function SwapData(subs: seq<Sub>, payload: seq<byte>): (swapped: seq<Sub>)
    ensures |swapped| == |subs|
  {
    seq(|subs|, j requires 0 <= j < |subs| =>
      if subs[j].sid == DataId then subs[j].(body := payload) else subs[j])
  }

  function ApplySwaps(subs: seq<Sub>, name: string, swaps: seq<Swap>): (seq<Sub>, nat)
    decreases |swaps|
  {
    if swaps == [] then (subs, 0)
    else if Selects(swaps[0].target, name) then
      var (rest, n) := ApplySwaps(SwapData(subs, swaps[0].payload), name, swaps[1..]);
      (rest, n + 1)
    else ApplySwaps(subs, name, swaps[1..])
  }

  function SwapEntry(entry: Entry, swaps: seq<Swap>): (Entry, nat)
  {
    match NameOf(entry.subs)
    case None => (entry, 0)
    case Some(name) =>
      var (subs, n) := ApplySwaps(entry.subs, name, swaps);
      (entry.(subs := subs), n)
  }

  function SwapTop(top: seq<Entry>, swaps: seq<Swap>): (seq<Entry>, nat)
    decreases |top|
  {
    if top == [] then ([], 0)
    else
      var (first, n) := SwapEntry(top[0], swaps);
      var (rest, m) := SwapTop(top[1..], swaps);
      ([first] + rest, n + m)
  }

  // ---------- what the loops mean ----------

  predicate Selected(entry: Entry, swap: Swap)
  {
    NameOf(entry.subs).Some? && Selects(swap.target, NameOf(entry.subs).value)
  }

  /** k is the last swap that selects the entry. */
  predicate Decides(entry: Entry, swaps: seq<Swap>, k: nat)
  {
    && k < |swaps| && Selected(entry, swaps[k])
    && forall j :: k < j < |swaps| ==> !Selected(entry, swaps[j])
  }

  predicate Untouched(entry: Entry, swaps: seq<Swap>)
  {
    forall k :: 0 <= k < |swaps| ==> !Selected(entry, swaps[k])
  }

  lemma SwapDataTwice(subs: seq<Sub>, first: seq<byte>, second: seq<byte>)
    ensures SwapData(SwapData(subs, first), second) == SwapData(subs, second)
  {
  }

  lemma {:induction false} NoSwapSelectsExactly(subs: seq<Sub>, name: string, swaps: seq<Swap>)
    ensures (forall k :: 0 <= k < |swaps| ==> !Selects(swaps[k].target, name)) <==> ApplySwaps(subs, name, swaps).1 == 0
    ensures ApplySwaps(subs, name, swaps).1 == 0 ==> ApplySwaps(subs, name, swaps).0 == subs
    decreases |swaps|
  {
    if swaps != [] {
      var rest := swaps[1..];
      if !Selects(swaps[0].target, name) {
        NoSwapSelectsExactly(subs, name, rest);
        assert forall k :: 1 <= k < |swaps| ==> swaps[k] == rest[k - 1];
        assert forall k :: 0 <= k < |rest| ==> rest[k] == swaps[k + 1];
      } else {
        var n: nat := ApplySwaps(SwapData(subs, swaps[0].payload), name, rest).1;
        assert ApplySwaps(subs, name, swaps).1 == n + 1;
      }
    }
  }

  lemma {:induction false} LastSwapWins(subs: seq<Sub>, name: string, swaps: seq<Swap>, k: nat)
    requires k < |swaps| && Selects(swaps[k].target, name)
    requires forall j :: k < j < |swaps| ==> !Selects(swaps[j].target, name)
    ensures ApplySwaps(subs, name, swaps).0 == SwapData(subs, swaps[k].payload)
    decreases |swaps|
  {
    var rest := swaps[1..];
    assert forall j :: 1 <= j < |swaps| ==> swaps[j] == rest[j - 1];
    var next := if Selects(swaps[0].target, name) then SwapData(subs, swaps[0].payload) else subs;
    if k == 0 {
      assert forall j :: 0 <= j < |rest| ==> rest[j] == swaps[j + 1];
      NoSwapSelectsExactly(next, name, rest);
    } else {
      assert forall j :: k - 1 < j < |rest| ==> rest[j] == swaps[j + 1];
      LastSwapWins(next, name, rest, k - 1);
      SwapDataTwice(subs, swaps[0].payload, swaps[k].payload);
    }
  }

  /** One entry: no swap selects it and it is unchanged, or the last one that does replaces every data body
      and nothing else. */
  lemma SwapEntryMeans(entry: Entry, swaps: seq<Swap>)
    ensures var (after, n) := SwapEntry(entry, swaps);
      && (Untouched(entry, swaps) <==> n == 0)
      && (n == 0 ==> after == entry)
      && after.id == entry.id
    ensures var (after, _) := SwapEntry(entry, swaps);
      forall k: nat :: Decides(entry, swaps, k) ==> after.subs == SwapData(entry.subs, swaps[k].payload)
  {
    if NameOf(entry.subs).Some? {
      var name := NameOf(entry.subs).value;
      NoSwapSelectsExactly(entry.subs, name, swaps);
      forall k: nat | Decides(entry, swaps, k)
        ensures SwapEntry(entry, swaps).0.subs == SwapData(entry.subs, swaps[k].payload)
      {
        LastSwapWins(entry.subs, name, swaps, k);
      }
    }
  }

  lemma {:induction false} SwapTopPointwise(top: seq<Entry>, swaps: seq<Swap>)
    ensures var (after, n) := SwapTop(top, swaps);
      && |after| == |top|
      && (n == 0 <==> forall i :: 0 <= i < |top| ==> SwapEntry(top[i], swaps).1 == 0)
    ensures var (after, _) := SwapTop(top, swaps);
      forall i :: 0 <= i < |top| && i < |after| ==> after[i] == SwapEntry(top[i], swaps).0
    decreases |top|
  {
    if top != [] {
      SwapTopPointwise(top[1..], swaps);
      assert forall i :: 1 <= i < |top| ==> top[i] == top[1..][i - 1];
    }
  }

  /** Swap frame: every entry keeps its place, its identifier, its number of bodies and their identifiers;
      bodies other than data bodies are unchanged everywhere; an entry no swap selects is unchanged; a
      selected one has every data body replaced by the payload of the last swap that selects it. */
  lemma SwapFrame(top: seq<Entry>, swaps: seq<Swap>, i: nat)
    requires i < |top|
    ensures var (after, _) := SwapTop(top, swaps);
      && |after| == |top| && after[i].id == top[i].id && |after[i].subs| == |top[i].subs|
      && (Untouched(top[i], swaps) ==> after[i] == top[i])
      && (forall j :: 0 <= j < |top[i].subs| ==> after[i].subs[j].sid == top[i].subs[j].sid)
      && (forall j :: 0 <= j < |top[i].subs| && top[i].subs[j].sid != DataId ==>
            after[i].subs[j].body == top[i].subs[j].body)
      && (forall j, k: nat :: 0 <= j < |top[i].subs| && top[i].subs[j].sid == DataId && Decides(top[i], swaps, k) ==>
            after[i].subs[j].body == swaps[k].payload)
  {
    SwapTopPointwise(top, swaps);
    SwapEntryMeans(top[i], swaps);
    if !Untouched(top[i], swaps) {
      var k := LastSelecting(top[i], swaps);
      assert Decides(top[i], swaps, k);
    }
  }

  lemma {:induction false} LastSelecting(entry: Entry, swaps: seq<Swap>) returns (k: nat)
    requires !Untouched(entry, swaps)
    ensures Decides(entry, swaps, k)
    decreases |swaps|
  {
    var last := |swaps| - 1;
    if Selected(entry, swaps[last]) {
      k := last;
    } else {
      k := LastSelecting(entry, swaps[..last]);
      assert forall j :: k < j < last ==> swaps[j] == swaps[..last][j];
    }
  }

  /** The command fails exactly when no swap selects any entry. */
  lemma NothingMatchedExactly(top: seq<Entry>, swaps: seq<Swap>)
    ensures SwapTop(top, swaps).1 == 0 <==> forall i :: 0 <= i < |top| ==> Untouched(top[i], swaps)
  {
    SwapTopPointwise(top, swaps);
    forall i | 0 <= i < |top| {
      SwapEntryMeans(top[i], swaps);
    }
  }

  // ---------- repeating a swap ----------

  lemma {:induction false} NameSurvives(subs: seq<Sub>, payload: seq<byte>)
    ensures NameOf(SwapData(subs, payload)) == NameOf(subs)
  {
    if subs != [] {
      NameSurvives(subs[1..], payload);
      assert SwapData(subs, payload)[1..] == SwapData(subs[1..], payload);
    }
  }

  lemma SwapEntryTwice(entry: Entry, swaps: seq<Swap>)
    ensures SwapEntry(SwapEntry(entry, swaps).0, swaps).0 == SwapEntry(entry, swaps).0
  {
    var after := SwapEntry(entry, swaps).0;
    SwapEntryMeans(entry, swaps);
    SwapEntryMeans(after, swaps);
    if !Untouched(entry, swaps) {
      var k := LastSelecting(entry, swaps);
      NameSurvives(entry.subs, swaps[k].payload);
      assert Decides(after, swaps, k);
      SwapDataTwice(entry.subs, swaps[k].payload, swaps[k].payload);
    }
  }

  /** Swapping the result again with the same arguments changes nothing: a swap cannot make an entry match
      that did not, because names are never data bodies. */
  lemma SwapIsIdempotent(top: seq<Entry>, swaps: seq<Swap>)
    ensures SwapTop(SwapTop(top, swaps).0, swaps).0 == SwapTop(top, swaps).0
  {
    var once := SwapTop(top, swaps).0;
    SwapTopPointwise(top, swaps);
    SwapTopPointwise(once, swaps);
    forall i | 0 <= i < |top| {
      SwapEntryTwice(top[i], swaps);
    }
  }

  // ---------- reading the written file ----------

  /** The swapped-in payload is empty and lands in the last body of the entry. */
  predicate EmptiesTail(entry: Entry, swaps: seq<Swap>)
  {
    && entry.subs != [] && entry.subs[|entry.subs| - 1].sid == DataId
    && exists k :: 0 <= k < |swaps| && Decides(entry, swaps, k) && swaps[k].payload == []
  }

  lemma TailAfterSwap(entry: Entry, swaps: seq<Swap>)
    requires entry.subs != [] && entry.subs[|entry.subs| - 1].body != []
    ensures var after := SwapEntry(entry, swaps).0;
      |after.subs| == |entry.subs| && (after.subs[|after.subs| - 1].body == [] <==> EmptiesTail(entry, swaps))
  {
    SwapEntryMeans(entry, swaps);
    if !Untouched(entry, swaps) {
      var k := LastSelecting(entry, swaps);
      assert forall k': nat :: Decides(entry, swaps, k') ==> k' == k;
    }
  }

  lemma TailsAfterSwap(top: seq<Entry>, swaps: seq<Swap>, i: nat)
    requires NoEmptyTail(top) && i < |top|
    ensures var after := SwapTop(top, swaps).0;
      && |after| == |top| && (top[i].subs == [] <==> after[i].subs == [])
      && (after[i].subs != [] && after[i].subs[|after[i].subs| - 1].body == [] <==> EmptiesTail(top[i], swaps))
  {
    SwapTopPointwise(top, swaps);
    if top[i].subs == [] {
      SwapEntryMeans(top[i], swaps);
    } else {
      TailAfterSwap(top[i], swaps);
    }
  }

  lemma NoEmptyTailAfterSwapExactly(top: seq<Entry>, swaps: seq<Swap>)
    requires NoEmptyTail(top)
    ensures NoEmptyTail(SwapTop(top, swaps).0) <==> forall i :: 0 <= i < |top| ==> !EmptiesTail(top[i], swaps)
  {
    SwapTopPointwise(top, swaps);
    forall i | 0 <= i < |top|
      ensures top[i].subs == [] <==> SwapTop(top, swaps).0[i].subs == []
      ensures SwapTop(top, swaps).0[i].subs != [] && SwapTop(top, swaps).0[i].subs[|SwapTop(top, swaps).0[i].subs| - 1].body == []
              <==> EmptiesTail(top[i], swaps)
    {
      TailsAfterSwap(top, swaps, i);
    }
    AllTails(top, SwapTop(top, swaps).0, swaps);
  }

  lemma AllTails(top: seq<Entry>, after: seq<Entry>, swaps: seq<Swap>)
    requires NoEmptyTail(top) && |after| == |top|
    requires forall i :: 0 <= i < |top| ==> (top[i].subs == [] <==> after[i].subs == [])
    requires forall i :: 0 <= i < |top| ==>
      (after[i].subs != [] && after[i].subs[|after[i].subs| - 1].body == [] <==> EmptiesTail(top[i], swaps))
    ensures NoEmptyTail(after) <==> forall i :: 0 <= i < |top| ==> !EmptiesTail(top[i], swaps)
  {
    if top != [] {
      assert top[|top| - 1].subs == [] <==> after[|top| - 1].subs == [];
    }
  }

  /** The written file reads back as the swapped list, unless an empty payload became the last body of an
      entry: then that body is lost. */
  lemma SwappedFileReadsBackExactly(header: seq<byte>, top: seq<Entry>, swaps: seq<Swap>)
    requires |header| == Align4(|Magic()|) && Magic() <= header && NoEmptyTail(top)
    requires Packable(SwapTop(top, swaps).0)
    ensures Parse(Serialize(header, SwapTop(top, swaps).0).value) == Some((header, SwapTop(top, swaps).0))
        <==> forall i :: 0 <= i < |top| ==> !EmptiesTail(top[i], swaps)
  {
    RoundTripExactly(header, SwapTop(top, swaps).0);
    NoEmptyTailAfterSwapExactly(top, swaps);
  }
}
