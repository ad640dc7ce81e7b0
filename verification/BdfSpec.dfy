/** tools/bdftool.py: the nested tag-length-value format of board-2.bin, its parser and printer, and the
    payload swap. */
module BdfSpec {
  import opened Bytes
  import opened LittleEndian
  import opened Options

  datatype Sub = Sub(sid: nat, body: seq<byte>)
  datatype Entry = Entry(id: nat, subs: seq<Sub>)

  const HeaderSize := 8

  /** "QCA-ATH11K-BOARD" and a zero byte, padded to a multiple of four in the file. */
  function Magic(): (magic: seq<byte>)
    ensures |magic| == 17
  {
    [0x51, 0x43, 0x41, 0x2D, 0x41, 0x54, 0x48, 0x31, 0x31, 0x4B, 0x2D, 0x42, 0x4F, 0x41, 0x52, 0x44, 0x00]
  }

  function Align4(n: nat): (aligned: nat)
    ensures aligned % 4 == 0 && n <= aligned < n + 4
  {
    (n + 3) / 4 * 4
  }

  /** The program clears the two low bits of n + 3. */
  lemma Align4ClearsLowBits(n: nat)
    ensures Align4(n) == n + 3 - BitAnd(n + 3, 3)
  {
    MaskIsModulo(n + 3, 2);
    assert Pow2(2) == 4;
  }

  // ---------- parsing ----------

  function IdOf(s: seq<byte>): nat
    requires |s| >= HeaderSize
  {
    Unpack(s[..4])
  }

  function LengthOf(s: seq<byte>): nat
    requires |s| >= HeaderSize
  {
    Unpack(s[4..8])
  }

  /** The body announced by the header, cut short when the data ends first. */
  function BodyOf(s: seq<byte>): seq<byte>
    requires |s| >= HeaderSize
  {
    Slice(s, HeaderSize, HeaderSize + LengthOf(s))
  }

  function After(s: seq<byte>): (rest: seq<byte>)
    requires |s| >= HeaderSize
    ensures |rest| < |s|
  {
    Rest(s, HeaderSize + Align4(LengthOf(s)))
  }

  function ParseSubs(s: seq<byte>): seq<Sub>
    decreases |s|
  {
    if |s| <= HeaderSize then [] else [Sub(IdOf(s), BodyOf(s))] + ParseSubs(After(s))
  }

  function ParseTop(buf: seq<byte>): seq<Entry>
    decreases |buf|
  {
    if |buf| <= HeaderSize then [] else [Entry(IdOf(buf), ParseSubs(BodyOf(buf)))] + ParseTop(After(buf))
  }

  /** None when the magic is wrong. */
  function Parse(data: seq<byte>): Option<(seq<byte>, seq<Entry>)>
  {
    if Slice(data, 0, |Magic()|) != Magic() then None
    else Some((Slice(data, 0, Align4(|Magic()|)), ParseTop(Rest(data, Align4(|Magic()|)))))
  }

  // ---------- printing ----------

  function Padded(body: seq<byte>): seq<byte>
  {
    body + Zeros(Align4(|body|) - |body|)
  }

  function Element(id: nat, body: seq<byte>): (out: seq<byte>)
    ensures |out| == HeaderSize + Align4(|body|)
  {
    Pack(id, 4) + Pack(|body|, 4) + Padded(body)
  }

  function SerializeSubs(subs: seq<Sub>): seq<byte>
  {
    if subs == [] then [] else Element(subs[0].sid, subs[0].body) + SerializeSubs(subs[1..])
  }

  function SerializeTop(top: seq<Entry>): seq<byte>
  {
    if top == [] then [] else Element(top[0].id, SerializeSubs(top[0].subs)) + SerializeTop(top[1..])
  }

  /** struct.pack raises on a number of 2^32 or more. */
  predicate Packable(top: seq<Entry>)
  {
    forall i :: 0 <= i < |top| ==> PackableEntry(top[i])
  }

  predicate PackableEntry(entry: Entry)
  {
    && entry.id < TwoTo32 && |SerializeSubs(entry.subs)| < TwoTo32
    && PackableSubs(entry.subs)
  }

  predicate PackableSubs(subs: seq<Sub>)
  {
    forall j :: 0 <= j < |subs| ==> subs[j].sid < TwoTo32 && |subs[j].body| < TwoTo32
  }

  function Serialize(header: seq<byte>, top: seq<Entry>): Option<seq<byte>>
  {
    if Packable(top) then Some(header + SerializeTop(top)) else None
  }

  // ---------- round trip ----------

  /** What a reader that needs more than eight bytes makes of a printed list. */
  function WithoutEmptyTail(subs: seq<Sub>): seq<Sub>
  {
    if subs != [] && subs[|subs| - 1].body == [] then subs[..|subs| - 1] else subs
  }

  function ReadBack(top: seq<Entry>): seq<Entry>
  {
    if top == [] then []
    else if |top| == 1 && top[0].subs == [] then []
    else [top[0].(subs := WithoutEmptyTail(top[0].subs))] + ReadBack(top[1..])
  }

  /** Neither the list nor any of its sublists ends in an empty body. */
  predicate NoEmptyTail(top: seq<Entry>)
  {
    && (top != [] ==> top[|top| - 1].subs != [])
    && forall i :: 0 <= i < |top| && top[i].subs != [] ==> top[i].subs[|top[i].subs| - 1].body != []
  }

  /** A printed element is read back: its header, its body, and where the next one starts. */
  lemma ElementReads(id: nat, body: seq<byte>, rest: seq<byte>)
    requires id < TwoTo32 && |body| < TwoTo32
    ensures var s := Element(id, body) + rest;
      |s| > HeaderSize ==> IdOf(s) == id && BodyOf(s) == body && After(s) == rest
  {
    var s := Element(id, body) + rest;
    assert s[..4] == Pack(id, 4) && s[4..8] == Pack(|body|, 4);
    Pack32(id);
    Pack32(|body|);
  }

  lemma ParseSubsElement(sub: Sub, rest: seq<byte>)
    requires sub.sid < TwoTo32 && |sub.body| < TwoTo32 && (rest != [] || sub.body != [])
    ensures ParseSubs(Element(sub.sid, sub.body) + rest) == [sub] + ParseSubs(rest)
  {
    ElementReads(sub.sid, sub.body, rest);
  }

  lemma ParseTopElement(id: nat, body: seq<byte>, rest: seq<byte>)
    requires id < TwoTo32 && |body| < TwoTo32 && (rest != [] || body != [])
    ensures ParseTop(Element(id, body) + rest) == [Entry(id, ParseSubs(body))] + ParseTop(rest)
  {
    ElementReads(id, body, rest);
  }

  lemma WithoutEmptyTailCons(subs: seq<Sub>)
    requires |subs| > 1 || (|subs| == 1 && subs[0].body != [])
    ensures WithoutEmptyTail(subs) == [subs[0]] + WithoutEmptyTail(subs[1..])
  {
    if |subs| > 1 {
      assert subs[1..][|subs[1..]| - 1] == subs[|subs| - 1];
      assert subs[..|subs| - 1] == [subs[0]] + subs[1..][..|subs| - 2];
    }
  }

  lemma PackableTail(subs: seq<Sub>)
    requires PackableSubs(subs) && subs != []
    ensures subs[0].sid < TwoTo32 && |subs[0].body| < TwoTo32 && PackableSubs(subs[1..])
  {
    assert forall j :: 0 <= j < |subs| - 1 ==> subs[1..][j] == subs[j + 1];
  }

  /** A lone element with an empty body is exactly the eight bytes the reader stops at. */
  lemma LoneEmptyIsDropped(sub: Sub)
    requires sub.body == []
    ensures ParseSubs(SerializeSubs([sub])) == []
  {
    assert [sub][1..] == [];
    assert |SerializeSubs([sub])| == HeaderSize;
  }

  lemma {:induction false} SubsReadBack(subs: seq<Sub>)
    requires PackableSubs(subs)
    ensures ParseSubs(SerializeSubs(subs)) == WithoutEmptyTail(subs)
    ensures SerializeSubs(subs) == [] <==> subs == []
    decreases |subs|
  {
    if subs != [] {
      PackableTail(subs);
      SubsReadBack(subs[1..]);
      if |subs| > 1 || subs[0].body != [] {
        ParseSubsElement(subs[0], SerializeSubs(subs[1..]));
        WithoutEmptyTailCons(subs);
      } else {
        LoneEmptyIsDropped(subs[0]);
        assert subs == [subs[0]] && WithoutEmptyTail(subs) == [];
      }
    }
  }

  lemma {:induction false} TopReadsBack(top: seq<Entry>)
    requires Packable(top)
    ensures ParseTop(SerializeTop(top)) == ReadBack(top)
    ensures SerializeTop(top) == [] <==> top == []
    decreases |top|
  {
    if top != [] {
      assert PackableEntry(top[0]);
      TopReadsBack(top[1..]);
      SubsReadBack(top[0].subs);
      if |top| > 1 || top[0].subs != [] {
        ParseTopElement(top[0].id, SerializeSubs(top[0].subs), SerializeTop(top[1..]));
      } else {
        assert |SerializeTop(top)| == HeaderSize;
      }
    }
  }

  lemma {:induction false} ReadBackExactly(top: seq<Entry>)
    ensures ReadBack(top) == top <==> NoEmptyTail(top)
    ensures |ReadBack(top)| <= |top|
    decreases |top|
  {
    if top != [] {
      ReadBackExactly(top[1..]);
      if !(|top| == 1 && top[0].subs == []) {
        NoEmptyTailCons(top);
        var first := top[0].(subs := WithoutEmptyTail(top[0].subs));
        assert ReadBack(top) == [first] + ReadBack(top[1..]);
        assert ReadBack(top) == top <==> first == top[0] && ReadBack(top[1..]) == top[1..] by {
          assert top == [top[0]] + top[1..];
        }
      }
    }
  }

  lemma NoEmptyTailCons(top: seq<Entry>)
    requires top != [] && !(|top| == 1 && top[0].subs == [])
    ensures NoEmptyTail(top) <==> NoEmptyTail(top[1..]) && (top[0].subs != [] ==> top[0].subs[|top[0].subs| - 1].body != [])
  {
    if NoEmptyTail(top[1..]) && (top[0].subs != [] ==> top[0].subs[|top[0].subs| - 1].body != []) {
      forall i | 0 <= i < |top| && top[i].subs != [] ensures top[i].subs[|top[i].subs| - 1].body != [] {
        assert i > 0 ==> top[i] == top[1..][i - 1];
      }
    }
    if NoEmptyTail(top) {
      assert forall i :: 0 <= i < |top| - 1 ==> top[1..][i] == top[i + 1];
    }
  }

  lemma HeaderReads(header: seq<byte>, rest: seq<byte>)
    requires |header| == Align4(|Magic()|) && Magic() <= header
    ensures Slice(header + rest, 0, |Magic()|) == Magic()
    ensures Slice(header + rest, 0, Align4(|Magic()|)) == header
    ensures Rest(header + rest, Align4(|Magic()|)) == rest
  {
    assert (header + rest)[..|Magic()|] == header[..|Magic()|];
  }

  /** The round trip, exactly: whatever can be printed is read back as it was if and only if neither the
      list nor any sublist ends in an empty body. */
  lemma RoundTripExactly(header: seq<byte>, top: seq<Entry>)
    requires |header| == Align4(|Magic()|) && Magic() <= header && Packable(top)
    ensures Serialize(header, top).Some?
    ensures Parse(Serialize(header, top).value) == Some((header, ReadBack(top)))
    ensures Parse(Serialize(header, top).value) == Some((header, top)) <==> NoEmptyTail(top)
  {
    HeaderReads(header, SerializeTop(top));
    TopReadsBack(top);
    ReadBackExactly(top);
  }
}
