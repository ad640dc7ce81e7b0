/** The name tools/bdftool.py compares with its targets: the text of an ASCII body, or Python's literal for the bytes. */
module BdfNames {
  import opened BdfSpec
  import opened BdfSwap
  import opened Bytes
  import opened Options

  /** The magic of a board file is this text and a zero byte. */
  lemma MagicIsText()
    ensures |Magic()| == 17 && Magic()[16] == 0
    ensures forall i :: 0 <= i < 16 ==> Magic()[i] == "QCA-ATH11K-BOARD"[i] as int
  {
  }

  /** An ASCII body is its own characters; any other is written as a literal. */
  lemma NameExactly(bytes: seq<byte>)
    ensures (forall i :: 0 <= i < |bytes| ==> bytes[i] < 128) ==>
      |NameOfBytes(bytes)| == |bytes| && forall i :: 0 <= i < |bytes| ==> NameOfBytes(bytes)[i] as int == bytes[i]
    ensures (exists i :: 0 <= i < |bytes| && bytes[i] >= 128) ==> NameOfBytes(bytes) == Repr(bytes)
  {
  }

  /** An entry's name is that of its first body with id 0; without one it has none. */
  lemma {:induction false} FirstNameCounts(subs: seq<Sub>, i: nat)
    ensures NameOf(subs) == None <==> forall j :: 0 <= j < |subs| ==> subs[j].sid != 0
    ensures i < |subs| && subs[i].sid == 0 && (forall j :: 0 <= j < i ==> subs[j].sid != 0) ==>
      NameOf(subs) == Some(NameOfBytes(subs[i].body))
    decreases |subs|
  {
    if subs != [] {
      FirstNameCounts(subs[1..], if i > 0 then i - 1 else 0);
      assert forall j :: 0 <= j < |subs| - 1 ==> subs[1..][j] == subs[j + 1];
    }
  }

  /** A swap replaces every body with id 1, and nothing else. */
  lemma DataReplaced(subs: seq<Sub>, payload: seq<byte>, j: nat)
    requires j < |subs|
    ensures SwapData(subs, payload)[j].sid == subs[j].sid
    ensures SwapData(subs, payload)[j].body == if subs[j].sid == 1 then payload else subs[j].body
  {
  }

  /** The variant mark is nine characters. */
  lemma MarkExactly(name: string, i: nat)
    ensures MarkAt(name, i) <==> i + 9 <= |name| && name[i..i + 9] == ",variant="
  {
  }

  // ---------- a reader of bytes literals ----------

  function HexValue(c: char): Option<nat>
  {
    if '0' <= c <= '9' then Some(c as int - '0' as int)
    else if 'a' <= c <= 'f' then Some(c as int - 'a' as int + 10)
    else None
  }

  function Cons(b: int, rest: Option<seq<byte>>): Option<seq<byte>>
  {
    if rest.Some? && 0 <= b < 0x100 then Some([b] + rest.value) else None
  }

  /** The bytes from here to the closing quote, which must be the last character. */
  function ReadBody(text: string, quote: char): Option<seq<byte>>
    decreases |text|
  {
    if text == "" then None
    else if text[0] == quote then if |text| == 1 then Some([]) else None
    else if text[0] != '\\' then Cons(text[0] as int, ReadBody(text[1..], quote))
    else if |text| < 2 then None
    else
      match text[1]
      case 't' => Cons(9, ReadBody(text[2..], quote))
      case 'n' => Cons(10, ReadBody(text[2..], quote))
      case 'r' => Cons(13, ReadBody(text[2..], quote))
      case 'x' =>
        if |text| < 4 || HexValue(text[2]) == None || HexValue(text[3]) == None then None
        else Cons(16 * HexValue(text[2]).value + HexValue(text[3]).value, ReadBody(text[4..], quote))
      case c => if c == '\\' || c == quote then Cons(c as int, ReadBody(text[2..], quote)) else None
  }

  function ReadLiteral(text: string): Option<seq<byte>>
  {
    if |text| < 2 || text[0] != 'b' || (text[1] != '\'' && text[1] != '\"') then None else ReadBody(text[2..], text[1])
  }

  lemma HexReadsBack(n: nat)
    requires n < 16
    ensures HexValue(HexDigit(n)) == Some(n) && ('0' <= HexDigit(n) <= '9' || 'a' <= HexDigit(n) <= 'f')
  {
  }

  lemma EscapedReadsBack(b: byte, quote: char, rest: string)
    requires quote == '\'' || quote == '\"'
    ensures ReadBody(Escaped(b, quote) + rest, quote) == Cons(b, ReadBody(rest, quote))
  {
    var escaped := Escaped(b, quote);
    if |escaped| == 4 {
      HexReadsBack(b / 16);
      HexReadsBack(b % 16);
      HexEscapeReads(HexDigit(b / 16), HexDigit(b % 16), quote, rest);
    } else if |escaped| == 2 {
      ShortEscapeReads(escaped[1], quote, rest);
      assert escaped == ['\\', escaped[1]];
    } else {
      assert ([b as char] + rest)[1..] == rest;
    }
  }

  lemma HexEscapeReads(hi: char, lo: char, quote: char, rest: string)
    requires HexValue(hi).Some? && HexValue(lo).Some? && quote != '\\'
    ensures ReadBody(['\\', 'x', hi, lo] + rest, quote)
         == Cons(16 * HexValue(hi).value + HexValue(lo).value, ReadBody(rest, quote))
  {
    assert (['\\', 'x', hi, lo] + rest)[4..] == rest;
  }

  lemma ShortEscapeReads(c: char, quote: char, rest: string)
    requires quote == '\'' || quote == '\"'
    requires c == 't' || c == 'n' || c == 'r' || c == '\\' || c == quote
    ensures ReadBody(['\\', c] + rest, quote)
         == Cons(if c == 't' then 9 else if c == 'n' then 10 else if c == 'r' then 13 else c as int,
                 ReadBody(rest, quote))
  {
    assert (['\\', c] + rest)[2..] == rest;
  }

  lemma {:induction false} AllReadBack(bytes: seq<byte>, quote: char)
    requires quote == '\'' || quote == '\"'
    ensures ReadBody(EscapedAll(bytes, quote) + [quote], quote) == Some(bytes)
    decreases |bytes|
  {
    if bytes == [] {
      assert EscapedAll(bytes, quote) + [quote] == [quote];
    } else {
      var rest := EscapedAll(bytes[1..], quote) + [quote];
      AllReadBack(bytes[1..], quote);
      EscapedReadsBack(bytes[0], quote, rest);
      assert EscapedAll(bytes, quote) + [quote] == Escaped(bytes[0], quote) + rest;
      assert [bytes[0]] + bytes[1..] == bytes;
    }
  }

  /** The literal reads back as the bytes, so that no two bodies have the same literal; its quote is the double one exactly
      if the bytes hold single ones only. */
  lemma LiteralReadsBack(bytes: seq<byte>)
    ensures ReadLiteral(Repr(bytes)) == Some(bytes)
    ensures Repr(bytes)[1] == '\"' <==> 39 in bytes && 34 !in bytes
  {
    var quote := Repr(bytes)[1];
    AllReadBack(bytes, quote);
    assert Repr(bytes)[2..] == EscapedAll(bytes, quote) + [quote];
  }

  lemma EscapedPrintable(b: byte, quote: char)
    requires quote == '\'' || quote == '\"'
    ensures forall i :: 0 <= i < |Escaped(b, quote)| ==> ' ' <= Escaped(b, quote)[i] <= '~'
    ensures 32 <= b < 127 && b != 92 && b as char != quote ==> Escaped(b, quote) == [b as char]
    ensures b == 9 ==> Escaped(b, quote) == ['\\', 't']
    ensures b == 10 ==> Escaped(b, quote) == ['\\', 'n']
    ensures b == 13 ==> Escaped(b, quote) == ['\\', 'r']
  {
    HexReadsBack(b / 16);
    HexReadsBack(b % 16);
  }

  lemma {:induction false} AllPrintable(bytes: seq<byte>, quote: char)
    requires quote == '\'' || quote == '\"'
    ensures forall i :: 0 <= i < |EscapedAll(bytes, quote)| ==> ' ' <= EscapedAll(bytes, quote)[i] <= '~'
    decreases |bytes|
  {
    if bytes != [] {
      AllPrintable(bytes[1..], quote);
      EscapedPrintable(bytes[0], quote);
    }
  }

  /** A literal is printable ASCII, whatever the bytes. */
  lemma LiteralIsPrintable(bytes: seq<byte>)
    ensures forall i :: 0 <= i < |Repr(bytes)| ==> ' ' <= Repr(bytes)[i] <= '~'
  {
    AllPrintable(bytes, Repr(bytes)[1]);
  }
}
