/** Chains as user space writes them, and what star_transceive promises about them: commands in, bodies out. */
module StarEncoding {
  import opened Bytes
  import opened Options
  import opened StarSpec

  /** What a command expects of its response: nothing, a suffix with two flags and thirty unused bits, or a field too
      short for its flag word. */
  datatype Expected =
    | NoField
    | Field(next: bool, again: bool, unused: nat, suffix: seq<byte>)
    | Short(bytes: seq<byte>)

  datatype AnyCommand = Command(apdu: seq<byte>, expected: Expected)

  /** A command whose numbers fit their words. */
  type Command = c: AnyCommand | Fits(c) witness Command([], NoField)

  predicate Fits(c: AnyCommand)
  {
    && |c.apdu| < TwoTo32
    && match c.expected
       case NoField => true
       case Field(_, _, unused, suffix) => unused < 0x4000_0000 && |suffix| < TwoTo32 - 4
       case Short(bytes) => 0 < |bytes| < 4
  }

  // ---------- the encoding ----------

  function Word(n: nat): (bytes: seq<byte>)
    requires n < TwoTo32
    ensures |bytes| == 4
  {
    [n / 0x100_0000, n / 0x1_0000 % 0x100, n / 0x100 % 0x100, n % 0x100]
  }

  function Flags(next: bool, again: bool, unused: nat): nat
  {
    4 * unused + (if again then 2 else 0) + (if next then 1 else 0)
  }

  function FieldBytes(c: Command): (field: seq<byte>)
    ensures |field| < TwoTo32
  {
    match c.expected
    case NoField => []
    case Field(next, again, unused, suffix) => Word(Flags(next, again, unused)) + suffix
    case Short(bytes) => bytes
  }

  /** A command as element i of a chain. */
  function CommandBytes(c: Command, i: nat): seq<byte>
    requires i < TwoTo32
  {
    Word(i) + Word(|c.apdu|) + Word(|FieldBytes(c)|) + c.apdu + FieldBytes(c)
  }

  function CommandsFrom(commands: seq<Command>, i: nat): seq<byte>
    requires i + |commands| <= TwoTo32
  {
    if commands == [] then [] else CommandBytes(commands[0], i) + CommandsFrom(commands[1..], i + 1)
  }

  function ChainBytes(commands: seq<Command>): seq<byte>
    requires |commands| < TwoTo32
  {
    Word(|commands|) + CommandsFrom(commands, 0)
  }

  // ---------- reading it back ----------

  /** The element the driver makes of a command. */
  function ElementOf(c: Command): Element
  {
    Element(c.apdu, match c.expected
                    case NoField => Anything
                    case Field(next, again, unused, suffix) => Suffix(Flags(next, again, unused), suffix)
                    case Short(_) => TooShort)
  }

  function ElementsOf(commands: seq<Command>): (chain: seq<Element>)
    ensures |chain| == |commands|
    ensures forall k :: 0 <= k < |commands| ==> chain[k] == ElementOf(commands[k])
  {
    if commands == [] then [] else [ElementOf(commands[0])] + ElementsOf(commands[1..])
  }

  lemma WordReadsBack(n: nat, bytes: seq<byte>)
    requires n < TwoTo32 && Word(n) <= bytes
    ensures BigEndian32(bytes) == n
  {
    assert n == 0x1_0000 * (n / 0x1_0000) + 0x100 * (n / 0x100 % 0x100) + n % 0x100;
    assert n / 0x1_0000 == 0x100 * (n / 0x100_0000) + n / 0x1_0000 % 0x100;
    assert forall k :: 0 <= k < 4 ==> bytes[k] == Word(n)[k];
  }

  lemma FieldReadsBack(c: Command)
    ensures ReadExpectation(FieldBytes(c)) == ElementOf(c).expectation
  {
    match c.expected
    case Field(next, again, unused, suffix) => WordReadsBack(Flags(next, again, unused), FieldBytes(c));
    case _ =>
  }

  /** The three words and the two bodies of an element, found again in front of anything. */
  lemma Pieces(a: seq<byte>, b: seq<byte>, c: seq<byte>, apdu: seq<byte>, field: seq<byte>, tail: seq<byte>)
    requires |a| == |b| == |c| == 4
    ensures var rest := a + b + c + apdu + field + tail;
      && a <= rest && b <= rest[4..] && c <= rest[8..]
      && rest[12..][..|apdu|] == apdu && rest[12..][|apdu|..|apdu| + |field|] == field
      && rest[12..][|apdu| + |field|..] == tail
  {
    var rest := a + b + c + apdu + field + tail;
    assert rest[12..] == apdu + field + tail;
    assert rest[4..] == b + (c + apdu + field + tail);
    assert rest[8..] == c + (apdu + field + tail);
  }

  lemma ElementReadsBack(c: Command, i: nat, tail: seq<byte>)
    requires i < TwoTo32 && |CommandBytes(c, i) + tail| < TwoTo32
    ensures if c.apdu == [] && FieldBytes(c) == [] && tail == [] then
        ReadElement(CommandBytes(c, i) + tail, i) == None && ElementOf(c) == Unreadable()
      else ReadElement(CommandBytes(c, i) + tail, i) == Some((ElementOf(c), tail))
  {
    var rest := CommandBytes(c, i) + tail;
    Pieces(Word(i), Word(|c.apdu|), Word(|FieldBytes(c)|), c.apdu, FieldBytes(c), tail);
    WordReadsBack(i, rest);
    WordReadsBack(|c.apdu|, rest[4..]);
    WordReadsBack(|FieldBytes(c)|, rest[8..]);
    SizesRejectedExactly(|rest[12..]|, |c.apdu|, |FieldBytes(c)|);
    FieldReadsBack(c);
  }

  lemma FrontReadsBack(commands: seq<Command>, i: nat, bytes: seq<byte>, tail: seq<byte>)
    requires i + |commands| <= TwoTo32 && commands != []
    requires bytes == CommandsFrom(commands, i) && |bytes| < TwoTo32
    requires tail == CommandsFrom(commands[1..], i + 1)
    ensures |tail| < |bytes|
    ensures ReadElement(bytes, i) == (if ReadElement(bytes, i).None? then None else Some((ElementOf(commands[0]), tail)))
    ensures ReadElement(bytes, i).None? ==> ElementOf(commands[0]) == Unreadable() && tail == []
  {
    ElementReadsBack(commands[0], i, tail);
  }

  lemma OneThenRest(bytes: seq<byte>, i: nat, count: nat, element: Element, tail: seq<byte>)
    requires i < count && |tail| < |bytes| < TwoTo32
    requires ReadElement(bytes, i) == if ReadElement(bytes, i).None? then None else Some((element, tail))
    requires ReadElement(bytes, i).None? ==> element == Unreadable() && i + 1 == count
    ensures ReadChain(bytes, i, count) == [element] + ReadChain(tail, i + 1, count)
  {
  }

  lemma FrontThenRest(commands: seq<Command>, i: nat, count: nat, bytes: seq<byte>, tail: seq<byte>)
    requires count == i + |commands| <= TwoTo32 && commands != []
    requires bytes == CommandsFrom(commands, i) && |bytes| < TwoTo32
    requires tail == CommandsFrom(commands[1..], i + 1)
    ensures |tail| < |bytes| && ReadChain(bytes, i, count) == [ElementOf(commands[0])] + ReadChain(tail, i + 1, count)
  {
    FrontReadsBack(commands, i, bytes, tail);
    if tail == [] {
      NothingFollows(commands[1..], i + 1);
    }
    OneThenRest(bytes, i, count, ElementOf(commands[0]), tail);
  }

  lemma {:induction false} CommandsReadBack(commands: seq<Command>, i: nat, count: nat, bytes: seq<byte>)
    requires count == i + |commands| <= TwoTo32
    requires bytes == CommandsFrom(commands, i) && |bytes| < TwoTo32
    ensures ReadChain(bytes, i, count) == ElementsOf(commands)
    decreases |commands|
  {
    if commands != [] {
      var tail := CommandsFrom(commands[1..], i + 1);
      FrontThenRest(commands, i, count, bytes, tail);
      CommandsReadBack(commands[1..], i + 1, count, tail);
    }
  }

  lemma NothingFollows(commands: seq<Command>, i: nat)
    requires i + |commands| <= TwoTo32 && CommandsFrom(commands, i) == []
    ensures commands == []
  {
  }

  /** Reading the encoded commands gives them back. */
  lemma ChainReadsBack(commands: seq<Command>)
    requires |commands| < TwoTo32 && |ChainBytes(commands)| < TwoTo32
    ensures var cmd := ChainBytes(commands);
      && |cmd| >= ChainNumSize && BigEndian32(cmd) == |commands|
      && ReadChain(cmd[ChainNumSize..], 0, |commands|) == ElementsOf(commands)
  {
    var cmd := ChainBytes(commands);
    WordReadsBack(|commands|, cmd);
    assert cmd[ChainNumSize..] == CommandsFrom(commands, 0);
    CommandsReadBack(commands, 0, |commands|, CommandsFrom(commands, 0));
  }

  // ---------- what a response is taken for ----------

  /** The response is some body and this suffix. */
  ghost predicate EndsIn(response: seq<byte>, suffix: seq<byte>)
  {
    exists body: seq<byte> :: response == body + suffix
  }

  /** The response is one the command expects. */
  ghost predicate Satisfies(c: Command, response: seq<byte>)
  {
    match c.expected
    case NoField => true
    case Field(_, _, _, suffix) => EndsIn(response, suffix)
    case Short(_) => false
  }

  predicate AsksAgain(c: Command)
  {
    c.expected.Field? && c.expected.again
  }

  /** A response mismatches exactly if it is not some body with the expected suffix behind it. */
  lemma MismatchExactly(c: Command, response: seq<byte>)
    ensures !Mismatch(ElementOf(c).expectation, response) <==> Satisfies(c, response)
    ensures Again(ElementOf(c).expectation) <==> AsksAgain(c)
  {
    if c.expected.Field? {
      SuffixExactly(response, c.expected.suffix);
    }
  }

  lemma SuffixExactly(response: seq<byte>, suffix: seq<byte>)
    ensures EndsWith(response, suffix) <==> EndsIn(response, suffix)
  {
    if EndsWith(response, suffix) {
      assert response == response[..|response| - |suffix|] + suffix;
    }
    if body: seq<byte> :| response == body + suffix {
      assert response[|response| - |suffix|..] == suffix;
    }
  }

  /** What is left of a response when its status word, the last two bytes, is gone. */
  ghost predicate BodyOf(response: seq<byte>, body: seq<byte>)
  {
    if |response| < 2 then body == [] else exists status: seq<byte> :: |status| == 2 && response == body + status
  }

  /** What is stored of a response that is expected and not the last: its body and the suffix without its status word. */
  lemma StoredWithoutStatus(response: seq<byte>, body: seq<byte>)
    requires BodyOf(response, body)
    ensures Flatten(Trimmed(response)) == body
  {
    if |response| > 2 {
      assert Flatten([response[..|response| - 2]]) == response[..|response| - 2] + Flatten([]);
    }
  }

  /** Of an expected response with a suffix of two bytes or more the body stays, and the suffix but for its last two. */
  lemma SuffixStored(body: seq<byte>, suffix: seq<byte>)
    requires |suffix| >= 2
    ensures EndsIn(body + suffix, suffix) && Flatten(Trimmed(body + suffix)) == body + suffix[..|suffix| - 2]
  {
    var response, stored := body + suffix, body + suffix[..|suffix| - 2];
    assert response == stored + suffix[|suffix| - 2..];
    StoredWithoutStatus(response, stored);
  }

  // ---------- the reply ----------

  /** The course of a chain: commands before k are each answered as expected and not repeated; command k is repeated m
      times; the response behind that ends the chain, unexpected, or expected as the last command's. */
  ghost predicate Course(commands: seq<Command>, script: seq<Exchange>, k: nat, m: nat)
  {
    && k < |commands| && k + m < |script|
    && (forall i :: 0 <= i <= k + m ==> script[i].Received?)
    && (forall i :: 0 <= i <= k ==> commands[i].apdu != [])
    && (forall i :: 0 <= i < k ==> Satisfies(commands[i], script[i].response) && !AsksAgain(commands[i]))
    && (forall i :: k <= i < k + m ==> Satisfies(commands[k], script[i].response) && AsksAgain(commands[k]))
    && (Satisfies(commands[k], script[k + m].response) ==> k == |commands| - 1 && !AsksAgain(commands[k]))
  }

  lemma CourseNext(commands: seq<Command>, script: seq<Exchange>, k: nat, m: nat)
    requires k > 0 && Course(commands, script, k, m)
    ensures Course(commands[1..], script[1..], k - 1, m)
  {
    var cs, rest := commands[1..], script[1..];
    assert cs[k - 1] == commands[k] && rest[k - 1 + m] == script[k + m];
    forall i | k - 1 <= i < k - 1 + m ensures Satisfies(cs[k - 1], rest[i].response) && AsksAgain(cs[k - 1]) {
      assert rest[i] == script[i + 1];
    }
  }

  lemma CourseRepeats(commands: seq<Command>, script: seq<Exchange>, m: nat)
    requires m > 0 && Course(commands, script, 0, m)
    ensures Course(commands, script[1..], 0, m - 1)
  {
    var rest := script[1..];
    assert rest[m - 1] == script[m];
    forall i | 0 <= i < m - 1 ensures Satisfies(commands[0], rest[i].response) && AsksAgain(commands[0]) {
      assert rest[i] == script[i + 1];
    }
  }

  lemma CourseAgain(commands: seq<Command>, script: seq<Exchange>, m: nat)
    requires commands != [] && script != [] && script[0].Received? && commands[0].apdu != []
    requires Satisfies(commands[0], script[0].response) && AsksAgain(commands[0])
    requires Course(commands, script[1..], 0, m)
    ensures Course(commands, script, 0, m + 1)
  {
    forall i | 0 < i <= m + 1 ensures script[i] == script[1..][i - 1] {
    }
  }

  lemma CourseGoesOn(commands: seq<Command>, script: seq<Exchange>, k: nat, m: nat)
    requires commands != [] && script != [] && script[0].Received? && commands[0].apdu != []
    requires Satisfies(commands[0], script[0].response) && !AsksAgain(commands[0])
    requires Course(commands[1..], script[1..], k, m)
    ensures Course(commands, script, k + 1, m)
  {
    forall i | 0 < i <= k + m + 1 ensures script[i] == script[1..][i - 1] {
    }
    forall i | 0 < i <= k + 1 ensures commands[i] == commands[1..][i - 1] {
    }
    assert commands[k + 1] == commands[1..][k];
    forall i | k + 1 <= i < k + 1 + m ensures Satisfies(commands[k + 1], script[i].response) && AsksAgain(commands[k + 1]) {
      assert script[i] == script[1..][i - 1];
    }
  }

  /** The chain is what the driver reads of the commands. */
  ghost predicate ReadAs(commands: seq<Command>, chain: seq<Element>)
  {
    |chain| == |commands| && forall i :: 0 <= i < |chain| ==> chain[i] == ElementOf(commands[i])
  }

  lemma {:induction false} CourseTakes(commands: seq<Command>, chain: seq<Element>, script: seq<Exchange>, k: nat, m: nat)
    requires ReadAs(commands, chain) && Course(commands, script, k, m)
    ensures Taken(chain, script) == Some(k + m + 1)
    decreases k + m
  {
    MismatchExactly(commands[0], script[0].response);
    if k > 0 {
      CourseNext(commands, script, k, m);
      CourseTakes(commands[1..], chain[1..], script[1..], k - 1, m);
    } else if m > 0 {
      CourseRepeats(commands, script, m);
      CourseTakes(commands, chain, script[1..], 0, m - 1);
    }
  }

  lemma {:induction false} TakenHasCourse(commands: seq<Command>, chain: seq<Element>, script: seq<Exchange>)
    returns (k: nat, m: nat)
    requires ReadAs(commands, chain) && commands != [] && Taken(chain, script).Some?
    ensures Course(commands, script, k, m)
    decreases |commands|, |script|
  {
    k, m := 0, 0;
    MismatchExactly(commands[0], script[0].response);
    if Satisfies(commands[0], script[0].response) {
      if AsksAgain(commands[0]) {
        k, m := TakenHasCourse(commands, chain, script[1..]);
        CourseAgain(commands, script, m);
        m := m + 1;
      } else if |commands| > 1 {
        k, m := TakenHasCourse(commands[1..], chain[1..], script[1..]);
        CourseGoesOn(commands, script, k, m);
        k := k + 1;
      }
    }
  }

  /** The bodies of the first n responses, one behind the other. */
  ghost predicate Bodies(script: seq<Exchange>, n: nat, bodies: seq<seq<byte>>)
  {
    && |bodies| == n <= |script|
    && forall i :: 0 <= i < n ==> script[i].Received? && BodyOf(script[i].response, bodies[i])
  }

  lemma BodiesTail(script: seq<Exchange>, n: nat, bodies: seq<seq<byte>>)
    requires n > 0 && Bodies(script, n, bodies)
    ensures Bodies(script[1..], n - 1, bodies[1..])
  {
    forall i | 0 <= i < n - 1 ensures script[1..][i].Received? && BodyOf(script[1..][i].response, bodies[1..][i]) {
      assert script[1..][i] == script[i + 1] && bodies[1..][i] == bodies[i + 1];
    }
  }

  lemma JoinedFirst(script: seq<Exchange>, body: seq<byte>)
    requires |script| > 1 && (forall i :: 0 <= i < |script| ==> script[i].Received?)
    requires BodyOf(script[0].response, body)
    ensures Joined(script) == body + Joined(script[1..])
  {
    StoredWithoutStatus(script[0].response, body);
  }

  lemma {:induction false} JoinedBodies(script: seq<Exchange>, bodies: seq<seq<byte>>)
    requires script != [] && (forall i :: 0 <= i < |script| ==> script[i].Received?)
    requires Bodies(script, |script| - 1, bodies)
    ensures Joined(script) == Flatten(bodies) + script[|script| - 1].response
    decreases |script|
  {
    var last := script[|script| - 1].response;
    if |script| > 1 {
      BodiesTail(script, |script| - 1, bodies);
      JoinedBodies(script[1..], bodies[1..]);
      JoinedFirst(script, bodies[0]);
      ConcatAssoc(bodies[0], Flatten(bodies[1..]), last);
    } else {
      assert Flatten(bodies) + last == last;
    }
  }

  /** The reply to an encoded chain: the bodies of all responses but the last, which is there whole. */
  lemma ReplyIsBodies(commands: seq<Command>, script: seq<Exchange>, k: nat, m: nat, bodies: seq<seq<byte>>)
    requires 0 < |commands| <= ChainMaxNum && |ChainBytes(commands)| < TwoTo32
    requires Course(commands, script, k, m) && Bodies(script, k + m, bodies)
    ensures Run(ChainBytes(commands), script) == Delivered(Flatten(bodies) + script[k + m].response)
  {
    CourseTakes(commands, ElementsOf(commands), script, k, m);
    JoinedBodies(script[..k + m + 1], bodies);
    RunReadsChain(commands, script);
  }

  lemma RunReadsChain(commands: seq<Command>, script: seq<Exchange>)
    requires 0 < |commands| <= ChainMaxNum && |ChainBytes(commands)| < TwoTo32
    ensures var taken := Taken(ElementsOf(commands), script);
      Run(ChainBytes(commands), script) == if taken.None? then Rejected(-5) else Delivered(Joined(script[..taken.value]))
  {
    ChainReadsBack(commands);
    AcceptedChain(ChainBytes(commands), script);
  }

  /** There is a reply if and only if the exchanges take some such course. */
  lemma RepliesExactly(commands: seq<Command>, script: seq<Exchange>)
    requires 0 < |commands| <= ChainMaxNum && |ChainBytes(commands)| < TwoTo32
    ensures Run(ChainBytes(commands), script).Delivered? <==> exists k, m :: Course(commands, script, k, m)
    ensures !Run(ChainBytes(commands), script).Delivered? ==> Run(ChainBytes(commands), script) == Rejected(-5)
  {
    RunReadsChain(commands, script);
    if Run(ChainBytes(commands), script).Delivered? {
      var k, m := TakenHasCourse(commands, ElementsOf(commands), script);
    }
    if k: nat, m: nat :| Course(commands, script, k, m) {
      CourseTakes(commands, ElementsOf(commands), script, k, m);
    }
  }

  /** What is refused before anything is sent: no command, one too short for its count, and counts of 0 or above 257. */
  lemma RefusedAtOnceExactly(cmd: seq<byte>, n: nat, rest: seq<byte>, script: seq<Exchange>)
    requires |cmd| < TwoTo32 && n < TwoTo32 && |rest| < TwoTo32 - 4
    ensures Run(cmd, script) == Rejected(-2) <==> cmd == []
    ensures Run(cmd, script) == Rejected(-3) <==> 0 < |cmd| < 4
    ensures Run(Word(n) + rest, script) == Rejected(-4) <==> n == 0 || n > 257
  {
    if |cmd| >= 4 && 0 < BigEndian32(cmd) <= ChainMaxNum {
      AcceptedChain(cmd, script);
    }
    var counted := Word(n) + rest;
    WordReadsBack(n, counted);
    if 0 < n <= ChainMaxNum {
      AcceptedChain(counted, script);
    }
  }
}
