/** What the order of the header hash table can change about a request, and about a stream. */
module HttpOrder {
  import opened HttpText
  import opened HttpMachine
  import opened HttpGrammar
  import opened HttpAcceptance
  import opened HttpTheorems
  import opened HttpStream

  /** The headers at the blank line, if the machine reaches one in `s`. */
  ghost function BlockIn(m: Machine, s: string): Option<Headers>
    decreases |s|
  {
    if s == "" || Final(m.st) then None
    else if m.st == StartHeaderCRState && s[0] == LF then Some(m.header)
    else BlockIn(Step(m, s[0]), s[1..])
  }

  /** Some length cannot be read, or all spellings are read as the same number. */
  ghost predicate Settled(h: Headers) {
    || (exists k :: Spelling(h, k) && Stoul(h[k]) == None)
    || forall j, k :: Spelling(h, j) && Spelling(h, k) ==> Stoul(h[j]) == Stoul(h[k])
  }

  /** The content length is set at the blank line and nowhere else. */
  ghost predicate Unset(m: Machine) {
    !Final(m.st) && m.st != StartBodyState ==> m.contentLen == 0
  }

  lemma SettledExactly(ord: Order, h: Headers)
    ensures Settled(h) <==> forall a: Order, b: Order :: BodyLength(a, h) == BodyLength(b, h)
  {
    OrderShowsExactlyOnConflict(ord, h);
  }

  lemma BlankLineSame(m: Machine, b: Order, c: char)
    requires m.st == StartHeaderCRState && (c == LF ==> BodyLength(b, m.header) == BodyLength(m.ord, m.header))
    ensures Step(m.(ord := b), c) == Step(m, c).(ord := b)
  {
    hide BodyLength;
  }

  lemma ValueSame(m: Machine, b: Order, c: char)
    requires m.st == HeaderValueState
    ensures Step(m.(ord := b), c) == Step(m, c).(ord := b)
  {
  }

  lemma VerbSame(m: Machine, b: Order, c: char)
    requires m.st in {StartState, MethodState}
    ensures Step(m.(ord := b), c) == Step(m, c).(ord := b)
  {
    hide MethodOf, OnUrl, OnProtocol, OnHeaderKey, OnHeaderValue, OnStartHeaderCR, OnStartBody;
  }

  lemma WordSame(m: Machine, b: Order, c: char)
    requires m.st in {UrlState, ProtocolState, ProtocolCRState}
    ensures Step(m.(ord := b), c) == Step(m, c).(ord := b)
  {
    UrlSame(m, b, c);
    hide OnStart, OnMethod, OnUrl, OnHeaderKey, OnHeaderValue, OnStartHeaderCR, OnStartBody;
  }

  lemma UrlSame(m: Machine, b: Order, c: char)
    ensures m.st == UrlState ==> OnUrl(m.(ord := b), c) == OnUrl(m, c).(ord := b)
  {
  }

  lemma OtherSame(m: Machine, b: Order, c: char)
    requires Final(m.st) || m.st in {StartHeaderState, HeaderKeyState, HeaderValueCRState, StartBodyState}
    ensures Step(m.(ord := b), c) == Step(m, c).(ord := b)
  {
    KeySame(m, b, c);
    hide OnMethod, OnUrl, OnProtocol, OnHeaderKey, OnHeaderValue, OnStartHeaderCR, OnStartBody;
  }

  lemma KeySame(m: Machine, b: Order, c: char)
    ensures m.st == HeaderKeyState ==> OnHeaderKey(m.(ord := b), c) == OnHeaderKey(m, c).(ord := b)
    ensures m.st == StartBodyState ==> OnStartBody(m.(ord := b), c) == OnStartBody(m, c).(ord := b)
  {
  }

  /** Away from the blank line a step does not ask for the order. */
  lemma StepSame(m: Machine, b: Order, c: char)
    requires !(m.st == StartHeaderCRState && c == LF) || BodyLength(b, m.header) == BodyLength(m.ord, m.header)
    ensures Step(m.(ord := b), c) == Step(m, c).(ord := b)
  {
    hide Step;
    if m.st == StartHeaderCRState {
      BlankLineSame(m, b, c);
    } else if m.st == HeaderValueState {
      ValueSame(m, b, c);
    } else if m.st in {StartState, MethodState} {
      VerbSame(m, b, c);
    } else if m.st in {UrlState, ProtocolState, ProtocolCRState} {
      WordSame(m, b, c);
    } else {
      OtherSame(m, b, c);
    }
  }

  lemma {:induction false} NoBlockBehind(m: Machine, s: string)
    requires Final(m.st) || m.st == StartBodyState
    ensures BlockIn(m, s) == None
    decreases |s|
  {
    if s != "" && !Final(m.st) {
      NoBlockBehind(Step(m, s[0]), s[1..]);
    }
  }

  lemma BlankLineLeads(m: Machine)
    requires m.st == StartHeaderCRState
    ensures var n := Step(m, LF);
            && (Final(n.st) || n.st == StartBodyState)
            && (Unset(m) && BodyLength(m.ord, m.header).Some? ==>
                 n.contentLen == BodyLength(m.ord, m.header).value && n.st != ErrorState)
  {
    hide BodyLength;
  }

  /** The block is the same under all orders. */
  lemma {:induction false} BlockSame(m: Machine, b: Order, s: string)
    ensures BlockIn(m.(ord := b), s) == BlockIn(m, s)
    decreases |s|
  {
    if s != "" && !Final(m.st) && !(m.st == StartHeaderCRState && s[0] == LF) {
      StepSame(m, b, s[0]);
      hide Step;
      BlockSame(Step(m, s[0]), b, s[1..]);
    }
  }

  /** So is the whole run, unless the block announces another length. */
  lemma {:induction false} RunSame(m: Machine, b: Order, s: string)
    requires BlockIn(m, s).Some? ==> BodyLength(b, BlockIn(m, s).value) == BodyLength(m.ord, BlockIn(m, s).value)
    ensures Run(m.(ord := b), s) == Run(m, s).(ord := b)
    decreases |s|
  {
    if s != "" && !Final(m.st) {
      StepSame(m, b, s[0]);
      StepCounts(m, s[0]);
      if m.st == StartHeaderCRState && s[0] == LF {
        BlankLineLeads(m);
        NoBlockBehind(Step(m, s[0]), s[1..]);
      }
      hide Step, BodyLength;
      RunSame(Step(m, s[0]), b, s[1..]);
    }
  }

  lemma StepUnset(m: Machine, c: char)
    requires Unset(m) && !Final(m.st) && !(m.st == StartHeaderCRState && c == LF)
    ensures Unset(Step(m, c))
  {
    hide BodyLength, MethodOf;
  }

  lemma {:induction false} LengthKept(m: Machine, s: string)
    requires Final(m.st) || m.st == StartBodyState
    ensures Run(m, s).contentLen == m.contentLen
    decreases |s|
  {
    if s != "" && !Final(m.st) {
      LengthKept(Step(m, s[0]), s[1..]);
    }
  }

  /** A run past the blank line carries the length announced there. */
  lemma {:induction false} LengthCarried(m: Machine, s: string)
    requires Unset(m) && BlockIn(m, s).Some? && BodyLength(m.ord, BlockIn(m, s).value).Some?
    ensures Run(m, s).contentLen == BodyLength(m.ord, BlockIn(m, s).value).value
    decreases |s|
  {
    StepCounts(m, s[0]);
    if m.st == StartHeaderCRState && s[0] == LF {
      BlankLineLeads(m);
      LengthKept(Step(m, s[0]), s[1..]);
    } else {
      StepUnset(m, s[0]);
      hide Step, BodyLength;
      LengthCarried(Step(m, s[0]), s[1..]);
    }
  }

  lemma {:induction false} NoReturn(m: Machine, s: string)
    requires Final(m.st) || m.st == StartBodyState
    ensures Run(m, s).st != StartHeaderCRState
    decreases |s|
  {
    if s != "" && !Final(m.st) {
      NoReturn(Step(m, s[0]), s[1..]);
    }
  }

  /** There is one blank line at most. */
  lemma {:induction false} BlockFound(m: Machine, s: string, n: nat)
    requires n < |s| && s[n] == LF && Run(m, s[..n]).st == StartHeaderCRState
    ensures BlockIn(m, s) == Some(Run(m, s[..n]).header)
    decreases n
  {
    if n > 0 && !Final(m.st) {
      assert s[..n][1..] == s[1..][..n - 1];
      if m.st == StartHeaderCRState && s[0] == LF {
        BlankLineLeads(m);
        NoReturn(Step(m, s[0]), s[1..][..n - 1]);
      } else {
        BlockFound(Step(m, s[0]), s[1..], n - 1);
      }
    }
  }

  lemma OrderOfRun(ord: Order, b: Order, s: string)
    ensures BlockIn(Fresh(b), s) == BlockIn(Fresh(ord), s)
    ensures (BlockIn(Fresh(ord), s).Some? ==>
               BodyLength(b, BlockIn(Fresh(ord), s).value) == BodyLength(ord, BlockIn(Fresh(ord), s).value)) ==>
            Run(Fresh(b), s) == Run(Fresh(ord), s).(ord := b)
  {
    assert Fresh(ord).(ord := b) == Fresh(b);
    BlockSame(Fresh(ord), b, s);
    if BlockIn(Fresh(ord), s).Some? ==>
       BodyLength(b, BlockIn(Fresh(ord), s).value) == BodyLength(ord, BlockIn(Fresh(ord), s).value) {
      RunSame(Fresh(ord), b, s);
    }
  }

  /** Two orders under which a block announces different lengths. */
  lemma TwoLengths(ord: Order, h: Headers) returns (a: Order, b: Order)
    requires !Settled(h)
    ensures BodyLength(a, h).Some? && BodyLength(b, h).Some? && BodyLength(a, h) != BodyLength(b, h)
  {
    SettledExactly(ord, h);
    a, b :| BodyLength(a, h) != BodyLength(b, h);
    UnsettledIsReadable(a, h);
    UnsettledIsReadable(b, h);
  }

  lemma UnsettledIsReadable(ord: Order, h: Headers)
    requires !Settled(h)
    ensures BodyLength(ord, h).Some?
  {
    assert forall k :: k in h && Named(k, CONTENT_LENGTH) ==> Spelling(h, k);
    var k := LastNamed(ord(h), CONTENT_LENGTH);
    assert k in h && Named(k, CONTENT_LENGTH) ==> Spelling(h, k);
  }

  /** A run over `s` comes out the same under all orders exactly when `s` does not get as far as the
      blank line, or the headers there are settled. */
  lemma RunOrderExactly(ord: Order, s: string)
    ensures (forall a: Order, b: Order :: Run(Fresh(b), s) == Run(Fresh(a), s).(ord := b)) <==>
            (BlockIn(Fresh(ord), s).Some? ==> Settled(BlockIn(Fresh(ord), s).value))
  {
    var block := BlockIn(Fresh(ord), s);
    if block.Some? && !Settled(block.value) {
      var a, b := TwoLengths(ord, block.value);
      OrderOfRun(ord, a, s);
      OrderOfRun(ord, b, s);
      LengthCarried(Fresh(a), s);
      LengthCarried(Fresh(b), s);
      assert Run(Fresh(b), s) != Run(Fresh(a), s).(ord := b);
    } else {
      forall a: Order, b: Order ensures Run(Fresh(b), s) == Run(Fresh(a), s).(ord := b) {
        OrderOfRun(ord, a, s);
        if block.Some? { SettledExactly(ord, block.value); }
        OrderOfRun(a, b, s);
      }
    }
  }

  // ---- streams ---------------------------------------------------------------------------

  /** The stream holds the same requests under all orders. */
  ghost predicate OrderFree(s: string) {
    forall a: Order, b: Order :: ParseAll(a, s) == ParseAll(b, s)
  }

  /** No request of the stream, read under `ord`, can be completed below an unsettled block. */
  ghost predicate SettledStream(ord: Order, s: string)
    decreases |s|
  {
    var r := Run(Fresh(ord), s);
    RunCounts(Fresh(ord), s);
    && (BlockIn(Fresh(ord), s).Some? && !Settled(BlockIn(Fresh(ord), s).value) ==>
          forall o: Order :: Run(Fresh(o), s).st != CompleteState)
    && (r.st == CompleteState ==> SettledStream(ord, s[r.cur..]))
  }

  /** The first request and the rest of the stream are the same under all orders. */
  lemma FirstSame(ord: Order, b: Order, s: string)
    requires BlockIn(Fresh(ord), s).Some? ==> Settled(BlockIn(Fresh(ord), s).value)
    ensures Run(Fresh(b), s) == Run(Fresh(ord), s).(ord := b)
  {
    RunOrderExactly(ord, s);
  }

  lemma {:induction false} SettledSame(ord: Order, b: Order, s: string)
    requires SettledStream(ord, s)
    ensures ParseAll(b, s) == ParseAll(ord, s)
    decreases |s|
  {
    var r := Run(Fresh(ord), s);
    RunCounts(Fresh(ord), s);
    if BlockIn(Fresh(ord), s).Some? && !Settled(BlockIn(Fresh(ord), s).value) {
      NothingToParse(ord, s);
      NothingToParse(b, s);
    } else {
      FirstSame(ord, b, s);
      if r.st == CompleteState {
        SettledSame(ord, b, s[r.cur..]);
      }
    }
  }

  /** Where a request below an unsettled block can be completed, some other order reads otherwise. */
  lemma UnsettledDiffers(ord: Order, s: string, o: Order) returns (b: Order)
    requires BlockIn(Fresh(ord), s).Some? && !Settled(BlockIn(Fresh(ord), s).value)
    requires Run(Fresh(o), s).st == CompleteState
    ensures ParseAll(o, s) != ParseAll(b, s)
  {
    var h := BlockIn(Fresh(ord), s).value;
    var p, q := TwoLengths(ord, h);
    UnsettledIsReadable(o, h);
    b := if BodyLength(p, h) != BodyLength(o, h) then p else q;
    OrderOfRun(ord, o, s);
    OrderOfRun(ord, b, s);
    LengthCarried(Fresh(o), s);
    LengthCarried(Fresh(b), s);
    assert ParseAll(o, s)[0].contentLen != Run(Fresh(b), s).contentLen;
    if Run(Fresh(b), s).st == CompleteState {
      assert ParseAll(b, s)[0] == RequestOf(Run(Fresh(b), s));
    }
  }

  lemma FirstParsed(ord: Order, o: Order, s: string)
    requires Run(Fresh(ord), s).st == CompleteState && Run(Fresh(ord), s).cur <= |s|
    requires BlockIn(Fresh(ord), s).Some? ==> Settled(BlockIn(Fresh(ord), s).value)
    ensures ParseAll(o, s) == [RequestOf(Run(Fresh(ord), s))] + ParseAll(o, s[Run(Fresh(ord), s).cur..])
  {
    FirstSame(ord, o, s);
  }

  lemma RestFree(ord: Order, s: string)
    requires OrderFree(s) && Run(Fresh(ord), s).st == CompleteState && Run(Fresh(ord), s).cur <= |s|
    requires BlockIn(Fresh(ord), s).Some? ==> Settled(BlockIn(Fresh(ord), s).value)
    ensures OrderFree(s[Run(Fresh(ord), s).cur..])
  {
    hide Run, Step, Settled, BlockIn, ParseAll;
    var rest := s[Run(Fresh(ord), s).cur..];
    forall a: Order, b: Order ensures ParseAll(a, rest) == ParseAll(b, rest) {
      FirstParsed(ord, a, s);
      FirstParsed(ord, b, s);
      assert ParseAll(a, s) == ParseAll(b, s);
      assert ParseAll(a, s)[1..] == ParseAll(a, rest) && ParseAll(b, s)[1..] == ParseAll(b, rest);
    }
  }

  lemma {:induction false} SameSettled(ord: Order, s: string)
    requires OrderFree(s)
    ensures SettledStream(ord, s)
    decreases |s|
  {
    var r := Run(Fresh(ord), s);
    RunCounts(Fresh(ord), s);
    if BlockIn(Fresh(ord), s).Some? && !Settled(BlockIn(Fresh(ord), s).value) {
      forall o: Order ensures Run(Fresh(o), s).st != CompleteState {
        if Run(Fresh(o), s).st == CompleteState {
          var b := UnsettledDiffers(ord, s, o);
        }
      }
    } else if r.st == CompleteState {
      RestFree(ord, s);
      SameSettled(ord, s[r.cur..]);
    }
  }

  lemma AllSame(ord: Order, s: string)
    requires SettledStream(ord, s)
    ensures OrderFree(s)
  {
    hide SettledStream, ParseAll;
    forall a: Order, b: Order ensures ParseAll(a, s) == ParseAll(b, s) {
      SettledSame(ord, a, s);
      SettledSame(ord, b, s);
    }
  }

  /** The requests of a stream are the same under all orders exactly when none of them can be
      completed below an unsettled block. */
  lemma StreamOrderExactly(ord: Order, s: string)
    ensures OrderFree(s) <==> SettledStream(ord, s)
  {
    hide SettledStream, OrderFree;
    if SettledStream(ord, s) {
      AllSame(ord, s);
    }
    if OrderFree(s) {
      SameSettled(ord, s);
    }
  }

  // ---- requests for which this matters -----------------------------------------------------

  /** A request for "/" with two header lines. */
  function TwoLines(first: Line, second: Line): Message {
    Message("", "GET", "/", "HTTP/1.1", true, [first, second], "")
  }

  lemma TwoLinesRead(first: Line, second: Line)
    requires LineShaped(first) && LineShaped(second)
    ensures HeadShaped(TwoLines(first, second))
    ensures HeaderOf(TwoLines(first, second).lines) == map[first.key := first.value, second.key := second.value]
  {
    hide Eol;
    assert [] + [first] == [first] && [first] + [second] == [first, second];
    LinesSnoc([], first);
    LinesSnoc([first], second);
  }

  lemma LowerSpelling()
    ensures Named("content-length", CONTENT_LENGTH) && KeyShaped("content-length")
  {
    var l := Lower("content-length");
    forall i | 0 <= i < |l| ensures l[i] == CONTENT_LENGTH[i] {
    }
  }

  function Conflicting(): Message {
    TwoLines(Line("Content-Length", 1, Decimal(0), true), Line("content-length", 1, Decimal(1), true))
  }

  lemma ConflictRead() returns (h: Headers)
    ensures h == HeaderOf(Conflicting().lines) && HeadShaped(Conflicting())
    ensures Spelling(h, "Content-Length") && Stoul(h["Content-Length"]) == Some(0)
    ensures Spelling(h, "content-length") && Stoul(h["content-length"]) == Some(1)
  {
    DecimalShaped(0);
    DecimalShaped(1);
    ContentLengthShaped();
    ContentLengthIsNamed();
    LowerSpelling();
    StoulOfDecimal(0);
    StoulOfDecimal(1);
    assert "Content-Length"[0] != "content-length"[0];
    TwoLinesRead(Conflicting().lines[0], Conflicting().lines[1]);
    h := HeaderOf(Conflicting().lines);
  }

  lemma ReadDiffers(a: Order, b: Order, s: string)
    requires Run(Fresh(a), s).st == CompleteState && Run(Fresh(b), s).st != CompleteState
    ensures ParseAll(a, s) != ParseAll(b, s)
  {
    RunCounts(Fresh(a), s);
    assert ParseAll(a, s) != [];
  }

  /** A request with "Content-Length: 0" and "content-length: 1": under one order it is complete at
      its blank line, under another it waits for a byte of body. */
  lemma TwoSpellings(ord: Order) returns (a: Order, b: Order)
    ensures var s := HeadText(Conflicting());
            Run(Fresh(a), s).st == CompleteState && Run(Fresh(b), s).st == StartBodyState &&
                ParseAll(a, s) != ParseAll(b, s)
  {
    var m, s := Conflicting(), HeadText(Conflicting());
    var h := ConflictRead();
    a, b := MeetLast(ord, h, "Content-Length"), MeetLast(ord, h, "content-length");
    MetLast(ord, h, "Content-Length");
    MetLast(ord, h, "content-length");
    RunMessageHead(a, m);
    RunMessageHead(b, m);
    hide Run, BodyLength, HeadText, ParseAll;
    assert Run(Fresh(a), s).st == CompleteState && Run(Fresh(b), s).st == StartBodyState;
    ReadDiffers(a, b, s);
  }

  /** The spelling met last counts. */
  lemma MetLast(ord: Order, h: Headers, k: string)
    requires Spelling(h, k) && forall j :: Spelling(h, j) ==> Stoul(h[j]).Some?
    ensures BodyLength(MeetLast(ord, h, k), h) == Stoul(h[k])
  {
    assert forall j :: j in h && Named(j, CONTENT_LENGTH) ==> Spelling(h, j);
  }

  function Unreadable(): Message {
    TwoLines(Line("Content-Length", 1, "x", true), Line("Host", 1, "h", true))
  }

  lemma UnreadableRead() returns (h: Headers)
    ensures h == HeaderOf(Unreadable().lines) && HeadShaped(Unreadable())
    ensures h == map["Content-Length" := "x", "Host" := "h"]
    ensures Spelling(h, "Content-Length") && Stoul(h["Content-Length"]) == None && !Named("Host", CONTENT_LENGTH)
  {
    ContentLengthShaped();
    ContentLengthIsNamed();
    assert |Lower("Host")| == 4;
    TwoLinesRead(Unreadable().lines[0], Unreadable().lines[1]);
    h := HeaderOf(Unreadable().lines);
  }

  lemma UnreadableAnnounces(ord: Order) returns (h: Headers)
    ensures h == HeaderOf(Unreadable().lines) && HeadShaped(Unreadable()) && BodyLength(ord, h) == None
  {
    h := UnreadableRead();
    assert "Content-Length" in h && Named("Content-Length", CONTENT_LENGTH);
  }

  /** The machine before the line feed of the blank line. */
  lemma BeforeLineFeed(ord: Order, m: Message)
    requires HeadShaped(m)
    ensures var text := RequestLine(m) + LinesText(m.lines);
            && Run(Fresh(ord), text + [CR]) == AfterLines(ord, m).(cur := |text| + 1, st := StartHeaderCRState)
            && text + [CR] + [LF] == HeadText(m)
  {
    hide BodyLength, HeaderOf, OnStart, OnMethod, OnUrl, OnProtocol, OnHeaderKey, OnHeaderValue,
      OnStartHeaderCR, OnStartBody, OnLineCR;
    var text := RequestLine(m) + LinesText(m.lines);
    RunRequestLine(ord, m);
    RunLines(AfterRequestLine(ord, m), m.lines);
    hide Run, RequestLine, LinesText;
    Chain(Fresh(ord), RequestLine(m), AfterRequestLine(ord, m), LinesText(m.lines), AfterLines(ord, m));
    RunSnoc(Fresh(ord), text, CR);
  }

  /** A request with "Content-Length: x": no continuation of its text up to the last carriage return
      is a message, but the machine does not fail before the line feed. */
  lemma UnreadableLate(ord: Order)
    ensures var s := RequestLine(Unreadable()) + LinesText(Unreadable().lines) + [CR];
            && Run(Fresh(ord), s).st == StartHeaderCRState && !Begins(ord, s) && !Extendable(ord, s)
            && Run(Fresh(ord), s + [LF]).st == ErrorState
  {
    hide Run, RequestLine, LinesText, HeaderOf, Stoul, HeadText, Begins, Extendable, AfterRequestLine, HeadShaped;
    var h := UnreadableAnnounces(ord);
    var m := Unreadable();
    hide BodyLength, Unreadable;
    BeforeLineFeed(ord, m);
    RunMessageHead(ord, m);
    Verdicts(ord, RequestLine(m) + LinesText(m.lines) + [CR]);
  }
}
