/** A whole byte stream read at once: the one-shot reference that the connection's incremental,
    compacting reader is compared with. */
module HttpStream {
  import opened HttpText
  import opened HttpMachine
  import opened HttpGrammar
  import opened HttpTheorems

  /** The complete requests at the front of `s`, in order. */
  ghost function ParseAll(ord: Order, s: string): seq<Request>
    decreases |s|
  {
    var r := Run(Fresh(ord), s);
    RunCounts(Fresh(ord), s);
    if r.st == CompleteState then [RequestOf(r)] + ParseAll(ord, s[r.cur..]) else []
  }

  ghost predicate AreMessages(ord: Order, ms: seq<Message>) {
    forall i :: 0 <= i < |ms| ==> IsMessage(ord, ms[i])
  }

  function StreamText(ms: seq<Message>): string {
    if ms == [] then "" else MessageText(ms[0]) + StreamText(ms[1..])
  }

  function Meanings(ms: seq<Message>): seq<Request> {
    if ms == [] then [] else [Meaning(ms[0])] + Meanings(ms[1..])
  }

  lemma {:induction false} MeaningsSnoc(ms: seq<Message>, m: Message)
    ensures Meanings(ms + [m]) == Meanings(ms) + [Meaning(m)]
  {
    if ms == [] {
      assert [m][1..] == [];
      assert Meanings([m]) == [Meaning(m)] + [];
    } else {
      assert (ms + [m])[1..] == ms[1..] + [m];
      MeaningsSnoc(ms[1..], m);
      ConcatAssoc([Meaning(ms[0])], Meanings(ms[1..]), [Meaning(m)]);
    }
  }

  lemma {:induction false} StreamSnoc(ms: seq<Message>, m: Message)
    ensures StreamText(ms + [m]) == StreamText(ms) + MessageText(m)
  {
    if ms == [] {
      assert [m][1..] == [];
      assert StreamText([m]) == MessageText(m) + "";
    } else {
      assert (ms + [m])[1..] == ms[1..] + [m];
      StreamSnoc(ms[1..], m);
      ConcatAssoc(MessageText(ms[0]), StreamText(ms[1..]), MessageText(m));
    }
  }

  /** A message at the front is the first request read; the rest is read as if it came alone. */
  lemma ParseAllCons(ord: Order, m: Message, t: string)
    requires IsMessage(ord, m)
    ensures ParseAll(ord, MessageText(m) + t) == [Meaning(m)] + ParseAll(ord, t)
  {
    var s := MessageText(m) + t;
    MessageRead(ord, m, s);
    assert s[|MessageText(m)|..] == t;
  }

  /** Messages back to back are read back as themselves, and then whatever follows is read. */
  lemma {:induction false} ParseAllOfStream(ord: Order, ms: seq<Message>, t: string)
    requires AreMessages(ord, ms)
    ensures ParseAll(ord, StreamText(ms) + t) == Meanings(ms) + ParseAll(ord, t)
    decreases |ms|
  {
    if ms == [] {
      assert StreamText(ms) + t == t;
    } else {
      var m, ms' := ms[0], ms[1..];
      ParseAllOfStream(ord, ms', t);
      assert IsMessage(ord, m);
      ParseAllCons(ord, m, StreamText(ms') + t);
      ConcatAssoc(MessageText(m), StreamText(ms'), t);
      ConcatAssoc([Meaning(m)], Meanings(ms'), ParseAll(ord, t));
    }
  }

  /** The reference reads exactly the messages of the grammar, and stops where none begins. */
  lemma {:induction false} ParseAllIsGrammatical(ord: Order, s: string) returns (ms: seq<Message>, t: string)
    ensures AreMessages(ord, ms) && s == StreamText(ms) + t && !Begins(ord, t)
    ensures ParseAll(ord, s) == Meanings(ms) && ParseAll(ord, t) == []
    decreases |s|
  {
    CompletesExactlyOnMessages(ord, s);
    if Run(Fresh(ord), s).st != CompleteState {
      ms, t := [], s;
    } else {
      var m, rest := FirstMessage(ord, s);
      ms, t := ParseAllIsGrammatical(ord, rest);
      ConcatAssoc(MessageText(m), StreamText(ms), t);
      ms := [m] + ms;
      assert ms[1..] == ms[1..] && StreamText(ms) == MessageText(m) + StreamText(ms[1..]);
      ParseAllOfStream(ord, ms, t);
      assert Meanings(ms) + [] == Meanings(ms);
    }
  }

  lemma FirstMessage(ord: Order, s: string) returns (m: Message, rest: string)
    requires Run(Fresh(ord), s).st == CompleteState
    ensures IsMessage(ord, m) && s == MessageText(m) + rest && |rest| < |s|
  {
    var r := Run(Fresh(ord), s);
    RunCounts(Fresh(ord), s);
    m := AcceptedIsMessage(ord, s);
    rest := s[r.cur..];
  }

  /** Bytes that begin no message hold no request. */
  lemma NothingToParse(ord: Order, t: string)
    requires Run(Fresh(ord), t).st != CompleteState
    ensures ParseAll(ord, t) == []
  {
  }

  /** A parse resumed after `s[..k]` and run to the end of `s` stands where one run over `s` does;
      what it consumed alone would have led it there. */
  lemma Resumed(ord: Order, s: string, k: nat, r: Machine)
    requires k <= |s| && r == Run(Run(Fresh(ord), s[..k]), s[k..])
    ensures r == Run(Fresh(ord), s) && r.cur <= |s| && Run(Fresh(ord), s[..r.cur]) == r
    ensures !Final(r.st) ==> r.cur == |s|
  {
    hide Run;
    assert s == s[..k] + s[k..];
    RunCut(Fresh(ord), s[..k], s[k..]);
    RunCounts(Fresh(ord), s);
    if Final(r.st) {
      RunStopsAt(Fresh(ord), s, "");
    } else {
      assert s[..r.cur] == s;
    }
  }

  // ---- the books of a connection ------------------------------------------------------

  /** Everything received on a connection, the messages found in it, the requests dispatched, the
      bytes in the buffer, how many of those the machine has handled, and the machine. */
  datatype Ledger = Ledger(
    received: string,
    messages: seq<Message>,
    dispatched: seq<Request>,
    buffered: string,
    handled: nat,
    machine: Machine)

  /** What was received is the messages dispatched, in order, and then the buffer; the machine
      stands where one run over the handled part of the buffer would. */
  ghost predicate Balanced(ord: Order, l: Ledger) {
    && AreMessages(ord, l.messages)
    && l.dispatched == Meanings(l.messages)
    && l.received == StreamText(l.messages) + l.buffered
    && l.handled <= |l.buffered|
    && l.machine == Run(Fresh(ord), l.buffered[..l.handled])
  }

  ghost function Books(ord: Order): iset<Ledger> {
    iset l | Balanced(ord, l)
  }

  lemma BooksOpen(ord: Order)
    ensures Ledger("", [], [], "", 0, Fresh(ord)) in Books(ord)
  {
    assert "" + "" == "";
  }

  /** More bytes arrive. */
  lemma BooksTake(ord: Order, l: Ledger, bytes: string)
    requires l in Books(ord)
    ensures l.(received := l.received + bytes, buffered := l.buffered + bytes) in Books(ord)
  {
    ConcatAssoc(StreamText(l.messages), l.buffered, bytes);
    assert (l.buffered + bytes)[..l.handled] == l.buffered[..l.handled];
  }

  /** The rest of the buffer is parsed. */
  lemma BooksParse(ord: Order, l: Ledger, r: Machine)
    requires l in Books(ord) && r == Run(l.machine, l.buffered[l.handled..])
    ensures l.(handled := r.cur, machine := r) in Books(ord)
    ensures r == Run(Fresh(ord), l.buffered) && (!Final(r.st) ==> r.cur == |l.buffered|)
  {
    Resumed(ord, l.buffered, l.handled, r);
  }

  /** The completed request at the front of the buffer is dispatched and cut off. */
  lemma BooksDispatch(ord: Order, l: Ledger) returns (m: Message)
    requires l in Books(ord) && l.machine.st == CompleteState && l.machine.cur == l.handled
    ensures IsMessage(ord, m) && MessageText(m) == l.buffered[..l.handled]
    ensures l.handled > 0
    ensures Ledger(l.received, l.messages + [m], l.dispatched + [RequestOf(l.machine)],
                   l.buffered[l.handled..], 0, Fresh(ord)) in Books(ord)
  {
    hide IsMessage, Step, StreamText, MessageText;
    var s, t := l.buffered[..l.handled], l.buffered[l.handled..];
    assert l.buffered == s + t;
    m := OneMore(ord, l.messages, s, t, l.received);
  }

  /** The bytes `s` of a completed run extend the list of messages by one. */
  lemma OneMore(ord: Order, ms: seq<Message>, s: string, t: string, received: string) returns (m: Message)
    requires AreMessages(ord, ms) && received == StreamText(ms) + (s + t)
    requires Run(Fresh(ord), s).st == CompleteState && Run(Fresh(ord), s).cur == |s|
    ensures IsMessage(ord, m) && MessageText(m) == s != ""
    ensures AreMessages(ord, ms + [m]) && received == StreamText(ms + [m]) + t
    ensures Meanings(ms + [m]) == Meanings(ms) + [RequestOf(Run(Fresh(ord), s))]
  {
    m := AcceptedIsMessage(ord, s);
    assert s[..|s|] == s;
    StreamSnoc(ms, m);
    MeaningsSnoc(ms, m);
    ConcatAssoc(StreamText(ms), s, t);
  }

  /** The machine may be set back; what was received is still accounted for. */
  lemma BooksForget(ord: Order, l: Ledger)
    requires l in Books(ord)
    ensures l.(handled := 0, machine := Fresh(ord)) in Books(ord)
  {
  }

  /** Balanced books: the requests dispatched are the first the one-shot reference reads, the
      rest of what it reads is in the buffer, and it reads nothing else. */
  lemma BooksAgree(ord: Order, l: Ledger)
    requires l in Books(ord)
    ensures ParseAll(ord, l.received) == l.dispatched + ParseAll(ord, l.buffered)
  {
    ParseAllOfStream(ord, l.messages, l.buffered);
  }

  /** A machine that stopped short of a complete request leaves no request in the buffer. */
  lemma BooksAtRest(ord: Order, l: Ledger)
    requires l in Books(ord) && l.machine.st != CompleteState
    requires l.handled == |l.buffered| || Final(l.machine.st)
    ensures Run(Fresh(ord), l.buffered).st != CompleteState
    ensures ParseAll(ord, l.buffered) == [] && !Begins(ord, l.buffered)
  {
    var s, t := l.buffered[..l.handled], l.buffered[l.handled..];
    assert l.buffered == s + t;
    RunCut(Fresh(ord), s, t);
    CompletesExactlyOnMessages(ord, l.buffered);
  }

  // ---- streams whose requests fit the buffer ---------------------------------------------

  /** Every complete request of `s`, as the one-shot reference reads it, takes at most `capacity`
      bytes. */
  ghost predicate AllFit(ord: Order, s: string, capacity: nat)
    decreases |s|
  {
    var r := Run(Fresh(ord), s);
    RunCounts(Fresh(ord), s);
    r.st == CompleteState ==> r.cur <= capacity && AllFit(ord, s[r.cur..], capacity)
  }

  lemma {:induction false} AllFitBehind(ord: Order, ms: seq<Message>, t: string, capacity: nat)
    requires AreMessages(ord, ms) && AllFit(ord, StreamText(ms) + t, capacity)
    ensures AllFit(ord, t, capacity)
    decreases |ms|
  {
    if ms == [] {
      assert StreamText(ms) + t == t;
    } else {
      var m, rest := ms[0], StreamText(ms[1..]) + t;
      assert IsMessage(ord, m);
      ConcatAssoc(MessageText(m), StreamText(ms[1..]), t);
      MessageRead(ord, m, MessageText(m) + rest);
      assert (MessageText(m) + rest)[|MessageText(m)|..] == rest;
      AllFitBehind(ord, ms[1..], t, capacity);
    }
  }

  /** A buffer in which no request is complete ends the stream of requests when nothing follows it,
      when it is malformed, and when it is full. */
  lemma NothingFollows(ord: Order, ms: seq<Message>, buffered: string, rest: string, capacity: nat)
    requires AreMessages(ord, ms) && AllFit(ord, StreamText(ms) + (buffered + rest), capacity)
    requires Run(Fresh(ord), buffered).st != CompleteState
    requires rest == "" || Run(Fresh(ord), buffered).st == ErrorState || |buffered| >= capacity
    ensures ParseAll(ord, StreamText(ms) + (buffered + rest)) == Meanings(ms)
  {
    hide Step, Run, MessageText, IsMessage;
    AllFitBehind(ord, ms, buffered + rest, capacity);
    ParseAllOfStream(ord, ms, buffered + rest);
    NotComplete(ord, buffered, rest, capacity);
    NothingToParse(ord, buffered + rest);
    assert Meanings(ms) + [] == Meanings(ms);
  }

  lemma NotComplete(ord: Order, buffered: string, rest: string, capacity: nat)
    requires AllFit(ord, buffered + rest, capacity) && Run(Fresh(ord), buffered).st != CompleteState
    requires rest == "" || Run(Fresh(ord), buffered).st == ErrorState || |buffered| >= capacity
    ensures Run(Fresh(ord), buffered + rest).st != CompleteState
  {
    hide Step;
    var m := Run(Fresh(ord), buffered);
    RunCut(Fresh(ord), buffered, rest);
    RunCounts(Fresh(ord), buffered);
    RunCounts(m, rest);
    if rest == "" {
      assert buffered + rest == buffered;
    }
  }

  /** Balanced books at rest, with `rest` still to come: what was dispatched is all there will be. */
  lemma BooksAreClosed(ord: Order, l: Ledger, rest: string, capacity: nat)
    requires l in Books(ord) && l.machine.st != CompleteState && (l.handled == |l.buffered| || Final(l.machine.st))
    requires AllFit(ord, l.received + rest, capacity)
    requires rest == "" || l.machine.st == ErrorState || |l.buffered| >= capacity
    ensures ParseAll(ord, l.received + rest) == l.dispatched
  {
    hide Step;
    BooksAtRest(ord, l);
    RunCut(Fresh(ord), l.buffered[..l.handled], l.buffered[l.handled..]);
    assert l.buffered == l.buffered[..l.handled] + l.buffered[l.handled..];
    ConcatAssoc(StreamText(l.messages), l.buffered, rest);
    NothingFollows(ord, l.messages, l.buffered, rest, capacity);
  }
}
