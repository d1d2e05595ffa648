/** The machine accepts exactly the grammar: every message is read to its last byte and no
    further, and whatever the machine accepts is a message with the fields it extracted. */
module HttpAcceptance {
  import opened HttpText
  import opened HttpMachine
  import opened HttpGrammar

  // ---- the machine reads every message ----------------------------------------------

  /** In state `st` the byte `c` only lengthens the current token. */
  predicate Stays(st: State, c: char) {
    match st
    case StartState => c in BLANKS
    case MethodState => c !in WORD_ENDS
    case UrlState => c !in WORD_ENDS
    case ProtocolState => c !in BREAKS
    case HeaderKeyState => c !in KEY_ENDS
    case _ => false
  }

  lemma {:induction false} RunToken(m: Machine, t: string)
    requires m.st in {MethodState, UrlState, ProtocolState, HeaderKeyState}
    requires forall i :: 0 <= i < |t| ==> Stays(m.st, t[i])
    ensures Run(m, t) == m.(cur := m.cur + |t|, token := m.token + t)
    decreases |t|
  {
    if t == "" {
      assert m.token + t == m.token;
    } else {
      assert Stays(m.st, t[0]);
      var n := Step(m, t[0]);
      forall i | 0 <= i < |t[1..]| ensures Stays(n.st, t[1..][i]) { assert t[1..][i] == t[i + 1]; }
      RunToken(n, t[1..]);
      assert n.token + t[1..] == m.token + t;
    }
  }

  lemma {:induction false} RunBlanks(m: Machine, t: string)
    requires m.st == StartState && Only(t, BLANKS)
    ensures Run(m, t) == m.(cur := m.cur + |t|)
    decreases |t|
  {
    if t != "" {
      assert t[0] in BLANKS;
      RunBlanks(Step(m, t[0]), t[1..]);
    }
  }

  lemma {:induction false} RunPad(m: Machine, n: nat)
    requires m.st == HeaderValueState && m.start == m.cur && m.token == ""
    ensures Run(m, Spaces(n)) == m.(cur := m.cur + n, start := m.start + n)
    decreases n
  {
    if n > 0 {
      assert Spaces(n)[1..] == Spaces(n - 1);
      RunPad(Step(m, ' '), n - 1);
    }
  }

  lemma {:induction false} RunValue(m: Machine, t: string)
    requires m.st == HeaderValueState && Avoids(t, BREAKS)
    requires m.token == "" && t != "" ==> t[0] != ' '
    ensures Run(m, t) == m.(cur := m.cur + |t|, token := m.token + t)
    decreases |t|
  {
    if t == "" {
      assert m.token + t == m.token;
    } else {
      assert t[0] !in BREAKS;
      var n := Step(m, t[0]);
      RunValue(n, t[1..]);
      assert n.token + t[1..] == m.token + t;
    }
  }

  /** The body is complete on its last announced byte, whatever the bytes are. */
  lemma {:induction false} RunBody(m: Machine, t: string)
    requires m.st == StartBodyState
    requires t != "" && |m.token| + |t| == m.contentLen
    ensures Run(m, t) == m.(cur := m.cur + |t|, body := m.token + t, token := "", st := CompleteState)
    decreases |t|
  {
    var n := Step(m, t[0]);
    assert m.token + t == (m.token + [t[0]]) + t[1..];
    if |t| == 1 {
      assert m.token + t == (m.token + [t[0]])[..m.contentLen];
    } else {
      RunBody(n, t[1..]);
    }
  }

  /** Two runs in a row. */
  lemma Chain(m: Machine, a: string, m1: Machine, b: string, m2: Machine)
    requires Run(m, a) == m1 && Run(m1, b) == m2
    ensures Run(m, a + b) == m2
  {
    RunCut(m, a, b);
  }

  /** An end of line after the protocol or a header value. */
  lemma RunEol(m: Machine, crlf: bool)
    requires m.st == ProtocolState || m.st == HeaderValueState
    ensures var n := m.(cur := m.cur + |Eol(crlf)|, start := m.cur + |Eol(crlf)|, token := "", st := StartHeaderState);
            Run(m, Eol(crlf)) ==
            if m.st == ProtocolState then n.(proto := m.token)
            else n.(header := m.header[m.key := m.token], key := "")
  {
    if crlf {
      RunOne(m, CR);
      RunOne(Step(m, CR), LF);
      RunCut(m, "\r", "\n");
      assert Eol(crlf) == "\r" + "\n";
    } else {
      RunOne(m, LF);
    }
  }

  /** After `a` and the first byte of a token, the rest of the token. */
  lemma RunTokenFrom(m: Machine, a: string, m1: Machine, t: string)
    requires |m1.token| == 1 && Run(m, a + m1.token) == m1
    requires m1.st in {MethodState, HeaderKeyState}
    requires forall i :: 0 <= i < |t| ==> Stays(m1.st, t[i])
    ensures Run(m, a + m1.token + t) == m1.(cur := m1.cur + |t|, token := m1.token + t)
  {
    RunToken(m1, t);
    RunCut(m, a + m1.token, t);
  }

  lemma RunVerbText(ord: Order, blanks: string, verb: string)
    requires Only(blanks, BLANKS)
    requires verb != "" && Avoids(verb, WORD_ENDS)
    ensures Run(Fresh(ord), blanks + verb) ==
            Fresh(ord).(start := |blanks|, cur := |blanks| + |verb|, token := verb, st := MethodState)
  {
    var c, t := verb[0], verb[1..];
    RunBlanks(Fresh(ord), blanks);
    RunSnoc(Fresh(ord), blanks, c);
    var m1 := Fresh(ord).(cur := |blanks| + 1, start := |blanks|, token := [c], st := MethodState);
    AvoidsTail(verb, WORD_ENDS);
    RunTokenFrom(Fresh(ord), blanks, m1, t);
    ConcatAssoc(blanks, [c], t);
  }

  lemma RunVerb(ord: Order, blanks: string, verb: string)
    requires Only(blanks, BLANKS)
    requires verb != "" && Avoids(verb, WORD_ENDS)
    ensures var len := |blanks| + |verb| + 1;
            Run(Fresh(ord), blanks + verb + " ") ==
            Fresh(ord).(verb := MethodOf(verb), start := len, cur := len, st := UrlState)
  {
    RunVerbText(ord, blanks, verb);
    RunSnoc(Fresh(ord), blanks + verb, ' ');
  }

  lemma UrlEnds(m: Machine)
    requires m.st == UrlState
    ensures Run(m, " ") == m.(cur := m.cur + 1, start := m.cur + 1, token := "", url := m.token, st := ProtocolState)
  {
    RunOne(m, ' ');
  }

  lemma RunUrl(m: Machine, url: string)
    requires m.st == UrlState && m.token == "" && Avoids(url, WORD_ENDS)
    ensures Run(m, url + " ") ==
            m.(cur := m.cur + |url| + 1, url := url, start := m.cur + |url| + 1, st := ProtocolState)
  {
    hide Run;
    var m1 := m.(cur := m.cur + |url|, token := m.token + url);
    RunToken(m, url);
    UrlEnds(m1);
    Chain(m, url, m1, " ", m1.(cur := m1.cur + 1, start := m1.cur + 1, token := "", url := m1.token,
        st := ProtocolState));
    assert m.token + url == url;
  }

  lemma RunProto(m: Machine, proto: string, crlf: bool)
    requires m.st == ProtocolState && m.token == "" && Avoids(proto, BREAKS)
    ensures var len := m.cur + |proto| + |Eol(crlf)|;
            Run(m, proto + Eol(crlf)) == m.(cur := len, proto := proto, start := len, st := StartHeaderState)
  {
    hide Run;
    var m1 := m.(cur := m.cur + |proto|, token := m.token + proto);
    RunToken(m, proto);
    RunEol(m1, crlf);
    RunCut(m, proto, Eol(crlf));
    assert m.token + proto == proto;
  }

  /** The machine after the request line of `m`. */
  ghost function AfterRequestLine(ord: Order, m: Message): Machine {
    Fresh(ord).(st := StartHeaderState, cur := |RequestLine(m)|, start := |RequestLine(m)|,
           verb := MethodOf(m.verb), url := m.url, proto := m.proto)
  }

  lemma RunRequestLine(ord: Order, m: Message)
    requires HeadShaped(m)
    ensures Run(Fresh(ord), RequestLine(m)) == AfterRequestLine(ord, m)
  {
    var a, b, c := m.blanks + m.verb + " ", m.url + " ", m.proto + Eol(m.crlf);
    var m1 := Fresh(ord).(cur := |a|, verb := MethodOf(m.verb), start := |a|, st := UrlState);
    var m2 := m1.(cur := |a + b|, url := m.url, start := |a + b|, st := ProtocolState);
    var m3 := m2.(cur := |a + b + c|, proto := m.proto, start := |a + b + c|, st := StartHeaderState);
    RunVerb(ord, m.blanks, m.verb);
    RunUrl(m1, m.url);
    Chain(Fresh(ord), a, m1, b, m2);
    RunProto(m2, m.proto, m.crlf);
    Chain(Fresh(ord), a + b, m2, c, m3);
  }

  lemma KeyBegins(m: Machine, c: char)
    requires m.st == StartHeaderState && m.token == "" && c != CR
    ensures Run(m, [c]) == m.(cur := m.cur + 1, token := [c], st := HeaderKeyState)
  {
    RunOne(m, c);
    assert "" + [c] == [c];
  }

  lemma KeyEnds(m: Machine)
    requires m.st == HeaderKeyState
    ensures Run(m, ":") == m.(cur := m.cur + 1, start := m.cur + 1, token := "", key := m.token, st := HeaderValueState)
  {
    RunOne(m, ':');
  }

  lemma RunKey(m: Machine, key: string)
    requires m.st == StartHeaderState && m.token == "" && KeyShaped(key)
    ensures Run(m, key + ":") ==
            m.(cur := m.cur + |key| + 1, key := key, start := m.cur + |key| + 1, st := HeaderValueState)
  {
    hide Run;
    var c, t := key[0], key[1..];
    var m1 := m.(cur := m.cur + 1, token := [c], st := HeaderKeyState);
    var m2 := m1.(cur := m.cur + |key|, token := key);
    assert [c] + t == key;
    KeyBegins(m, c);
    RunToken(m1, t);
    Chain(m, [c], m1, t, m2);
    KeyEnds(m2);
    Chain(m, key, m2, ":", m2.(cur := m2.cur + 1, start := m2.cur + 1, token := "", key := key,
        st := HeaderValueState));
  }

  lemma RunPaddedValue(m: Machine, pad: nat, value: string, crlf: bool)
    requires m.st == HeaderValueState && m.token == "" && m.start == m.cur && ValueShaped(value)
    ensures var len := m.cur + pad + |value| + |Eol(crlf)|;
            Run(m, Spaces(pad) + value + Eol(crlf)) ==
            m.(cur := len, header := m.header[m.key := value], key := "", start := len, st := StartHeaderState)
  {
    hide Run, Step;
    RunPad(m, pad);
    var m1 := m.(cur := m.cur + pad, start := m.start + pad);
    RunValue(m1, value);
    assert "" + value == value;
    var m2 := m1.(cur := m1.cur + |value|, token := value);
    Chain(m, Spaces(pad), m1, value, m2);
    RunEol(m2, crlf);
    RunCut(m, Spaces(pad) + value, Eol(crlf));
  }

  lemma RunLine(m: Machine, l: Line)
    requires m.st == StartHeaderState && m.token == "" && m.key == ""
    requires LineShaped(l)
    ensures var len := m.cur + |LineText(l)|;
            Run(m, LineText(l)) == m.(cur := len, start := len, header := m.header[l.key := l.value])
  {
    RunKey(m, l.key);
    var m1 := m.(cur := m.cur + |l.key| + 1, key := l.key, start := m.cur + |l.key| + 1, st := HeaderValueState);
    RunPaddedValue(m1, l.pad, l.value, l.crlf);
    RunCut(m, l.key + ":", Spaces(l.pad) + l.value + Eol(l.crlf));
  }

  lemma {:induction false} RunLines(m: Machine, lines: seq<Line>)
    requires m.st == StartHeaderState && m.token == "" && m.key == "" && m.header == map[]
    requires m.start == m.cur
    requires forall i :: 0 <= i < |lines| ==> LineShaped(lines[i])
    ensures var len := m.cur + |LinesText(lines)|;
            Run(m, LinesText(lines)) == m.(cur := len, start := len, header := HeaderOf(lines))
    decreases |lines|
  {
    if lines != [] {
      var init, last := lines[..|lines| - 1], lines[|lines| - 1];
      RunLines(m, init);
      assert LineShaped(last);
      RunLine(Run(m, LinesText(init)), last);
      RunCut(m, LinesText(init), LineText(last));
    }
  }

  ghost function AfterLines(ord: Order, m: Message): Machine {
    var len := |RequestLine(m)| + |LinesText(m.lines)|;
    AfterRequestLine(ord, m).(cur := len, start := len, header := HeaderOf(m.lines))
  }

  lemma BlankLine(m: Machine)
    requires m.st == StartHeaderState && m.token == ""
    ensures Run(m, [CR] + [LF]) ==
            EndHeaders(BodyLength(m.ord, m.header), m.(cur := m.cur + 2, st := StartHeaderCRState))
  {
    hide BodyLength, EndHeaders, Run;
    var m1 := m.(cur := m.cur + 1, st := StartHeaderCRState);
    RunOne(m, CR);
    RunOne(m1, LF);
    Chain(m, [CR], m1, [LF], Step(m1, LF));
  }

  /** The machine just before the line feed that closes the header block of `m`. */
  lemma RunMessageHead(ord: Order, m: Message)
    requires HeadShaped(m)
    ensures Run(Fresh(ord), HeadText(m)) ==
            EndHeaders(BodyLength(ord, HeaderOf(m.lines)),
                       AfterLines(ord, m).(cur := |HeadText(m)|, st := StartHeaderCRState))
  {
    RunRequestLine(ord, m);
    RunLines(AfterRequestLine(ord, m), m.lines);
    var text := RequestLine(m) + LinesText(m.lines);
    var m1 := AfterLines(ord, m);
    Chain(Fresh(ord), RequestLine(m), AfterRequestLine(ord, m), LinesText(m.lines), m1);
    BlankLine(m1);
    Chain(Fresh(ord), text, m1, [CR] + [LF], Run(m1, [CR] + [LF]));
    assert text + ([CR] + [LF]) == HeadText(m);
  }

  /** The machine as it should stand after the whole of message `m`. */
  ghost function Accepted(ord: Order, m: Message): Machine {
    var bodyless := AfterLines(ord, m).(cur := |MessageText(m)|, st := CompleteState);
    if m.body == "" then bodyless
    else bodyless.(start := |HeadText(m)|, contentLen := |m.body|, body := m.body)
  }

  /** Completeness: every message, whatever follows it, is accepted exactly at its end with
      exactly its fields. */
  lemma MessageAccepted(ord: Order, m: Message, rest: string)
    requires IsMessage(ord, m)
    ensures Run(Fresh(ord), MessageText(m) + rest) == Accepted(ord, m)
  {
    RunMessageHead(ord, m);
    var m3 := Run(Fresh(ord), HeadText(m));
    if m.body == "" {
      assert MessageText(m) == HeadText(m);
    } else {
      RunBody(m3, m.body);
      assert "" + m.body == m.body;
      RunCut(Fresh(ord), HeadText(m), m.body);
    }
    RunCut(Fresh(ord), MessageText(m), rest);
  }
}
