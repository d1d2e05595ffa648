/** Soundness: whatever the machine accepts is a message of the grammar, and an unfinished run is
    the beginning of one. A draft is the message read so far. */
module HttpSoundness {
  import opened HttpText
  import opened HttpMachine
  import opened HttpGrammar
  import opened HttpAcceptance

  datatype Draft = Draft(msg: Message, key: string, pad: nat)

  const BLANK_DRAFT: Draft := Draft(Message("", "", "", "", false, [], ""), "", 0)

  ghost predicate LinesShaped(lines: seq<Line>) {
    forall i :: 0 <= i < |lines| ==> LineShaped(lines[i])
  }

  ghost predicate VerbShaped(d: Draft) {
    Only(d.msg.blanks, BLANKS) && d.msg.verb != "" && Avoids(d.msg.verb, WORD_ENDS)
  }

  ghost predicate TokenTracks(m: Machine, d: Draft) {
    match m.st
    case MethodState => m.token != "" && Avoids(m.token, WORD_ENDS)
    case UrlState => Avoids(m.token, WORD_ENDS)
    case ProtocolState => Avoids(m.token, BREAKS)
    case HeaderKeyState => KeyShaped(m.token)
    case HeaderValueState => ValueShaped(m.token) && m.key == d.key && KeyShaped(d.key)
    case StartBodyState => |m.token| < m.contentLen
    case _ => m.token == ""
  }

  /** What of the draft is settled once the machine is in state `st`. */
  ghost predicate DraftShaped(st: State, d: Draft) {
    match st
    case StartState => Only(d.msg.blanks, BLANKS)
    case MethodState => Only(d.msg.blanks, BLANKS)
    case UrlState => VerbShaped(d)
    case ProtocolState => VerbShaped(d) && Avoids(d.msg.url, WORD_ENDS)
    case _ => HeadShaped(d.msg)
  }

  ghost predicate FieldsTrack(m: Machine, d: Draft) {
    && (m.st !in {StartState, MethodState} ==> m.verb == MethodOf(d.msg.verb))
    && (m.st !in {StartState, MethodState, UrlState} ==> m.url == d.msg.url)
    && (m.st !in {StartState, MethodState, UrlState, ProtocolState} ==> m.proto == d.msg.proto)
    && m.header == HeaderOf(d.msg.lines)
    && (m.st != HeaderValueState ==> m.key == "")
    && (m.st == StartBodyState ==> BodyLength(m.ord, m.header) == Some(m.contentLen))
    && (m.st == CompleteState ==>
         BodyLength(m.ord, m.header) == Some(|m.body|) && m.contentLen == |m.body| && m.body == d.msg.body)
    && (!Final(m.st) ==> m.body == "" && d.msg.body == "")
    && (!Final(m.st) && m.st != StartBodyState ==> m.contentLen == 0)
  }

  /** The bytes consumed, spelled out from the draft and the token. */
  ghost predicate TextTracks(m: Machine, d: Draft, seen: string) {
    var verb := d.msg.blanks + d.msg.verb + " ";
    var head := RequestLine(d.msg) + LinesText(d.msg.lines);
    match m.st
    case StartState => d.msg.lines == [] && seen == d.msg.blanks
    case MethodState => d.msg.lines == [] && seen == d.msg.blanks + m.token
    case UrlState => d.msg.lines == [] && seen == verb + m.token
    case ProtocolState => d.msg.lines == [] && seen == verb + (d.msg.url + " ") + m.token
    case ProtocolCRState => d.msg.lines == [] && seen + [LF] == RequestLine(d.msg)
    case StartHeaderState => seen == head
    case StartHeaderCRState => seen == head + [CR]
    case HeaderKeyState => seen == head + m.token
    case HeaderValueState => seen == head + (d.key + ":") + (Spaces(d.pad) + m.token)
    case HeaderValueCRState => seen + [LF] == head
    case StartBodyState => seen == HeadText(d.msg) + m.token
    case CompleteState => seen == MessageText(d.msg)
    case ErrorState => true
  }

  ghost predicate Tracks(m: Machine, d: Draft, seen: string) {
    && TokenTracks(m, d)
    && DraftShaped(m.st, d)
    && FieldsTrack(m, d)
    && TextTracks(m, d, seen)
  }

  /** The draft after one more byte. */
  function Extend(m: Machine, d: Draft, c: char): Draft {
    match m.st
    case StartState => if c in BLANKS then d.(msg := d.msg.(blanks := d.msg.blanks + [c])) else d
    case MethodState => if c == ' ' then d.(msg := d.msg.(verb := m.token)) else d
    case UrlState => if c == ' ' then d.(msg := d.msg.(url := m.token)) else d
    case ProtocolState =>
      if c in BREAKS then d.(msg := d.msg.(proto := m.token, crlf := c == CR)) else d
    case HeaderKeyState => if c == ':' then d.(key := m.token, pad := 0) else d
    case HeaderValueState =>
      if m.token == "" && c == ' ' then d.(pad := d.pad + 1)
      else if c in BREAKS then
        d.(msg := d.msg.(lines := d.msg.lines + [Line(d.key, d.pad, m.token, c == CR)]))
      else d
    case StartBodyState =>
      if |m.token| + 1 < m.contentLen then d else d.(msg := d.msg.(body := m.token + [c]))
    case _ => d
  }

  lemma TrackStart(m: Machine, d: Draft, seen: string, c: char)
    requires Tracks(m, d, seen) && m.st in {StartState, MethodState, UrlState}
    requires Step(m, c).st != ErrorState
    ensures Tracks(Step(m, c), Extend(m, d, c), seen + [c])
  {
    if m.st == MethodState && c != ' ' {
      ConcatAssoc(d.msg.blanks, m.token, [c]);
    } else if m.st == UrlState {
      ConcatAssoc(d.msg.blanks + d.msg.verb + " ", m.token, [c]);
    }
  }

  lemma TrackProtocol(m: Machine, d: Draft, seen: string, c: char)
    requires Tracks(m, d, seen) && m.st in {ProtocolState, ProtocolCRState}
    requires Step(m, c).st != ErrorState
    ensures Tracks(Step(m, c), Extend(m, d, c), seen + [c])
  {
    if m.st == ProtocolState {
      ConcatAssoc(d.msg.blanks + d.msg.verb + " " + (d.msg.url + " "), m.token, [c]);
      if c == CR {
        assert m.token + [CR] + [LF] == m.token + "\r\n";
        ConcatAssoc(d.msg.blanks + d.msg.verb + " " + (d.msg.url + " "), m.token + [CR], [LF]);
      } else if c == LF {
        assert RequestLine(Extend(m, d, c).msg) + "" == RequestLine(Extend(m, d, c).msg);
      }
    } else {
      assert RequestLine(d.msg) + "" == RequestLine(d.msg);
    }
  }

  lemma TrackHeaderKey(m: Machine, d: Draft, seen: string, c: char)
    requires Tracks(m, d, seen) && m.st in {StartHeaderState, HeaderKeyState, HeaderValueCRState}
    requires Step(m, c).st != ErrorState
    ensures Tracks(Step(m, c), Extend(m, d, c), seen + [c])
  {
    var head := RequestLine(d.msg) + LinesText(d.msg.lines);
    ConcatAssoc(head, m.token, [c]);
    if m.st == HeaderKeyState {
      if c == ':' {
        assert Spaces(0) + "" == "";
        assert head + (m.token + ":") + "" == head + (m.token + ":");
      } else {
        assert (m.token + [c])[1..] == m.token[1..] + [c];
      }
    }
  }

  /** The value of the header line in progress is complete. */
  lemma TrackValueEnd(m: Machine, d: Draft, seen: string, c: char)
    requires Tracks(m, d, seen) && m.st == HeaderValueState && c in BREAKS
    ensures Tracks(Step(m, c), Extend(m, d, c), seen + [c])
  {
    var l := Line(d.key, d.pad, m.token, c == CR);
    var head, key, rest := RequestLine(d.msg) + LinesText(d.msg.lines), d.key + ":", Spaces(d.pad) + m.token;
    LinesSnoc(d.msg.lines, l);
    assert LineShaped(l);
    var tail := if c == CR then seen + [c] + [LF] else seen + [c];
    assert tail == RequestLine(d.msg) + (LinesText(d.msg.lines) + LineText(l)) by {
      assert tail == seen + Eol(l.crlf);
      ConcatAssoc(head + key, rest, Eol(l.crlf));
      ConcatAssoc(head, key, rest + Eol(l.crlf));
      ConcatAssoc(RequestLine(d.msg), LinesText(d.msg.lines), LineText(l));
    }
  }

  lemma TrackValue(m: Machine, d: Draft, seen: string, c: char)
    requires Tracks(m, d, seen) && m.st == HeaderValueState && c !in BREAKS
    ensures Tracks(Step(m, c), Extend(m, d, c), seen + [c])
  {
    var front := RequestLine(d.msg) + LinesText(d.msg.lines) + (d.key + ":");
    ConcatAssoc(front, Spaces(d.pad) + m.token, [c]);
    if m.token == "" && c == ' ' {
      assert Spaces(d.pad) + "" + [c] == Spaces(d.pad + 1) + "";
    } else {
      ConcatAssoc(Spaces(d.pad), m.token, [c]);
    }
  }

  lemma TrackEndHeaders(m: Machine, d: Draft, seen: string, c: char)
    requires Tracks(m, d, seen) && m.st == StartHeaderCRState
    requires Step(m, c).st != ErrorState
    ensures Tracks(Step(m, c), Extend(m, d, c), seen + [c])
  {
    var head := RequestLine(d.msg) + LinesText(d.msg.lines);
    assert head + [CR] + [LF] == head + "\r\n";
    assert HeadText(d.msg) + "" == HeadText(d.msg);
  }

  lemma HeadIgnoresBody(msg: Message, body: string)
    ensures HeadText(msg.(body := body)) == HeadText(msg)
  {
  }

  lemma TrackBodyByte(m: Machine, d: Draft, seen: string, c: char)
    requires Tracks(m, d, seen) && m.st == StartBodyState && |m.token| + 1 < m.contentLen
    ensures Tracks(Step(m, c), d, seen + [c])
  {
    ConcatAssoc(HeadText(d.msg), m.token, [c]);
  }

  lemma TrackBodyEnd(m: Machine, d: Draft, seen: string, c: char)
    requires Tracks(m, d, seen) && m.st == StartBodyState && |m.token| + 1 == m.contentLen
    ensures Tracks(Step(m, c), d.(msg := d.msg.(body := m.token + [c])), seen + [c])
  {
    ConcatAssoc(HeadText(d.msg), m.token, [c]);
    HeadIgnoresBody(d.msg, m.token + [c]);
    assert (m.token + [c])[..m.contentLen] == m.token + [c];
  }

  lemma TrackStep(m: Machine, d: Draft, seen: string, c: char)
    requires Tracks(m, d, seen) && !Final(m.st)
    requires Step(m, c).st != ErrorState
    ensures Tracks(Step(m, c), Extend(m, d, c), seen + [c])
  {
    match m.st
    case StartState | MethodState | UrlState => TrackStart(m, d, seen, c);
    case ProtocolState | ProtocolCRState => TrackProtocol(m, d, seen, c);
    case StartHeaderState | HeaderKeyState | HeaderValueCRState => TrackHeaderKey(m, d, seen, c);
    case HeaderValueState =>
      if c in BREAKS { TrackValueEnd(m, d, seen, c); } else { TrackValue(m, d, seen, c); }
    case StartHeaderCRState => TrackEndHeaders(m, d, seen, c);
    case StartBodyState =>
      if |m.token| + 1 < m.contentLen { TrackBodyByte(m, d, seen, c); } else { TrackBodyEnd(m, d, seen, c); }
  }

  /** A run that has not failed is spelled out by some draft. */
  lemma {:induction false} TrackRun(ord: Order, s: string) returns (d: Draft)
    ensures Run(Fresh(ord), s).cur <= |s|
    ensures Run(Fresh(ord), s).st != ErrorState ==> Tracks(Run(Fresh(ord), s), d, s[..Run(Fresh(ord), s).cur])
    decreases |s|
  {
    if s == "" {
      d := BLANK_DRAFT;
    } else {
      var a, c := s[..|s| - 1], s[|s| - 1];
      d := TrackRun(ord, a);
      assert s == a + [c];
      d := TrackSnoc(ord, a, c, Run(Fresh(ord), a), Run(Fresh(ord), a + [c]), d);
    }
  }

  /** One more byte of input, tracked: `q` and `n` are the machine before and after it. */
  lemma TrackSnoc(ord: Order, a: string, c: char, q: Machine, n: Machine, d: Draft) returns (d': Draft)
    requires q == Run(Fresh(ord), a) && n == Run(Fresh(ord), a + [c]) && q.cur <= |a|
    requires q.st != ErrorState ==> Tracks(q, d, a[..q.cur])
    ensures n.cur <= |a + [c]|
    ensures n.st != ErrorState ==> Tracks(n, d', (a + [c])[..n.cur])
  {
    d' := d;
    SnocCases(Fresh(ord), a, c, q, n);
    if !Final(q.st) && n.st != ErrorState {
      TrackStep(q, d, a, c);
      d' := Extend(q, d, c);
    }
  }

  lemma SnocCases(m: Machine, a: string, c: char, q: Machine, n: Machine)
    requires m.cur == 0 && q == Run(m, a) && n == Run(m, a + [c]) && q.cur <= |a|
    ensures n.cur <= |a + [c]|
    ensures Final(q.st) ==> n == q && (a + [c])[..n.cur] == a[..q.cur]
    ensures !Final(q.st) ==> n == Step(q, c) && a[..q.cur] == a && (a + [c])[..n.cur] == a + [c]
  {
    hide Step;
    RunCounts(m, a);
    if Final(q.st) {
      RunCut(m, a, [c]);
    } else {
      RunSnoc(m, a, c);
      StepCounts(q, c);
    }
  }
}
