/** What the machine decides about an input: it completes exactly on the inputs that begin with a
    message, and fails only where no continuation could make one. */
module HttpTheorems {
  import opened Sequences
  import opened HttpText
  import opened HttpMachine
  import opened HttpGrammar
  import opened HttpAcceptance
  import opened HttpSoundness

  function RequestOf(m: Machine): Request {
    Request(m.verb, m.url, m.proto, m.header, m.contentLen, m.body)
  }

  /** Some message stands at the front of `s`. */
  ghost predicate Begins(ord: Order, s: string) {
    exists m :: IsMessage(ord, m) && MessageText(m) <= s
  }

  /** Some message starts with `s`. */
  ghost predicate Extendable(ord: Order, s: string) {
    exists m :: IsMessage(ord, m) && s <= MessageText(m)
  }

  lemma AcceptedIsMessage(ord: Order, s: string) returns (m: Message)
    requires Run(Fresh(ord), s).st == CompleteState
    ensures var r := Run(Fresh(ord), s);
            && IsMessage(ord, m) && r.cur <= |s| && MessageText(m) == s[..r.cur]
            && RequestOf(r) == Meaning(m)
  {
    RunCounts(Fresh(ord), s);
    var d := TrackRun(ord, s);
    m := d.msg;
  }

  /** A message at the front of the input is read to its last byte, and no byte after it is. */
  lemma MessageRead(ord: Order, m: Message, s: string)
    requires IsMessage(ord, m) && MessageText(m) <= s
    ensures var r := Run(Fresh(ord), s);
            r.st == CompleteState && r.cur == |MessageText(m)| && RequestOf(r) == Meaning(m)
  {
    hide Step, Run, IsMessage, MessageText;
    MessageAccepted(ord, m, s[|MessageText(m)|..]);
    assert s == MessageText(m) + s[|MessageText(m)|..];
  }

  /** The machine reaches Complete exactly on inputs that begin with a message. */
  lemma CompletesExactlyOnMessages(ord: Order, s: string)
    ensures Run(Fresh(ord), s).st == CompleteState <==> Begins(ord, s)
  {
    if Run(Fresh(ord), s).st == CompleteState {
      var m := AcceptedIsMessage(ord, s);
    }
    if Begins(ord, s) {
      var m :| IsMessage(ord, m) && MessageText(m) <= s;
      MessageRead(ord, m, s);
    }
  }

  /** The grammar is prefix-free and unambiguous. */
  lemma OneMessageAtTheFront(ord: Order, a: Message, b: Message, s: string)
    requires IsMessage(ord, a) && MessageText(a) <= s
    requires IsMessage(ord, b) && MessageText(b) <= s
    ensures MessageText(a) == MessageText(b) && Meaning(a) == Meaning(b)
  {
    MessageRead(ord, a, s);
    MessageRead(ord, b, s);
  }

  // ---- errors are reported only when nothing can be saved --------------------------------

  function Overrides(keys: seq<string>): seq<Line> {
    if keys == [] then [] else Overrides(keys[..|keys| - 1]) + [Line(keys[|keys| - 1], 0, "0", true)]
  }

  /** One header name repeated with the value 0. */
  lemma OverrideOne(lines: seq<Line>, all: seq<Line>, key: string)
    requires LinesShaped(all) && LinesText(lines) <= LinesText(all) && KeyShaped(key)
    ensures var more := all + [Line(key, 0, "0", true)];
            LinesShaped(more) && LinesText(lines) <= LinesText(more) && HeaderOf(more) == HeaderOf(all)[key := "0"]
  {
    var l := Line(key, 0, "0", true);
    assert LineShaped(l);
    LinesSnoc(all, l);
  }

  /** Repeating every header name with the value 0 leaves only zeros. */
  lemma {:induction false} OverridesZero(lines: seq<Line>, keys: seq<string>)
    requires LinesShaped(lines) && forall k :: k in keys ==> KeyShaped(k)
    ensures var all := lines + Overrides(keys);
            && LinesShaped(all) && LinesText(lines) <= LinesText(all)
            && (forall k :: k in HeaderOf(all) ==> k in HeaderOf(lines) || k in keys)
            && (forall k :: k in keys ==> k in HeaderOf(all) && HeaderOf(all)[k] == "0")
    decreases |keys|
  {
    hide LinesShaped, LinesText, HeaderOf, KeyShaped;
    if keys == [] {
      assert lines + [] == lines;
    } else {
      var init, key := keys[..|keys| - 1], keys[|keys| - 1];
      OverridesZero(lines, init);
      OverrideOne(lines, lines + Overrides(init), key);
      ConcatAssoc(lines, Overrides(init), [Line(key, 0, "0", true)]);
      assert forall k :: k in keys <==> k in init || k == key;
    }
  }

  lemma ZeroHeaders(ord: Order, h: Headers)
    requires forall k :: k in h ==> h[k] == "0"
    ensures BodyLength(ord, h) == Some(0)
  {
    assert Decimal(0) == "0";
    StoulOfDecimal(0);
  }

  /** Any well-shaped head can be continued to a message. */
  lemma HeadContinues(ord: Order, m: Message) returns (w: Message)
    requires HeadShaped(m)
    ensures IsMessage(ord, w) && RequestLine(m) + LinesText(m.lines) <= MessageText(w)
  {
    var h := HeaderOf(m.lines);
    assert Lists(ord(h), h);
    HeaderKeysShaped(m.lines);
    OverridesZero(m.lines, ord(h));
    w := m.(lines := m.lines + Overrides(ord(h)), body := "");
    ZeroHeaders(ord, HeaderOf(w.lines));
    assert RequestLine(w) == RequestLine(m);
  }

  lemma LinePrefix(m: Message, l: Line, seen: string)
    requires seen <= RequestLine(m) + LinesText(m.lines) + LineText(l)
    ensures seen <= RequestLine(m) + LinesText(m.lines + [l])
  {
    LinesSnoc(m.lines, l);
    ConcatAssoc(RequestLine(m), LinesText(m.lines), LineText(l));
  }

  /** A header line in progress can be finished. */
  lemma LineContinues(m: Machine, d: Draft, seen: string) returns (w: Message)
    requires Tracks(m, d, seen) && m.st in {HeaderKeyState, HeaderValueState}
    ensures IsMessage(m.ord, w) && seen <= MessageText(w)
  {
    var l := if m.st == HeaderKeyState then Line(m.token, 0, "", true) else Line(d.key, d.pad, m.token, true);
    assert LineShaped(l);
    var head := RequestLine(d.msg) + LinesText(d.msg.lines);
    if m.st == HeaderKeyState {
      assert head + LineText(l) == head + m.token + (":" + ("" + Eol(true)));
    } else {
      ConcatAssoc(head, d.key + ":", Spaces(d.pad) + m.token + Eol(true));
      ConcatAssoc(head + (d.key + ":"), Spaces(d.pad) + m.token, Eol(true));
    }
    assert seen <= head + LineText(l);
    LinePrefix(d.msg, l, seen);
    w := HeadContinues(m.ord, d.msg.(lines := d.msg.lines + [l]));
  }

  /** A request line in progress can be finished. */
  lemma RequestLineContinues(m: Machine, d: Draft, seen: string) returns (w: Message)
    requires Tracks(m, d, seen)
    requires m.st in {StartState, MethodState, UrlState, ProtocolState, ProtocolCRState}
    ensures IsMessage(m.ord, w) && seen <= MessageText(w)
  {
    var g := d.msg;
    match m.st {
      case StartState => g := Message(d.msg.blanks, "G", "", "", true, [], "");
      case MethodState => g := Message(d.msg.blanks, m.token, "", "", true, [], "");
      case UrlState => g := Message(d.msg.blanks, d.msg.verb, m.token, "", true, [], "");
      case ProtocolState => g := Message(d.msg.blanks, d.msg.verb, d.msg.url, m.token, true, [], "");
      case _ =>
    }
    w := HeadContinues(m.ord, g);
    assert seen <= RequestLine(g) + LinesText(g.lines);
  }

  lemma BodyContinues(m: Machine, d: Draft, seen: string) returns (w: Message)
    requires Tracks(m, d, seen) && m.st == StartBodyState
    ensures IsMessage(m.ord, w) && seen <= MessageText(w)
  {
    var filler := Spaces(m.contentLen - |m.token|);
    w := d.msg.(body := m.token + filler);
    HeadIgnoresBody(d.msg, m.token + filler);
    ConcatAssoc(HeadText(d.msg), m.token, filler);
  }

  lemma BlankLineContinues(m: Machine, d: Draft, seen: string, len: nat) returns (w: Message)
    requires Tracks(m, d, seen) && m.st == StartHeaderCRState && BodyLength(m.ord, m.header) == Some(len)
    ensures IsMessage(m.ord, w) && seen <= MessageText(w)
  {
    w := d.msg.(body := Spaces(len));
    var head := RequestLine(d.msg) + LinesText(d.msg.lines);
    assert HeadText(w) == head + "\r\n";
    assert head + [CR] <= head + "\r\n";
  }

  /** Every input short of a decision is the start of some message, with one exception: after the
      CR of the blank line the machine has not yet looked at an unreadable Content-Length. */
  lemma UnfinishedContinues(ord: Order, s: string)
    requires !Final(Run(Fresh(ord), s).st)
    requires var r := Run(Fresh(ord), s); r.st == StartHeaderCRState ==> BodyLength(ord, r.header) != None
    ensures Extendable(ord, s)
  {
    var r := Run(Fresh(ord), s);
    var d := TrackRun(ord, s);
    RunCounts(Fresh(ord), s);
    assert s[..r.cur] == s;
    var w;
    match r.st {
      case HeaderKeyState | HeaderValueState => w := LineContinues(r, d, s);
      case StartHeaderState | HeaderValueCRState => w := HeadContinues(ord, d.msg);
      case StartBodyState => w := BodyContinues(r, d, s);
      case StartHeaderCRState => w := BlankLineContinues(r, d, s, BodyLength(ord, r.header).value);
      case _ => w := RequestLineContinues(r, d, s);
    }
  }

  /** Nothing that follows `s` can complete it once the machine has failed, or stands before an
      unreadable Content-Length. */
  lemma LostCauses(ord: Order, s: string, m: Message)
    requires IsMessage(ord, m) && s <= MessageText(m)
    ensures var r := Run(Fresh(ord), s);
            r.st != ErrorState && !(r.st == StartHeaderCRState && BodyLength(ord, r.header) == None)
  {
    hide Step, IsMessage, MessageText, BodyLength;
    var r, rest := Run(Fresh(ord), s), MessageText(m)[|s|..];
    assert MessageText(m) == s + rest;
    RunCut(Fresh(ord), s, rest);
    RunCounts(Fresh(ord), s);
    MessageRead(ord, m, MessageText(m));
    if r.st == StartHeaderCRState && BodyLength(ord, r.header) == None {
      UnreadableLength(r, rest);
    }
  }

  lemma UnreadableLength(m: Machine, t: string)
    requires m.st == StartHeaderCRState && BodyLength(m.ord, m.header) == None
    ensures Run(m, t).st != CompleteState
  {
    if t != "" {
      assert Step(m, t[0]).st == ErrorState;
    }
  }

  /** The machine's three answers, for every input: done exactly when a message stands at the
      front; failed only when none does and none can; otherwise undecided, and then the input is
      the start of a message unless the blank line is half read below an unreadable length. */
  lemma Verdicts(ord: Order, s: string)
    ensures var r := Run(Fresh(ord), s);
            var lost := r.st == StartHeaderCRState && BodyLength(ord, r.header) == None;
            && (r.st == CompleteState <==> Begins(ord, s))
            && (r.st == ErrorState || lost <==> !Begins(ord, s) && !Extendable(ord, s))
            && (!Final(r.st) && !lost <==> !Begins(ord, s) && Extendable(ord, s))
  {
    var r := Run(Fresh(ord), s);
    CompletesExactlyOnMessages(ord, s);
    if Extendable(ord, s) {
      var m :| IsMessage(ord, m) && s <= MessageText(m);
      LostCauses(ord, s, m);
    }
    if !Final(r.st) && !(r.st == StartHeaderCRState && BodyLength(ord, r.header) == None) {
      UnfinishedContinues(ord, s);
    }
  }

  // ---- when the hash table's order matters ------------------------------------------------

  ghost function Without(keys: seq<string>, k: string): seq<string> {
    if keys == [] then []
    else if keys[|keys| - 1] == k then Without(keys[..|keys| - 1], k)
    else Without(keys[..|keys| - 1], k) + [keys[|keys| - 1]]
  }

  lemma {:induction false} WithoutLists(keys: seq<string>, k: string)
    requires Distinct(keys)
    ensures Distinct(Without(keys, k))
    ensures forall x :: x in Without(keys, k) <==> x in keys && x != k
  {
    if keys != [] {
      var init, last := keys[..|keys| - 1], keys[|keys| - 1];
      WithoutLists(init, k);
      assert keys == init + [last];
      assert last !in init;
      if last != k {
        DistinctSnoc(Without(init, k), last);
      }
    }
  }

  /** `ord`, except that `k` is met last in `h`. */
  ghost function MeetLast(ord: Order, h: Headers, k: string): (o: Order)
    requires k in h
    ensures o(h) == Without(ord(h), k) + [k]
  {
    var o: Headers -> seq<string> := g => if g == h then Without(ord(g), k) + [k] else ord(g);
    MeetLastLists(ord, h, k);
    o
  }

  lemma MeetLastLists(ord: Order, h: Headers, k: string)
    requires k in h
    ensures Lists(Without(ord(h), k) + [k], h)
  {
    assert Lists(ord(h), h);
    WithoutLists(ord(h), k);
    DistinctSnoc(Without(ord(h), k), k);
  }

  ghost predicate Spelling(h: Headers, k: string) {
    k in h && Named(k, CONTENT_LENGTH)
  }

  lemma {:induction false} LastNamedFound(keys: seq<string>, name: string)
    requires name != ""
    ensures (exists k :: k in keys && Named(k, name)) ==>
      LastNamed(keys, name) in keys && Named(LastNamed(keys, name), name)
  {
    if keys != [] && !Named(keys[|keys| - 1], name) {
      LastNamedFound(keys[..|keys| - 1], name);
    }
  }

  /** With at most one reading among the spellings of Content-Length, order does not matter. */
  lemma OneReadingSuffices(a: Order, b: Order, h: Headers)
    requires forall j, k :: Spelling(h, j) && Spelling(h, k) ==> Stoul(h[j]) == Stoul(h[k])
    ensures BodyLength(a, h) == BodyLength(b, h)
  {
    assert Lists(a(h), h) && Lists(b(h), h);
    LastNamedFound(a(h), CONTENT_LENGTH);
    LastNamedFound(b(h), CONTENT_LENGTH);
    var j, k := LastNamed(a(h), CONTENT_LENGTH), LastNamed(b(h), CONTENT_LENGTH);
    assert Spelling(h, j) <==> Spelling(h, k);
  }

  /** The order of the hash table shows exactly when two spellings of Content-Length hold
      different numbers and every spelling is readable. */
  lemma OrderShowsExactlyOnConflict(ord: Order, h: Headers)
    ensures (forall a: Order, b: Order :: BodyLength(a, h) == BodyLength(b, h)) <==>
            (exists k :: Spelling(h, k) && Stoul(h[k]) == None) ||
            (forall j, k :: Spelling(h, j) && Spelling(h, k) ==> Stoul(h[j]) == Stoul(h[k]))
  {
    hide Stoul;
    if exists k :: Spelling(h, k) && Stoul(h[k]) == None {
    } else if j, k :| Spelling(h, j) && Spelling(h, k) && Stoul(h[j]) != Stoul(h[k]) {
      var a, b := MeetLast(ord, h, j), MeetLast(ord, h, k);
      assert BodyLength(a, h) == Stoul(h[j]) && BodyLength(b, h) == Stoul(h[k]);
    } else {
      forall a: Order, b: Order ensures BodyLength(a, h) == BodyLength(b, h) {
        OneReadingSuffices(a, b, h);
      }
    }
  }

  // ---- serialised requests ---------------------------------------------------------------

  datatype Field = Field(name: string, value: string)

  function VerbText(v: HttpMethod): string
    requires v != UNKNOWN
  {
    match v
    case GET => "GET"
    case POST => "POST"
    case PUT => "PUT"
    case DELETE => "DELETE"
    case HEAD => "HEAD"
    case OPTIONS => "OPTIONS"
  }

  function FieldLines(fields: seq<Field>): seq<Line> {
    if fields == [] then []
    else FieldLines(fields[..|fields| - 1]) + [Line(fields[|fields| - 1].name, 1, fields[|fields| - 1].value, true)]
  }

  function FieldMap(fields: seq<Field>): Headers {
    if fields == [] then map[]
    else FieldMap(fields[..|fields| - 1])[fields[|fields| - 1].name := fields[|fields| - 1].value]
  }

  /** `fields` and the Content-Length that goes with `body`. */
  function AllFields(fields: seq<Field>, body: string): seq<Field> {
    fields + [Field("Content-Length", Decimal(|body|))]
  }

  /** A request in the message format of section 2.1 of RFC 9112. */
  function Serialised(v: HttpMethod, url: string, fields: seq<Field>, body: string): Message
    requires v != UNKNOWN
  {
    Message("", VerbText(v), url, "HTTP/1.1", true, FieldLines(AllFields(fields, body)), body)
  }

  ghost predicate FieldsShaped(fields: seq<Field>) {
    forall i :: 0 <= i < |fields| ==>
      KeyShaped(fields[i].name) && ValueShaped(fields[i].value) && !Named(fields[i].name, CONTENT_LENGTH)
  }

  lemma {:induction false} FieldLinesRead(fields: seq<Field>)
    requires forall i :: 0 <= i < |fields| ==> KeyShaped(fields[i].name) && ValueShaped(fields[i].value)
    ensures LinesShaped(FieldLines(fields)) && HeaderOf(FieldLines(fields)) == FieldMap(fields)
  {
    if fields != [] {
      var f := fields[|fields| - 1];
      FieldLinesRead(fields[..|fields| - 1]);
      LinesSnoc(FieldLines(fields[..|fields| - 1]), Line(f.name, 1, f.value, true));
    }
  }

  lemma {:induction false} FieldMapKeys(fields: seq<Field>)
    ensures forall k :: k in FieldMap(fields) ==> exists i :: 0 <= i < |fields| && fields[i].name == k
  {
    if fields != [] {
      FieldMapKeys(fields[..|fields| - 1]);
    }
  }

  lemma ContentLengthIsNamed()
    ensures Named("Content-Length", CONTENT_LENGTH)
  {
    var l := Lower("Content-Length");
    forall i | 0 <= i < |l| ensures l[i] == CONTENT_LENGTH[i] {
      if i == 0 {} else if i == 8 {} else {}
    }
  }

  lemma DecimalShaped(n: nat)
    ensures ValueShaped(Decimal(n))
  {
    DecimalIsPlain(n);
  }

  /** The appended Content-Length is the only spelling of it. */
  lemma AnnouncedLength(ord: Order, fields: seq<Field>, body: string)
    requires FieldsShaped(fields) && |body| < SIZE_LIMIT
    ensures BodyLength(ord, FieldMap(fields)["Content-Length" := Decimal(|body|)]) == Some(|body|)
  {
    var h := FieldMap(fields)["Content-Length" := Decimal(|body|)];
    FieldMapKeys(fields);
    ContentLengthIsNamed();
    StoulOfDecimal(|body|);
    assert forall k :: Spelling(h, k) ==> k == "Content-Length";
    assert Spelling(h, "Content-Length");
    assert Lists(ord(h), h);
    LastNamedFound(ord(h), CONTENT_LENGTH);
    assert Spelling(h, LastNamed(ord(h), CONTENT_LENGTH));
  }

  lemma VerbTextRead(v: HttpMethod)
    requires v != UNKNOWN
    ensures MethodOf(VerbText(v)) == v && VerbText(v) != "" && Avoids(VerbText(v), WORD_ENDS)
  {
  }

  lemma SerialisedIsMessage(ord: Order, v: HttpMethod, url: string, fields: seq<Field>, body: string)
    requires v != UNKNOWN && Avoids(url, WORD_ENDS)
    requires FieldsShaped(fields) && |body| < SIZE_LIMIT
    ensures IsMessage(ord, Serialised(v, url, fields, body))
    ensures HeaderOf(FieldLines(AllFields(fields, body))) == FieldMap(fields)["Content-Length" := Decimal(|body|)]
  {
    hide BodyLength, MessageText, MethodOf;
    var all := AllFields(fields, body);
    DecimalShaped(|body|);
    assert all[..|all| - 1] == fields;
    forall i | 0 <= i < |all| ensures KeyShaped(all[i].name) && ValueShaped(all[i].value) {
      if i == |fields| {
        ContentLengthShaped();
      } else {
        assert all[i] == fields[i];
      }
    }
    FieldLinesRead(all);
    AnnouncedLength(ord, fields, body);
    VerbTextRead(v);
  }

  lemma ContentLengthShaped()
    ensures KeyShaped("Content-Length") && Avoids("HTTP/1.1", BREAKS)
  {
  }

  /** Round trip: a serialised request is read back field for field, and reading stops exactly at
      its end, whatever follows. */
  lemma RequestRoundTrip(ord: Order, v: HttpMethod, url: string, fields: seq<Field>, body: string, rest: string)
    requires v != UNKNOWN && Avoids(url, WORD_ENDS)
    requires FieldsShaped(fields) && |body| < SIZE_LIMIT
    ensures var text := MessageText(Serialised(v, url, fields, body));
            var r := Run(Fresh(ord), text + rest);
            && r.st == CompleteState && r.cur == |text|
            && r.verb == v && r.url == url && r.proto == "HTTP/1.1" && r.body == body && r.contentLen == |body|
            && r.header == FieldMap(fields)["Content-Length" := Decimal(|body|)]
  {
    hide Step, Run, MessageText, IsMessage, BodyLength;
    var m := Serialised(v, url, fields, body);
    SerialisedIsMessage(ord, v, url, fields, body);
    MessageRead(ord, m, MessageText(m) + rest);
  }
}
