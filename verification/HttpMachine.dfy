/** The HTTP request machine, one byte at a time, as a function on values.

    The machine's memory is `seen`, the bytes handled since the request began: the index the
    source calls `curr_idx` is `|seen|`. Extracted fields are texts, not slices, so nothing here
    depends on where the bytes sit in a buffer or on how they were cut into reads. */
module HttpMachine {
  import opened Sequences
  import opened HttpText

  datatype HttpMethod = GET | POST | PUT | DELETE | HEAD | OPTIONS | UNKNOWN

  datatype State =
    | StartState
    | MethodState
    | UrlState
    | ProtocolState
    | ProtocolCRState
    | StartHeaderState
    | StartHeaderCRState
    | HeaderKeyState
    | HeaderValueState
    | HeaderValueCRState
    | StartBodyState
    | CompleteState
    | ErrorState

  predicate Final(st: State) {
    st == CompleteState || st == ErrorState
  }

  type Headers = map<string, string>

  ghost predicate Lists(keys: seq<string>, h: Headers) {
    (forall k :: k in keys <==> k in h) && Distinct(keys)
  }

  ghost function Listing(h: Headers): (keys: seq<string>)
    ensures Lists(keys, h)
    decreases |h|
  {
    if h == map[] then []
    else
      var k :| k in h;
      var rest := Listing(h - {k});
      DistinctSnoc(rest, k);
      rest + [k]
  }

  ghost function SomeOrder(): (o: Headers -> seq<string>)
    ensures forall h :: Lists(o(h), h)
  {
    h => Listing(h)
  }

  /** The order in which a walk over the header hash map meets its keys. The source leaves it to
      the hash table; every result below holds for all orders. */
  type Order = o: Headers -> seq<string> | forall h :: Lists(o(h), h) ghost witness SomeOrder()

  const CONTENT_LENGTH: string := "content-length"
  const CONTENT_TYPE: string := "content-type"

  predicate Named(key: string, name: string) {
    Lower(key) == name
  }

  /** A handler that is shown `text` for the content type of a request sees the value of one of the
      headers of that name, if there is one. */
  ghost predicate ShowsType(header: Headers, text: string) {
    (exists j :: j in header && Lower(j) == "content-type") ==>
      exists j :: j in header && Lower(j) == "content-type" && header[j] == text
  }

  /** The last key of `keys` that spells `name` in any case; "" when none does. */
  function LastNamed(keys: seq<string>, name: string): string {
    if keys == [] then ""
    else if Named(keys[|keys| - 1], name) then keys[|keys| - 1]
    else LastNamed(keys[..|keys| - 1], name)
  }

  /** The body length a header block announces. Every spelling of the name must hold a readable
      number; of several, the one met last counts; without any the length is 0. */
  ghost function BodyLength(ord: Order, h: Headers): Option<nat> {
    if exists k :: k in h && Named(k, CONTENT_LENGTH) && Stoul(h[k]) == None then None
    else
      var k := LastNamed(ord(h), CONTENT_LENGTH);
      if k in h && Named(k, CONTENT_LENGTH) then Stoul(h[k]) else Some(0)
  }

  function MethodOf(text: string): HttpMethod {
    if text == "GET" then GET
    else if text == "POST" then POST
    else if text == "PUT" then PUT
    else if text == "DELETE" then DELETE
    else if text == "HEAD" then HEAD
    else if text == "OPTIONS" then OPTIONS
    else UNKNOWN
  }

  /** `ord` is how the header walk goes; `start` and `cur` count bytes since the request began;
      `token` is the field being read. */
  datatype Machine = Machine(
    ord: Order,
    st: State,
    start: nat,
    cur: nat,
    token: string,
    verb: HttpMethod,
    url: string,
    proto: string,
    key: string,
    header: Headers,
    contentLen: nat,
    body: string)

  function Fresh(ord: Order): Machine {
    Machine(ord, StartState, 0, 0, "", UNKNOWN, "", "", "", map[], 0, "")
  }

  /** One more byte counted; a byte added to the token; a field ended by the byte; failure. */
  function Counted(m: Machine): Machine { m.(cur := m.cur + 1) }
  function Longer(m: Machine, c: char): Machine { m.(cur := m.cur + 1, token := m.token + [c]) }
  function Next(m: Machine): Machine { m.(cur := m.cur + 1, start := m.cur + 1, token := "") }
  function Failed(m: Machine): Machine { m.(cur := m.cur + 1, token := "", st := ErrorState) }

  function OnStart(m: Machine, c: char): (r: Machine)
    ensures r.ord == m.ord && r.cur == m.cur + 1
  {
    if c in BLANKS then Counted(m) else m.(cur := m.cur + 1, start := m.cur, token := [c], st := MethodState)
  }

  function OnMethod(m: Machine, c: char): (r: Machine)
    ensures r.ord == m.ord && r.cur == m.cur + 1
  {
    if c == ' ' then Next(m).(verb := MethodOf(m.token), st := UrlState)
    else if c in BREAKS then Failed(m) else Longer(m, c)
  }

  function OnUrl(m: Machine, c: char): (r: Machine)
    ensures r.ord == m.ord && r.cur == m.cur + 1
  {
    if c == ' ' then Next(m).(url := m.token, st := ProtocolState)
    else if c in BREAKS then Failed(m) else Longer(m, c)
  }

  function OnProtocol(m: Machine, c: char): (r: Machine)
    ensures r.ord == m.ord && r.cur == m.cur + 1
  {
    if c == CR then Counted(m).(proto := m.token, token := "", st := ProtocolCRState)
    else if c == LF then Next(m).(proto := m.token, st := StartHeaderState) else Longer(m, c)
  }

  /** After the CR of the request line or of a header line. */
  function OnLineCR(m: Machine, c: char): (r: Machine)
    ensures r.ord == m.ord && r.cur == m.cur + 1
  {
    if c == LF then Next(m).(st := StartHeaderState) else Failed(m)
  }

  function OnStartHeader(m: Machine, c: char): (r: Machine)
    ensures r.ord == m.ord && r.cur == m.cur + 1
  {
    if c == CR then Counted(m).(st := StartHeaderCRState) else Longer(m, c).(st := HeaderKeyState)
  }

  /** `length` is what the header block announces. */
  function OnStartHeaderCR(length: Option<nat>, m: Machine, c: char): (r: Machine)
    ensures r.ord == m.ord && r.cur == m.cur + 1
  {
    if c == LF then EndHeaders(length, Counted(m)) else Failed(m)
  }

  function OnHeaderKey(m: Machine, c: char): (r: Machine)
    ensures r.ord == m.ord && r.cur == m.cur + 1
  {
    if c == ':' then Next(m).(key := m.token, st := HeaderValueState)
    else if c in BREAKS then Failed(m) else Longer(m, c)
  }

  function OnHeaderValue(m: Machine, c: char): (r: Machine)
    ensures r.ord == m.ord && r.cur == m.cur + 1
  {
    if m.token == "" && c == ' ' then Next(m)
    else if c == CR then
      Counted(m).(header := m.header[m.key := m.token], key := "", token := "", st := HeaderValueCRState)
    else if c == LF then Next(m).(header := m.header[m.key := m.token], key := "", st := StartHeaderState)
    else Longer(m, c)
  }

  function OnStartBody(m: Machine, c: char): (r: Machine)
    ensures r.ord == m.ord && r.cur == m.cur + 1
  {
    if |m.token| + 1 >= m.contentLen
    then Counted(m).(body := (m.token + [c])[..m.contentLen], token := "", st := CompleteState)
    else Longer(m, c)
  }

  /** The move made on the line feed that closes the header block. */
  function EndHeaders(length: Option<nat>, n: Machine): (r: Machine)
    ensures r.ord == n.ord && r.cur == n.cur
  {
    match length
    case None => n.(st := ErrorState)
    case Some(len) =>
      if len > 0 then n.(contentLen := len, start := n.cur, st := StartBodyState)
      else n.(st := CompleteState)
  }

  ghost function Step(m: Machine, c: char): Machine {
    match m.st
    case StartState => OnStart(m, c)
    case MethodState => OnMethod(m, c)
    case UrlState => OnUrl(m, c)
    case ProtocolState => OnProtocol(m, c)
    case ProtocolCRState => OnLineCR(m, c)
    case StartHeaderState => OnStartHeader(m, c)
    case StartHeaderCRState => OnStartHeaderCR(BodyLength(m.ord, m.header), m, c)
    case HeaderKeyState => OnHeaderKey(m, c)
    case HeaderValueState => OnHeaderValue(m, c)
    case HeaderValueCRState => OnLineCR(m, c)
    case StartBodyState => OnStartBody(m, c)
    case CompleteState => m
    case ErrorState => m
  }

  /** Feed bytes until the machine is final or the bytes run out. */
  ghost function Run(m: Machine, s: string): Machine
    decreases |s|
  {
    if s == "" || Final(m.st) then m else Run(Step(m, s[0]), s[1..])
  }

  lemma RunHead(m: Machine, c: char, rest: string)
    requires !Final(m.st)
    ensures Run(m, [c] + rest) == Run(Step(m, c), rest)
  {
    assert ([c] + rest)[1..] == rest;
  }

  /** Cutting the input anywhere changes nothing. */
  lemma {:induction false} RunCut(m: Machine, a: string, b: string)
    ensures Run(m, a + b) == Run(Run(m, a), b)
    decreases |a|
  {
    if a == "" {
      assert a + b == b;
    } else if !Final(m.st) {
      assert (a + b)[1..] == a[1..] + b;
      RunCut(Step(m, a[0]), a[1..], b);
    }
  }

  lemma RunOne(m: Machine, c: char)
    requires !Final(m.st)
    ensures Run(m, [c]) == Step(m, c)
  {
    assert [c][1..] == "";
    assert Run(Step(m, c), "") == Step(m, c);
  }

  lemma RunSnoc(m: Machine, a: string, c: char)
    requires !Final(Run(m, a).st)
    ensures Run(m, a + [c]) == Step(Run(m, a), c)
  {
    RunCut(m, a, [c]);
    RunOne(Run(m, a), c);
  }

  lemma StepCounts(m: Machine, c: char)
    ensures Step(m, c).ord == m.ord
    ensures !Final(m.st) ==> Step(m, c).cur == m.cur + 1
  {
    hide OnStart, OnMethod, OnUrl, OnProtocol, OnLineCR, OnStartHeader, OnStartHeaderCR, OnHeaderKey, OnHeaderValue,
      OnStartBody;
  }

  /** `cur` counts the bytes consumed: all of the input unless the machine stopped. */
  lemma {:induction false} RunCounts(m: Machine, s: string)
    ensures Run(m, s).ord == m.ord && m.cur <= Run(m, s).cur <= m.cur + |s|
    ensures !Final(Run(m, s).st) ==> Run(m, s).cur == m.cur + |s|
    ensures s != "" && !Final(m.st) ==> Run(m, s).cur > m.cur
    decreases |s|
  {
    if s != "" && !Final(m.st) {
      StepCounts(m, s[0]);
      RunCounts(Step(m, s[0]), s[1..]);
    }
  }

  /** Bytes after the point where the machine stopped are never consulted. */
  lemma RunStopsAt(m: Machine, s: string, rest: string)
    requires m.cur == 0 && Final(Run(m, s).st)
    ensures var r := Run(m, s);
            r.cur <= |s| && Run(m, s[..r.cur]) == r && Run(m, s[..r.cur] + rest) == r
  {
    var r := Run(m, s);
    RunCounts(m, s);
    var a, b := s[..r.cur], s[r.cur..];
    assert s == a + b;
    RunCut(m, a, b);
    RunCounts(m, a);
    RunCounts(Run(m, a), b);
    RunCut(m, a, rest);
  }
}
