/** The simulator of the request machine on the features page, a second implementation in
    JavaScript, and where the two machines agree. Texts are ASCII. */
module JsSimulator {
  import opened HttpText
  import opened HttpMachine
  import opened HttpGrammar
  import opened HttpTheorems
  import opened HttpAcceptance
  import opened HttpOrder

  datatype Simulator = Simulator(st: State, start: nat, cur: nat, key: string, headers: Headers, contentLen: int)

  const START: Simulator := Simulator(StartState, 0, 0, "", map[], 0)

  // ---- the JavaScript in it ------------------------------------------------------------------

  function Min(a: int, b: int): int { if a < b then a else b }

  /** `s.substring(a, b)`. */
  function Substring(s: string, a: nat, b: nat): string {
    var x, y := Min(a, |s|), Min(b, |s|);
    if x <= y then s[x..y] else s[y..x]
  }

  function TrimEnd(s: string): string {
    if s != "" && IsSpace(s[|s| - 1]) then TrimEnd(s[..|s| - 1]) else s
  }

  function Trim(s: string): string {
    TrimEnd(SkipSpace(s))
  }

  /** `parseInt(s, 10)`, exact below 2^53; `None` is NaN. */
  function ParseInt(s: string): Option<int> {
    var t := SkipSpace(s);
    var signed := t != "" && (t[0] == '-' || t[0] == '+');
    var digits := LeadingDigits(if signed then t[1..] else t);
    LeadingDigitsAreDigits(if signed then t[1..] else t);
    var n: int := Value(digits);
    if digits == "" then None else Some(if signed && t[0] == '-' then -n else n)
  }

  /** How header names are kept. */
  function NameKept(key: string): string {
    Lower(Trim(key))
  }

  /** `headers[name] = value` on an object literal; its `__proto__` takes no strings. */
  function Assigned(headers: Headers, name: string, value: string): Headers {
    if name == "__proto__" then headers else headers[name := value]
  }

  /** The number read from a content length, 0 for an empty text. NaN compares like 0 wherever it
      is used. */
  function NumberRead(v: string): int {
    if v == "" then 0
    else
      match ParseInt(Trim(v))
      case None => 0
      case Some(n) => n
  }

  /** The body length at the blank line. */
  function LengthRead(headers: Headers): int {
    if CONTENT_LENGTH in headers then NumberRead(headers[CONTENT_LENGTH]) else 0
  }

  // ---- the simulator -------------------------------------------------------------------------

  /** One turn of the loop. */
  function Turn(raw: string, j: Simulator): Simulator
    requires j.cur < |raw|
  {
    var c := raw[j.cur];
    var n := j.(cur := j.cur + 1);
    var token := Substring(raw, j.start, j.cur);
    match j.st
    case StartState => if c == ' ' || c == CR || c == LF then n else n.(start := j.cur, st := MethodState)
    case MethodState =>
      if c == ' ' then n.(start := j.cur + 1, st := UrlState)
      else if c == CR || c == LF then n.(st := ErrorState) else n
    case UrlState =>
      if c == ' ' then n.(start := j.cur + 1, st := ProtocolState)
      else if c == CR || c == LF then n.(st := ErrorState) else n
    case ProtocolState =>
      if c == CR then n.(st := ProtocolCRState)
      else if c == LF then n.(start := j.cur + 1, st := StartHeaderState) else n
    case ProtocolCRState => if c == LF then n.(start := j.cur + 1, st := StartHeaderState) else n.(st := ErrorState)
    case StartHeaderState => n.(st := if c == CR then StartHeaderCRState else HeaderKeyState)
    case StartHeaderCRState =>
      if c == LF then
        var len := LengthRead(j.headers);
        if len > 0 then n.(contentLen := len, start := j.cur + 1, st := StartBodyState)
        else n.(contentLen := len, st := CompleteState)
      else n.(st := ErrorState)
    case HeaderKeyState =>
      if c == ':' then n.(key := NameKept(token), start := j.cur + 1, st := HeaderValueState)
      else if c == CR || c == LF then n.(st := ErrorState) else n
    case HeaderValueState =>
      if j.cur == j.start && c == ' ' then n.(start := j.start + 1)
      else if c == CR then n.(headers := Assigned(j.headers, j.key, token), st := HeaderValueCRState)
      else if c == LF then
        n.(headers := Assigned(j.headers, j.key, token), start := j.cur + 1, st := StartHeaderState)
      else n
    case HeaderValueCRState => if c == LF then n.(start := j.cur + 1, st := StartHeaderState) else n.(st := ErrorState)
    case StartBodyState => if j.cur - j.start + 1 >= j.contentLen then n.(st := CompleteState) else n
    case CompleteState => n
    case ErrorState => n
  }

  /** The simulator after `n` turns, or where it stopped before that. */
  function AfterTurns(raw: string, n: nat): (j: Simulator)
    ensures j.cur <= n && (!Final(j.st) && n <= |raw| ==> j.cur == n)
  {
    if n == 0 then START
    else
      var j := AfterTurns(raw, n - 1);
      if Final(j.st) || j.cur >= |raw| then j else Turn(raw, j)
  }

  /** What a step shows of the machine: its state, its start index and its current index. */
  datatype Shown = Shown(st: State, start: nat, cur: int)

  function Display(raw: string, j: Simulator): Shown {
    Shown(j.st, j.start, Min(j.cur, |raw| - 1))
  }

  /** A body that has all its bytes has been noticed. */
  predicate Unfinished(j: Simulator) {
    j.st == StartBodyState ==> j.cur - j.start < j.contentLen
  }

  lemma TurnCounts(raw: string, j: Simulator)
    requires j.cur < |raw| && !Final(j.st) && Unfinished(j)
    ensures Turn(raw, j).cur == j.cur + 1 && Unfinished(Turn(raw, j))
  {
  }

  lemma OneTurnMore(raw: string, j: Simulator)
    requires j.cur < |raw| && !Final(j.st) && j == AfterTurns(raw, j.cur)
    ensures AfterTurns(raw, j.cur + 1) == Turn(raw, j)
  {
  }

  lemma BodyIsShort(j: Simulator)
    requires Unfinished(j)
    ensures !(j.st == StartBodyState && j.cur - j.start >= j.contentLen)
  {
  }

  lemma AtTheStart(raw: string)
    ensures AfterTurns(raw, 0) == START && Unfinished(START)
  {
  }

  /** `generateFsmSteps`: the first step, one for every byte read, and an error when the text ends
      before the request does. */
  method GenerateFsmSteps(raw: string) returns (steps: seq<Shown>)
    ensures var end := AfterTurns(raw, |raw|);
            && |steps| == end.cur + (if Final(end.st) then 1 else 2)
            && (forall i :: 1 <= i <= end.cur ==> steps[i] == Display(raw, AfterTurns(raw, i)))
            && steps[0] == Shown(StartState, 0, 0)
            && (!Final(end.st) ==> steps[|steps| - 1] == Shown(ErrorState, end.start, |raw| - 1))
  {
    hide Turn, AfterTurns, Unfinished;
    AtTheStart(raw);
    var j := START;
    steps := [Shown(StartState, 0, 0)];
    while j.cur < |raw| && !Final(j.st)
      invariant j.cur <= |raw| && j == AfterTurns(raw, j.cur) && |steps| == j.cur + 1 &&
        steps[0] == Shown(StartState, 0, 0)
      invariant forall i :: 1 <= i <= j.cur ==> steps[i] == Display(raw, AfterTurns(raw, i))
      invariant Unfinished(j)
      decreases |raw| - j.cur
    {
      TurnCounts(raw, j);
      OneTurnMore(raw, j);
      j := Turn(raw, j);
      steps := steps + [Shown(j.st, j.start, Min(j.cur, |raw| - 1))];
    }
    StaysPut(raw, j.cur, |raw|);
    if !Final(j.st) {
      BodyIsShort(j);
      if j.st == StartBodyState && j.cur - j.start >= j.contentLen {
        steps := steps + [Shown(CompleteState, j.start, |raw| - 1)];
      } else {
        steps := steps + [Shown(ErrorState, j.start, |raw| - 1)];
      }
    }
  }

  lemma {:induction false} StaysPut(raw: string, n: nat, k: nat)
    requires n <= k && (Final(AfterTurns(raw, n).st) || AfterTurns(raw, n).cur >= |raw|)
    ensures AfterTurns(raw, k) == AfterTurns(raw, n)
    decreases k
  {
    hide Turn;
    if n < k {
      StaysPut(raw, n, k - 1);
    }
  }

  // ---- lockstep ------------------------------------------------------------------------------

  ghost function AfterBytes(ord: Order, raw: string, n: nat): Machine
    requires n <= |raw|
  {
    Run(Fresh(ord), raw[..n])
  }

  predicate InField(st: State) {
    || st == MethodState || st == UrlState || st == ProtocolState
    || st == HeaderKeyState || st == HeaderValueState || st == StartBodyState
  }

  /** The simulator has a content length when the parser has one under some name, and then that
      name's value. */
  ghost predicate Mirrored(header: Headers, headers: Headers) {
    && (forall k :: k in header && NameKept(k) == CONTENT_LENGTH ==> CONTENT_LENGTH in headers)
    && (CONTENT_LENGTH in headers ==>
         exists k :: k in header && NameKept(k) == CONTENT_LENGTH && header[k] == headers[CONTENT_LENGTH])
  }

  /** The parser `m` and the simulator `j` stand at the same place in `raw`. */
  ghost predicate Follows(raw: string, m: Machine, j: Simulator) {
    && m.st == j.st && m.start == j.start && m.cur == j.cur
    && m.start <= m.cur <= |raw|
    && (if InField(m.st) then m.token == raw[m.start..m.cur] else m.token == "")
    && (m.st == StartHeaderState ==> m.start == m.cur)
    && (m.st == HeaderValueState ==> j.key == NameKept(m.key))
    && Mirrored(m.header, j.headers)
    && (m.st == StartBodyState ==> j.contentLen == m.contentLen)
  }

  lemma TokenLonger(raw: string, start: nat, cur: nat)
    requires start <= cur < |raw|
    ensures raw[start..cur] + [raw[cur]] == raw[start..cur + 1]
    ensures Substring(raw, start, cur) == raw[start..cur]
  {
  }

  lemma Mirrors(header: Headers, headers: Headers, k: string, v: string)
    requires Mirrored(header, headers)
    ensures Mirrored(header[k := v], Assigned(headers, NameKept(k), v))
  {
    hide NameKept;
    var g, h := header[k := v], Assigned(headers, NameKept(k), v);
    if CONTENT_LENGTH in h {
      if NameKept(k) == CONTENT_LENGTH {
        assert g[k] == h[CONTENT_LENGTH];
      } else {
        var x :| x in header && NameKept(x) == CONTENT_LENGTH && header[x] == headers[CONTENT_LENGTH];
        assert g[x] == h[CONTENT_LENGTH];
      }
    }
  }

  // ---- the blank line --------------------------------------------------------------------------

  /** Header names without blanks around them, and at most one spelling of Content-Length, with
      digits that a double holds exactly. */
  ghost predicate Tame(h: Headers) {
    && (forall k :: k in h ==> Trim(k) == k)
    && (forall j, k :: Spelling(h, j) && Spelling(h, k) ==> j == k)
    && forall k :: Spelling(h, k) ==> Value(LengthDigits(h[k])) < 0x20_0000_0000_0000
  }

  function Signed(s: string): bool {
    SkipSpace(s) != "" && (SkipSpace(s)[0] == '-' || SkipSpace(s)[0] == '+')
  }

  function LengthDigits(s: string): (d: string)
    ensures forall c :: c in d ==> IsDigit(c)
  {
    LeadingDigitsAreDigits(if Signed(s) then SkipSpace(s)[1..] else SkipSpace(s));
    LeadingDigits(if Signed(s) then SkipSpace(s)[1..] else SkipSpace(s))
  }

  /** A content length is a number, and not a negative one. */
  predicate Readable(v: string) {
    LengthDigits(v) != "" && (Minus(v) ==> Value(LengthDigits(v)) == 0)
  }

  ghost predicate LengthReadable(h: Headers) {
    forall k :: Spelling(h, k) ==> Readable(h[k])
  }

  predicate Minus(s: string) {
    SkipSpace(s) != "" && SkipSpace(s)[0] == '-'
  }

  lemma {:induction false} DigitsDropLast(s: string)
    requires s != "" && IsSpace(s[|s| - 1])
    ensures LeadingDigits(s[..|s| - 1]) == LeadingDigits(s)
  {
    if |s| > 1 && IsDigit(s[0]) {
      assert s[1..][..|s| - 2] == s[..|s| - 1][1..];
      DigitsDropLast(s[1..]);
    }
  }

  /** Trimming the end leaves the beginning, sign and digits. */
  lemma {:induction false} DigitsBeforeTrim(s: string)
    requires s != "" && !IsSpace(s[0])
    ensures TrimEnd(s) != "" && TrimEnd(s)[0] == s[0]
    ensures LeadingDigits(TrimEnd(s)) == LeadingDigits(s)
    ensures LeadingDigits(TrimEnd(s)[1..]) == LeadingDigits(s[1..])
    decreases |s|
  {
    if IsSpace(s[|s| - 1]) {
      var t := s[..|s| - 1];
      DigitsBeforeTrim(t);
      DigitsDropLast(s);
      assert t[1..] == s[1..][..|s| - 2];
      DigitsDropLast(s[1..]);
    }
  }

  lemma {:induction false} SkipSpaceStops(s: string)
    ensures SkipSpace(s) != "" ==> !IsSpace(SkipSpace(s)[0])
  {
    if s != "" && IsSpace(s[0]) {
      SkipSpaceStops(s[1..]);
    }
  }

  /** What the two machines make of the same text, for numbers below 2^53. */
  lemma NumbersOf(v: string)
    requires Value(LengthDigits(v)) < 0x20_0000_0000_0000
    ensures var d := LengthDigits(v); var n: int := Value(d);
            && Stoul(v) == (if d == "" then None else if Minus(v) && n != 0 then Some(SIZE_LIMIT - n) else Some(n))
            && NumberRead(v) == (if d == "" then 0 else if Minus(v) then -n else n)
  {
    var t := SkipSpace(v);
    SkipSpaceStops(v);
    if t != "" {
      DigitsBeforeTrim(t);
      assert SkipSpace(Trim(v)) == Trim(v) == TrimEnd(t);
    }
  }

  lemma OneSpelling(ord: Order, h: Headers, k: string)
    requires Spelling(h, k) && forall j :: Spelling(h, j) ==> j == k
    ensures BodyLength(ord, h) == Stoul(h[k])
  {
    assert Lists(ord(h), h);
    LastNamedFound(ord(h), CONTENT_LENGTH);
    assert Spelling(h, LastNamed(ord(h), CONTENT_LENGTH));
    assert (exists x :: x in h && Named(x, CONTENT_LENGTH) && Stoul(h[x]) == None) ==>
      exists x :: Spelling(h, x) && Stoul(h[x]) == None;
  }

  lemma NoSpelling(ord: Order, h: Headers)
    requires forall k :: !Spelling(h, k)
    ensures BodyLength(ord, h) == Some(0)
  {
    assert forall k :: k in h ==> (Named(k, CONTENT_LENGTH) <==> Spelling(h, k));
  }

  /** At the blank line both machines read the same length exactly when it is readable; when it is
      not, the simulator reads nothing and the parser fails or waits for a body. */
  lemma LengthsAgreeExactly(ord: Order, h: Headers, headers: Headers)
    requires Tame(h) && Mirrored(h, headers)
    ensures LengthReadable(h) ==> LengthRead(headers) >= 0 && BodyLength(ord, h) == Some(LengthRead(headers))
    ensures !LengthReadable(h) ==>
      LengthRead(headers) <= 0 && (BodyLength(ord, h) == None || BodyLength(ord, h).value > 0)
  {
    hide Stoul, NumberRead, LengthDigits, Lower;
    assert forall k :: k in h && NameKept(k) == CONTENT_LENGTH <==> Spelling(h, k) by {
      assert forall k :: k in h ==> NameKept(k) == Lower(k);
    }
    if k :| Spelling(h, k) {
      OneSpelling(ord, h, k);
      NumbersOf(h[k]);
      assert headers[CONTENT_LENGTH] == h[k];
      assert LengthReadable(h) <==> Readable(h[k]);
    } else {
      NoSpelling(ord, h);
    }
  }

  // ---- every step ------------------------------------------------------------------------------

  lemma StartFollows(raw: string, m: Machine, j: Simulator)
    requires Follows(raw, m, j) && m.cur < |raw| && m.st in {StartState, MethodState}
    ensures Follows(raw, Step(m, raw[m.cur]), Turn(raw, j))
  {
    hide Mirrored, NameKept, MethodOf, Substring;
    TokenLonger(raw, m.start, m.cur);
  }

  lemma UrlFollows(raw: string, m: Machine, j: Simulator)
    requires Follows(raw, m, j) && m.cur < |raw| && m.st == UrlState
    ensures Follows(raw, Step(m, raw[m.cur]), Turn(raw, j))
  {
    hide Mirrored, NameKept, MethodOf, Substring;
    TokenLonger(raw, m.start, m.cur);
  }

  lemma ProtocolFollows(raw: string, m: Machine, j: Simulator)
    requires Follows(raw, m, j) && m.cur < |raw| && m.st in {ProtocolState, ProtocolCRState}
    ensures Follows(raw, Step(m, raw[m.cur]), Turn(raw, j))
  {
    hide Mirrored, NameKept, MethodOf, Substring;
    TokenLonger(raw, m.start, m.cur);
  }

  lemma NameFollows(raw: string, m: Machine, j: Simulator)
    requires Follows(raw, m, j) && m.cur < |raw| && m.st in {StartHeaderState, HeaderKeyState, HeaderValueCRState}
    ensures Follows(raw, Step(m, raw[m.cur]), Turn(raw, j))
  {
    hide Mirrored, NameKept, Substring, EndHeaders, Lower;
    TokenLonger(raw, m.start, m.cur);
  }

  lemma ValueFollows(raw: string, m: Machine, j: Simulator)
    requires Follows(raw, m, j) && m.cur < |raw| && m.st == HeaderValueState
    ensures Follows(raw, Step(m, raw[m.cur]), Turn(raw, j))
  {
    hide Mirrored, NameKept, Substring;
    TokenLonger(raw, m.start, m.cur);
    Mirrors(m.header, j.headers, m.key, m.token);
  }

  lemma BodyFollows(raw: string, m: Machine, j: Simulator)
    requires Follows(raw, m, j) && m.cur < |raw| && m.st == StartBodyState
    ensures Follows(raw, Step(m, raw[m.cur]), Turn(raw, j))
  {
    hide Mirrored, NameKept;
    TokenLonger(raw, m.start, m.cur);
  }

  /** Away from the blank line the machines never part. */
  lemma TurnFollows(raw: string, m: Machine, j: Simulator)
    requires Follows(raw, m, j) && !Final(m.st) && m.cur < |raw| && m.st != StartHeaderCRState
    ensures Follows(raw, Step(m, raw[m.cur]), Turn(raw, j))
  {
    hide Step, Turn, Follows;
    match m.st
    case HeaderValueState => ValueFollows(raw, m, j);
    case StartBodyState => BodyFollows(raw, m, j);
    case StartHeaderState | HeaderKeyState | HeaderValueCRState => NameFollows(raw, m, j);
    case StartState | MethodState => StartFollows(raw, m, j);
    case UrlState => UrlFollows(raw, m, j);
    case ProtocolState | ProtocolCRState => ProtocolFollows(raw, m, j);
  }

  ghost predicate AtBlankLine(raw: string, m: Machine) {
    m.st == StartHeaderCRState && m.cur < |raw| && raw[m.cur] == LF
  }

  /** At the blank line they part exactly when the content length is not readable. */
  lemma BlankLineExactly(raw: string, m: Machine, j: Simulator)
    requires Follows(raw, m, j) && m.st == StartHeaderCRState && m.cur < |raw|
    requires AtBlankLine(raw, m) ==> Tame(m.header)
    ensures var n, k := Step(m, raw[m.cur]), Turn(raw, j);
            if AtBlankLine(raw, m) && !LengthReadable(m.header) then n.st != k.st else Follows(raw, n, k)
  {
    hide BodyLength, Tame, LengthReadable;
    if AtBlankLine(raw, m) {
      LengthsAgreeExactly(m.ord, m.header, j.headers);
    }
  }

  /** The parser and the simulator after `n` bytes or turns. */
  ghost predicate InStep(ord: Order, raw: string, n: nat)
    requires n <= |raw|
  {
    var m, j := AfterBytes(ord, raw, n), AfterTurns(raw, n);
    m.st == j.st && m.start == j.start && m.cur == j.cur
  }

  /** If the text has a blank line after its headers, the headers are tame. */
  ghost predicate TameThroughout(ord: Order, raw: string) {
    forall n :: 0 <= n <= |raw| && AtBlankLine(raw, AfterBytes(ord, raw, n)) ==> Tame(AfterBytes(ord, raw, n).header)
  }

  ghost predicate ReadableBefore(ord: Order, raw: string, n: nat)
    requires n <= |raw|
  {
    forall i :: 0 <= i < n && AtBlankLine(raw, AfterBytes(ord, raw, i)) ==>
        LengthReadable(AfterBytes(ord, raw, i).header)
  }

  lemma OneByteMore(ord: Order, raw: string, n: nat)
    requires n < |raw|
    ensures var m := AfterBytes(ord, raw, n);
            && AfterBytes(ord, raw, n + 1) == (if Final(m.st) then m else Step(m, raw[n]))
            && (!Final(m.st) ==> m.cur == n)
  {
    hide Step;
    assert raw[..n + 1] == raw[..n] + [raw[n]];
    RunCounts(Fresh(ord), raw[..n]);
    var m := AfterBytes(ord, raw, n);
    RunCut(Fresh(ord), raw[..n], [raw[n]]);
    if !Final(m.st) {
      RunOne(m, raw[n]);
    }
  }

  lemma StartsInStep(ord: Order, raw: string)
    ensures Follows(raw, AfterBytes(ord, raw, 0), AfterTurns(raw, 0))
  {
  }

  lemma {:induction false} StaysInStep(ord: Order, raw: string, n: nat)
    requires n <= |raw| && TameThroughout(ord, raw) && ReadableBefore(ord, raw, n)
    ensures Follows(raw, AfterBytes(ord, raw, n), AfterTurns(raw, n))
    decreases n
  {
    hide Step, Turn, Tame, LengthReadable, AfterBytes;
    if n == 0 {
      StartsInStep(ord, raw);
    } else {
      StaysInStep(ord, raw, n - 1);
      OneByteMore(ord, raw, n - 1);
      var m, j := AfterBytes(ord, raw, n - 1), AfterTurns(raw, n - 1);
      if !Final(m.st) {
        if m.st == StartHeaderCRState {
          BlankLineExactly(raw, m, j);
        } else {
          TurnFollows(raw, m, j);
        }
      }
    }
  }

  lemma {:induction false} PartsAtUnreadable(ord: Order, raw: string, n: nat)
    requires n < |raw| && TameThroughout(ord, raw)
    requires AtBlankLine(raw, AfterBytes(ord, raw, n)) && !LengthReadable(AfterBytes(ord, raw, n).header)
    ensures exists k :: 0 <= k <= |raw| && !InStep(ord, raw, k)
    decreases n
  {
    hide Step, Turn, Tame, LengthReadable, AfterBytes;
    if i :| 0 <= i < n && AtBlankLine(raw, AfterBytes(ord, raw, i)) && !LengthReadable(AfterBytes(ord, raw, i).header) {
      PartsAtUnreadable(ord, raw, i);
    } else {
      StaysInStep(ord, raw, n);
      OneByteMore(ord, raw, n);
      BlankLineExactly(raw, AfterBytes(ord, raw, n), AfterTurns(raw, n));
      assert !InStep(ord, raw, n + 1);
    }
  }

  predicate IsPlain(v: string) {
    v != "" && forall i :: 0 <= i < |v| ==> IsDigit(v[i])
  }

  /** Plain decimal digits are readable. */
  lemma PlainIsReadable(v: string)
    requires IsPlain(v)
    ensures Readable(v) && LengthDigits(v) == v
  {
    assert IsDigit(v[0]);
    DigitsLeadThemselves(v);
  }

  /** On tame input the two machines pass through the same state, start index and current index
      after every byte exactly when the content length, if there is one, is a number and not a
      negative one. */
  lemma LockstepExactly(ord: Order, raw: string)
    requires TameThroughout(ord, raw)
    ensures (forall n :: 0 <= n <= |raw| ==> InStep(ord, raw, n)) <==> ReadableBefore(ord, raw, |raw|)
  {
    if ReadableBefore(ord, raw, |raw|) {
      forall n | 0 <= n <= |raw| ensures InStep(ord, raw, n) {
        StaysInStep(ord, raw, n);
      }
    } else {
      var n :| 0 <= n < |raw| && AtBlankLine(raw, AfterBytes(ord, raw, n)) &&
          !LengthReadable(AfterBytes(ord, raw, n).header);
      PartsAtUnreadable(ord, raw, n);
    }
  }

  /** Where the content length, if there is one, is a plain decimal number, they always agree. */
  lemma LockstepOnPlain(ord: Order, raw: string)
    requires TameThroughout(ord, raw)
    requires forall n, k ::
      0 <= n <= |raw| && AtBlankLine(raw, AfterBytes(ord, raw, n)) && Spelling(AfterBytes(ord, raw, n).header, k) ==>
               IsPlain(AfterBytes(ord, raw, n).header[k])
    ensures forall n :: 0 <= n <= |raw| ==> InStep(ord, raw, n)
  {
    forall n, k | 0 <= n <= |raw| && AtBlankLine(raw, AfterBytes(ord, raw, n)) &&
        Spelling(AfterBytes(ord, raw, n).header, k)
      ensures Readable(AfterBytes(ord, raw, n).header[k])
    {
      PlainIsReadable(AfterBytes(ord, raw, n).header[k]);
    }
    LockstepExactly(ord, raw);
  }

  lemma UnreadableIsTame() returns (h: Headers)
    ensures h == HeaderOf(Unreadable().lines) && Tame(h) && !LengthReadable(h)
  {
    h := UnreadableRead();
    assert forall k :: Spelling(h, k) ==> k == "Content-Length";
    assert Trim("Content-Length") == "Content-Length" && Trim("Host") == "Host" by {
      assert !IsSpace("Content-Length"[0]) && !IsSpace("Content-Length"[13]);
      assert !IsSpace("Host"[0]) && !IsSpace("Host"[3]);
    }
    assert LengthDigits("x") == "" by { assert !IsSpace("x"[0]) && !IsDigit("x"[0]); }
    assert !Readable(h["Content-Length"]);
  }

  /** The headers at the blank line are the block of the text. */
  lemma OneBlock(ord: Order, raw: string, n: nat)
    requires n <= |raw| && AtBlankLine(raw, AfterBytes(ord, raw, n))
    ensures BlockIn(Fresh(ord), raw) == Some(AfterBytes(ord, raw, n).header)
  {
    hide Run, BlockIn;
    RunCounts(Fresh(ord), raw[..n]);
    BlockFound(Fresh(ord), raw, n);
  }

  /** The request with "Content-Length: x" is tame, and the two machines part on it: the parser
      fails at the blank line, the simulator does not. */
  lemma UnreadableParts(ord: Order)
    ensures var raw := HeadText(Unreadable());
            && TameThroughout(ord, raw) && Run(Fresh(ord), raw).st == ErrorState
            && exists n :: 0 <= n <= |raw| && !InStep(ord, raw, n)
  {
    hide Run, HeadText, HeaderOf, Unreadable, Tame, LengthReadable, HeadShaped, AfterLines, InStep, BodyLength,
         AfterBytes, BlockIn;
    var h := UnreadableIsTame();
    var _ := UnreadableAnnounces(ord);
    var m, raw := Unreadable(), HeadText(Unreadable());
    BlankLineOf(ord, m, h);
    RunMessageHead(ord, m);
    forall n | 0 <= n <= |raw| && AtBlankLine(raw, AfterBytes(ord, raw, n))
        ensures Tame(AfterBytes(ord, raw, n).header) {
      OneBlock(ord, raw, n);
    }
    PartsAtUnreadable(ord, raw, |raw| - 1);
  }

  lemma BlankLineOf(ord: Order, m: Message, h: Headers)
    requires HeadShaped(m) && h == HeaderOf(m.lines)
    ensures var raw := HeadText(m);
            && |raw| > 0 && AtBlankLine(raw, AfterBytes(ord, raw, |raw| - 1))
            && AfterBytes(ord, raw, |raw| - 1).header == h
            && BlockIn(Fresh(ord), raw) == Some(h)
  {
    var raw, s := HeadText(m), RequestLine(m) + LinesText(m.lines) + [CR];
    BeforeLineFeed(ord, m);
    hide Run, HeadText, RequestLine, LinesText, BlockIn;
    assert raw == s + [LF] && raw[..|raw| - 1] == s && raw[|raw| - 1] == LF;
    BlockFound(Fresh(ord), raw, |raw| - 1);
  }
}
