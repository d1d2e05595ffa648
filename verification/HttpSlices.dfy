/** How a flat buffer, three indices and a few slices stand for a machine: the meaning of the
    request object's fields, and what one assignment to them does to that meaning. */
module HttpSlices {
  import opened HttpText
  import opened HttpMachine

  /** A `string_view` into the buffer. */
  datatype Slice = NoSlice | Slice(off: nat, len: nat) {
    function Begin(): nat { if NoSlice? then 0 else off }
    function End(): nat { if NoSlice? then 0 else off + len }
  }

  /** The length of a view from `from` to `to`; the guard is the source's. */
  function Span(from: nat, to: nat): nat {
    if to < from then 0 else to - from
  }

  predicate Apart(a: Slice, b: Slice) {
    a.End() <= b.Begin() || b.End() <= a.Begin()
  }

  function Cut(buf: seq<char>, s: Slice): string {
    if s.Slice? && s.End() <= |buf| then buf[s.off..s.End()] else ""
  }

  /** An element of the header hash map: the view that is its key, and the view that is its value. */
  datatype Header = Header(name: Slice, value: Slice)

  type HeaderMap = map<string, Header>

  function CutAll(buf: seq<char>, header: HeaderMap): Headers {
    map k | k in header :: Cut(buf, header[k].value)
  }

  /** `header[key] = value`: a key that is there already keeps the view it came with. */
  function Noted(header: HeaderMap, text: string, name: Slice, value: Slice): HeaderMap {
    header[text := Header(if text in header then header[text].name else name, value)]
  }

  /** Every key is the text its view shows. */
  ghost predicate NamesHeld(buf: seq<char>, header: HeaderMap) {
    forall j :: j in header ==> Cut(buf, header[j].name) == j
  }

  datatype Fields = Fields(
    state: State,
    verb: HttpMethod,
    url: Slice,
    proto: Slice,
    header: HeaderMap,
    contentLen: nat,
    contentType: Slice,
    body: Slice,
    start: nat,
    key: Slice)

  predicate InToken(st: State) {
    || st == MethodState || st == UrlState || st == ProtocolState
    || st == HeaderKeyState || st == HeaderValueState || st == StartBodyState
  }

  function TokenOf(buf: seq<char>, f: Fields, k: nat): string {
    if InToken(f.state) && f.start <= k <= |buf| then buf[f.start..k] else ""
  }

  /** The machine the fields stand for once `k` bytes have been handled. */
  function Reading(ord: Order, buf: seq<char>, f: Fields, k: nat): Machine {
    Machine(ord, f.state, f.start, k, TokenOf(buf, f, k), f.verb, Cut(buf, f.url), Cut(buf, f.proto),
            if f.state == HeaderValueState then Cut(buf, f.key) else "",
            CutAll(buf, f.header), if f.state == ErrorState then 0 else f.contentLen, Cut(buf, f.body))
  }

  // ---- slice safety -----------------------------------------------------------------

  /** No slice stored so far ends after this index. */
  function Floor(f: Fields, k: nat): nat {
    if f.state == ProtocolCRState || f.state == HeaderValueCRState || Final(f.state) then k else f.start
  }

  predicate ProtocolSet(st: State) {
    st != StartState && st != MethodState && st != UrlState && st != ProtocolState && st != ErrorState
  }

  /** Every stored slice lies in the handled bytes. */
  ghost predicate InBounds(f: Fields, k: nat) {
    && f.url.End() <= Floor(f, k) && f.proto.End() <= Floor(f, k) && f.body.End() <= Floor(f, k)
    && (forall j :: j in f.header ==> f.header[j].name.End() <= Floor(f, k) && f.header[j].value.End() <= Floor(f, k))
    && (f.state == HeaderValueState ==> f.key.End() <= f.start)
  }

  ghost predicate Sound(f: Fields, k: nat) {
    && f.start <= k
    && (f.state == StartHeaderState ==> f.start == k)
    && (f.state == StartBodyState ==> f.contentLen > 0)
    && (!Final(f.state) && f.state != StartBodyState ==> f.contentLen == 0)
    && (!Final(f.state) ==> f.body == NoSlice)
    && InBounds(f, k)
  }

  /** The fields of a request not yet begun. */
  function FreshFields(ctype: Slice, key: Slice): Fields {
    Fields(StartState, UNKNOWN, NoSlice, NoSlice, map[], 0, ctype, NoSlice, 0, key)
  }

  lemma FreshIsSound(ctype: Slice, key: Slice)
    ensures Sound(FreshFields(ctype, key), 0)
  {
  }

  lemma FreshMeans(ord: Order, buf: seq<char>, ctype: Slice, key: Slice)
    ensures Reading(ord, buf, FreshFields(ctype, key), 0) == Fresh(ord)
  {
    assert CutAll(buf, map[]) == map[];
  }

  // ---- what the handlers do to the fields -------------------------------------------

  /** The view from `start` to the byte being handled. */
  function Token(f: Fields, k: nat): Slice {
    Slice(f.start, Span(f.start, k))
  }

  function FieldsOnStart(f: Fields, k: nat, c: char): Fields {
    if c in BLANKS then f else f.(start := k, state := MethodState)
  }

  function FieldsOnMethod(buf: seq<char>, f: Fields, k: nat, c: char): Fields {
    if c == ' ' then f.(verb := MethodOf(Cut(buf, Token(f, k))), start := k + 1, state := UrlState)
    else if c in BREAKS then f.(state := ErrorState) else f
  }

  function FieldsOnUrl(f: Fields, k: nat, c: char): Fields {
    if c == ' ' then f.(url := Token(f, k), start := k + 1, state := ProtocolState)
    else if c in BREAKS then f.(state := ErrorState) else f
  }

  function FieldsOnProtocol(f: Fields, k: nat, c: char): Fields {
    if c == CR then f.(proto := Token(f, k), state := ProtocolCRState)
    else if c == LF then f.(proto := Token(f, k), start := k + 1, state := StartHeaderState) else f
  }

  function FieldsOnLineCR(f: Fields, k: nat, c: char): Fields {
    if c == LF then f.(start := k + 1, state := StartHeaderState) else f.(state := ErrorState)
  }

  function FieldsOnStartHeader(f: Fields, c: char): Fields {
    f.(state := if c == CR then StartHeaderCRState else HeaderKeyState)
  }

  /** `len` and `ctype` are the values the walk over the headers left in the two fields. */
  function FieldsOnStartHeaderCR(f: Fields, k: nat, c: char, readable: bool, len: nat, ctype: Slice): Fields {
    if c != LF then f.(state := ErrorState)
    else if !readable then f.(contentLen := len, contentType := ctype, state := ErrorState)
    else if len > 0 then f.(contentLen := len, contentType := ctype, start := k + 1, state := StartBodyState)
    else f.(contentLen := len, contentType := ctype, state := CompleteState)
  }

  function FieldsOnHeaderKey(f: Fields, k: nat, c: char): Fields {
    if c == ':' then f.(key := Token(f, k), start := k + 1, state := HeaderValueState)
    else if c in BREAKS then f.(state := ErrorState) else f
  }

  function FieldsOnHeaderValue(buf: seq<char>, f: Fields, k: nat, c: char): Fields {
    var h := Noted(f.header, Cut(buf, f.key), f.key, Token(f, k));
    if k == f.start && c == ' ' then f.(start := k + 1)
    else if c == CR then f.(header := h, state := HeaderValueCRState)
    else if c == LF then f.(header := h, start := k + 1, state := StartHeaderState)
    else f
  }

  function FieldsOnStartBody(f: Fields, k: nat): Fields {
    if k - f.start + 1 >= f.contentLen then f.(body := Slice(f.start, f.contentLen), state := CompleteState) else f
  }

  // ---- and what that means -----------------------------------------------------------

  /** `g` stands for `m` after the byte at `k`. */
  ghost predicate Means(ord: Order, buf: seq<char>, g: Fields, k: nat, m: Machine) {
    Sound(g, k + 1) && Reading(ord, buf, g, k + 1) == m
  }

  lemma TokenGrows(buf: seq<char>, f: Fields, k: nat)
    requires InToken(f.state) && f.start <= k < |buf|
    ensures TokenOf(buf, f, k + 1) == TokenOf(buf, f, k) + [buf[k]]
  {
  }

  lemma TokenEnds(buf: seq<char>, f: Fields, k: nat)
    requires InToken(f.state) && f.start <= k <= |buf|
    ensures Cut(buf, Token(f, k)) == TokenOf(buf, f, k)
  {
  }

  lemma StartMeans(ord: Order, buf: seq<char>, f: Fields, k: nat)
    requires k < |buf| && Sound(f, k) && f.state == StartState
    ensures Means(ord, buf, FieldsOnStart(f, k, buf[k]), k, OnStart(Reading(ord, buf, f, k), buf[k]))
  {
    hide CutAll;
  }

  lemma MethodMeans(ord: Order, buf: seq<char>, f: Fields, k: nat)
    requires k < |buf| && Sound(f, k) && f.state == MethodState
    ensures Means(ord, buf, FieldsOnMethod(buf, f, k, buf[k]), k, OnMethod(Reading(ord, buf, f, k), buf[k]))
  {
    TokenEnds(buf, f, k);
    TokenGrows(buf, f, k);
    hide MethodOf, CutAll, Cut;
  }

  lemma UrlMeans(ord: Order, buf: seq<char>, f: Fields, k: nat)
    requires k < |buf| && Sound(f, k) && f.state == UrlState
    ensures Means(ord, buf, FieldsOnUrl(f, k, buf[k]), k, OnUrl(Reading(ord, buf, f, k), buf[k]))
  {
    hide CutAll;
    TokenGrows(buf, f, k);
  }

  lemma ProtocolMeans(ord: Order, buf: seq<char>, f: Fields, k: nat)
    requires k < |buf| && Sound(f, k) && f.state == ProtocolState
    ensures Means(ord, buf, FieldsOnProtocol(f, k, buf[k]), k, OnProtocol(Reading(ord, buf, f, k), buf[k]))
  {
    hide CutAll;
    TokenGrows(buf, f, k);
  }

  lemma LineCRMeans(ord: Order, buf: seq<char>, f: Fields, k: nat)
    requires k < |buf| && Sound(f, k) && (f.state == ProtocolCRState || f.state == HeaderValueCRState)
    ensures Means(ord, buf, FieldsOnLineCR(f, k, buf[k]), k, OnLineCR(Reading(ord, buf, f, k), buf[k]))
  {
    hide CutAll;
  }

  lemma StartHeaderMeans(ord: Order, buf: seq<char>, f: Fields, k: nat)
    requires k < |buf| && Sound(f, k) && f.state == StartHeaderState
    ensures Means(ord, buf, FieldsOnStartHeader(f, buf[k]), k, OnStartHeader(Reading(ord, buf, f, k), buf[k]))
  {
    hide CutAll;
    assert buf[k..k + 1] == [buf[k]];
  }

  /** On a readable header block the walk must leave the announced length; `ctype` is free. */
  lemma StartHeaderCRMeans(ord: Order, length: Option<nat>, buf: seq<char>, f: Fields, k: nat, len: nat, ctype: Slice)
    requires k < |buf| && Sound(f, k) && f.state == StartHeaderCRState
    requires buf[k] == LF && length != None ==> length == Some(len)
    ensures Means(ord, buf, FieldsOnStartHeaderCR(f, k, buf[k], length != None, len, ctype), k,
                  OnStartHeaderCR(length, Reading(ord, buf, f, k), buf[k]))
  {
    hide CutAll, BodyLength;
  }

  lemma HeaderKeyMeans(ord: Order, buf: seq<char>, f: Fields, k: nat)
    requires k < |buf| && Sound(f, k) && f.state == HeaderKeyState
    ensures Means(ord, buf, FieldsOnHeaderKey(f, k, buf[k]), k, OnHeaderKey(Reading(ord, buf, f, k), buf[k]))
  {
    hide CutAll;
    TokenGrows(buf, f, k);
  }

  lemma StoredHeader(buf: seq<char>, f: Fields, k: nat, name: string)
    requires k <= |buf| && f.start <= k && f.state == HeaderValueState
    ensures CutAll(buf, Noted(f.header, name, f.key, Token(f, k))) == CutAll(buf, f.header)[name := TokenOf(buf, f, k)]
  {
  }

  lemma HeaderValueSound(buf: seq<char>, f: Fields, k: nat, c: char)
    requires Sound(f, k) && f.state == HeaderValueState
    ensures Sound(FieldsOnHeaderValue(buf, f, k, c), k + 1)
  {
  }

  lemma HeaderValueStores(ord: Order, buf: seq<char>, f: Fields, k: nat)
    requires f.start <= k < |buf| && f.state == HeaderValueState && buf[k] in BREAKS
    ensures Reading(ord, buf, FieldsOnHeaderValue(buf, f, k, buf[k]), k + 1) ==
            OnHeaderValue(Reading(ord, buf, f, k), buf[k])
  {
    StoredHeader(buf, f, k, Cut(buf, f.key));
  }

  lemma HeaderValueGrows(ord: Order, buf: seq<char>, f: Fields, k: nat)
    requires f.start <= k < |buf| && f.state == HeaderValueState && buf[k] !in BREAKS
    ensures Reading(ord, buf, FieldsOnHeaderValue(buf, f, k, buf[k]), k + 1) ==
            OnHeaderValue(Reading(ord, buf, f, k), buf[k])
  {
    hide CutAll;
    TokenGrows(buf, f, k);
  }

  lemma HeaderValueMeans(ord: Order, buf: seq<char>, f: Fields, k: nat)
    requires k < |buf| && Sound(f, k) && f.state == HeaderValueState
    ensures Means(ord, buf, FieldsOnHeaderValue(buf, f, k, buf[k]), k, OnHeaderValue(Reading(ord, buf, f, k), buf[k]))
  {
    HeaderValueSound(buf, f, k, buf[k]);
    if buf[k] in BREAKS { HeaderValueStores(ord, buf, f, k); } else { HeaderValueGrows(ord, buf, f, k); }
  }

  lemma StartBodyMeans(ord: Order, buf: seq<char>, f: Fields, k: nat)
    requires k < |buf| && Sound(f, k) && f.state == StartBodyState
    ensures Means(ord, buf, FieldsOnStartBody(f, k), k, OnStartBody(Reading(ord, buf, f, k), buf[k]))
  {
    hide CutAll;
    TokenGrows(buf, f, k);
    if k - f.start + 1 >= f.contentLen {
      assert buf[f.start..k + 1][..f.contentLen] == buf[f.start..f.start + f.contentLen];
    }
  }

  /** The fields after the handler of the current state; `length` is what the header block
      announces, `len` and `ctype` are what the walk over it left. */
  function FieldsStep(length: Option<nat>, buf: seq<char>, f: Fields, k: nat, c: char, len: nat, ctype: Slice): Fields {
    match f.state
    case StartState => FieldsOnStart(f, k, c)
    case MethodState => FieldsOnMethod(buf, f, k, c)
    case UrlState => FieldsOnUrl(f, k, c)
    case ProtocolState => FieldsOnProtocol(f, k, c)
    case ProtocolCRState => FieldsOnLineCR(f, k, c)
    case StartHeaderState => FieldsOnStartHeader(f, c)
    case StartHeaderCRState => FieldsOnStartHeaderCR(f, k, c, length != None, len, ctype)
    case HeaderKeyState => FieldsOnHeaderKey(f, k, c)
    case HeaderValueState => FieldsOnHeaderValue(buf, f, k, c)
    case HeaderValueCRState => FieldsOnLineCR(f, k, c)
    case StartBodyState => FieldsOnStartBody(f, k)
    case CompleteState => f
    case ErrorState => f
  }

  /** Slices refine values: the handlers on fields do what the machine does on texts, and keep
      every slice safe. */
  lemma StepMeans(ord: Order, buf: seq<char>, f: Fields, k: nat, len: nat, ctype: Slice) returns (g: Fields)
    requires k < |buf| && Sound(f, k) && !Final(f.state)
    requires var length := BodyLength(ord, CutAll(buf, f.header));
             f.state == StartHeaderCRState && buf[k] == LF && length != None ==> length == Some(len)
    ensures g == FieldsStep(BodyLength(ord, CutAll(buf, f.header)), buf, f, k, buf[k], len, ctype)
    ensures Means(ord, buf, g, k, Step(Reading(ord, buf, f, k), buf[k]))
  {
    g := FieldsStep(BodyLength(ord, CutAll(buf, f.header)), buf, f, k, buf[k], len, ctype);
    match f.state
    case StartState => StartMeans(ord, buf, f, k);
    case MethodState => MethodMeans(ord, buf, f, k);
    case UrlState => UrlMeans(ord, buf, f, k);
    case ProtocolState => ProtocolMeans(ord, buf, f, k);
    case ProtocolCRState | HeaderValueCRState => LineCRMeans(ord, buf, f, k);
    case StartHeaderState => StartHeaderMeans(ord, buf, f, k);
    case StartHeaderCRState => StartHeaderCRMeans(ord, BodyLength(ord, CutAll(buf, f.header)), buf, f, k, len, ctype);
    case HeaderKeyState => HeaderKeyMeans(ord, buf, f, k);
    case HeaderValueState => HeaderValueMeans(ord, buf, f, k);
    case StartBodyState => StartBodyMeans(ord, buf, f, k);
  }

  /** Handling one byte leaves the run over the received bytes where it was heading. */
  lemma RunAhead(ord: Order, buf: seq<char>, f: Fields, g: Fields, k: nat, t: nat)
    requires k < t <= |buf| && !Final(f.state)
    requires Reading(ord, buf, g, k + 1) == Step(Reading(ord, buf, f, k), buf[k])
    ensures Run(Reading(ord, buf, g, k + 1), buf[k + 1..t]) == Run(Reading(ord, buf, f, k), buf[k..t])
  {
    hide Step;
    RunHead(Reading(ord, buf, f, k), buf[k], buf[k + 1..t]);
    assert buf[k..t] == [buf[k]] + buf[k + 1..t];
  }

  /** Nothing is left to handle, or the machine has stopped. */
  lemma RunOver(ord: Order, buf: seq<char>, f: Fields, k: nat, t: nat)
    requires k <= t <= |buf| && (Final(f.state) || k == t)
    ensures Run(Reading(ord, buf, f, k), buf[k..t]) == Reading(ord, buf, f, k)
  {
  }

  /** Bytes written past the handled ones change nothing that has been read. */
  lemma ReadingKept(ord: Order, a: seq<char>, b: seq<char>, f: Fields, k: nat)
    requires Sound(f, k) && k <= |a| == |b| && a[..k] == b[..k]
    ensures Reading(ord, a, f, k) == Reading(ord, b, f, k)
  {
    hide CutAll, Cut;
    CutKept(a, b, f.url, k);
    CutKept(a, b, f.proto, k);
    CutKept(a, b, f.body, k);
    if f.state == HeaderValueState {
      CutKept(a, b, f.key, k);
    }
    TokenKept(a, b, f, k);
    CutAllKept(a, b, f, k);
  }

  lemma TokenKept(a: seq<char>, b: seq<char>, f: Fields, k: nat)
    requires f.start <= k <= |a| == |b| && a[..k] == b[..k]
    ensures TokenOf(a, f, k) == TokenOf(b, f, k)
  {
    CutKept(a, b, Slice(f.start, k - f.start), k);
  }

  lemma CutAllKept(a: seq<char>, b: seq<char>, f: Fields, k: nat)
    requires Sound(f, k) && k <= |a| == |b| && a[..k] == b[..k]
    ensures CutAll(a, f.header) == CutAll(b, f.header)
  {
    forall j | j in f.header ensures Cut(a, f.header[j].value) == Cut(b, f.header[j].value) {
      CutKept(a, b, f.header[j].value, k);
    }
  }

  /** Nor do they change what the keys of the headers show. */
  lemma NamesKept(a: seq<char>, b: seq<char>, f: Fields, k: nat)
    requires Sound(f, k) && k <= |a| == |b| && a[..k] == b[..k] && NamesHeld(a, f.header)
    ensures NamesHeld(b, f.header)
  {
    forall j | j in f.header ensures Cut(b, f.header[j].name) == j {
      CutKept(a, b, f.header[j].name, k);
    }
  }

  lemma CutKept(a: seq<char>, b: seq<char>, s: Slice, k: nat)
    requires s.End() <= k <= |a| == |b| && a[..k] == b[..k]
    ensures Cut(a, s) == Cut(b, s)
  {
    if s.Slice? {
      assert a[s.off..s.End()] == a[..k][s.off..s.End()];
      assert b[s.off..s.End()] == b[..k][s.off..s.End()];
    }
  }

  // ---- the slices never overlap --------------------------------------------------------

  /** A header's name stands before its value, and both behind `from` and before `to`. */
  predicate Placed(h: Header, from: nat, to: nat) {
    from <= h.name.Begin() && h.name.End() <= h.value.Begin() && h.value.End() <= to
  }

  predicate HeadersApart(a: Header, b: Header) {
    Apart(a.name, b.name) && Apart(a.name, b.value) && Apart(a.value, b.name) && Apart(a.value, b.value)
  }

  /** Where the headers stored so far end. */
  function HeadersEnd(f: Fields, k: nat): nat {
    if f.state == HeaderValueState then f.key.Begin() else if f.body != NoSlice then f.body.Begin() else Floor(f, k)
  }

  /** The slices come in the order the fields come, and no two of them overlap. */
  ghost predicate Ordered(f: Fields, k: nat) {
    && (ProtocolSet(f.state) ==> f.url.End() <= f.proto.Begin())
    && (!ProtocolSet(f.state) && f.state != ErrorState ==> f.header == map[])
    && (f.state == HeaderValueState ==> f.proto.End() <= f.key.Begin())
    && (f.body != NoSlice ==> f.proto.End() <= f.body.Begin())
    && (f.state != ErrorState ==> forall j :: j in f.header ==> Placed(f.header[j], f.proto.End(), HeadersEnd(f, k)))
    && (forall i, j :: i in f.header && j in f.header && i != j ==> HeadersApart(f.header[i], f.header[j]))
  }

  // ---- the content type ------------------------------------------------------------------

  /** No header names a content type. */
  ghost predicate TypeFree(header: HeaderMap) {
    forall j :: j in header ==> !Named(j, CONTENT_TYPE)
  }

  /** The slice is the value of a header that names a content type, if there is one. */
  ghost predicate TypeNoted(header: HeaderMap, ctype: Slice) {
    TypeFree(header) || exists j :: j in header && Named(j, CONTENT_TYPE) && header[j].value == ctype
  }

  /** The content type has been noted once the header block has been read to its end. */
  ghost predicate Typed(f: Fields) {
    f.state == StartBodyState || f.state == CompleteState ==> TypeNoted(f.header, f.contentType)
  }

  lemma StepKeepsType(length: Option<nat>, buf: seq<char>, f: Fields, k: nat, c: char, len: nat, ctype: Slice)
    requires Typed(f)
    requires f.state == StartHeaderCRState && c == LF && length != None ==> TypeNoted(f.header, ctype)
    requires TypeFree(f.header) ==> ctype == f.contentType
    ensures var g := FieldsStep(length, buf, f, k, c, len, ctype);
            && Typed(g)
            && (TypeFree(g.header) ==> TypeFree(f.header) && g.contentType == f.contentType)
  {
    hide Named, MethodOf, Cut;
  }

  ghost predicate Safe(f: Fields, k: nat) {
    Sound(f, k) && Ordered(f, k) && Typed(f)
  }

  /** All safe fields, as a set. */
  ghost function SafeFields(k: nat): iset<Fields> {
    iset f | Safe(f, k)
  }

  lemma FreshIsSafe(ctype: Slice, key: Slice)
    ensures FreshFields(ctype, key) in SafeFields(0)
  {
  }

  /** A new header stays clear of the older ones. */
  lemma NotedIsApart(f: Fields, k: nat, text: string)
    requires Safe(f, k) && f.state == HeaderValueState
    ensures var h := Noted(f.header, text, f.key, Token(f, k));
            && (forall j :: j in h ==> Placed(h[j], f.proto.End(), k))
            && (forall i, j :: i in h && j in h && i != j ==> HeadersApart(h[i], h[j]))
  {
    var h := Noted(f.header, text, f.key, Token(f, k));
    forall i, j | i in h && j in h && i != j ensures HeadersApart(h[i], h[j]) {
      if i == text {
        assert j in f.header && h[j] == f.header[j] && Placed(f.header[j], f.proto.End(), f.key.Begin());
      } else if j == text {
        assert i in f.header && h[i] == f.header[i] && Placed(f.header[i], f.proto.End(), f.key.Begin());
      }
    }
  }

  lemma ValueKeepsOrder(buf: seq<char>, f: Fields, k: nat, c: char)
    requires Safe(f, k) && f.state == HeaderValueState
    ensures Ordered(FieldsOnHeaderValue(buf, f, k, c), k + 1)
  {
    NotedIsApart(f, k, Cut(buf, f.key));
    hide Noted, HeadersApart, Cut;
  }

  lemma OthersKeepOrder(length: Option<nat>, buf: seq<char>, f: Fields, k: nat, c: char, len: nat, ctype: Slice)
    requires Safe(f, k) && f.state != HeaderValueState && !Final(f.state)
    ensures Ordered(FieldsStep(length, buf, f, k, c, len, ctype), k + 1)
  {
    hide Noted, HeadersApart, Cut, MethodOf;
  }

  /** Every handler keeps the slices in order and apart, and the keys the texts of their views. */
  lemma StepKeepsOrder(length: Option<nat>, buf: seq<char>, f: Fields, k: nat, c: char, len: nat, ctype: Slice)
    requires Safe(f, k) && !Final(f.state)
    ensures var g := FieldsStep(length, buf, f, k, c, len, ctype);
            Ordered(g, k + 1) && (NamesHeld(buf, f.header) ==> NamesHeld(buf, g.header))
  {
    hide Ordered, Sound, MethodOf;
    if f.state == HeaderValueState {
      ValueKeepsOrder(buf, f, k, c);
    } else {
      OthersKeepOrder(length, buf, f, k, c, len, ctype);
    }
  }

  /** All of it together. */
  lemma StepIsSafe(ord: Order, buf: seq<char>, f: Fields, k: nat, len: nat, ctype: Slice) returns (g: Fields)
    requires k < |buf| && Safe(f, k) && !Final(f.state) && NamesHeld(buf, f.header)
    requires var length := BodyLength(ord, CutAll(buf, f.header));
             f.state == StartHeaderCRState && buf[k] == LF && length != None ==>
               length == Some(len) && TypeNoted(f.header, ctype)
    requires TypeFree(f.header) ==> ctype == f.contentType
    ensures g == FieldsStep(BodyLength(ord, CutAll(buf, f.header)), buf, f, k, buf[k], len, ctype)
    ensures Means(ord, buf, g, k, Step(Reading(ord, buf, f, k), buf[k]))
    ensures Safe(g, k + 1) && NamesHeld(buf, g.header)
    ensures TypeFree(g.header) ==> TypeFree(f.header) && g.contentType == f.contentType
  {
    hide Ordered, Reading, Step, NamesHeld, FieldsStep, BodyLength, CutAll, Typed, TypeNoted, TypeFree;
    StepKeepsType(BodyLength(ord, CutAll(buf, f.header)), buf, f, k, buf[k], len, ctype);
    StepKeepsOrder(BodyLength(ord, CutAll(buf, f.header)), buf, f, k, buf[k], len, ctype);
    g := StepMeans(ord, buf, f, k, len, ctype);
  }
}
