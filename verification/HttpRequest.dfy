/** The request object of one connection: a flat byte buffer, three indices into it, and the
    extracted fields kept as slices of it. */
module HttpRequestObject {
  import opened Sequences
  import opened HttpText
  import opened HttpMachine
  import opened HttpSlices

  type uint32 = x: nat | x < 0x1_0000_0000
  type size = x: nat | x < SIZE_LIMIT

  class HttpRequest {
    var state: State
    var verb: HttpMethod
    var httpUrl: Slice
    var httpProtocol: Slice
    var header: HeaderMap
    var contentLen: size
    var contentType: Slice
    var body: Slice
    var tailIdx: uint32
    var startIdx: uint32
    var currIdx: uint32
    var currentHeaderKey: Slice
    const cache: array<char>
    /** How the hash table is walked. */
    const ord: Order
    var clientIp: string

    /** The open file, as the bytes behind its descriptor; `None` is descriptor -1. */
    var file: Option<string>
    var isSendingFile: bool
    var fileOffset: nat
    var fileRemaining: nat
    var lastSpeedCheckTime: nat
    var bytesSentInPeriod: nat

    ghost function Snapshot(): Fields
      reads `state, `verb, `httpUrl, `httpProtocol, `header, `contentLen, `contentType, `body, `startIdx,
        `currentHeaderKey
    {
      Fields(state, verb, httpUrl, httpProtocol, header, contentLen, contentType, body, startIdx, currentHeaderKey)
    }

    /** The machine this object stands for. */
    ghost function Meant(): Machine
      reads `state, `verb, `httpUrl, `httpProtocol, `header, `contentLen, `contentType, `body, `startIdx,
        `currentHeaderKey, `currIdx, cache
    {
      Reading(ord, cache[..], Snapshot(), currIdx)
    }

    ghost predicate Valid()
      reads `state, `verb, `httpUrl, `httpProtocol, `header, `contentLen, `contentType, `body, `startIdx,
        `currentHeaderKey, `currIdx, `tailIdx, cache
    {
      && cache.Length <= 0x7FFF_FFFF
      && currIdx <= tailIdx <= cache.Length
      && Snapshot() in SafeFields(currIdx)
      && NamesHeld(cache[..], header) && contentType.End() <= cache.Length
    }

    /** What a valid request object's views are worth: they lie in the handled bytes, the keys of
        the headers are what their views show, and URL, protocol, header names and values and body
        stand one behind another; no two views of different headers ever overlap. */
    lemma ViewsAreSafe()
      requires Valid()
      ensures httpUrl.End() <= currIdx && httpProtocol.End() <= currIdx && body.End() <= currIdx <= tailIdx
      ensures forall j :: j in header ==> header[j].name.End() <= currIdx && header[j].value.End() <= currIdx
      ensures forall j :: j in header ==> Text(header[j].name) == j
      ensures forall i, j :: i in header && j in header && i != j ==> HeadersApart(header[i], header[j])
      ensures ProtocolSet(state) ==> httpUrl.End() <= httpProtocol.Begin()
      ensures ProtocolSet(state) ==> forall j :: j in header ==>
        httpProtocol.End() <= header[j].name.Begin() && header[j].name.End() <= header[j].value.Begin()
      ensures ProtocolSet(state) && body != NoSlice ==>
        httpProtocol.End() <= body.Begin() && forall j :: j in header ==> header[j].value.End() <= body.Begin()
    {
      var f := Snapshot();
      assert Safe(f, currIdx);
      assert Floor(f, currIdx) <= currIdx;
      forall j | j in header && ProtocolSet(state)
          ensures Placed(header[j], httpProtocol.End(), HeadersEnd(f, currIdx)) {
        assert f.header[j] == header[j];
      }
    }

    /** Once the header block has been read, the content type is the value of one of the headers of
        that name, if there is one. */
    lemma TypeIsShown()
      requires Valid() && (state == StartBodyState || state == CompleteState)
      ensures ShowsType(TextHeader(), Text(contentType))
    {
      assert Safe(Snapshot(), currIdx) && TypeNoted(header, contentType);
      forall j | j in header ensures TextHeader()[j] == Text(header[j].value) {
      }
      if !TypeFree(header) {
        var j :| j in header && Named(j, CONTENT_TYPE) && header[j].value == contentType;
        assert j in TextHeader() && Lower(j) == "content-type" && TextHeader()[j] == Text(contentType);
      }
    }

    /** The bytes received for this request and those after it; and the part not yet handled. */
    ghost function Received(): string
      reads `tailIdx, cache
    {
      if tailIdx <= cache.Length then cache[..tailIdx] else ""
    }

    ghost function Unhandled(): string
      reads `currIdx, `tailIdx, cache
    {
      if currIdx <= tailIdx <= cache.Length then cache[currIdx..tailIdx] else ""
    }

    /** The byte `c` at `currIdx` is about to be handled in state `st`. */
    ghost predicate Handling(st: State, c: char)
      reads this, cache
    {
      && cache.Length <= 0x7FFF_FFFF
      && startIdx <= currIdx < tailIdx <= cache.Length
      && state == st && cache[currIdx] == c
      && (st == StartHeaderCRState ==> contentLen == 0)
    }

    function Text(s: Slice): string
      reads cache
    {
      Cut(cache[..], s)
    }

    function TextHeader(): Headers
      reads `header, cache
    {
      CutAll(cache[..], header)
    }

    method HandleStart(c: char)
      requires Handling(StartState, c)
      modifies `state, `startIdx
      ensures Snapshot() == FieldsOnStart(old(Snapshot()), currIdx, c)
    {
      if c == ' ' || c == '\r' || c == '\n' {
        return;
      }
      startIdx := currIdx;
      state := MethodState;
    }

    method HandleMethod(c: char)
      requires Handling(MethodState, c)
      modifies `state, `startIdx, `verb
      ensures Snapshot() == FieldsOnMethod(cache[..], old(Snapshot()), currIdx, c)
    {
      if c == ' ' {
        verb := MethodOf(Text(Slice(startIdx, Span(startIdx, currIdx))));
        startIdx := currIdx + 1;
        state := UrlState;
      } else if c == '\r' || c == '\n' {
        state := ErrorState;
      }
    }

    method HandleUrl(c: char)
      requires Handling(UrlState, c)
      modifies `state, `startIdx, `httpUrl
      ensures Snapshot() == FieldsOnUrl(old(Snapshot()), currIdx, c)
    {
      if c == ' ' {
        httpUrl := Slice(startIdx, Span(startIdx, currIdx));
        startIdx := currIdx + 1;
        state := ProtocolState;
      } else if c == '\r' || c == '\n' {
        state := ErrorState;
      }
    }

    method HandleProtocol(c: char)
      requires Handling(ProtocolState, c)
      modifies `state, `startIdx, `httpProtocol
      ensures Snapshot() == FieldsOnProtocol(old(Snapshot()), currIdx, c)
    {
      if c == '\r' {
        httpProtocol := Slice(startIdx, Span(startIdx, currIdx));
        state := ProtocolCRState;
      } else if c == '\n' {
        httpProtocol := Slice(startIdx, Span(startIdx, currIdx));
        startIdx := currIdx + 1;
        state := StartHeaderState;
      }
    }

    /** ProtocolCRState and HeaderValueCRState have the same handler. */
    method HandleLineCR(c: char)
      requires Handling(ProtocolCRState, c) || Handling(HeaderValueCRState, c)
      modifies `state, `startIdx
      ensures Snapshot() == FieldsOnLineCR(old(Snapshot()), currIdx, c)
    {
      if c == '\n' {
        startIdx := currIdx + 1;
        state := StartHeaderState;
      } else {
        state := ErrorState;
      }
    }

    method HandleStartHeader(c: char)
      requires Handling(StartHeaderState, c)
      modifies `state
      ensures Snapshot() == FieldsOnStartHeader(old(Snapshot()), c)
    {
      state := if c == '\r' then StartHeaderCRState else HeaderKeyState;
    }

    method HandleHeaderKey(c: char)
      requires Handling(HeaderKeyState, c)
      modifies `state, `startIdx, `currentHeaderKey
      ensures Snapshot() == FieldsOnHeaderKey(old(Snapshot()), currIdx, c)
    {
      if c == ':' {
        currentHeaderKey := Slice(startIdx, Span(startIdx, currIdx));
        startIdx := currIdx + 1;
        state := HeaderValueState;
      } else if c == '\r' || c == '\n' {
        state := ErrorState;
      }
    }

    method HandleHeaderValue(c: char)
      requires Handling(HeaderValueState, c)
      modifies `state, `startIdx, `header
      ensures Snapshot() == FieldsOnHeaderValue(cache[..], old(Snapshot()), currIdx, c)
    {
      if currIdx == startIdx && c == ' ' {
        startIdx := startIdx + 1;
        return;
      }
      if c == '\r' {
        header := Noted(header, Text(currentHeaderKey), currentHeaderKey, Slice(startIdx, Span(startIdx, currIdx)));
        state := HeaderValueCRState;
      } else if c == '\n' {
        header := Noted(header, Text(currentHeaderKey), currentHeaderKey, Slice(startIdx, Span(startIdx, currIdx)));
        startIdx := currIdx + 1;
        state := StartHeaderState;
      }
    }

    method HandleStartBody(c: char)
      requires Handling(StartBodyState, c)
      modifies `state, `body
      ensures Snapshot() == FieldsOnStartBody(old(Snapshot()), currIdx)
    {
      var bodyLen: uint32 := currIdx - startIdx + 1;
      if bodyLen >= contentLen {
        body := Slice(startIdx, contentLen);
        state := CompleteState;
      }
    }

    /** The slice a walk over `keys` leaves in `contentType`. */
    ghost function TypeLeft(keys: seq<string>, before: Slice): Slice
      reads `header
    {
      var k := LastNamed(keys, CONTENT_TYPE);
      if k in header && Named(k, CONTENT_TYPE) then header[k].value else before
    }

    /** The length a walk over `keys` leaves in `contentLen`. */
    ghost function LengthLeft(h: Headers, keys: seq<string>): nat {
      var k := LastNamed(keys, CONTENT_LENGTH);
      if k in h && Named(k, CONTENT_LENGTH) && Stoul(h[k]).Some? then Stoul(h[k]).value else 0
    }

    /** The first key of `keys` whose length cannot be read stands at `i`. */
    ghost predicate StopsAt(h: Headers, keys: seq<string>, i: nat) {
      && i < |keys| && Named(keys[i], CONTENT_LENGTH) && keys[i] in h && Stoul(h[keys[i]]) == None
      && forall j :: 0 <= j < i && Named(keys[j], CONTENT_LENGTH) && keys[j] in h ==> Stoul(h[keys[j]]) != None
    }

    /** The content type is the one before, or the value of some header. */
    ghost predicate TypeFrom(before: Slice)
      reads `header, `contentType
    {
      contentType == before || exists k :: k in header && contentType == header[k].value
    }

    /** Walk the headers in hash-table order, noting the body length and the content type. A
        block without a content type leaves the previous request's slice in place; a length that
        cannot be read ends the walk where it stands. */
    method WalkHeaders() returns (readable: bool)
      requires contentLen == 0
      modifies `contentLen, `contentType
      ensures readable <==> BodyLength(ord, TextHeader()) != None
      ensures readable ==> BodyLength(ord, TextHeader()) == Some(contentLen)
      ensures readable ==> contentType == TypeLeft(ord(TextHeader()), old(contentType))
      ensures !readable ==> exists i: nat ::
        && StopsAt(TextHeader(), ord(TextHeader()), i)
        && contentLen == LengthLeft(TextHeader(), ord(TextHeader())[..i])
        && contentType == TypeLeft(ord(TextHeader())[..i], old(contentType))
      ensures TypeFrom(old(contentType))
      ensures readable ==> TypeNoted(header, contentType)
      ensures TypeFree(header) ==> contentType == old(contentType)
    {
      hide Distinct, Stoul, Lower;
      var h := TextHeader();
      var keys := ord(h);
      assert Lists(keys, h);
      for i := 0 to |keys|
        invariant h == TextHeader()
        invariant forall j :: 0 <= j < i && Named(keys[j], CONTENT_LENGTH) ==> Stoul(h[keys[j]]) != None
        invariant contentLen == LengthLeft(h, keys[..i])
        invariant contentType == TypeLeft(keys[..i], old(contentType)) && TypeFrom(old(contentType))
        invariant
          || (contentType == old(contentType) && forall j :: 0 <= j < i ==> !Named(keys[j], CONTENT_TYPE))
          || exists k :: k in header && Named(k, CONTENT_TYPE) && header[k].value == contentType
        invariant TypeFree(header) ==> contentType == old(contentType)
      {
        var k := keys[i];
        assert keys[..i + 1][..i] == keys[..i];
        assert k in h;
        if Lower(k) == CONTENT_LENGTH {
          match Stoul(h[k]) {
            case None =>
              assert StopsAt(h, keys, i);
              return false;
            case Some(n) => contentLen := n;
          }
        } else if Lower(k) == CONTENT_TYPE {
          contentType := header[k].value;
        }
      }
      assert keys[..|keys|] == keys;
      readable := true;
      if forall j :: 0 <= j < |keys| ==> !Named(keys[j], CONTENT_TYPE) {
        NoneWalked(keys);
      }
    }

    lemma NoneWalked(keys: seq<string>)
      requires Lists(keys, TextHeader()) && forall j :: 0 <= j < |keys| ==> !Named(keys[j], CONTENT_TYPE)
      ensures TypeFree(header)
    {
      forall k | k in header ensures !Named(k, CONTENT_TYPE) {
        assert k in TextHeader();
      }
    }

    method HandleStartHeaderCR(c: char)
      requires Handling(StartHeaderCRState, c)
      modifies `state, `startIdx, `contentLen, `contentType
      ensures var length := BodyLength(ord, TextHeader());
              && Snapshot() == FieldsOnStartHeaderCR(old(Snapshot()), currIdx, c, length != None, contentLen,
                   contentType)
              && (c == LF && length != None ==> length == Some(contentLen))
      ensures state != ErrorState ==> contentType == TypeLeft(ord(TextHeader()), old(contentType))
      ensures TypeFrom(old(contentType)) && (TypeFree(header) ==> contentType == old(contentType))
      ensures c == LF && BodyLength(ord, TextHeader()) != None ==> TypeNoted(header, contentType)
    {
      hide HttpRequest.StopsAt, HttpRequest.LengthLeft, HttpRequest.TypeLeft, BodyLength;
      if c != '\n' {
        state := ErrorState;
        return;
      }
      var readable := WalkHeaders();
      if !readable {
        state := ErrorState;
      } else if contentLen > 0 {
        startIdx := currIdx + 1;
        state := StartBodyState;
      } else {
        state := CompleteState;
      }
    }

    /** One byte: the handler of the current state. */
    method HandleChar(c: char, ghost f: Fields, ghost buf: seq<char>)
      requires Handling(state, c) && !Final(state)
      requires f == Snapshot() && buf == cache[..]
      modifies `state, `verb, `httpUrl, `httpProtocol, `header, `contentLen, `contentType, `body, `startIdx,
        `currentHeaderKey
      ensures Snapshot() == FieldsStep(BodyLength(ord, CutAll(buf, f.header)), buf, f, currIdx, c, contentLen,
        contentType)
      ensures f.state == StartHeaderCRState && c == LF && BodyLength(ord, CutAll(buf, f.header)) != None ==>
              BodyLength(ord, CutAll(buf, f.header)) == Some(contentLen) && TypeNoted(f.header, contentType)
      ensures TypeFrom(f.contentType) && (TypeFree(f.header) ==> contentType == f.contentType)
    {
      match state {
        case StartState => HandleStart(c);
        case MethodState => HandleMethod(c);
        case UrlState => HandleUrl(c);
        case ProtocolState => HandleProtocol(c);
        case ProtocolCRState | HeaderValueCRState => HandleLineCR(c);
        case StartHeaderState => HandleStartHeader(c);
        case StartHeaderCRState => HandleStartHeaderCR(c);
        case HeaderKeyState => HandleHeaderKey(c);
        case HeaderValueState => HandleHeaderValue(c);
        case StartBodyState => HandleStartBody(c);
      }
    }

    /** The body of the parse loop: handle the byte at `currIdx` and move past it. */
    method Advance(ghost f: Fields, ghost buf: seq<char>) returns (ghost g: Fields)
      requires cache.Length <= 0x7FFF_FFFF && currIdx < tailIdx <= cache.Length
      requires f == Snapshot() && buf == cache[..] && Safe(f, currIdx) && !Final(f.state)
      requires NamesHeld(buf, f.header) && f.contentType.End() <= |buf|
      modifies `state, `verb, `httpUrl, `httpProtocol, `header, `contentLen, `contentType, `body, `startIdx,
        `currentHeaderKey, `currIdx
      ensures currIdx == old(currIdx) + 1 && Snapshot() == g
      ensures Safe(g, currIdx) && NamesHeld(buf, g.header) && g.contentType.End() <= |buf|
      ensures Reading(ord, buf, g, currIdx) == Step(Reading(ord, buf, f, old(currIdx)), buf[old(currIdx)])
      ensures TypeFree(g.header) ==> TypeFree(f.header) && g.contentType == f.contentType
    {
      hide Ordered, InBounds, Reading, Step, NamesHeld, FieldsStep, BodyLength, CutAll;
      var c := cache[currIdx];
      assert c == buf[currIdx];
      HandleChar(c, f, buf);
      g := StepIsSafe(ord, buf, f, currIdx, contentLen, contentType);
      assert Snapshot() == g;
      TypeInBounds(f, g, currIdx, |buf|);
      currIdx := currIdx + 1;
    }

    static lemma TypeInBounds(f: Fields, g: Fields, k: nat, n: nat)
      requires Sound(g, k + 1) && k < n && f.contentType.End() <= n
      requires g.contentType == f.contentType || exists j :: j in g.header && g.contentType == g.header[j].value
      ensures g.contentType.End() <= n
    {
    }

    /** Handle the received bytes one by one until the request is complete, in error, or the
        bytes run out: from wherever it stands, the machine's run over them. */
    method Parse()
      requires Valid()
      modifies `state, `verb, `httpUrl, `httpProtocol, `header, `contentLen, `contentType, `body, `startIdx,
        `currentHeaderKey, `currIdx
      ensures Valid()
      ensures Meant() == Run(old(Meant()), old(cache[currIdx..tailIdx]))
      ensures Final(state) || currIdx == tailIdx
      ensures TypeFree(header) ==> contentType == old(contentType)
    {
      hide Step, Reading, Run, Safe, NamesHeld, TypeFree;
      ghost var buf, f := cache[..], Snapshot();
      ghost var goal := Run(Meant(), cache[currIdx..tailIdx]);
      while currIdx < tailIdx && state != CompleteState && state != ErrorState
        invariant currIdx <= tailIdx && cache[..] == buf
        invariant Snapshot() == f && Safe(f, currIdx) && NamesHeld(buf, f.header) && f.contentType.End() <= |buf|
        invariant Run(Reading(ord, buf, f, currIdx), buf[currIdx..tailIdx]) == goal
        invariant TypeFree(f.header) ==> f.contentType == old(contentType)
        decreases tailIdx - currIdx
      {
        ghost var g := Advance(f, buf);
        RunAhead(ord, buf, f, g, currIdx - 1, tailIdx);
        f := g;
      }
      RunOver(ord, buf, f, currIdx, tailIdx);
    }

    /** Forget the request just handled; the first `newTail` bytes of the buffer belong to the
        next one. The content type is not cleared. */
    method NextRequest(newTail: uint32)
      requires cache.Length <= 0x7FFF_FFFF && newTail <= cache.Length
      modifies `state, `verb, `httpUrl, `httpProtocol, `header, `body, `contentLen, `currIdx, `startIdx, `tailIdx
      ensures Snapshot() == FreshFields(contentType, currentHeaderKey) && tailIdx == newTail && currIdx == 0
    {
      state := StartState;
      verb := UNKNOWN;
      httpUrl := NoSlice;
      httpProtocol := NoSlice;
      header := map[];
      body := NoSlice;
      contentLen := 0;
      currIdx := 0;
      startIdx := 0;
      tailIdx := newTail;
    }

    /** Back to the state of a new connection, closing the file if one is open. */
    method Reset()
      requires cache.Length <= 0x7FFF_FFFF
      modifies `state, `verb, `httpUrl, `httpProtocol, `header, `body, `contentLen, `tailIdx, `startIdx, `currIdx,
        `clientIp,
        `file, `isSendingFile, `fileOffset, `fileRemaining, `lastSpeedCheckTime, `bytesSentInPeriod
      ensures Snapshot() == FreshFields(contentType, currentHeaderKey) && tailIdx == 0 && currIdx == 0
      ensures clientIp == "" && file == None && !isSendingFile && fileOffset == 0 && fileRemaining == 0
      ensures lastSpeedCheckTime == 0 && bytesSentInPeriod == 0
      ensures contentType == old(contentType)
    {
      NextRequest(0);
      clientIp := "";
      ResetFile();
    }

    /** The second half of `Reset`: the open file is closed, and the transfer forgotten. */
    method ResetFile()
      modifies `file, `isSendingFile, `fileOffset, `fileRemaining, `lastSpeedCheckTime, `bytesSentInPeriod
      ensures file == None && !isSendingFile && fileOffset == 0 && fileRemaining == 0
      ensures lastSpeedCheckTime == 0 && bytesSentInPeriod == 0
    {
      if file != None {
        file := None;
      }
      isSendingFile := false;
      fileOffset := 0;
      fileRemaining := 0;
      lastSpeedCheckTime := 0;
      bytesSentInPeriod := 0;
    }

    constructor (bufferSize: nat, ord: Order)
      requires bufferSize <= 0x7FFF_FFFF
      ensures Valid() && Meant() == Fresh(ord) && tailIdx == 0 && currIdx == 0
      ensures fresh(cache) && cache.Length == bufferSize && this.ord == ord
      ensures clientIp == "" && file == None && !isSendingFile && fileOffset == 0 && fileRemaining == 0
    {
      cache := new char[bufferSize];
      this.ord := ord;
      header := map[];
      file := None;
      contentType := NoSlice;
      currentHeaderKey := NoSlice;
      new;
      Reset();
      FreshMeans(ord, cache[..], contentType, currentHeaderKey);
      FreshIsSafe(contentType, currentHeaderKey);
    }

    /** Move the bytes after the handled request to the front of the buffer and start over. */
    method Compact()
      requires Valid()
      modifies `state, `verb, `httpUrl, `httpProtocol, `header, `body, `contentLen, `currIdx, `startIdx, `tailIdx, cache
      ensures Valid() && Meant() == Fresh(ord) && currIdx == 0
      ensures Received() == old(Unhandled()) && tailIdx == old(tailIdx) - old(currIdx) && state == StartState
    {
      var remain := tailIdx - currIdx;
      if remain > 0 {
        forall i | 0 <= i < remain {
          cache[i] := cache[currIdx + i];
        }
      }
      assert cache[..remain] == old(cache[currIdx..tailIdx]);
      NextRequest(remain);
      FreshMeans(ord, cache[..], contentType, currentHeaderKey);
      FreshIsSafe(contentType, currentHeaderKey);
    }

    /** What `recv` does to the buffer: `bytes` go to its free end. */
    method Append(bytes: string)
      requires Valid() && tailIdx + |bytes| <= cache.Length
      modifies `tailIdx, cache
      ensures Valid() && Meant() == old(Meant()) && currIdx == old(currIdx)
      ensures Received() == old(Received()) + bytes
    {
      hide Reading, InBounds, Ordered, NamesHeld;
      ghost var before := cache[..];
      forall i | 0 <= i < |bytes| {
        cache[tailIdx + i] := bytes[i];
      }
      tailIdx := tailIdx + |bytes|;
      ReadingKept(ord, before, cache[..], Snapshot(), currIdx);
      NamesKept(before, cache[..], Snapshot(), currIdx);
    }
  }
}
