/** One connection of a worker: the read, parse and compact loop, and the file transfer that a
    handler may start. The kernel is a script of results for `recv` and `sendfile`; a handler is
    an arbitrary choice of file, or none, for every history of requests. */
module ConnectionObject {
  import opened HttpText
  import opened HttpMachine
  import opened HttpGrammar
  import opened HttpTheorems
  import opened HttpStream
  import opened HttpSlices
  import opened HttpRequestObject
  import opened FileTransfer

  type Bytes = s: string | s != "" witness "x"

  /** What `recv` finds: bytes, nothing yet, an interruption, an error, or the end. */
  datatype Arrival = Data(bytes: Bytes) | NothingYet | Interrupted | Broken | Ended

  /** What the handler does with a request, given the history ending in it: the file it serves. */
  type Handler = seq<Request> -> Option<string>

  /** How a call of `HandleRequest` ended. */
  datatype Outcome = Idle | TooLarge | BadRequest | Sending | Closed

  function Arriving(inbox: seq<Arrival>): string {
    if inbox == [] then ""
    else (if inbox[0].Data? then inbox[0].bytes else "") + Arriving(inbox[1..])
  }

  /** The script neither breaks off nor ends. */
  ghost predicate Unbroken(inbox: seq<Arrival>) {
    forall i :: 0 <= i < |inbox| ==> !inbox[i].Broken? && !inbox[i].Ended?
  }

  /** How often the socket has nothing yet. */
  function Pauses(inbox: seq<Arrival>): nat {
    if inbox == [] then 0 else (if inbox[0].NothingYet? then 1 else 0) + Pauses(inbox[1..])
  }

  /** The bytes of a first arrival that `space` bytes can hold. */
  function Front(inbox: seq<Arrival>, space: nat): string {
    if inbox == [] || !inbox[0].Data? then "" else Held(inbox[0].bytes, space)
  }

  function Held(bytes: string, space: nat): string {
    if |bytes| <= space then bytes else bytes[..space]
  }

  /** What `epoll_wait` says about the connection, and what the clock says when it is dealt with. */
  datatype Signal = Signal(hangUp: bool, writable: bool, readable: bool, now: nat)

  function Reads(events: seq<Signal>): nat {
    if events == [] then 0 else (if events[0].readable then 1 else 0) + Reads(events[1..])
  }

  /** When the socket is writable. */
  function WritableTimes(events: seq<Signal>): seq<nat> {
    if events == [] then [] else (if events[0].writable then [events[0].now] else []) + WritableTimes(events[1..])
  }

  ghost predicate NoHangUps(events: seq<Signal>) {
    forall i :: 0 <= i < |events| ==> !events[i].hangUp
  }

  ghost predicate NoFiles(serve: Handler) {
    forall history :: serve(history) == None
  }

  function InboxSize(inbox: seq<Arrival>): nat {
    if inbox == [] then 0
    else 1 + (if inbox[0].Data? then |inbox[0].bytes| else 0) + InboxSize(inbox[1..])
  }

  /** The files started by a history of requests, in order. */
  function Started(serve: Handler, history: seq<Request>): seq<string> {
    if history == [] then []
    else
      var rest := Started(serve, history[..|history| - 1]);
      match serve(history)
      case None => rest
      case Some(file) => rest + [file]
  }

  ghost predicate ShowTypes(requests: seq<Request>, types: seq<string>) {
    |types| == |requests| && forall i :: 0 <= i < |types| ==> ShowsType(requests[i].header, types[i])
  }

  lemma ShowTypesSnoc(requests: seq<Request>, types: seq<string>, r: Request, text: string)
    requires ShowTypes(requests, types) && ShowsType(r.header, text)
    ensures ShowTypes(requests + [r], types + [text])
  {
  }

  /** The content type of a message with a single line for it, however its name is spelled. */
  lemma TypeOfMessage(m: Message, i: nat, text: string)
    requires OnlyLine(m.lines, i, "content-type") && ShowsType(Meaning(m).header, text)
    ensures text == m.lines[i].value
  {
    OnlyLineHolds(m.lines, i, "content-type");
    assert m.lines[i].key in HeaderOf(m.lines) && Lower(m.lines[i].key) == "content-type";
  }

  function Concat(parts: seq<string>): string {
    if parts == [] then "" else Concat(parts[..|parts| - 1]) + parts[|parts| - 1]
  }

  lemma ConcatSnoc(parts: seq<string>, s: string)
    ensures Concat(parts + [s]) == Concat(parts) + s
  {
    assert (parts + [s])[..|parts|] == parts;
  }

  lemma StartedSnoc(serve: Handler, history: seq<Request>, r: Request)
    ensures Started(serve, history + [r]) ==
            Started(serve, history) + (match serve(history + [r]) case None => [] case Some(f) => [f])
  {
    assert (history + [r])[..|history|] == history;
  }

  class Connection {
    const req: HttpRequest
    const ord: Order
    const serve: Handler
    var inbox: seq<Arrival>
    var outbox: seq<Room>
    var dispatched: seq<Request>
    /** The content type each of them was handled with. */
    var types: seq<string>
    /** File bytes handed to the socket. */
    var wire: string
    var closed: bool

    /** All bytes ever received; the messages found in them; the files sent whole; whether bytes
        wait unparsed behind a transfer; and the bytes dropped by closing. */
    ghost var received: string
    ghost var messages: seq<Message>
    ghost var finished: seq<string>
    ghost var waiting: bool
    ghost var lost: string

    /** The account of this connection while it is open. */
    ghost function Book(): Ledger
      reads `received, `messages, `dispatched, req`state, req`verb, req`httpUrl, req`httpProtocol, req`header,
        req`contentLen,
        req`contentType, req`body, req`startIdx, req`currentHeaderKey, req`currIdx, req`tailIdx, req.cache
    {
      Ledger(received, messages, dispatched, req.Received(), req.currIdx, req.Meant())
    }

    /** The buffer, its parser and the dispatched requests agree. */
    ghost predicate InStep()
      reads `received, `messages, `dispatched, `types, req`state, req`verb, req`httpUrl, req`httpProtocol, req`header,
        req`contentLen,
        req`contentType, req`body, req`startIdx, req`currentHeaderKey, req`currIdx, req`tailIdx, req.cache
    {
      req.Valid() && req.ord == ord && Book() in Books(ord) && ShowTypes(dispatched, types)
    }

    /** The account when only `rest` of what was received is still to be parsed. */
    ghost predicate Left(rest: string)
      reads `received, `messages, `dispatched, `types
    {
      Ledger(received, messages, dispatched, rest, 0, Fresh(ord)) in Books(ord) && ShowTypes(dispatched, types)
    }

    /** The transfer in progress, if any, and the bytes sent for it and for those before it. */
    ghost predicate Transferring()
      reads `wire, `finished, `dispatched, req`isSendingFile, req`file, req`fileOffset, req`fileRemaining
    {
      if req.isSendingFile then
        && req.file.Some?
        && req.fileOffset + req.fileRemaining == |req.file.value|
        && wire == Concat(finished) + req.file.value[..req.fileOffset]
        && Started(serve, dispatched) == finished + [req.file.value]
      else
        req.file == None && wire == Concat(finished) && Started(serve, dispatched) == finished
    }

    /** The last request dispatched asked for a file. */
    ghost predicate AskedLast()
      reads `dispatched
    {
      dispatched != [] && serve(dispatched).Some?
    }

    /** After closing: what was sent is a prefix of the files that were asked for, and no request
        was lost unless the last one before it asked for a file. */
    ghost predicate Abandoned()
      reads `wire, `dispatched, `lost
    {
      && wire <= Concat(Started(serve, dispatched))
      && (!AskedLast() ==> ParseAll(ord, lost) == [])
    }

    /** The parser has looked at everything received, unless it failed. Bytes wait only behind a
        request that asked for a file, and that request has left room behind them. */
    ghost predicate Exhausted()
      reads `waiting, `dispatched, req`isSendingFile, req`fileRemaining, req`currIdx, req`tailIdx, req`state
    {
      && (req.isSendingFile || waiting ==> AskedLast()) && (req.isSendingFile ==> req.fileRemaining > 0)
      && if waiting then req.tailIdx < req.cache.Length else req.currIdx == req.tailIdx || req.state == ErrorState
    }

    ghost predicate Valid()
      reads this, req, req.cache
    {
      if closed then req.ord == ord && req.cache.Length <= 0x7FFF_FFFF && Left(lost) && Abandoned()
      else InStep() && Transferring() && Exhausted() && req.state != CompleteState
    }

    constructor (bufferSize: nat, ord: Order, serve: Handler, inbox: seq<Arrival>, outbox: seq<Room>)
      requires bufferSize <= 0x7FFF_FFFF
      ensures Valid() && !closed && fresh(req) && fresh(req.cache) && received == "" && dispatched == []
      ensures this.ord == ord && this.serve == serve && this.inbox == inbox && this.outbox == outbox
      ensures req.cache.Length == bufferSize && !req.isSendingFile && !waiting
    {
      this.ord, this.serve, this.inbox, this.outbox := ord, serve, inbox, outbox;
      req := new HttpRequest(bufferSize, ord);
      dispatched, types, wire, closed := [], [], "", false;
      received, messages, finished, waiting, lost := "", [], [], false, "";
      BooksOpen(ord);
    }

    /** `CloseConnection`, as far as this connection goes: the slot is reset. */
    method Close()
      requires InStep() && !closed && Transferring()
      requires if req.isSendingFile then AskedLast() else Exhausted() && req.state != CompleteState
      modifies `closed, `lost, req
      ensures Valid() && closed
    {
      hide ShowTypes, Books, Safe, SafeFields, NamesHeld, Concat, Started, ParseAll;
      AbandonedFrom();
      if !req.isSendingFile && !waiting {
        BooksAtRest(ord, Book());
      }
      BooksForget(ord, Book());
      lost := req.Received();
      req.Reset();
      closed := true;
    }

    lemma AbandonedFrom()
      requires Transferring()
      ensures wire <= Concat(Started(serve, dispatched))
    {
      if req.isSendingFile {
        ConcatSnoc(finished, req.file.value);
        var f := req.file.value;
        assert f == f[..req.fileOffset] + f[req.fileOffset..];
        ConcatAssoc(Concat(finished), f[..req.fileOffset], f[req.fileOffset..]);
      }
    }

    /** `recv` with room for `space` bytes. */
    method Recv(space: nat) returns (r: Arrival)
      requires space > 0
      modifies this`inbox
      ensures r.Data? ==> |r.bytes| <= space && Arriving(old(inbox)) == r.bytes + Arriving(inbox)
      ensures !r.Data? ==> Arriving(old(inbox)) == Arriving(inbox)
      ensures if old(inbox) == [] then r == NothingYet && inbox == [] else InboxSize(inbox) < InboxSize(old(inbox))
      ensures old(inbox) != [] ==>
        r == if old(inbox)[0].Data? then Data(Held(old(inbox)[0].bytes, space)) else old(inbox)[0]
      ensures Unbroken(old(inbox)) ==> Unbroken(inbox) && !r.Broken? && !r.Ended?
      ensures Pauses(inbox) <= Pauses(old(inbox))
      ensures r.NothingYet? ==> inbox == [] || Pauses(inbox) < Pauses(old(inbox))
    {
      if inbox == [] {
        return NothingYet;
      }
      r := inbox[0];
      if r.Data? && |r.bytes| > space {
        var all := r.bytes;
        inbox := [Data(all[space..])] + inbox[1..];
        r := Data(all[..space]);
        assert all == all[..space] + all[space..];
        ConcatAssoc(all[..space], all[space..], Arriving(inbox[1..]));
      } else {
        inbox := inbox[1..];
      }
    }

    /** Received bytes join the buffer. */
    method Take(bytes: Bytes)
      requires InStep() && req.tailIdx + |bytes| <= req.cache.Length
      modifies `received, req`tailIdx, req.cache
      ensures InStep() && received == old(received) + bytes
    {
      hide Safe, SafeFields, NamesHeld, ShowTypes;
      BooksTake(ord, Book(), bytes);
      req.Append(bytes);
      received := received + bytes;
    }

    /** Parse what is buffered. */
    method ParseBuffer()
      requires InStep()
      modifies req`state, req`verb, req`httpUrl, req`httpProtocol, req`header, req`contentLen, req`contentType,
        req`body,
        req`startIdx, req`currentHeaderKey, req`currIdx
      ensures InStep() && req.Meant() == Run(Fresh(ord), req.Received())
      ensures Final(req.state) || req.currIdx == req.tailIdx
    {
      ghost var l := Book();
      assert l.buffered[l.handled..] == req.cache[req.currIdx..req.tailIdx];
      req.Parse();
      BooksParse(ord, l, req.Meant());
    }

    /** The completed request is put on record. */
    method Record()
      requires InStep() && req.state == CompleteState
      modifies `dispatched, `types, `messages
      ensures Left(req.Unhandled()) && req.currIdx > 0
      ensures types == old(types) + [req.Text(req.contentType)]
      ensures dispatched == old(dispatched) + [RequestOf(req.Meant())]
    {
      hide ShowsType, ShowTypes, Books, Safe, SafeFields, NamesHeld;
      ghost var l := Book();
      ghost var m := BooksDispatch(ord, l);
      assert l.buffered[l.handled..] == req.Unhandled();
      var r := Request(req.verb, req.Text(req.httpUrl), req.Text(req.httpProtocol), req.TextHeader(),
                       req.contentLen, req.Text(req.body));
      assert r == RequestOf(req.Meant());
      req.TypeIsShown();
      ShowTypesSnoc(dispatched, types, r, req.Text(req.contentType));
      dispatched := dispatched + [r];
      types := types + [req.Text(req.contentType)];
      messages := messages + [m];
    }

    /** `time(nullptr)`: any value at all. */
    method ReadClock() returns (now: nat)
    {
      now := *;
    }

    /** A handler serves a file: the transfer is set up, nothing is sent yet. */
    method StartFile(content: string)
      requires !req.isSendingFile && wire == Concat(finished) && Started(serve, dispatched) == finished + [content]
      modifies req`isSendingFile, req`file, req`fileOffset, req`fileRemaining, req`lastSpeedCheckTime,
        req`bytesSentInPeriod
      ensures Transferring() && req.isSendingFile
    {
      var now := ReadClock();
      req.isSendingFile := true;
      req.file := Some(content);
      req.fileOffset := 0;
      req.fileRemaining := |content|;
      req.lastSpeedCheckTime := now;
      req.bytesSentInPeriod := 0;
      assert wire + "" == wire;
    }

    /** `ProcessHttpRequest`: the handler runs, and may start a file transfer. */
    method ProcessHttpRequest()
      requires InStep() && Transferring()
      requires req.state == CompleteState && !req.isSendingFile
      modifies `dispatched, `types, `messages
      modifies req`isSendingFile, req`file, req`fileOffset, req`fileRemaining, req`lastSpeedCheckTime,
        req`bytesSentInPeriod
      ensures Left(req.Unhandled()) && Transferring()
      ensures dispatched == old(dispatched) + [RequestOf(old(req.Meant()))]
      ensures req.currIdx > 0
      ensures req.isSendingFile <==> serve(dispatched).Some?
    {
      hide Connection.InStep, Connection.Left, Started, Concat;
      Record();
      StartedSnoc(serve, old(dispatched), dispatched[|dispatched| - 1]);
      match serve(dispatched)
      case None =>
      case Some(content) => StartFile(content);
    }

    /** Cut the handled request off the front of the buffer and get ready for the next. */
    method CompactBuffer()
      requires req.Valid() && req.ord == ord && Left(req.Unhandled())
      modifies req`state, req`verb, req`httpUrl, req`httpProtocol, req`header, req`body, req`contentLen, req`currIdx,
        req`startIdx, req`tailIdx, req.cache
      ensures InStep()
      ensures req.currIdx == 0 && req.tailIdx == old(req.tailIdx) - old(req.currIdx) && req.state == StartState
    {
      req.Compact();
    }

    /** `sendfile`: how many of `space` remaining bytes the socket takes; `None` for an error
        return, with `again` telling a full socket from a broken one. */
    method SendFile(space: nat) returns (sent: Option<nat>, again: bool)
      requires space > 0
      modifies `outbox
      ensures sent.Some? ==> sent.value <= space
      ensures old(outbox) == [] ==> sent == None && again && outbox == []
      ensures old(outbox) != [] ==> outbox == old(outbox)[1..]
      ensures old(outbox) != [] ==>
        match old(outbox)[0]
        case Takes(n) => sent == Some(if n < space then n else space)
        case Full => sent == None && again
        case Refused => sent == None && !again
    {
      if outbox == [] {
        return None, true;
      }
      var r := outbox[0];
      outbox := outbox[1..];
      match r
      case Takes(n) => return Some(if n < space then n else space), false;
      case Full => return None, true;
      case Refused => return None, false;
    }

    /** Account for `sent` more bytes of the file. */
    method Sent(sent: nat)
      requires Transferring() && req.isSendingFile && sent <= req.fileRemaining
      modifies `wire, req`fileOffset, req`fileRemaining, req`bytesSentInPeriod
      ensures Transferring()
      ensures req.fileRemaining == old(req.fileRemaining) - sent
      ensures req.bytesSentInPeriod == old(req.bytesSentInPeriod) + sent && |wire| == |old(wire)| + sent &&
        old(wire) <= wire
    {
      var f := req.file.value;
      wire := wire + f[req.fileOffset..req.fileOffset + sent];
      ConcatAssoc(Concat(finished), f[..req.fileOffset], f[req.fileOffset..req.fileOffset + sent]);
      assert f[..req.fileOffset] + f[req.fileOffset..req.fileOffset + sent] == f[..req.fileOffset + sent];
      req.fileOffset := req.fileOffset + sent;
      req.fileRemaining := req.fileRemaining - sent;
      req.bytesSentInPeriod := req.bytesSentInPeriod + sent;
    }

    /** Close the file and listen for requests again. */
    method FinishFile()
      requires Transferring() && req.isSendingFile && req.fileRemaining == 0
      modifies `finished, req`isSendingFile, req`file
      ensures Transferring() && !req.isSendingFile
      ensures finished == old(finished) + [old(req.file.value)]
    {
      var f := req.file.value;
      assert f[..req.fileOffset] == f;
      ConcatSnoc(finished, f);
      finished := finished + [f];
      req.file := None;
      req.isSendingFile := false;
    }

    /** Send as much of the file as the socket takes. */
    method SendWhileTaken() returns (good: bool)
      requires Transferring() && req.isSendingFile
      modifies `wire, `outbox, req`fileOffset, req`fileRemaining, req`bytesSentInPeriod
      ensures Transferring() && old(wire) <= wire
      ensures var p := Pushed(old(outbox), old(req.fileRemaining));
              && good == p.good && outbox == p.rest && |wire| == |old(wire)| + p.sent
              && req.fileRemaining == old(req.fileRemaining) - p.sent
              && req.bytesSentInPeriod == old(req.bytesSentInPeriod) + p.sent
    {
      hide Connection.Transferring;
      ghost var total := Pushed(outbox, req.fileRemaining);
      while req.fileRemaining > 0
        invariant Transferring() && req.isSendingFile && old(wire) <= wire
        invariant var p := Pushed(outbox, req.fileRemaining);
                  && p.rest == total.rest && p.good == total.good && |wire| + p.sent == |old(wire)| + total.sent
                  && req.fileRemaining - p.sent == old(req.fileRemaining) - total.sent
                  && req.bytesSentInPeriod + p.sent == old(req.bytesSentInPeriod) + total.sent
        decreases |outbox|
      {
        var sent, again := SendFile(req.fileRemaining);
        if sent.Some? && sent.value > 0 {
          Sent(sent.value);
        } else {
          return sent.None? && again;
        }
      }
      return true;
    }

    /** The file closed if it was sent whole. */
    method FinishIfSent()
      requires Transferring() && req.isSendingFile
      modifies `finished, req`isSendingFile, req`file
      ensures Transferring() && req.isSendingFile == (req.fileRemaining > 0)
      ensures finished == if req.fileRemaining == 0 then old(finished) + [old(req.file).value] else old(finished)
    {
      if req.fileRemaining == 0 {
        FinishFile();
      }
    }

    /** A round of sending at time `now`, and the file closed if it was sent whole. Not `ok` exactly
        after a socket error and for a client that is too slow. */
    method SendRound(now: nat) returns (ok: bool)
      requires Transferring() && req.isSendingFile
      modifies `wire, `outbox, `finished, req`isSendingFile, req`file, req`fileOffset, req`fileRemaining,
        req`lastSpeedCheckTime, req`bytesSentInPeriod
      ensures Transferring() && old(wire) <= wire
      ensures var p := Pushed(old(outbox), old(req.fileRemaining));
              var bytes, elapsed := old(req.bytesSentInPeriod) + p.sent, now - old(req.lastSpeedCheckTime);
              && outbox == p.rest && |wire| == |old(wire)| + p.sent
              && req.fileRemaining == old(req.fileRemaining) - p.sent
              && ok == (p.good && !TooSlow(bytes, elapsed))
              && (ok ==> req.lastSpeedCheckTime == (if elapsed >= 5 then now else old(req.lastSpeedCheckTime)))
              && (ok ==> req.bytesSentInPeriod == (if elapsed >= 5 then 0 else bytes))
      ensures req.isSendingFile == (!ok || req.fileRemaining > 0)
    {
      hide Connection.Transferring, Pushed;
      ok := SendWhileTaken();
      if !ok {
        return;
      }
      var elapsed := now - req.lastSpeedCheckTime;
      if elapsed >= 5 {
        if req.bytesSentInPeriod < 5120 * elapsed {
          return false;
        }
        req.lastSpeedCheckTime := now;
        req.bytesSentInPeriod := 0;
      }
      FinishIfSent();
    }

    /** The transfer in progress as a value. */
    ghost function Underway(): Transfer
      reads `outbox, req`fileRemaining, req`lastSpeedCheckTime, req`bytesSentInPeriod
    {
      Transfer(req.fileRemaining, outbox, req.lastSpeedCheckTime, req.bytesSentInPeriod)
    }

    /** `ContinueSendFile`: a round of sending, or the end of the connection, which comes exactly with
        a socket error or a client that is too slow. */
    method ContinueSendFile(now: nat)
      requires InStep() && !closed && Transferring() && req.isSendingFile && AskedLast()
      modifies `wire, `outbox, `finished, `closed, `lost, req
      ensures old(wire) <= wire
      ensures closed ==> Valid()
      ensures !closed ==> InStep() && Transferring() && req.isSendingFile == (req.fileRemaining > 0)
      ensures !closed ==> req.currIdx == old(req.currIdx) && req.tailIdx == old(req.tailIdx)
      ensures !closed ==> req.state == old(req.state)
      ensures var p := Pushed(old(outbox), old(req.fileRemaining));
              var bytes, elapsed := old(req.bytesSentInPeriod) + p.sent, now - old(req.lastSpeedCheckTime);
              && outbox == p.rest && |wire| == |old(wire)| + p.sent
              && closed == (!p.good || (elapsed >= 5 && bytes < 5120 * elapsed))
              && (!closed ==> req.fileRemaining == old(req.fileRemaining) - p.sent)
      ensures var elapsed := now - old(req.lastSpeedCheckTime);
              && (!closed && elapsed >= 5 ==> req.lastSpeedCheckTime == now && req.bytesSentInPeriod == 0)
              && (!closed && elapsed < 5 ==>
                    && req.lastSpeedCheckTime == old(req.lastSpeedCheckTime)
                    && req.bytesSentInPeriod - old(req.bytesSentInPeriod) == |wire| - |old(wire)|)
    {
      hide Connection.InStep, Connection.Transferring, Connection.Valid, Connection.AskedLast, Pushed;
      var ok := SendRound(now);
      if !ok {
        Close();
      }
    }

    /** Dispatch the completed request and cut it off the buffer. */
    method HandleComplete()
      requires InStep() && Transferring() && req.state == CompleteState && !req.isSendingFile
      modifies `dispatched, `types, `messages, req, req.cache
      ensures InStep() && Transferring() && req.tailIdx < old(req.tailIdx) && req.state == StartState
      ensures req.tailIdx < req.cache.Length
      ensures old(dispatched) <= dispatched != []
      ensures req.isSendingFile <==> serve(dispatched).Some?
    {
      hide Connection.Transferring, Connection.Left, Connection.Book, Books, Safe, SafeFields, NamesHeld, ShowTypes;
      ProcessHttpRequest();
      CompactBuffer();
    }

    /** A transfer has been started: whatever is buffered waits, and sending begins. */
    method StartTransfer() returns (out: Outcome)
      requires InStep() && !closed && Transferring() && req.isSendingFile && req.state != CompleteState
      requires AskedLast() && req.tailIdx < req.cache.Length
      modifies `wire, `outbox, `finished, `closed, `lost, `waiting, req
      ensures Valid() && old(wire) <= wire
      ensures |wire| == |old(wire)| + Pushed(old(outbox), old(req.fileRemaining)).sent
      ensures out == if closed then Closed else Sending
    {
      hide Connection.Book, Books, Connection.AskedLast, Connection.Transferring, Pushed;
      waiting := req.currIdx < req.tailIdx;
      var now := ReadClock();
      ContinueSendFile(now);
      out := if closed then Closed else Sending;
    }

    /** The parser has caught up with the buffer: no message begins in it. */
    ghost predicate CaughtUp()
      reads `waiting, req`isSendingFile, req`currIdx, req`tailIdx, req`state
    {
      !req.isSendingFile && !waiting && (req.currIdx == req.tailIdx || req.state == ErrorState)
    }

    /** No request is complete: the bytes are malformed, or more are needed. */
    method Settle() returns (out: Outcome)
      requires InStep() && !closed && Transferring() && !req.isSendingFile && req.state != CompleteState
      requires Final(req.state) || req.currIdx == req.tailIdx
      modifies `waiting
      ensures Valid() && Ending(out)
    {
      hide Connection.InStep, Connection.Transferring;
      waiting := false;
      out := if req.state == ErrorState then BadRequest else Idle;
    }

    /** Parse the buffer and deal with the request at its front, if it is complete. */
    method Round() returns (over: bool, out: Outcome)
      requires InStep() && !closed && Transferring() && !req.isSendingFile && req.state != CompleteState
      modifies `dispatched, `types, `messages, `wire, `outbox, `finished, `closed, `lost, `waiting, req, req.cache
      ensures old(wire) <= wire && old(dispatched) <= dispatched
      ensures !over ==> InStep() && !closed && Transferring() && !req.isSendingFile && req.state == StartState
      ensures !over ==> req.tailIdx < old(req.tailIdx)
      ensures over ==> Valid() && Ending(out)
    {
      hide Connection.InStep, Connection.Transferring, Books;
      ParseBuffer();
      if req.state != CompleteState {
        out := Settle();
        return true, out;
      }
      HandleComplete();
      over := req.isSendingFile;
      out := Idle;
      if over {
        out := StartTransfer();
      }
    }

    /** What each way of ending says about the connection. */
    ghost predicate Ending(out: Outcome)
      reads `closed, `dispatched, `waiting, req`isSendingFile, req`currIdx, req`tailIdx, req`state
    {
      match out
      case Idle => !closed && CaughtUp() && !Final(req.state)
      case BadRequest => !closed && CaughtUp() && req.state == ErrorState
      case TooLarge => false
      case Sending => !closed && dispatched != [] && serve(dispatched).Some?
      case Closed => closed && dispatched != [] && serve(dispatched).Some?
    }

    /** Parse and dispatch the requests in the buffer, one after another, until none is complete,
        one is malformed, or one starts a transfer. */
    method Pipeline() returns (out: Outcome)
      requires InStep() && !closed && Transferring() && !req.isSendingFile && req.state != CompleteState
      modifies `dispatched, `types, `messages, `wire, `outbox, `finished, `closed, `lost, `waiting, req, req.cache
      ensures Valid() && Ending(out)
      ensures old(wire) <= wire && old(dispatched) <= dispatched
    {
      while true
        invariant InStep() && !closed && Transferring() && !req.isSendingFile && req.state != CompleteState
        invariant old(wire) <= wire && old(dispatched) <= dispatched
        decreases req.tailIdx
      {
        var over;
        over, out := Round();
        if over {
          return;
        }
      }
    }

    /** One read that found bytes: they join the buffer and what they complete is dispatched. */
    method Digest(bytes: Bytes) returns (out: Outcome)
      requires Valid() && !closed && !req.isSendingFile && req.tailIdx + |bytes| <= req.cache.Length
      modifies `received, `dispatched, `types, `messages, `wire, `outbox, `finished, `closed, `lost, `waiting
      modifies req, req.cache
      ensures Valid() && Ending(out) && received == old(received) + bytes
      ensures old(wire) <= wire && old(dispatched) <= dispatched
    {
      hide Connection.InStep, Connection.Transferring, Connection.Book, Books;
      Take(bytes);
      out := Pipeline();
    }

    lemma InBuffer()
      requires Valid() && !closed
      ensures req.tailIdx <= req.cache.Length
    {
    }

    /** The first arrival of `before` has been dealt with, if there was room for it. */
    ghost predicate InboxUsed(before: seq<Arrival>, space: int, was: string)
      reads `inbox, `received, `closed
    {
      before != [] && space > 0 ==>
        && InboxSize(inbox) < InboxSize(before) && was + Front(before, space) <= received
        && (before[0].Broken? || before[0].Ended? ==> closed)
    }

    /** One `recv` and what follows from it. */
    method ReadOnce() returns (over: bool, out: Outcome)
      requires Valid() && !closed && !req.isSendingFile
      modifies this, req, req.cache
      ensures Valid()
      ensures received + Arriving(inbox) == old(received) + Arriving(old(inbox)) && old(received) <= received
      ensures old(dispatched) <= dispatched && old(wire) <= wire
      ensures !over ==> !closed && !req.isSendingFile && InboxSize(inbox) < InboxSize(old(inbox))
      ensures over ==> (out == Closed <==> closed)
      ensures over && out in {Idle, TooLarge, BadRequest} ==> !req.isSendingFile
      ensures !over ==> out == Idle
      ensures !closed && received == old(received) ==> waiting == old(waiting)
      ensures out in {Idle, TooLarge, BadRequest} && received != old(received) ==> !waiting
      ensures over && out == TooLarge ==> req.tailIdx == req.cache.Length && !waiting
      ensures over && out == BadRequest ==> req.state == ErrorState && !waiting
      ensures over && out == Sending ==> dispatched != [] && serve(dispatched).Some?
      ensures Pauses(inbox) <= Pauses(old(inbox)) && InboxSize(inbox) <= InboxSize(old(inbox))
      ensures over && out == Idle ==> inbox == [] || Pauses(inbox) < Pauses(old(inbox))
      ensures Unbroken(old(inbox)) ==>
        Unbroken(inbox) && (over && out == Closed ==> dispatched != [] && serve(dispatched).Some?)
      ensures InboxUsed(old(inbox), req.cache.Length - old(req.tailIdx), old(received))
    {
      hide Connection.Transferring, Connection.Book, Books, Safe, SafeFields, NamesHeld, ShowTypes, Unbroken, Held,
        Connection.Abandoned, Connection.Left, Connection.InStep;
      InBuffer();
      var space := req.cache.Length - req.tailIdx;
      if space <= 0 {
        return true, TooLarge;
      }
      var r := Recv(space);
      over, out := true, Idle;
      match r {
        case NothingYet =>
        case Interrupted => over := false;
        case Broken | Ended =>
          Close();
          out := Closed;
        case Data(bytes) =>
          ConcatAssoc(received, bytes, Arriving(inbox));
          out := Digest(bytes);
          over := out != Idle;
      }
    }

    /** `HandleRequest`: read until the kernel has nothing more, parsing and dispatching after
        every read. Nothing is read while a file is being sent. Bytes are neither lost nor
        invented between the kernel and the account. */
    method HandleRequest() returns (out: Outcome)
      requires Valid()
      modifies this, req, req.cache
      ensures Valid() && (out == Closed <==> closed) && (old(closed) ==> closed)
      ensures received + Arriving(inbox) == old(received) + Arriving(old(inbox)) && old(received) <= received
      ensures old(dispatched) <= dispatched && old(wire) <= wire
      ensures old(closed) || old(req.isSendingFile) ==>
              received == old(received) && dispatched == old(dispatched) && inbox == old(inbox) &&
              waiting == old(waiting)
      ensures out in {Idle, TooLarge, BadRequest} ==> !req.isSendingFile
      ensures out in {Idle, TooLarge, BadRequest} && received != old(received) ==> !waiting
      ensures out == TooLarge ==> req.tailIdx == req.cache.Length && !waiting
      ensures out == BadRequest ==> req.state == ErrorState && !waiting
      ensures old(req.isSendingFile && !closed) ==>
              !closed && req.isSendingFile && Underway() == old(Underway()) && wire == old(wire)
      ensures !old(req.isSendingFile) && out == Sending ==> dispatched != [] && serve(dispatched).Some?
      ensures Pauses(inbox) <= Pauses(old(inbox))
      ensures out == Idle ==> inbox == [] || Pauses(inbox) < Pauses(old(inbox))
      ensures Unbroken(old(inbox)) ==> Unbroken(inbox)
      ensures Unbroken(old(inbox)) && !old(closed || req.isSendingFile) && out == Closed ==>
              dispatched != [] && serve(dispatched).Some?
      ensures !old(closed || req.isSendingFile) ==>
              InboxUsed(old(inbox), req.cache.Length - old(req.tailIdx), old(received))
    {
      hide Connection.Valid;
      if closed {
        return Closed;
      }
      if req.isSendingFile {
        return Sending;
      }
      var over := false;
      out := Idle;
      while !over
        invariant Valid() && (!over ==> !closed && !req.isSendingFile)
        invariant received + Arriving(inbox) == old(received) + Arriving(old(inbox)) && old(received) <= received
        invariant old(dispatched) <= dispatched && old(wire) <= wire
        invariant over ==> (out == Closed <==> closed)
        invariant over && out in {Idle, TooLarge, BadRequest} ==> !req.isSendingFile
        invariant !over ==> out == Idle
        invariant out in {Idle, TooLarge, BadRequest} && received != old(received) ==> !waiting
        invariant over && out == TooLarge ==> req.tailIdx == req.cache.Length && !waiting
        invariant over && out == BadRequest ==> req.state == ErrorState && !waiting
        invariant over && out == Sending ==> dispatched != [] && serve(dispatched).Some?
        invariant Pauses(inbox) <= Pauses(old(inbox)) && InboxSize(inbox) <= InboxSize(old(inbox))
        invariant over && out == Idle ==> inbox == [] || Pauses(inbox) < Pauses(old(inbox))
        invariant Unbroken(old(inbox)) ==>
          Unbroken(inbox) && (over && out == Closed ==> dispatched != [] && serve(dispatched).Some?)
        invariant
          || (!over && inbox == old(inbox) && received == old(received) && req.tailIdx == old(req.tailIdx))
          || InboxUsed(old(inbox), req.cache.Length - old(req.tailIdx), old(received))
        decreases if over then 0 else 1, InboxSize(inbox)
      {
        over, out := ReadOnce();
      }
    }

    // ---- what it all means -------------------------------------------------------------

    /** At any time: the requests dispatched are the first ones the one-shot reference reads in
        everything received, however the bytes were cut into reads. */
    lemma DispatchedAreFirst()
      requires Valid()
      ensures dispatched <= ParseAll(ord, received)
    {
      BooksAgree(ord, if closed then Ledger(received, messages, dispatched, lost, 0, Fresh(ord)) else Book());
    }

    /** Whenever no transfer has left bytes waiting, they are all of them. */
    lemma DispatchedAreAll()
      requires Valid() && !closed && CaughtUp()
      ensures dispatched == ParseAll(ord, received)
      ensures !Begins(ord, req.Received())
    {
      var l := Book();
      BooksAgree(ord, l);
      BooksAtRest(ord, l);
    }

    /** Unless the last request asked for a file, they are all of them, even after closing. */
    lemma WithoutFilesAll()
      requires Valid() && !AskedLast()
      ensures dispatched == ParseAll(ord, received)
    {
      if closed {
        BooksAgree(ord, Ledger(received, messages, dispatched, lost, 0, Fresh(ord)));
      } else {
        DispatchedAreAll();
      }
    }

    /** A full buffer, the case answered with 413, begins no request that fits its capacity. */
    lemma FullMeansTooLarge(m: Message)
      requires Valid() && !closed && !req.isSendingFile && req.tailIdx == req.cache.Length
      requires IsMessage(ord, m) && req.Received() <= MessageText(m)
      ensures |MessageText(m)| > req.cache.Length
    {
      DispatchedAreAll();
    }

    /** Every file byte sent is accounted for: the bytes on the wire are the files asked for, in
        order, each whole except perhaps the last. */
    lemma SentAreAsked()
      requires Valid()
      ensures wire <= Concat(Started(serve, dispatched))
      ensures !closed && !req.isSendingFile ==> wire == Concat(Started(serve, dispatched))
    {
      if !closed {
        AbandonedFrom();
      }
    }

    /** With bytes still to come, the requests dispatched are all there will ever be when the
        parser has caught up and nothing more comes, or failed, or has filled the buffer. */
    lemma NoneToCome(rest: string)
      requires Valid() && !closed && CaughtUp()
      requires AllFit(ord, received + rest, req.cache.Length)
      requires rest == "" || req.state == ErrorState || req.tailIdx == req.cache.Length
      ensures dispatched == ParseAll(ord, received + rest)
    {
      BooksAreClosed(ord, Book(), rest, req.cache.Length);
    }

    /** Whatever is still to come, the requests dispatched are the first ones of it all. */
    lemma FirstOfAll(rest: string)
      requires Valid()
      ensures dispatched <= ParseAll(ord, received + rest)
    {
      var l := if closed then Ledger(received, messages, dispatched, lost, 0, Fresh(ord)) else Book();
      BooksTake(ord, l, rest);
      BooksAgree(ord, l.(received := l.received + rest, buffered := l.buffered + rest));
    }

    /** How reading ends when no file is ever asked for: the socket has nothing for now, or all that
        ever comes is dispatched. */
    lemma ReadToTheEnd(out: Outcome, rest: string)
      requires Valid() && !closed && NoFiles(serve) && AllFit(ord, received + rest, req.cache.Length)
      requires out in {TooLarge, BadRequest} || (out == Idle && rest == "")
      requires out == TooLarge ==> req.tailIdx == req.cache.Length
      requires out == BadRequest ==> req.state == ErrorState
      ensures dispatched == ParseAll(ord, received + rest)
    {
      assert !AskedLast();
      NoneToCome(rest);
    }

    /** One turn of the event loop for this descriptor: hang-ups and the idle sweep close it, a
        writable socket goes on with the transfer, and only otherwise is it read. A turn that
        reads uses up the first arrival there is room for. When no file is ever asked for and all
        requests fit, it brings the dispatched requests to the end of the stream or comes to a pause. */
    method OnEvent(e: Signal)
      requires Valid()
      modifies this, req, req.cache
      ensures Valid() && (old(closed) || e.hangUp ==> closed)
      ensures received + Arriving(inbox) == old(received) + Arriving(old(inbox))
      ensures old(received) <= received && old(dispatched) <= dispatched && old(wire) <= wire
      ensures old(req.isSendingFile) || old(closed) ==> received == old(received) && dispatched == old(dispatched)
      ensures !e.hangUp && e.readable && !old(closed || req.isSendingFile) && old(inbox) != [] ==>
              old(req.tailIdx) < req.cache.Length ==>
                && InboxSize(inbox) < InboxSize(old(inbox))
                && old(received) + Front(old(inbox), req.cache.Length - old(req.tailIdx)) <= received
                && (old(inbox)[0].Broken? || old(inbox)[0].Ended? ==> closed)
      ensures !e.hangUp && e.writable && !old(closed) && old(req.isSendingFile) ==>
              var t := OneRound(old(Underway()), e.now);
              && closed == t.None? && |wire| == |old(wire)| + Pushed(old(outbox), old(req.fileRemaining)).sent
              && (!closed ==> Underway() == t.value && req.isSendingFile == (req.fileRemaining > 0))
      ensures !e.hangUp && !e.writable && !old(closed) && old(req.isSendingFile) ==>
              !closed && req.isSendingFile && Underway() == old(Underway()) && wire == old(wire)
      ensures !e.hangUp && !e.readable && !old(req.isSendingFile) ==>
              closed == old(closed) && inbox == old(inbox) && received == old(received) && wire == old(wire)
      ensures Pauses(inbox) <= Pauses(old(inbox)) && (Unbroken(old(inbox)) ==> Unbroken(inbox))
      ensures NoFiles(serve) && Unbroken(old(inbox)) && !e.hangUp && !old(closed) ==> !closed
      ensures NoFiles(serve) && Unbroken(old(inbox)) && !e.hangUp && !old(closed) && e.readable ==>
              AllFit(ord, old(received) + Arriving(old(inbox)), req.cache.Length) ==>
                Pauses(inbox) < Pauses(old(inbox)) || dispatched == ParseAll(ord, received + Arriving(inbox))
    {
      hide Connection.InStep, Connection.Transferring, Pushed, Front, Connection.Abandoned, Connection.Left;
      if e.hangUp {
        if !closed {
          Close();
        }
      } else if !closed && e.writable && req.isSendingFile {
        ContinueSendFile(e.now);
      } else if e.readable {
        var out := HandleRequest();
        if NoFiles(serve) && AllFit(ord, received + Arriving(inbox), req.cache.Length) && !closed {
          if out in {TooLarge, BadRequest} || (out == Idle && inbox == []) {
            ReadToTheEnd(out, Arriving(inbox));
          }
        }
      }
    }

    /** Any interleaving of events, for as long as anyone cares to watch: what is dispatched is what
        the one-shot reference reads first in the bytes received, and all it reads unless the last
        request asked for a file and its transfer still runs or has left bytes waiting. Without files,
        hang-ups and errors, it is all that ever comes once the socket has been readable more often
        than it had nothing to read. */
    method Live(events: seq<Signal>)
      requires Valid()
      modifies this, req, req.cache
      ensures Valid() && (old(closed) ==> closed)
      ensures received + Arriving(inbox) == old(received) + Arriving(old(inbox))
      ensures old(received) <= received && old(dispatched) <= dispatched && old(wire) <= wire
      ensures dispatched <= ParseAll(ord, received)
      ensures !AskedLast() ==> dispatched == ParseAll(ord, received)
      ensures !closed && !req.isSendingFile && !waiting ==> dispatched == ParseAll(ord, received)
      ensures wire <= Concat(Started(serve, dispatched)) && ShowTypes(dispatched, types)
      ensures (exists e :: e in events && e.hangUp) ==> closed
      ensures NoFiles(serve) && NoHangUps(events) && Unbroken(old(inbox)) && !old(closed) ==>
              !closed && (AllFit(ord, old(received) + Arriving(old(inbox)), req.cache.Length) &&
                          Reads(events) > Pauses(old(inbox)) ==>
                            dispatched == ParseAll(ord, received + Arriving(inbox)))
    {
      hide Connection.Valid, Connection.AskedLast, ParseAll, AllFit, Pauses, Unbroken, Arriving, Front, Pushed,
        OneRound, InboxSize, NoFiles, ShowTypes, Concat, Started;
      ghost var calm := NoFiles(serve) && NoHangUps(events) && Unbroken(inbox) && !closed;
      ghost var all := received + Arriving(inbox);
      for i := 0 to |events|
        invariant Valid() && (old(closed) ==> closed)
        invariant received + Arriving(inbox) == all
        invariant old(received) <= received && old(dispatched) <= dispatched && old(wire) <= wire
        invariant forall j :: 0 <= j < i && events[j].hangUp ==> closed
        invariant calm ==> !closed && Unbroken(inbox)
        invariant calm && AllFit(ord, all, req.cache.Length) ==>
          dispatched == ParseAll(ord, all) || Reads(events[..i]) + Pauses(inbox) <= Pauses(old(inbox))
      {
        ReadsSnoc(events[..i], events[i]);
        assert events[..i] + [events[i]] == events[..i + 1];
        OnEvent(events[i]);
        FirstOfAll(Arriving(inbox));
      }
      assert events[..|events|] == events;
      Concluded();
    }

    /** The events while a file is on its way: `k` of them, and then it is out or the connection is
        closed. The file gets through whole, and the connection stays open, under the conditions of
        `SentWhole`, whatever else the events say. */
    method SendOut(events: seq<Signal>) returns (k: nat)
      requires Valid()
      modifies this, req, req.cache
      ensures Valid() && k <= |events| && (k < |events| ==> closed || !req.isSendingFile)
      ensures !old(closed) && old(req.isSendingFile) && NoHangUps(events) ==>
              GetsThrough(old(Underway()), WritableTimes(events)) ==>
                && !closed && !req.isSendingFile && dispatched == old(dispatched)
                && wire == old(wire + req.file.value[req.fileOffset..])
    {
      hide Connection.Valid, Pushed, OneRound, ParseAll, AllFit, Pauses, Unbroken, Arriving, Front,
        InboxSize, NoFiles, GetsThrough, Concat, Started, Connection.Transferring;
      ghost var t := Underway();
      ghost var good := !closed && req.isSendingFile && NoHangUps(events) && GetsThrough(t, WritableTimes(events));
      if good {
        FileWhole();
        SentWhole(t, WritableTimes(events));
      }
      k := 0;
      while k < |events| && !closed && req.isSendingFile
        invariant Valid() && k <= |events|
        invariant good ==> !closed && dispatched == old(dispatched)
        invariant good && req.isSendingFile ==>
          Rounds(Underway(), WritableTimes(events[k..])) == Rounds(t, WritableTimes(events))
      {
        assert events[k..][0] == events[k] && events[k..][1..] == events[k + 1..];
        if good {
          FileWhole();
          RoundsAhead(Underway(), events[k..]);
        }
        OnEvent(events[k]);
        k := k + 1;
      }
      if good {
        RoundsOver(Underway());
        if req.isSendingFile {
          FileWhole();
        }
        SentAreAsked();
      }
    }

    /** The bytes on the wire once the file on its way is out. */
    lemma FileWhole()
      requires Valid() && !closed && req.isSendingFile
      ensures req.fileRemaining > 0 && req.file.Some? && req.fileOffset <= |req.file.value|
      ensures wire + req.file.value[req.fileOffset..] == Concat(Started(serve, dispatched))
    {
      hide Connection.InStep, Books, Started, Concat;
      var f := req.file.value;
      ConcatSnoc(finished, f);
      assert f == f[..req.fileOffset] + f[req.fileOffset..];
      ConcatAssoc(Concat(finished), f[..req.fileOffset], f[req.fileOffset..]);
    }

    /** What a valid state says about the requests and the file bytes. */
    lemma Concluded()
      requires Valid()
      ensures dispatched <= ParseAll(ord, received)
      ensures !AskedLast() ==> dispatched == ParseAll(ord, received)
      ensures !closed && !req.isSendingFile && !waiting ==> dispatched == ParseAll(ord, received)
      ensures wire <= Concat(Started(serve, dispatched)) && ShowTypes(dispatched, types)
    {
      DispatchedAreFirst();
      SentAreAsked();
      if !AskedLast() {
        WithoutFilesAll();
      } else if !closed && !req.isSendingFile && !waiting {
        DispatchedAreAll();
      }
    }

    /** No further request will ever be dispatched: the bytes are malformed, or the buffer is full. */
    predicate Stuck()
      reads `closed, req`isSendingFile, req`state, req`tailIdx
    {
      !closed && !req.isSendingFile && (req.state == ErrorState || req.tailIdx == req.cache.Length)
    }
  }

  /** The rounds of sending to come, one event later. */
  lemma RoundsAhead(s: Transfer, events: seq<Signal>)
    requires events != [] && s.remaining > 0 && Rounds(s, WritableTimes(events)).Some?
    ensures var rest := WritableTimes(events[1..]);
            if events[0].writable then
              && OneRound(s, events[0].now).Some?
              && Rounds(OneRound(s, events[0].now).value, rest) == Rounds(s, WritableTimes(events))
            else Rounds(s, rest) == Rounds(s, WritableTimes(events))
  {
    var times := WritableTimes(events);
    if events[0].writable {
      assert times[0] == events[0].now && times[1..] == WritableTimes(events[1..]);
    } else {
      assert times == WritableTimes(events[1..]);
    }
  }

  lemma RoundsOver(s: Transfer)
    ensures WritableTimes([]) == [] && Rounds(s, []) == Some(s)
  {
  }

  lemma {:induction false} ReadsSnoc(events: seq<Signal>, e: Signal)
    ensures Reads(events + [e]) == Reads(events) + (if e.readable then 1 else 0)
  {
    if events != [] {
      assert (events + [e])[1..] == events[1..] + [e];
      ReadsSnoc(events[1..], e);
    } else {
      assert (events + [e])[1..] == [];
    }
  }

  /** A connection from its first byte, under any interleaving of events and any answers of the
      kernel. The requests dispatched are the first ones of what was received; unless the last of them
      asks for a file they are all of it; and when every request of the stream fits the buffer they
      are all of the stream, once it has been read or nothing further can be. Without files, hang-ups
      and errors it has been once the socket was readable more often than it had nothing to read. */
  method ServeStream(bufferSize: nat, ord: Order, serve: Handler, inbox: seq<Arrival>, outbox: seq<Room>,
                     events: seq<Signal>)
    returns (dispatched: seq<Request>, types: seq<string>, left: seq<Arrival>, stuck: bool, ghost received: string)
    requires bufferSize <= 0x7FFF_FFFF
    ensures received + Arriving(left) == Arriving(inbox) && dispatched <= ParseAll(ord, received)
    ensures |types| == |dispatched|
    ensures forall i, m: Message, j: nat :: 0 <= i < |types| && dispatched[i] == Meaning(m) ==>
              OnlyLine(m.lines, j, "content-type") ==> types[i] == m.lines[j].value
    ensures dispatched == [] || serve(dispatched) == None ==> dispatched == ParseAll(ord, received)
    ensures dispatched == [] || serve(dispatched) == None ==>
              AllFit(ord, Arriving(inbox), bufferSize) && (Arriving(left) == "" || stuck) ==>
                dispatched == ParseAll(ord, Arriving(inbox))
    ensures NoFiles(serve) && NoHangUps(events) && Unbroken(inbox) && Reads(events) > Pauses(inbox) ==>
              AllFit(ord, Arriving(inbox), bufferSize) ==> dispatched == ParseAll(ord, Arriving(inbox))
  {
    var c := new Connection(bufferSize, ord, serve, inbox, outbox);
    assert c.received + Arriving(inbox) == Arriving(inbox);
    c.Live(events);
    dispatched, types, left, received := c.dispatched, c.types, c.inbox, c.received;
    forall i, m: Message, j: nat |
      0 <= i < |types| && dispatched[i] == Meaning(m) && OnlyLine(m.lines, j, "content-type")
      ensures types[i] == m.lines[j].value
    {
      TypeOfMessage(m, j, types[i]);
    }
    stuck := c.Stuck();
    if !c.AskedLast() && AllFit(ord, Arriving(inbox), bufferSize) && stuck {
      c.NoneToCome(Arriving(left));
    }
    assert Arriving(left) == "" ==> received + Arriving(left) == received;
  }

  /** One call is enough for a stream that never makes the socket wait, however it is cut. */
  method ServeAtOnce(bufferSize: nat, ord: Order, serve: Handler, inbox: seq<Arrival>)
      returns (dispatched: seq<Request>)
    requires bufferSize <= 0x7FFF_FFFF && Unbroken(inbox) && Pauses(inbox) == 0
    requires AllFit(ord, Arriving(inbox), bufferSize)
    ensures (forall history :: serve(history) == None) ==> dispatched == ParseAll(ord, Arriving(inbox))
  {
    var c := new Connection(bufferSize, ord, serve, inbox, []);
    var out := c.HandleRequest();
    dispatched := c.dispatched;
    assert c.received + Arriving(c.inbox) == Arriving(inbox);
    if forall history :: serve(history) == None {
      c.NoneToCome(Arriving(c.inbox));
    }
  }
}
