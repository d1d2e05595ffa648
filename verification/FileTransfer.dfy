/** Sending a file through a socket that takes what it likes: what one writable event sends, when it
    ends the connection, and what it takes for a file to get through whole. */
module FileTransfer {
  import opened HttpText

  /** What `sendfile` manages: some bytes, nothing yet, or an error. */
  datatype Room = Takes(n: nat) | Full | Refused

  /** What one round of sending comes to: the bytes taken, the results left, and whether the socket
      is still good. */
  datatype Push = Push(sent: nat, rest: seq<Room>, good: bool)

  /** Send until the file is out, the socket is full or broken, or takes nothing. */
  function Pushed(outbox: seq<Room>, remaining: nat): (p: Push)
    ensures p.sent <= remaining
    decreases |outbox|
  {
    if remaining == 0 then Push(0, outbox, true)
    else if outbox == [] then Push(0, [], true)
    else
      match outbox[0]
      case Full => Push(0, outbox[1..], true)
      case Refused => Push(0, outbox[1..], false)
      case Takes(n) =>
        if n == 0 then Push(0, outbox[1..], false)
        else
          var m := if n < remaining then n else remaining;
          var p := Pushed(outbox[1..], remaining - m);
          p.(sent := m + p.sent)
  }

  /** Less than 5 kB/s over at least 5 s. */
  predicate TooSlow(bytes: nat, elapsed: int) {
    elapsed >= 5 && bytes < 5120 * elapsed
  }

  // ---- one round ---------------------------------------------------------------------------

  /** The bytes the results offer to take. */
  function Offered(outbox: seq<Room>): nat {
    if outbox == [] then 0 else (if outbox[0].Takes? then outbox[0].n else 0) + Offered(outbox[1..])
  }

  lemma {:induction false} OfferedCut(outbox: seq<Room>, k: nat)
    requires k <= |outbox|
    ensures Offered(outbox) == Offered(outbox[..k]) + Offered(outbox[k..])
  {
    if k > 0 {
      assert outbox[..k][1..] == outbox[1..][..k - 1] && outbox[1..][k - 1..] == outbox[k..];
      OfferedCut(outbox[1..], k - 1);
    } else {
      assert outbox[0..] == outbox;
    }
  }

  lemma OfferedFirst(outbox: seq<Room>, k: nat)
    requires 0 < k <= |outbox|
    ensures Offered(outbox[..k]) == (if outbox[0].Takes? then outbox[0].n else 0) + Offered(outbox[1..][..k - 1])
  {
    assert outbox[..k][1..] == outbox[1..][..k - 1];
  }

  predicate Flows(r: Room) {
    r.Takes? && r.n > 0
  }

  /** A round goes on for `k` results: as long as they flow and the file is not out. It sends what
      they offer, up to the end of the file, and if that is not reached the next result ends it. */
  lemma {:induction false} PushedExactly(outbox: seq<Room>, remaining: nat) returns (k: nat)
    ensures k <= |outbox| && forall i :: 0 <= i < k ==> Flows(outbox[i])
    ensures k > 0 ==> Offered(outbox[..k - 1]) < remaining
    ensures var p, offered := Pushed(outbox, remaining), Offered(outbox[..k]);
            && p.sent == (if offered < remaining then offered else remaining)
            && (p.sent == remaining ==> p.good && p.rest == outbox[k..])
            && (p.sent < remaining && k == |outbox| ==> p.good && p.rest == [])
            && (p.sent < remaining && k < |outbox| ==>
                  !Flows(outbox[k]) && p.good == outbox[k].Full? && p.rest == outbox[k + 1..])
    decreases |outbox|
  {
    if remaining == 0 || outbox == [] || !Flows(outbox[0]) {
      k := 0;
    } else {
      var m := if outbox[0].n < remaining then outbox[0].n else remaining;
      var j := PushedExactly(outbox[1..], remaining - m);
      k := j + 1;
      OfferedFirst(outbox, k);
      if j > 0 {
        OfferedFirst(outbox, j);
      }
    }
  }

  /** The k-th result is an error, or takes nothing, and comes before the file is out. */
  ghost predicate BreaksAt(outbox: seq<Room>, remaining: nat, k: nat) {
    && k < |outbox| && (outbox[k] == Refused || outbox[k] == Takes(0))
    && Offered(outbox[..k]) < remaining && forall i :: 0 <= i < k ==> Flows(outbox[i])
  }

  lemma {:induction false} OfferedGrows(outbox: seq<Room>, i: nat, j: nat)
    requires i <= j <= |outbox|
    ensures Offered(outbox[..i]) <= Offered(outbox[..j])
  {
    OfferedCut(outbox[..j], i);
    assert outbox[..j][..i] == outbox[..i];
  }

  /** A socket is given up exactly for such a result: not for being full, nor for want of results. */
  lemma BrokenExactly(outbox: seq<Room>, remaining: nat)
    ensures !Pushed(outbox, remaining).good <==> exists k: nat :: BreaksAt(outbox, remaining, k)
  {
    var k := PushedExactly(outbox, remaining);
    var p := Pushed(outbox, remaining);
    if !p.good {
      assert BreaksAt(outbox, remaining, k);
    }
    forall j: nat | BreaksAt(outbox, remaining, j) ensures !p.good {
      if k < j {
        OfferedGrows(outbox, k, j);
      }
    }
  }

  // ---- many rounds -------------------------------------------------------------------------

  /** A file on its way: the bytes left, the results to come, the time of the last check of its
      speed, and the bytes sent since. */
  datatype Transfer = Transfer(remaining: nat, outbox: seq<Room>, since: nat, bytes: nat)

  /** One writable event at time `now`; `None` if it ends the connection. */
  function OneRound(s: Transfer, now: nat): Option<Transfer> {
    var p := Pushed(s.outbox, s.remaining);
    var bytes, elapsed := s.bytes + p.sent, now - s.since;
    if !p.good || TooSlow(bytes, elapsed) then None
    else if elapsed >= 5 then Some(Transfer(s.remaining - p.sent, p.rest, now, 0))
    else Some(Transfer(s.remaining - p.sent, p.rest, s.since, bytes))
  }

  /** Writable events at the times `nows`, until the file is out. */
  function Rounds(s: Transfer, nows: seq<nat>): Option<Transfer>
    decreases |nows|
  {
    if nows == [] || s.remaining == 0 then Some(s)
    else
      match OneRound(s, nows[0])
      case None => None
      case Some(t) => Rounds(t, nows[1..])
  }

  /** At no event on the way is the client too slow. */
  ghost predicate KeepsUp(s: Transfer, nows: seq<nat>)
    decreases |nows|
  {
    nows != [] && s.remaining > 0 ==>
      && !TooSlow(s.bytes + Pushed(s.outbox, s.remaining).sent, nows[0] - s.since)
      && (OneRound(s, nows[0]).Some? ==> KeepsUp(OneRound(s, nows[0]).value, nows[1..]))
  }

  /** How often the socket is full. */
  function Fulls(outbox: seq<Room>): nat {
    if outbox == [] then 0 else (if outbox[0].Full? then 1 else 0) + Fulls(outbox[1..])
  }

  lemma {:induction false} FullsBehind(outbox: seq<Room>, k: nat)
    requires k < |outbox| && outbox[k].Full? && forall i :: 0 <= i < k ==> Flows(outbox[i])
    ensures Fulls(outbox) == 1 + Fulls(outbox[k + 1..])
  {
    if k > 0 {
      FullsBehind(outbox[1..], k - 1);
      assert outbox[1..][k..] == outbox[k + 1..];
    }
  }

  /** No result is an error, and none takes nothing. */
  ghost predicate Healthy(outbox: seq<Room>) {
    forall i :: 0 <= i < |outbox| ==> outbox[i].Full? || Flows(outbox[i])
  }

  /** One round over a healthy socket that offers enough: the file is out, or one pause is over. */
  lemma HealthyRound(s: Transfer, now: nat)
    requires Healthy(s.outbox) && Offered(s.outbox) >= s.remaining
    requires !TooSlow(s.bytes + Pushed(s.outbox, s.remaining).sent, now - s.since)
    ensures OneRound(s, now).Some?
    ensures var t := OneRound(s, now).value;
            t.remaining > 0 ==>
              Healthy(t.outbox) && Offered(t.outbox) >= t.remaining && Fulls(t.outbox) < Fulls(s.outbox)
  {
    var k := PushedExactly(s.outbox, s.remaining);
    var p := Pushed(s.outbox, s.remaining);
    OfferedCut(s.outbox, k);
    if p.sent < s.remaining {
      assert s.outbox[|s.outbox|..] == [];
      assert s.outbox[k..][1..] == s.outbox[k + 1..];
      FullsBehind(s.outbox, k);
    }
  }

  /** What it takes for a file to get through: no result is an error, they offer enough, the client
      keeps up, and the socket is writable once more often than it is full. */
  ghost predicate GetsThrough(s: Transfer, nows: seq<nat>) {
    Healthy(s.outbox) && Offered(s.outbox) >= s.remaining && KeepsUp(s, nows) && |nows| > Fulls(s.outbox)
  }

  /** Then it does, whole, however often the socket is full in between. */
  lemma {:induction false} SentWhole(s: Transfer, nows: seq<nat>)
    requires GetsThrough(s, nows)
    ensures Rounds(s, nows).Some? && Rounds(s, nows).value.remaining == 0
    decreases |nows|
  {
    if s.remaining > 0 {
      HealthyRound(s, nows[0]);
      var t := OneRound(s, nows[0]).value;
      if t.remaining > 0 {
        SentWhole(t, nows[1..]);
      }
    }
  }
}
