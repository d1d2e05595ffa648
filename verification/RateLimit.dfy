/** The fixed-window rate limiter of a worker, over whole traces of requests. */
module RateLimit {
  import opened HttpText

  /** The requests counted in the window and the second in which it started. */
  datatype Window = Window(count: int, start: int)

  type Table = map<string, Window>

  /** A counter that does not exist yet is zero, and so is its window. */
  function WindowOf(table: Table, ip: string): Window {
    if ip in table then table[ip] else Window(0, 0)
  }

  /** One request at `now`: a new window lets it through, an old one as long as there is room. */
  function AfterHit(w: Window, now: int): Window {
    if now - w.start >= 1 then Window(1, now) else w.(count := w.count + 1)
  }

  predicate LetsThrough(w: Window, now: int, limit: int) {
    now - w.start >= 1 || w.count + 1 <= limit
  }

  datatype Hit = Hit(ip: string, now: int)

  function TableAfter(hits: seq<Hit>): Table {
    if hits == [] then map[]
    else
      var before, h := TableAfter(hits[..|hits| - 1]), hits[|hits| - 1];
      before[h.ip := AfterHit(WindowOf(before, h.ip), h.now)]
  }

  /** Whether the i-th request is let through. */
  predicate Admitted(hits: seq<Hit>, limit: int, i: nat)
    requires i < |hits|
  {
    LetsThrough(WindowOf(TableAfter(hits[..i]), hits[i].ip), hits[i].now, limit)
  }

  class Limiter {
    var limits: Table
    const limit: int

    constructor (limit: int)
      ensures limits == map[] && this.limit == limit
    {
      limits, this.limit := map[], limit;
    }

    method Check(ip: string, now: int) returns (ok: bool)
      modifies this
      ensures limits == old(limits)[ip := AfterHit(WindowOf(old(limits), ip), now)]
      ensures ok == LetsThrough(WindowOf(old(limits), ip), now, limit)
    {
      if ip !in limits {
        limits := limits[ip := Window(0, 0)];
      }
      if now - limits[ip].start >= 1 {
        limits := limits[ip := limits[ip].(count := 1)];
        limits := limits[ip := limits[ip].(start := now)];
      } else {
        limits := limits[ip := limits[ip].(count := limits[ip].count + 1)];
        if limits[ip].count > limit {
          return false;
        }
      }
      return true;
    }

    /** A trace of requests. */
    method Serve(hits: seq<Hit>) returns (answers: seq<bool>)
      requires limits == map[]
      modifies this
      ensures limits == TableAfter(hits) && |answers| == |hits|
      ensures forall i :: 0 <= i < |hits| ==> answers[i] == Admitted(hits, limit, i)
    {
      answers := [];
      for i := 0 to |hits|
        invariant limits == TableAfter(hits[..i]) && |answers| == i
        invariant forall j :: 0 <= j < i ==> answers[j] == Admitted(hits, limit, j)
      {
        assert hits[..i + 1][..i] == hits[..i];
        var ok := Check(hits[i].ip, hits[i].now);
        answers := answers + [ok];
      }
      assert hits[..|hits|] == hits;
    }
  }

  // ---- what that amounts to ----------------------------------------------------------------------

  function Asked(hits: seq<Hit>, ip: string, now: int): nat {
    if hits == [] then 0
    else Asked(hits[..|hits| - 1], ip, now) + (if hits[|hits| - 1] == Hit(ip, now) then 1 else 0)
  }

  /** How many of the first `n` requests come from `ip` in second `now` and are let through. */
  function Passed(hits: seq<Hit>, limit: int, ip: string, now: int, n: nat): nat
    requires n <= |hits|
  {
    if n == 0 then 0
    else
      var last := if hits[n - 1] == Hit(ip, now) && Admitted(hits, limit, n - 1) then 1 else 0;
      Passed(hits, limit, ip, now, n - 1) + last
  }

  /** The clock reads at least 1 and does not run backwards. */
  ghost predicate Clocked(hits: seq<Hit>) {
    && (forall i :: 0 <= i < |hits| ==> hits[i].now >= 1)
    && forall i, j :: 0 <= i < j < |hits| ==> hits[i].now <= hits[j].now
  }

  function Max(a: int, b: int): int { if a < b then b else a }

  function Least(a: nat, b: int): int { if a <= b then a else b }

  lemma {:induction false} NoneAsked(hits: seq<Hit>, ip: string, now: int)
    requires forall i :: 0 <= i < |hits| ==> hits[i] != Hit(ip, now)
    ensures Asked(hits, ip, now) == 0
  {
    if hits != [] {
      NoneAsked(hits[..|hits| - 1], ip, now);
    }
  }

  /** The window of an address counts its requests in the second of the last one. */
  lemma {:induction false} WindowCounts(hits: seq<Hit>, ip: string)
    requires Clocked(hits)
    ensures var w := WindowOf(TableAfter(hits), ip);
            if ip in TableAfter(hits)
            then w.count == Asked(hits, ip, w.start) > 0 && w.start >= 1
            else w == Window(0, 0)
    ensures forall i :: 0 <= i < |hits| && hits[i].ip == ip ==> hits[i].now <= WindowOf(TableAfter(hits), ip).start
    ensures hits != [] ==> WindowOf(TableAfter(hits), ip).start <= hits[|hits| - 1].now
  {
    if hits != [] {
      var before, h := hits[..|hits| - 1], hits[|hits| - 1];
      WindowCounts(before, ip);
      var w := WindowOf(TableAfter(before), ip);
      if h.ip == ip && h.now - w.start >= 1 {
        NoneAsked(before, ip, h.now);
      }
    }
  }

  /** A request is let through exactly when it is the first of its address in its second, or fewer
      than the limit came before it. */
  lemma AdmittedExactly(hits: seq<Hit>, limit: int, i: nat)
    requires Clocked(hits) && i < |hits|
    ensures Admitted(hits, limit, i) <==> Asked(hits[..i], hits[i].ip, hits[i].now) < Max(limit, 1)
  {
    var before, h := hits[..i], hits[i];
    WindowCounts(before, h.ip);
    var w := WindowOf(TableAfter(before), h.ip);
    if h.now - w.start >= 1 {
      NoneAsked(before, h.ip, h.now);
    } else {
      assert i > 0 ==> before[i - 1].now <= h.now;
      assert w.start == h.now;
    }
  }

  /** An address that asks n times in a second is let through min(n, max(limit, 1)) times. */
  lemma {:induction false} PassedExactly(hits: seq<Hit>, limit: int, ip: string, now: int, n: nat)
    requires Clocked(hits) && n <= |hits|
    ensures Passed(hits, limit, ip, now, n) == Least(Asked(hits[..n], ip, now), Max(limit, 1))
  {
    if n > 0 {
      PassedExactly(hits, limit, ip, now, n - 1);
      assert hits[..n][..n - 1] == hits[..n - 1];
      AdmittedExactly(hits, limit, n - 1);
    }
  }

  /** Over `k` seconds in a row. */
  function PassedDuring(hits: seq<Hit>, limit: int, ip: string, from: int, k: nat): nat {
    if k == 0 then 0 else PassedDuring(hits, limit, ip, from, k - 1) + Passed(hits, limit, ip, from + k - 1, |hits|)
  }

  /** No more than the limit for every second. */
  lemma {:induction false} PassedBounded(hits: seq<Hit>, limit: int, ip: string, from: int, k: nat)
    requires Clocked(hits) && limit >= 1
    ensures PassedDuring(hits, limit, ip, from, k) <= k * limit
  {
    if k > 0 {
      PassedBounded(hits, limit, ip, from, k - 1);
      PassedExactly(hits, limit, ip, from + k - 1, |hits|);
      assert k * limit == (k - 1) * limit + limit;
    }
  }
}
