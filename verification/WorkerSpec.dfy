/** A worker's clients on values: the connection table as a sequence, the per-address counters,
    and every event that touches them. */
module WorkerSpec {
  import opened LruLinks
  import opened LruCache

  /** A client's value in the table is its address; "" marks a slot not yet filled in. */
  type Client = Entry<string>

  datatype Clients = Clients(live: seq<Client>, counts: map<string, int>)

  function CountOf(counts: map<string, int>, ip: string): int {
    if ip in counts then counts[ip] else 0
  }

  /** How many live clients have the address `ip`. */
  function Number(live: seq<Client>, ip: string): nat {
    if live == [] then 0 else (if live[0].value == ip then 1 else 0) + Number(live[1..], ip)
  }

  /** `CloseConnection`: the client's address loses one, its counter is erased at zero, and the
      client leaves the table. A descriptor that is not in the table changes nothing. */
  function Close(w: Clients, fd: int): Clients {
    var k := Find(w.live, fd);
    if k == |w.live| then w
    else
      var ip := w.live[k].value;
      Clients(Drop(w.live, k), if ip == "" then w.counts else Decreased(w.counts, ip))
  }

  function Decreased(counts: map<string, int>, ip: string): map<string, int> {
    var n := CountOf(counts, ip) - 1;
    if n <= 0 then counts - {ip} else counts[ip := n]
  }

  /** The key at the tail; -1 for an empty table. */
  function Oldest(live: seq<Client>): int {
    if live == [] then -1 else live[|live| - 1].key
  }

  /** The counter of `ip` raised by `n`; reading a counter creates it. */
  function Raised(w: Clients, ip: string, n: int): Clients {
    w.(counts := w.counts[ip := CountOf(w.counts, ip) + n])
  }

  /** The oldest client dropped if the table is full. */
  function MakeRoom(w: Clients, capacity: nat): Clients {
    if |w.live| == capacity && Oldest(w.live) != -1 then Close(w, Oldest(w.live)) else w
  }

  /** One accepted descriptor: rejected at the limit; otherwise counted, room made for it, and
      registered unless `epoll_ctl` fails. */
  function Accept(w: Clients, capacity: nat, limit: int, fd: int, ip: string, now: int, registered: bool): Clients {
    if CountOf(w.counts, ip) >= limit then Raised(w, ip, 0)
    else
      var roomy := MakeRoom(Raised(w, ip, 1), capacity);
      if !registered then Raised(roomy, ip, -1)
      else Clients(Named(Inserting(roomy.live, capacity, fd, now, ""), fd, ip), roomy.counts)
  }

  /** The address written through the pointer to `fd`'s value. */
  function Named(live: seq<Client>, fd: int, ip: string): seq<Client> {
    var k := Find(live, fd);
    if k < |live| then live[k := live[k].(value := ip)] else live
  }

  /** Drop clients from the tail while they have been silent for more than `timeout` seconds. */
  function Sweep(w: Clients, now: int, timeout: int): Clients
    decreases |w.live|
  {
    var fd := Oldest(w.live);
    var k := Find(w.live, fd);
    if fd != -1 && k < |w.live| && now - w.live[k].lastActive > timeout
    then Sweep(Close(w, fd), now, timeout) else w
  }

  datatype Event =
    | Accepted(limit: int, fd: int, ip: string, now: int, registered: bool)
    | Closed(fd: int)
    | Seen(fd: int, now: int)
    | Served(fd: int, now: int)
    | Swept(now: int, timeout: int)

  function Step(w: Clients, capacity: nat, e: Event): Clients {
    match e
    case Accepted(limit, fd, ip, now, registered) => Accept(w, capacity, limit, fd, ip, now, registered)
    case Closed(fd) => Close(w, fd)
    case Seen(fd, now) => w.(live := Refreshed(w.live, fd, now))
    case Served(fd, now) => w.(live := Recent(w.live, fd, now))
    case Swept(now, timeout) => Sweep(w, now, timeout)
  }

  function Run(w: Clients, capacity: nat, es: seq<Event>): Clients
    decreases |es|
  {
    if es == [] then w else Run(Step(w, capacity, es[0]), capacity, es[1..])
  }

  lemma {:induction false} RunAppend(w: Clients, capacity: nat, es: seq<Event>, fs: seq<Event>)
    ensures Run(w, capacity, es + fs) == Run(Run(w, capacity, es), capacity, fs)
    decreases |es|
  {
    if es == [] {
      assert es + fs == fs;
    } else {
      assert (es + fs)[1..] == es[1..] + fs;
      RunAppend(Step(w, capacity, es[0]), capacity, es[1..], fs);
    }
  }

  const NOBODY: Clients := Clients([], map[])

  /** What the kernel promises of an accepted connection: an address, and a descriptor, not
      negative, that no open connection has. */
  ghost predicate Possible(w: Clients, e: Event) {
    e.Accepted? ==> e.ip != "" && e.fd >= 0 && Find(w.live, e.fd) == |w.live|
  }

  ghost predicate PossibleRun(w: Clients, capacity: nat, es: seq<Event>)
    decreases |es|
  {
    es != [] ==> Possible(w, es[0]) && PossibleRun(Step(w, capacity, es[0]), capacity, es[1..])
  }

  // ---- the counters ------------------------------------------------------------------------

  ghost predicate DistinctKeys(live: seq<Client>) {
    forall i, j :: 0 <= i < j < |live| ==> live[i].key != live[j].key
  }

  ghost predicate WellNamed(live: seq<Client>) {
    DistinctKeys(live) && forall i :: 0 <= i < |live| ==> live[i].value != "" && live[i].key >= 0
  }

  /** Each address is counted as often as it is connected, but for `bonus` more of `extra`. */
  ghost predicate Counted(w: Clients, extra: string, bonus: nat) {
    forall ip :: CountOf(w.counts, ip) == Number(w.live, ip) + (if ip == extra then bonus else 0)
  }

  ghost predicate Consistent(w: Clients) {
    WellNamed(w.live) && forall ip :: CountOf(w.counts, ip) == Number(w.live, ip)
  }

  lemma {:induction false} NumberDrop(live: seq<Client>, k: nat, ip: string)
    requires k < |live|
    ensures Number(live, ip) == Number(Drop(live, k), ip) + (if live[k].value == ip then 1 else 0)
  {
    if k == 0 {
      assert Drop(live, 0) == live[1..];
    } else {
      NumberDrop(live[1..], k - 1, ip);
      assert Drop(live, k)[1..] == Drop(live[1..], k - 1);
    }
  }

  lemma {:induction false} NumberSame(a: seq<Client>, b: seq<Client>, ip: string)
    requires |a| == |b| && forall i :: 0 <= i < |a| ==> a[i].value == b[i].value
    ensures Number(a, ip) == Number(b, ip)
  {
    if a != [] {
      NumberSame(a[1..], b[1..], ip);
    }
  }

  lemma DropKeepsNames(live: seq<Client>, k: nat)
    requires WellNamed(live) && k < |live|
    ensures WellNamed(Drop(live, k))
    ensures Find(Drop(live, k), live[k].key) == |live| - 1
  {
    var r := Drop(live, k);
    forall i | 0 <= i < |r| ensures r[i].key != live[k].key {
      assert r[i] == live[if i < k then i else i + 1];
    }
  }

  /** Closing keeps the counters right, even while an address is counted ahead of its entry. */
  lemma CloseCounts(w: Clients, fd: int, extra: string, bonus: nat)
    requires WellNamed(w.live) && Counted(w, extra, bonus)
    ensures WellNamed(Close(w, fd).live) && Counted(Close(w, fd), extra, bonus)
  {
    var k := Find(w.live, fd);
    if k < |w.live| {
      DropKeepsNames(w.live, k);
      forall ip ensures CountOf(Close(w, fd).counts, ip) ==
          Number(Drop(w.live, k), ip) + (if ip == extra then bonus else 0) {
        NumberDrop(w.live, k, ip);
        NumberDrop(w.live, k, w.live[k].value);
      }
    }
  }

  lemma CloseConsistent(w: Clients, fd: int)
    requires Consistent(w)
    ensures Consistent(Close(w, fd))
  {
    CloseCounts(w, fd, "", 0);
    assert Counted(Close(w, fd), "", 0);
  }

  // ---- the idle sweep ----------------------------------------------------------------------

  ghost predicate Expired(c: Client, now: int, timeout: int) {
    now - c.lastActive > timeout
  }

  lemma OldestStandsLast(live: seq<Client>)
    requires WellNamed(live) && live != []
    ensures Oldest(live) != -1 && Find(live, Oldest(live)) == |live| - 1
    ensures Drop(live, |live| - 1) == live[..|live| - 1]
  {
  }

  /** One turn of the sweep. */
  lemma SweepTurn(w: Clients, now: int, timeout: int)
    requires Consistent(w) && w.live != []
    ensures Sweep(w, now, timeout) ==
            if Expired(w.live[|w.live| - 1], now, timeout) then Sweep(Close(w, Oldest(w.live)), now, timeout) else w
    ensures Close(w, Oldest(w.live)).live == w.live[..|w.live| - 1] && Consistent(Close(w, Oldest(w.live)))
  {
    OldestStandsLast(w.live);
    CloseConsistent(w, Oldest(w.live));
    hide Consistent, Decreased, Drop, Find, Oldest;
  }

  lemma NothingToSweep(w: Clients, now: int, timeout: int)
    requires w.live == []
    ensures Sweep(w, now, timeout) == w
  {
  }

  /** `after` is `before` without the longest run of expired clients at its tail. */
  ghost predicate TailClosed(before: seq<Client>, after: seq<Client>, now: int, timeout: int) {
    && after <= before
    && (forall i :: |after| <= i < |before| ==> Expired(before[i], now, timeout))
    && (after != [] ==> !Expired(after[|after| - 1], now, timeout))
  }

  /** What the sweep closes: exactly the longest run of expired clients at the tail. No client
      within the timeout is ever closed. */
  lemma {:induction false} SweepIsPrefix(w: Clients, now: int, timeout: int)
    requires Consistent(w)
    ensures TailClosed(w.live, Sweep(w, now, timeout).live, now, timeout)
    decreases |w.live|
  {
    hide Sweep, Close, Consistent, Oldest;
    if w.live == [] {
      NothingToSweep(w, now, timeout);
    } else {
      SweepTurn(w, now, timeout);
      if Expired(w.live[|w.live| - 1], now, timeout) {
        SweepIsPrefix(Close(w, Oldest(w.live)), now, timeout);
      }
    }
  }

  /** The sweep leaves no expired client behind exactly when the expired ones stand together at
      the tail, which the order of the list does not guarantee. */
  lemma SweepCompleteExactly(w: Clients, now: int, timeout: int)
    requires Consistent(w)
    ensures var v := Sweep(w, now, timeout).live;
            (forall i :: 0 <= i < |v| ==> !Expired(v[i], now, timeout)) <==>
            (forall i, j :: 0 <= i < j < |w.live| && Expired(w.live[i], now, timeout) ==>
                Expired(w.live[j], now, timeout))
  {
    var v := Sweep(w, now, timeout).live;
    SweepIsPrefix(w, now, timeout);
    if i :| 0 <= i < |v| && Expired(v[i], now, timeout) {
      assert Expired(w.live[i], now, timeout) && !Expired(w.live[|v| - 1], now, timeout);
    }
  }

  /** Times never increase from the head to the tail. */
  ghost predicate ByTime(live: seq<Client>) {
    forall i, j :: 0 <= i < j < |live| ==> live[i].lastActive >= live[j].lastActive
  }

  lemma ByTimeSweepsAll(w: Clients, now: int, timeout: int)
    requires Consistent(w) && ByTime(w.live)
    ensures var v := Sweep(w, now, timeout).live;
            forall i :: 0 <= i < |v| ==> !Expired(v[i], now, timeout)
  {
    SweepCompleteExactly(w, now, timeout);
  }

  ghost predicate NotAfter(live: seq<Client>, now: int) {
    forall i :: 0 <= i < |live| ==> live[i].lastActive <= now
  }

  /** Moving to the front, inserting and removing keep the list by time under a clock that does
      not run backwards. */
  lemma MoveKeepsTime(live: seq<Client>, fd: int, now: int)
    requires ByTime(live) && NotAfter(live, now)
    ensures ByTime(Recent(live, fd, now))
  {
    var k := Find(live, fd);
    if k < |live| {
      DropKeepsTime(live, k);
      FrontKeepsTime(Drop(live, k), live[k].(lastActive := now));
    }
  }

  lemma InsertKeepsTime(live: seq<Client>, capacity: nat, fd: int, now: int)
    requires ByTime(live) && NotAfter(live, now)
    ensures ByTime(Inserting(live, capacity, fd, now, "")) && NotAfter(Inserting(live, capacity, fd, now, ""), now)
  {
    if Find(live, fd) < |live| {
      MoveKeepsTime(live, fd, now);
    } else {
      FrontKeepsTime(if |live| < capacity || live == [] then live else live[..|live| - 1], Entry(fd, now, ""));
    }
  }

  lemma RemoveKeepsTime(live: seq<Client>, fd: int)
    requires ByTime(live)
    ensures ByTime(Without(live, fd))
  {
    var k := Find(live, fd);
    if k < |live| {
      DropKeepsTime(live, k);
    }
  }

  lemma DropKeepsTime(live: seq<Client>, k: nat)
    requires ByTime(live) && k < |live|
    ensures ByTime(Drop(live, k))
    ensures forall now :: NotAfter(live, now) ==> NotAfter(Drop(live, k), now)
  {
  }

  lemma FrontKeepsTime(live: seq<Client>, c: Client)
    requires ByTime(live) && NotAfter(live, c.lastActive)
    ensures ByTime([c] + live)
  {
  }

  /** Refreshing in place keeps it exactly when every client ahead was seen just now; for the
      head that is always so. */
  lemma RefreshKeepsTimeExactly(live: seq<Client>, fd: int, now: int)
    requires ByTime(live) && NotAfter(live, now)
    ensures ByTime(Refreshed(live, fd, now)) <==>
            Find(live, fd) == |live| || forall i :: 0 <= i < Find(live, fd) ==> live[i].lastActive == now
  {
    var k := Find(live, fd);
    var r := Refreshed(live, fd, now);
    if k < |live| && ByTime(r) {
      forall i | 0 <= i < k ensures live[i].lastActive == now {
        assert r[i].lastActive >= r[k].lastActive;
      }
    }
  }

  /** The clock after an event. The sweep goes by a reading taken before the events of its turn. */
  function Clock(e: Event, clock: int): int {
    match e
    case Accepted(_, _, _, now, _) => now
    case Seen(_, now) => now
    case Served(_, now) => now
    case Closed(_) => clock
    case Swept(_, _) => clock
  }

  /** A refresh in place finds every client ahead just seen; for the head that is always so. */
  ghost predicate Gentle(w: Clients, e: Event) {
    e.Seen? && Find(w.live, e.fd) < |w.live| ==>
      forall i :: 0 <= i < Find(w.live, e.fd) ==> w.live[i].lastActive == e.now
  }

  /** The clock never runs backwards, and every refresh in place is gentle. */
  ghost predicate GentleRun(w: Clients, capacity: nat, es: seq<Event>, clock: int)
    decreases |es|
  {
    es != [] ==>
      && clock <= Clock(es[0], clock) && Gentle(w, es[0])
      && GentleRun(Step(w, capacity, es[0]), capacity, es[1..], Clock(es[0], clock))
  }

  ghost predicate InTime(w: Clients, clock: int) {
    ByTime(w.live) && NotAfter(w.live, clock)
  }

  lemma CloseInTime(w: Clients, fd: int, clock: int)
    requires InTime(w, clock)
    ensures InTime(Close(w, fd), clock)
  {
    if Find(w.live, fd) < |w.live| {
      DropKeepsTime(w.live, Find(w.live, fd));
    }
  }

  lemma SweepInTime(w: Clients, now: int, timeout: int, clock: int)
    requires InTime(w, clock)
    ensures InTime(Sweep(w, now, timeout), clock)
    decreases |w.live|
  {
    var fd := Oldest(w.live);
    var k := Find(w.live, fd);
    if fd != -1 && k < |w.live| && now - w.live[k].lastActive > timeout {
      CloseInTime(w, fd, clock);
      SweepInTime(Close(w, fd), now, timeout, clock);
    }
  }

  lemma RoomInTime(w: Clients, capacity: nat, clock: int)
    requires InTime(w, clock)
    ensures InTime(MakeRoom(w, capacity), clock)
  {
    CloseInTime(w, Oldest(w.live), clock);
  }

  lemma JoinsInTime(live: seq<Client>, capacity: nat, fd: int, ip: string, now: int)
    requires ByTime(live) && NotAfter(live, now)
    ensures var r := Named(Inserting(live, capacity, fd, now, ""), fd, ip); ByTime(r) && NotAfter(r, now)
  {
    InsertKeepsTime(live, capacity, fd, now);
    hide Inserting, Find;
  }

  lemma AcceptInTime(w: Clients, capacity: nat, e: Event, clock: int)
    requires InTime(w, clock) && e.Accepted? && clock <= e.now
    ensures InTime(Accept(w, capacity, e.limit, e.fd, e.ip, e.now, e.registered), e.now)
  {
    hide MakeRoom, Inserting, Named;
    var counted := Raised(w, e.ip, 1);
    RoomInTime(counted, capacity, e.now);
    JoinsInTime(MakeRoom(counted, capacity).live, capacity, e.fd, e.ip, e.now);
  }

  lemma StepInTime(w: Clients, capacity: nat, e: Event, clock: int)
    requires InTime(w, clock) && clock <= Clock(e, clock) && Gentle(w, e)
    ensures InTime(Step(w, capacity, e), Clock(e, clock))
  {
    match e
    case Accepted(_, _, _, _, _) => AcceptInTime(w, capacity, e, clock);
    case Closed(fd) => CloseInTime(w, fd, clock);
    case Seen(fd, now) => RefreshKeepsTimeExactly(w.live, fd, now);
    case Served(fd, now) => MoveKeepsTime(w.live, fd, now);
    case Swept(now, timeout) => SweepInTime(w, now, timeout, clock);
  }

  // ---- all runs ------------------------------------------------------------------------------

  lemma SweepConsistent(w: Clients, now: int, timeout: int)
    requires Consistent(w)
    ensures Consistent(Sweep(w, now, timeout))
    decreases |w.live|
  {
    var fd := Oldest(w.live);
    var k := Find(w.live, fd);
    if fd != -1 && k < |w.live| && now - w.live[k].lastActive > timeout {
      CloseConsistent(w, fd);
      SweepConsistent(Close(w, fd), now, timeout);
    }
  }

  lemma SeenConsistent(w: Clients, fd: int, now: int)
    requires Consistent(w)
    ensures Consistent(w.(live := Refreshed(w.live, fd, now)))
  {
    forall ip ensures Number(Refreshed(w.live, fd, now), ip) == Number(w.live, ip) {
      NumberSame(Refreshed(w.live, fd, now), w.live, ip);
    }
  }

  lemma ServedConsistent(w: Clients, fd: int, now: int)
    requires Consistent(w)
    ensures Consistent(w.(live := Recent(w.live, fd, now)))
  {
    var k := Find(w.live, fd);
    if k < |w.live| {
      var r := Recent(w.live, fd, now);
      DropKeepsNames(w.live, k);
      assert r[1..] == Drop(w.live, k);
      assert DistinctKeys(r) by {
        forall i, j | 0 <= i < j < |r| ensures r[i].key != r[j].key {
          if i == 0 { assert r[j] == Drop(w.live, k)[j - 1]; }
        }
      }
      forall ip ensures Number(r, ip) == Number(w.live, ip) {
        NumberDrop(w.live, k, ip);
      }
    }
  }

  /** A new client at the front of a table with room. */
  lemma Joins(live: seq<Client>, capacity: nat, fd: int, ip: string, now: int)
    requires WellNamed(live) && |live| < capacity && Find(live, fd) == |live| && fd >= 0 && ip != ""
    ensures var r := Named(Inserting(live, capacity, fd, now, ""), fd, ip);
            r == [Entry(fd, now, ip)] + live && WellNamed(r)
  {
    var a := [Entry(fd, now, "")] + live;
    assert Inserting(live, capacity, fd, now, "") == a;
    assert Find(a, fd) == 0;
  }

  /** Room is made before a client is put in the table: `Put` itself never evicts here. */
  lemma RoomIsMade(w: Clients, capacity: nat, fd: int, ip: string)
    requires Consistent(w) && |w.live| <= capacity && capacity > 0 && ip != "" && Find(w.live, fd) == |w.live|
    ensures var roomy := MakeRoom(Raised(w, ip, 1), capacity);
            && |roomy.live| < capacity && WellNamed(roomy.live) && Counted(roomy, ip, 1)
            && Find(roomy.live, fd) == |roomy.live|
  {
    var counted := Raised(w, ip, 1);
    assert Counted(counted, ip, 1);
    if |w.live| == capacity {
      CloseCounts(counted, Oldest(w.live), ip, 1);
      var k := Find(w.live, Oldest(w.live));
      assert k < |w.live|;
      var r := Drop(w.live, k);
      var f := Find(r, fd);
      if f < |r| {
        assert r[f] == w.live[if f < k then f else f + 1];
      }
    }
  }

  lemma GivenBack(w: Clients, ip: string)
    requires WellNamed(w.live) && Counted(w, ip, 1)
    ensures Consistent(Raised(w, ip, -1))
  {
  }

  lemma JoinedCounts(w: Clients, c: Client)
    requires WellNamed(w.live) && Counted(w, c.value, 1) && WellNamed([c] + w.live)
    ensures Consistent(Clients([c] + w.live, w.counts))
  {
    forall ip ensures CountOf(w.counts, ip) == Number([c] + w.live, ip) {
      assert ([c] + w.live)[1..] == w.live;
    }
  }

  lemma AcceptConsistent(w: Clients, capacity: nat, e: Event)
    requires Consistent(w) && |w.live| <= capacity && capacity > 0 && e.Accepted? && Possible(w, e)
    ensures var v := Accept(w, capacity, e.limit, e.fd, e.ip, e.now, e.registered);
            Consistent(v) && |v.live| <= capacity
  {
    if CountOf(w.counts, e.ip) < e.limit {
      RoomIsMade(w, capacity, e.fd, e.ip);
      var roomy := MakeRoom(Raised(w, e.ip, 1), capacity);
      if e.registered {
        Joins(roomy.live, capacity, e.fd, e.ip, e.now);
        JoinedCounts(roomy, Entry(e.fd, e.now, e.ip));
      } else {
        GivenBack(roomy, e.ip);
      }
    }
  }

  /** Whom one accepted descriptor brings in and whom it throws out: nobody either way at the limit;
      else the oldest client goes from a full table, even when registering fails, and the new one
      stands first if it succeeds. */
  lemma AcceptExactly(w: Clients, capacity: nat, e: Event)
    requires Consistent(w) && |w.live| <= capacity && capacity > 0 && e.Accepted? && Possible(w, e)
    ensures var v := Step(w, capacity, e).live;
            var kept := if |w.live| < capacity then w.live else w.live[..|w.live| - 1];
            v == if Number(w.live, e.ip) >= e.limit then w.live
                 else if e.registered then [Entry(e.fd, e.now, e.ip)] + kept else kept
  {
    if Number(w.live, e.ip) < e.limit {
      RoomIsMade(w, capacity, e.fd, e.ip);
      if |w.live| == capacity {
        OldestStandsLast(w.live);
      }
      if e.registered {
        Joins(MakeRoom(Raised(w, e.ip, 1), capacity).live, capacity, e.fd, e.ip, e.now);
      }
    }
  }

  /** In every state a worker can reach, through accepts, rejections, evictions, failed
      registrations, closes of any descriptor at any time and sweeps, each address is counted as
      often as it has live entries, and the table never overflows. */
  lemma {:induction false} CountsAreRight(w: Clients, capacity: nat, es: seq<Event>)
    requires Consistent(w) && |w.live| <= capacity && capacity > 0 && PossibleRun(w, capacity, es)
    ensures var v := Run(w, capacity, es); Consistent(v) && |v.live| <= capacity
    decreases |es|
  {
    if es != [] {
      StepConsistent(w, capacity, es[0]);
      CountsAreRight(Step(w, capacity, es[0]), capacity, es[1..]);
    }
  }

  /** What is possible in two parts is possible in one, and conversely. */
  lemma {:induction false} PossibleAppend(w: Clients, capacity: nat, es: seq<Event>, fs: seq<Event>)
    ensures PossibleRun(w, capacity, es + fs) <==>
            PossibleRun(w, capacity, es) && PossibleRun(Run(w, capacity, es), capacity, fs)
    decreases |es|
  {
    hide Step, Possible;
    if es == [] {
      assert es + fs == fs;
    } else {
      assert (es + fs)[1..] == es[1..] + fs;
      PossibleAppend(Step(w, capacity, es[0]), capacity, es[1..], fs);
    }
  }

  lemma StepConsistent(w: Clients, capacity: nat, e: Event)
    requires Consistent(w) && |w.live| <= capacity && capacity > 0 && Possible(w, e)
    ensures var v := Step(w, capacity, e); Consistent(v) && |v.live| <= capacity
  {
    match e
    case Accepted(_, _, _, _, _) => AcceptConsistent(w, capacity, e);
    case Closed(fd) => CloseConsistent(w, fd);
    case Seen(fd, now) => SeenConsistent(w, fd, now);
    case Served(fd, now) => ServedConsistent(w, fd, now);
    case Swept(now, timeout) =>
      SweepConsistent(w, now, timeout);
      SweepIsPrefix(w, now, timeout);
  }

  /** In every run under a clock that does not run backwards, whose refreshes in place are gentle,
      every sweep closes every client that has been silent for too long. */
  lemma {:induction false} EverySweepIsComplete(w: Clients, capacity: nat, es: seq<Event>, clock: int, i: nat)
    requires Consistent(w) && |w.live| <= capacity && capacity > 0 && PossibleRun(w, capacity, es)
    requires InTime(w, clock) && GentleRun(w, capacity, es, clock)
    requires i < |es| && es[i].Swept?
    ensures var v := Run(w, capacity, es[..i + 1]).live;
            forall j :: 0 <= j < |v| ==> !Expired(v[j], es[i].now, es[i].timeout)
    decreases i
  {
    var v := Step(w, capacity, es[0]);
    assert es[..i + 1][0] == es[0] && es[..i + 1][1..] == es[1..][..i];
    assert Run(w, capacity, es[..i + 1]) == Run(v, capacity, es[1..][..i]);
    if i == 0 {
      assert Run(v, capacity, es[1..][..0]) == v == Sweep(w, es[0].now, es[0].timeout);
      ByTimeSweepsAll(w, es[0].now, es[0].timeout);
    } else {
      StepConsistent(w, capacity, es[0]);
      StepInTime(w, capacity, es[0], clock);
      assert es[1..][i - 1] == es[i];
      EverySweepIsComplete(v, capacity, es[1..], Clock(es[0], clock), i - 1);
      assert Run(v, capacity, es[1..][..i]) == Run(v, capacity, es[1..][..i - 1 + 1]);
    }
  }

  // ---- the limit -----------------------------------------------------------------------------

  ghost predicate Within(live: seq<Client>, limit: int) {
    forall ip :: Number(live, ip) <= limit || Number(live, ip) == 0
  }

  lemma {:induction false} NumberPrefix(a: seq<Client>, b: seq<Client>, ip: string)
    requires a <= b
    ensures Number(a, ip) <= Number(b, ip)
  {
    if a != [] {
      NumberPrefix(a[1..], b[1..], ip);
    }
  }

  lemma CloseLowers(w: Clients, fd: int, ip: string)
    ensures Number(Close(w, fd).live, ip) <= Number(w.live, ip)
  {
    var k := Find(w.live, fd);
    if k < |w.live| {
      NumberDrop(w.live, k, ip);
    }
  }

  lemma AcceptWithin(w: Clients, capacity: nat, e: Event)
    requires Consistent(w) && |w.live| <= capacity && capacity > 0 && e.Accepted? && Possible(w, e)
    requires Within(w.live, e.limit)
    ensures Within(Accept(w, capacity, e.limit, e.fd, e.ip, e.now, e.registered).live, e.limit)
  {
    if CountOf(w.counts, e.ip) < e.limit {
      RoomIsMade(w, capacity, e.fd, e.ip);
      var counted := Raised(w, e.ip, 1);
      var roomy := MakeRoom(counted, capacity);
      forall ip ensures Number(roomy.live, ip) <= Number(w.live, ip) {
        CloseLowers(counted, Oldest(w.live), ip);
      }
      if e.registered {
        Joins(roomy.live, capacity, e.fd, e.ip, e.now);
      }
    }
  }

  /** Under a fixed limit no address ever has more live clients than the limit. */
  lemma {:induction false} LimitHolds(w: Clients, capacity: nat, es: seq<Event>, limit: int)
    requires Consistent(w) && |w.live| <= capacity && capacity > 0 && PossibleRun(w, capacity, es)
    requires forall i :: 0 <= i < |es| && es[i].Accepted? ==> es[i].limit == limit
    requires Within(w.live, limit)
    ensures Within(Run(w, capacity, es).live, limit)
    decreases |es|
  {
    if es != [] {
      StepConsistent(w, capacity, es[0]);
      StepWithin(w, capacity, es[0], limit);
      LimitHolds(Step(w, capacity, es[0]), capacity, es[1..], limit);
    }
  }

  lemma StepWithin(w: Clients, capacity: nat, e: Event, limit: int)
    requires Consistent(w) && |w.live| <= capacity && capacity > 0 && Possible(w, e)
    requires (e.Accepted? ==> e.limit == limit) && Within(w.live, limit)
    ensures Within(Step(w, capacity, e).live, limit)
  {
    match e
    case Accepted(_, _, _, _, _) => AcceptWithin(w, capacity, e);
    case Closed(fd) => forall ip ensures Number(Close(w, fd).live, ip) <= Number(w.live, ip) { CloseLowers(w, fd, ip); }
    case Seen(fd, now) =>
      forall ip ensures Number(Refreshed(w.live, fd, now), ip) == Number(w.live, ip) {
        NumberSame(Refreshed(w.live, fd, now), w.live, ip);
      }
    case Served(fd, now) =>
      ServedConsistent(w, fd, now);
      assert forall ip :: Number(Recent(w.live, fd, now), ip) == CountOf(w.counts, ip) == Number(w.live, ip);
    case Swept(now, timeout) =>
      SweepIsPrefix(w, now, timeout);
      forall ip ensures Number(Sweep(w, now, timeout).live, ip) <= Number(w.live, ip) {
        NumberPrefix(Sweep(w, now, timeout).live, w.live, ip);
      }
  }
}
