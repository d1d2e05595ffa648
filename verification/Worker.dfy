/** A worker's event loop over its connection table and its per-address counters. What the
    kernel reports is a script; what serving one descriptor does to the table is part of it. */
module WorkerObject {
  import opened LruLinks
  import opened LruCache
  import opened WorkerSpec

  /** What `accept4` answers, with the outcome of registering the new descriptor. */
  datatype Arrival = Arrived(fd: int, ip: string, now: int, registered: bool) | Interrupted | Stopped

  /** What handling a descriptor does to its entry. */
  datatype Touch = Look(now: int) | Front(now: int) | Shut

  /** What a turn of the loop deals with: ready descriptors, and a new configuration, which may be
      put in force between any two of them. */
  datatype Ready =
    | Hangup(fd: int)
    | Incoming(script: seq<Arrival>)
    | Traffic(fd: int, touches: seq<Touch>)
    | Reconfigured(config: Config)

  datatype Config = Config(readTimeout: int, maxClientPerIp: int)

  /** One return of `epoll_wait`. */
  datatype Wakeup = Wakeup(now: int, ready: seq<Ready>)

  /** The clients and the configuration between two wake-ups. */
  datatype Turn = Turn(clients: Clients, config: Config)

  // ---- the events a script stands for ------------------------------------------------------

  /** Interrupted calls are repeated; any other failure ends the round of accepts. */
  function Arrivals(script: seq<Arrival>, limit: int): seq<Event> {
    if script == [] || script[0].Stopped? then []
    else if script[0].Interrupted? then Arrivals(script[1..], limit)
    else
      [Accepted(limit, script[0].fd, script[0].ip, script[0].now, script[0].registered)] + Arrivals(script[1..], limit)
  }

  function TouchEvent(fd: int, t: Touch): Event {
    match t
    case Look(now) => Seen(fd, now)
    case Front(now) => Served(fd, now)
    case Shut => Closed(fd)
  }

  function Touches(fd: int, touches: seq<Touch>): seq<Event> {
    if touches == [] then [] else [TouchEvent(fd, touches[0])] + Touches(fd, touches[1..])
  }

  function ReadyEvents(r: Ready, config: Config): seq<Event> {
    match r
    case Hangup(fd) => [Closed(fd)]
    case Incoming(script) => Arrivals(script, config.maxClientPerIp)
    case Traffic(fd, touches) => Touches(fd, touches)
    case Reconfigured(_) => []
  }

  function NextConfig(r: Ready, config: Config): Config {
    if r.Reconfigured? then r.config else config
  }

  function AllReady(rs: seq<Ready>, config: Config): seq<Event> {
    if rs == [] then [] else ReadyEvents(rs[0], config) + AllReady(rs[1..], NextConfig(rs[0], config))
  }

  function ConfigAfter(rs: seq<Ready>, config: Config): Config {
    if rs == [] then config else ConfigAfter(rs[1..], NextConfig(rs[0], config))
  }

  function SweepEvents(due: bool, now: int, timeout: int): seq<Event> {
    if due then [Swept(now, timeout)] else []
  }

  /** The sweep comes after the ready descriptors, at most once a second. */
  function LoopEvents(ws: seq<Wakeup>, last: int, config: Config): seq<Event> {
    if ws == [] then []
    else
      var due := ws[0].now - last >= 1;
      var after := ConfigAfter(ws[0].ready, config);
      AllReady(ws[0].ready, config) + SweepEvents(due, ws[0].now, after.readTimeout)
      + LoopEvents(ws[1..], if due then ws[0].now else last, after)
  }

  // ---- what the script means ---------------------------------------------------------------

  /** Until a call fails for good, every arrival is one event, in order, and interruptions none. */
  lemma {:induction false} ArrivalsSplit(a: seq<Arrival>, x: Arrival, b: seq<Arrival>, limit: int)
    requires forall i :: 0 <= i < |a| ==> !a[i].Stopped?
    ensures Arrivals(a + [x] + b, limit) ==
            Arrivals(a, limit) + match x
                                 case Interrupted => Arrivals(b, limit)
                                 case Stopped => []
                                 case Arrived(fd, ip, now, registered) =>
                                   [Accepted(limit, fd, ip, now, registered)] + Arrivals(b, limit)
  {
    var s := a + [x] + b;
    if a == [] {
      assert s[0] == x && s[1..] == b;
    } else {
      assert s[0] == a[0] && s[1..] == a[1..] + [x] + b;
      ArrivalsSplit(a[1..], x, b, limit);
    }
  }

  lemma {:induction false} TouchesSnoc(fd: int, init: seq<Touch>, t: Touch)
    ensures Touches(fd, init + [t]) == Touches(fd, init) + [TouchEvent(fd, t)]
  {
    var ts := init + [t];
    if init == [] {
      assert ts[1..] == [] && Touches(fd, []) == [];
    } else {
      assert ts[1..] == init[1..] + [t];
      TouchesSnoc(fd, init[1..], t);
    }
  }

  /** Whatever is done to a client short of closing it, it stays in the table, and so do all others. */
  lemma {:induction false} TouchesKeep(w: Clients, capacity: nat, fd: int, ts: seq<Touch>)
    requires forall i :: 0 <= i < |ts| ==> !ts[i].Shut?
    requires Consistent(w)
    ensures var v := Run(w, capacity, Touches(fd, ts));
            && Consistent(v) && v.counts == w.counts && |v.live| == |w.live|
            && (Find(w.live, fd) < |w.live| ==> Find(v.live, fd) < |v.live|)
    decreases |ts|
  {
    if ts != [] {
      var v := Step(w, capacity, TouchEvent(fd, ts[0]));
      RunOne(w, capacity, TouchEvent(fd, ts[0]), Touches(fd, ts[1..]));
      SeenConsistent(w, fd, if ts[0].Shut? then 0 else ts[0].now);
      ServedConsistent(w, fd, if ts[0].Shut? then 0 else ts[0].now);
      if Find(w.live, fd) < |w.live| {
        assert ts[0].Look? ==> v.live[Find(w.live, fd)].key == fd;
        assert ts[0].Front? ==> v.live[0].key == fd;
      }
      TouchesKeep(v, capacity, fd, ts[1..]);
    }
  }

  /** How handling a descriptor ends: a client last looked at has that time, a client last served
      stands first with that time, and a client last shut is gone. */
  lemma LastTouch(w: Clients, capacity: nat, fd: int, init: seq<Touch>, t: Touch)
    requires Consistent(w) && Find(w.live, fd) < |w.live|
    requires forall i :: 0 <= i < |init| ==> !init[i].Shut?
    ensures var v := Run(w, capacity, Touches(fd, init + [t])).live;
            match t
            case Look(now) => |v| == |w.live| && exists c :: c in v && c.key == fd && c.lastActive == now
            case Front(now) => |v| == |w.live| && v[0].key == fd && v[0].lastActive == now
            case Shut => |v| == |w.live| - 1 && forall c :: c in v ==> c.key != fd
  {
    TouchesSnoc(fd, init, t);
    RunAppend(w, capacity, Touches(fd, init), [TouchEvent(fd, t)]);
    TouchesKeep(w, capacity, fd, init);
    var u := Run(w, capacity, Touches(fd, init));
    RunOne(u, capacity, TouchEvent(fd, t), []);
    var k := Find(u.live, fd);
    DropKeepsNames(u.live, k);
    assert t.Look? ==> Refreshed(u.live, fd, t.now)[k].key == fd;
  }

  /** Ready descriptors are dealt with one after another, none left out, each under the configuration
      in force when its turn comes. */
  lemma {:induction false} ReadySplit(rs: seq<Ready>, r: Ready, later: seq<Ready>, config: Config)
    ensures var now := ConfigAfter(rs, config);
            AllReady(rs + [r] + later, config) ==
            AllReady(rs, config) + (ReadyEvents(r, now) + AllReady(later, NextConfig(r, now)))
  {
    var s := rs + [r] + later;
    if rs == [] {
      assert s[0] == r && s[1..] == later;
    } else {
      assert s[0] == rs[0] && s[1..] == rs[1..] + [r] + later;
      ReadySplit(rs[1..], r, later, NextConfig(rs[0], config));
    }
  }

  /** A hang-up takes its client out of the table, and no other. */
  lemma HangupCloses(w: Clients, capacity: nat, fd: int, config: Config)
    requires Consistent(w)
    ensures var v := Run(w, capacity, ReadyEvents(Hangup(fd), config)).live;
            forall c :: c in v <==> c in w.live && c.key != fd
  {
    RunOne(w, capacity, Closed(fd), []);
    var k := Find(w.live, fd);
    if k < |w.live| {
      DropKeepsNames(w.live, k);
      var v := Drop(w.live, k);
      forall c | c in w.live && c.key != fd ensures c in v {
        var i :| 0 <= i < |w.live| && w.live[i] == c;
        assert v[if i < k then i else i - 1] == c;
      }
    }
  }

  /** The configuration in force is the last one given, or the old one if none was given. */
  lemma {:induction false} LastConfigHolds(rs: seq<Ready>, last: Config, later: seq<Ready>, config: Config)
    requires forall i :: 0 <= i < |later| ==> !later[i].Reconfigured?
    ensures ConfigAfter(later, config) == config
    ensures ConfigAfter(rs + [Reconfigured(last)] + later, config) == last
    decreases |rs| + |later|
  {
    var s := rs + [Reconfigured(last)] + later;
    if later != [] {
      LastConfigHolds([], last, later[1..], config);
      LastConfigHolds([], last, later[1..], last);
    }
    if rs == [] {
      assert s[0] == Reconfigured(last) && s[1..] == later;
    } else {
      assert s[0] == rs[0] && s[1..] == rs[1..] + [Reconfigured(last)] + later;
      LastConfigHolds(rs[1..], last, later, NextConfig(rs[0], config));
    }
  }

  lemma RunOne(w: Clients, capacity: nat, e: Event, es: seq<Event>)
    ensures Run(w, capacity, [e] + es) == Run(Step(w, capacity, e), capacity, es)
    ensures Run(w, capacity, [e]) == Step(w, capacity, e)
  {
    assert ([e] + es)[1..] == es && [e][1..] == [];
  }

  class Worker {
    const lru: LRU<string>
    var ipConnections: map<string, int>
    var readTimeout: int
    var maxClientPerIp: int

    ghost predicate Valid()
      reads this, lru, lru.nodes, lru.next
    {
      lru.Valid() && lru.blank == ""
    }

    /** The table and the counters as one value. */
    ghost function State(): Clients
      reads this, lru, lru.nodes, lru.next
      requires Valid()
    {
      Clients(lru.Entries(), ipConnections)
    }

    constructor (capacity: nat, readTimeout: int, maxClientPerIp: int)
      requires capacity > 0
      ensures Valid() && State() == NOBODY && lru.nodes.Length == capacity
      ensures this.readTimeout == readTimeout && this.maxClientPerIp == maxClientPerIp
    {
      this.readTimeout, this.maxClientPerIp := readTimeout, maxClientPerIp;
      ipConnections := map[];
      lru := new LRU<string>(capacity, "");
    }

    /** Reading a counter creates it. */
    method Raise(ip: string, n: int)
      requires Valid()
      modifies `ipConnections
      ensures Valid() && State() == Raised(old(State()), ip, n)
    {
      hide Good;
      ipConnections := ipConnections[ip := CountOf(ipConnections, ip) + n];
    }

    /** A counter that reaches zero is erased. */
    method Lower(ip: string)
      modifies `ipConnections
      ensures ipConnections == Decreased(old(ipConnections), ip)
    {
      var n := CountOf(ipConnections, ip) - 1;
      ipConnections := if n <= 0 then ipConnections - {ip} else ipConnections[ip := n];
    }

    /** Forget a client; closing a descriptor that is not in the table changes nothing. */
    method CloseConnection(fd: int, now: int)
      requires Valid()
      modifies `ipConnections, lru, lru.nodes, lru.next
      ensures Valid() && State() == Close(old(State()), fd)
    {
      hide Good, Decreased;
      ghost var es := lru.Entries();
      ghost var k := Find(es, fd);
      var slot := lru.GetWithoutMove(fd, now);
      RefreshThenDrop(es, fd, now);
      if slot != -1 {
        var ip := lru.nodes[slot].value;
        if ip != "" {
          Lower(ip);
        }
      }
      var _ := lru.Remove(fd);
    }

    /** The oldest client goes if the table is full. */
    method EnsureRoom(now: int)
      requires Valid()
      modifies `ipConnections, lru, lru.nodes, lru.next
      ensures Valid() && State() == MakeRoom(old(State()), lru.nodes.Length)
    {
      hide Good;
      var full := lru.Full();
      if full {
        var oldFd := lru.OldestKey();
        if oldFd != -1 {
          CloseConnection(oldFd, now);
        }
      }
    }

    /** The new client at the front, its address written through the pointer. */
    method Register(fd: int, ip: string, now: int)
      requires Valid()
      modifies lru, lru.nodes, lru.next
      ensures Valid() && State().counts == old(State()).counts
      ensures State().live == Named(Inserting(old(State()).live, lru.nodes.Length, fd, now, ""), fd, ip)
    {
      hide Good;
      lru.Put(fd, now);
      ghost var es := lru.Entries();
      var slot := lru.GetWithoutMove(fd, now);
      assert Find(es, fd) == 0 && es[0].lastActive == now;
      assert lru.Entries() == es;
      if slot != -1 {
        lru.Assign(fd, ip);
        assert lru.Entries() == Named(es, fd, ip);
      }
    }

    /** One accepted connection. */
    method Admit(fd: int, ip: string, now: int, registered: bool)
      requires Valid()
      modifies `ipConnections, lru, lru.nodes, lru.next
      ensures Valid()
      ensures State() == Accept(old(State()), lru.nodes.Length, maxClientPerIp, fd, ip, now, registered)
    {
      hide Good, MakeRoom, Inserting, Named, LRU.Entries;
      LookThenRaise(State(), ip);
      Raise(ip, 0);
      if ipConnections[ip] >= maxClientPerIp {
        return;
      }
      Raise(ip, 1);
      EnsureRoom(now);
      if !registered {
        Raise(ip, -1);
        return;
      }
      Register(fd, ip, now);
    }

    method AcceptClient(script: seq<Arrival>)
      requires Valid()
      modifies `ipConnections, lru, lru.nodes, lru.next
      ensures Valid()
      ensures State() == Run(old(State()), lru.nodes.Length, Arrivals(script, maxClientPerIp))
    {
      hide Good;
      var i := 0;
      while i < |script|
        invariant i <= |script| && Valid()
        invariant Run(State(), lru.nodes.Length, Arrivals(script[i..], maxClientPerIp))
               == Run(old(State()), lru.nodes.Length, Arrivals(script, maxClientPerIp))
      {
        var a := script[i];
        if a.Stopped? {
          return;
        }
        assert script[i..][1..] == script[i + 1..];
        if a.Arrived? {
          RunOne(State(), lru.nodes.Length, Accepted(maxClientPerIp, a.fd, a.ip, a.now, a.registered),
                 Arrivals(script[i + 1..], maxClientPerIp));
          Admit(a.fd, a.ip, a.now, a.registered);
        }
        i := i + 1;
      }
    }

    method HandleOne(fd: int, touches: seq<Touch>)
      requires Valid()
      modifies `ipConnections, lru, lru.nodes, lru.next
      ensures Valid() && State() == Run(old(State()), lru.nodes.Length, Touches(fd, touches))
    {
      hide Good, Close, Refreshed, Recent;
      for i := 0 to |touches|
        invariant Valid()
        invariant Run(State(), lru.nodes.Length, Touches(fd, touches[i..]))
               == Run(old(State()), lru.nodes.Length, Touches(fd, touches))
      {
        assert touches[i..][1..] == touches[i + 1..];
        RunOne(State(), lru.nodes.Length, TouchEvent(fd, touches[i]), Touches(fd, touches[i + 1..]));
        match touches[i] {
          case Look(now) => var _ := lru.GetWithoutMove(fd, now);
          case Front(now) => lru.MakeRecent(fd, now);
          case Shut => CloseConnection(fd, 0);
        }
      }
    }

    /** Close clients from the tail while they have been silent too long. */
    method IdleSweep(now: int)
      requires Valid()
      modifies `ipConnections, lru, lru.nodes, lru.next
      ensures Valid() && State() == Sweep(old(State()), now, readTimeout)
    {
      hide Good, Close, Decreased;
      while true
        invariant Valid() && Sweep(State(), now, readTimeout) == Sweep(old(State()), now, readTimeout)
        decreases |State().live|
      {
        var oldest := lru.OldestKey();
        if oldest == -1 {
          return;
        }
        var lastActive := lru.GetLastActiveTime(oldest);
        if now - lastActive > readTimeout {
          ClosingShrinks(State(), oldest);
          CloseConnection(oldest, now);
        } else {
          return;
        }
      }
    }

    lemma ClosingShrinks(w: Clients, fd: int)
      ensures Find(w.live, fd) < |w.live| ==> |Close(w, fd).live| < |w.live|
    {
    }

    function InForce(): Config
      reads `readTimeout, `maxClientPerIp
    {
      Config(readTimeout, maxClientPerIp)
    }

    method HandleReady(r: Ready)
      requires Valid()
      modifies `ipConnections, `readTimeout, `maxClientPerIp, lru, lru.nodes, lru.next
      ensures Valid() && State() == Run(old(State()), lru.nodes.Length, ReadyEvents(r, old(InForce())))
      ensures InForce() == NextConfig(r, old(InForce()))
    {
      hide Good;
      match r {
        case Hangup(fd) =>
          RunOne(State(), lru.nodes.Length, Closed(fd), []);
          CloseConnection(fd, 0);
        case Incoming(script) => AcceptClient(script);
        case Traffic(fd, touches) => HandleOne(fd, touches);
        case Reconfigured(config) => UpdateConfig(config.readTimeout, config.maxClientPerIp);
      }
    }

    method HandleAll(rs: seq<Ready>)
      requires Valid()
      modifies `ipConnections, `readTimeout, `maxClientPerIp, lru, lru.nodes, lru.next
      ensures Valid() && State() == Run(old(State()), lru.nodes.Length, AllReady(rs, old(InForce())))
      ensures InForce() == ConfigAfter(rs, old(InForce()))
    {
      hide Good;
      for i := 0 to |rs|
        invariant Valid() && ConfigAfter(rs[i..], InForce()) == ConfigAfter(rs, old(InForce()))
        invariant Run(State(), lru.nodes.Length, AllReady(rs[i..], InForce()))
               == Run(old(State()), lru.nodes.Length, AllReady(rs, old(InForce())))
      {
        assert rs[i..][1..] == rs[i + 1..];
        RunAppend(State(), lru.nodes.Length, ReadyEvents(rs[i], InForce()),
            AllReady(rs[i + 1..], NextConfig(rs[i], InForce())));
        HandleReady(rs[i]);
      }
    }

    /** One turn of the loop: the ready descriptors, and the sweep if it is due. */
    method TurnOnce(w: Wakeup, due: bool)
      requires Valid()
      modifies `ipConnections, `readTimeout, `maxClientPerIp, lru, lru.nodes, lru.next
      ensures Valid() && InForce() == ConfigAfter(w.ready, old(InForce()))
      ensures State() == Run(old(State()), lru.nodes.Length,
                             AllReady(w.ready, old(InForce())) + SweepEvents(due, w.now, InForce().readTimeout))
    {
      hide Good;
      RunAppend(State(), lru.nodes.Length, AllReady(w.ready, InForce()),
                SweepEvents(due, w.now, ConfigAfter(w.ready, InForce()).readTimeout));
      HandleAll(w.ready);
      if due {
        RunOne(State(), lru.nodes.Length, Swept(w.now, readTimeout), []);
        IdleSweep(w.now);
      }
    }

    /** One wake-up: after it the clients at the tail that are silent for too long are gone, and no
        other, if a second has begun since the last check; else none is closed for its silence. */
    method WakeUp(w: Wakeup, lastTimeoutCheck: int) returns (mark: int)
      requires Valid()
      modifies `ipConnections, `readTimeout, `maxClientPerIp, lru, lru.nodes, lru.next
      ensures Valid() && InForce() == ConfigAfter(w.ready, old(InForce()))
      ensures var sweep := SweepEvents(w.now - lastTimeoutCheck >= 1, w.now, InForce().readTimeout);
              State() == Run(old(State()), lru.nodes.Length, AllReady(w.ready, old(InForce())) + sweep)
      ensures var served := Run(old(State()), lru.nodes.Length, AllReady(w.ready, old(InForce())));
              if w.now <= lastTimeoutCheck then mark == lastTimeoutCheck && State() == served
              else mark == w.now && (Consistent(served) ==>
                TailClosed(served.live, State().live, w.now, InForce().readTimeout))
    {
      hide Good, Consistent, TailClosed;
      var due := w.now - lastTimeoutCheck >= 1;
      ghost var served := Run(State(), lru.nodes.Length, AllReady(w.ready, InForce()));
      ghost var timeout := ConfigAfter(w.ready, InForce()).readTimeout;
      RunAppend(State(), lru.nodes.Length, AllReady(w.ready, InForce()), SweepEvents(due, w.now, timeout));
      TurnOnce(w, due);
      mark := lastTimeoutCheck;
      if due {
        mark := w.now;
        RunOne(served, lru.nodes.Length, Swept(w.now, timeout), []);
        if Consistent(served) {
          SweepIsPrefix(served, w.now, timeout);
        }
      }
    }

    /** The event loop, for as many wake-ups as there are; from a consistent state it leads to a
        consistent state, whatever the kernel does. `turns` shows the table and the configuration at
        the start and after every wake-up. The first wake-up of every second closes the clients at the
        tail that are silent for too long and no other; a further one closes none for its silence. */
    method StartWorker(ws: seq<Wakeup>) returns (ghost turns: seq<Turn>)
      requires Valid()
      modifies `ipConnections, `readTimeout, `maxClientPerIp, lru, lru.nodes, lru.next
      ensures Valid()
      ensures |turns| == |ws| + 1 && turns[0] == old(Now()) && turns[|ws|] == Now()
      ensures State() == Run(old(State()), lru.nodes.Length, LoopEvents(ws, 0, old(InForce())))
      ensures var possible := PossibleRun(old(State()), lru.nodes.Length, LoopEvents(ws, 0, old(InForce())));
              old(Consistent(State())) && possible ==> Consistent(State()) && SweptOnTime(turns, ws, lru.nodes.Length)
      ensures ServedInTurn(turns, ws, lru.nodes.Length)
    {
      hide Good, Looping, Run, PossibleRun, Consistent, SweptOnTime, ServedInTurn;
      lru.FullExactly();
      var lastTimeoutCheck := 0;
      turns := [Now()];
      LoopBegins(Now(), ws, lru.nodes.Length);
      for i := 0 to |ws|
        invariant Valid() && |turns| == i + 1 && turns[0] == old(Now()) && turns[i] == Now()
        invariant Looping(turns, ws, lastTimeoutCheck, lru.nodes.Length)
      {
        ghost var mark := lastTimeoutCheck;
        lastTimeoutCheck := WakeUp(ws[i], lastTimeoutCheck);
        LoopGoesOn(turns, Now(), ws, mark, lru.nodes.Length);
        turns := turns + [Now()];
      }
      LoopEnds(turns, ws, lastTimeoutCheck, lru.nodes.Length);
    }

    /** The table and the configuration. */
    ghost function Now(): Turn
      reads this, lru, lru.nodes, lru.next
      requires Valid()
    {
      Turn(State(), InForce())
    }

    method UpdateConfig(readTimeout: int, maxClientPerIp: int)
      requires Valid()
      modifies `readTimeout, `maxClientPerIp
      ensures Valid() && State() == old(State())
      ensures this.readTimeout == readTimeout && this.maxClientPerIp == maxClientPerIp
    {
      this.readTimeout, this.maxClientPerIp := readTimeout, maxClientPerIp;
    }
  }

  lemma LookThenRaise(w: Clients, ip: string)
    ensures Raised(Raised(w, ip, 0), ip, 1) == Raised(w, ip, 1)
  {
    assert w.counts[ip := CountOf(w.counts, ip)][ip := CountOf(w.counts, ip) + 1] ==
      w.counts[ip := CountOf(w.counts, ip) + 1];
  }

  // ---- the sweeps of the loop ----------------------------------------------------------------

  /** The clients once the ready descriptors of a wake-up have been dealt with. */
  ghost function Handled(t: Turn, w: Wakeup, capacity: nat): Clients {
    Run(t.clients, capacity, AllReady(w.ready, t.config))
  }

  /** The clock has not read so much at an earlier wake-up. */
  ghost predicate NewSecond(ws: seq<Wakeup>, i: nat)
    requires i < |ws|
  {
    ws[i].now >= 1 && forall j :: 0 <= j < i ==> ws[j].now < ws[i].now
  }

  /** In every new second the expired clients at the tail go, and no others. */
  ghost predicate SweptOnTime(turns: seq<Turn>, ws: seq<Wakeup>, capacity: nat)
    requires |turns| == |ws| + 1
  {
    forall i {:trigger NewSecond(ws, i)} :: 0 <= i < |ws| && NewSecond(ws, i) ==>
      var t := turns[i + 1];
      TailClosed(Handled(turns[i], ws[i], capacity).live, t.clients.live, ws[i].now, t.config.readTimeout)
  }

  /** While the clock stands still, a wake-up only deals with its descriptors. */
  ghost predicate ServedInTurn(turns: seq<Turn>, ws: seq<Wakeup>, capacity: nat)
    requires |turns| == |ws| + 1
  {
    forall i :: 0 < i < |ws| && ws[i].now <= ws[i - 1].now ==>
      turns[i + 1].clients == Handled(turns[i], ws[i], capacity)
  }

  /** The last check was at some wake-up, or there was none yet, and not before the last of them. */
  ghost predicate Latest(ws: seq<Wakeup>, mark: int) {
    && (mark == 0 || exists i :: 0 <= i < |ws| && ws[i].now == mark)
    && (ws != [] ==> ws[|ws| - 1].now <= mark)
  }

  /** A start from which the run over all wake-ups is possible. */
  ghost predicate Begun(start: Turn, ws: seq<Wakeup>, capacity: nat) {
    && Consistent(start.clients) && |start.clients.live| <= capacity && capacity > 0
    && PossibleRun(start.clients, capacity, LoopEvents(ws, 0, start.config))
  }

  /** The loop after the turns in `turns`, the last check having been at `mark`. */
  ghost predicate Looping(turns: seq<Turn>, ws: seq<Wakeup>, mark: int, capacity: nat) {
    && 0 < |turns| <= |ws| + 1
    && var i := |turns| - 1;
       var t, ahead := turns[i].clients, LoopEvents(ws[i..], mark, turns[i].config);
       && Run(t, capacity, ahead) == Run(turns[0].clients, capacity, LoopEvents(ws, 0, turns[0].config))
       && Latest(ws[..i], mark) && ServedInTurn(turns, ws[..i], capacity)
       && (Begun(turns[0], ws, capacity) ==>
             && Consistent(t) && |t.live| <= capacity && PossibleRun(t, capacity, ahead)
             && SweptOnTime(turns, ws[..i], capacity))
  }

  lemma LoopBegins(t: Turn, ws: seq<Wakeup>, capacity: nat)
    ensures Looping([t], ws, 0, capacity)
  {
    assert ws[..0] == [] && ws[0..] == ws;
  }

  lemma LoopEnds(turns: seq<Turn>, ws: seq<Wakeup>, mark: int, capacity: nat)
    requires |turns| == |ws| + 1 && Looping(turns, ws, mark, capacity)
    ensures turns[|ws|].clients == Run(turns[0].clients, capacity, LoopEvents(ws, 0, turns[0].config))
    ensures ServedInTurn(turns, ws, capacity)
    ensures Begun(turns[0], ws, capacity) ==> Consistent(turns[|ws|].clients) && SweptOnTime(turns, ws, capacity)
  {
    assert ws[..|ws|] == ws && ws[|ws|..] == [];
    hide Consistent, SweptOnTime, ServedInTurn, Begun;
  }

  lemma LoopGoesOn(turns: seq<Turn>, t: Turn, ws: seq<Wakeup>, mark: int, capacity: nat)
    requires |turns| <= |ws| && Looping(turns, ws, mark, capacity)
    requires var before, w := turns[|turns| - 1], ws[|turns| - 1];
             var served := Handled(before, w, capacity);
             && t.config == ConfigAfter(w.ready, before.config)
             && t.clients == Run(before.clients, capacity, AllReady(w.ready, before.config)
                                 + SweepEvents(w.now - mark >= 1, w.now, t.config.readTimeout))
             && if w.now <= mark then t.clients == served
                else Consistent(served) ==> TailClosed(served.live, t.clients.live, w.now, t.config.readTimeout)
    ensures var w := ws[|turns| - 1];
            Looping(turns + [t], ws, if w.now <= mark then mark else w.now, capacity)
  {
    hide Run, PossibleRun, Consistent, SweptOnTime, ServedInTurn, Latest, TailClosed, LoopEvents, AllReady, ConfigAfter;
    var i := |turns| - 1;
    assert ws[i..][0] == ws[i] && ws[i..][1..] == ws[i + 1..] && ws[..i + 1] == ws[..i] + [ws[i]];
    TurnIsPossible(turns[i], ws[i..], mark, capacity);
    LatestOfMore(ws[..i], ws[i], mark);
    ServedInOneMore(turns, t, ws[..i], ws[i], mark, capacity);
    if Begun(turns[0], ws, capacity) {
      SweptInOneMore(turns, t, ws[..i], ws[i], mark, capacity);
    }
    assert (turns + [t])[0] == turns[0] && (turns + [t])[i + 1] == t;
  }

  /** The first turn of a possible run leads to a consistent state, before its sweep as after it. */
  lemma TurnIsPossible(t: Turn, ws: seq<Wakeup>, mark: int, capacity: nat)
    requires ws != []
    ensures var due := ws[0].now - mark >= 1;
            var after := ConfigAfter(ws[0].ready, t.config);
            var es := AllReady(ws[0].ready, t.config) + SweepEvents(due, ws[0].now, after.readTimeout);
            var rest := LoopEvents(ws[1..], if due then ws[0].now else mark, after);
            var v := Run(t.clients, capacity, es);
            && Run(v, capacity, rest) == Run(t.clients, capacity, LoopEvents(ws, mark, t.config))
            && (Consistent(t.clients) && |t.clients.live| <= capacity && capacity > 0
                && PossibleRun(t.clients, capacity, LoopEvents(ws, mark, t.config)) ==>
                  && Consistent(v) && |v.live| <= capacity && PossibleRun(v, capacity, rest)
                  && Consistent(Handled(t, ws[0], capacity)))
  {
    hide Run, PossibleRun, Consistent;
    var due := ws[0].now - mark >= 1;
    var after := ConfigAfter(ws[0].ready, t.config);
    var served := AllReady(ws[0].ready, t.config);
    var sweep := SweepEvents(due, ws[0].now, after.readTimeout);
    var rest := LoopEvents(ws[1..], if due then ws[0].now else mark, after);
    RunAppend(t.clients, capacity, served + sweep, rest);
    PossibleAppend(t.clients, capacity, served + sweep, rest);
    PossibleAppend(t.clients, capacity, served, sweep);
    if Consistent(t.clients) && |t.clients.live| <= capacity && capacity > 0
       && PossibleRun(t.clients, capacity, served + sweep) {
      CountsAreRight(t.clients, capacity, served);
      CountsAreRight(t.clients, capacity, served + sweep);
    }
  }

  lemma LatestOfMore(ws: seq<Wakeup>, w: Wakeup, mark: int)
    requires Latest(ws, mark)
    ensures Latest(ws + [w], if w.now <= mark then mark else w.now)
  {
    var now := if w.now <= mark then mark else w.now;
    if mark != 0 && w.now <= mark {
      var i :| 0 <= i < |ws| && ws[i].now == mark;
      assert (ws + [w])[i].now == mark;
    } else if w.now > mark {
      assert (ws + [w])[|ws|].now == now;
    }
  }

  /** A new second is later than the last check. */
  lemma NewSecondIsDue(ws: seq<Wakeup>, w: Wakeup, mark: int)
    requires Latest(ws, mark) && NewSecond(ws + [w], |ws|)
    ensures w.now > mark
  {
    if mark != 0 {
      var i :| 0 <= i < |ws| && ws[i].now == mark;
      assert (ws + [w])[i].now == mark;
    }
  }

  /** The turns so far and one more. */
  lemma ServedInOneMore(turns: seq<Turn>, t: Turn, ws: seq<Wakeup>, w: Wakeup, mark: int, capacity: nat)
    requires |turns| == |ws| + 1 && Latest(ws, mark) && ServedInTurn(turns, ws, capacity)
    requires w.now <= mark ==> t.clients == Handled(turns[|ws|], w, capacity)
    ensures ServedInTurn(turns + [t], ws + [w], capacity)
  {
    var all, more := turns + [t], ws + [w];
    forall i | 0 < i < |more| && more[i].now <= more[i - 1].now
      ensures all[i + 1].clients == Handled(all[i], more[i], capacity)
    {
      assert all[i] == turns[i] && more[i - 1] == ws[i - 1];
      assert i < |ws| ==> all[i + 1] == turns[i + 1] && more[i] == ws[i];
    }
  }

  lemma SweptInOneMore(turns: seq<Turn>, t: Turn, ws: seq<Wakeup>, w: Wakeup, mark: int, capacity: nat)
    requires |turns| == |ws| + 1 && Latest(ws, mark) && SweptOnTime(turns, ws, capacity)
    requires w.now > mark ==>
               TailClosed(Handled(turns[|ws|], w, capacity).live, t.clients.live, w.now, t.config.readTimeout)
    ensures SweptOnTime(turns + [t], ws + [w], capacity)
  {
    hide TailClosed, Handled, Latest;
    var all, more := turns + [t], ws + [w];
    forall i {:trigger NewSecond(more, i)} | 0 <= i < |more| && NewSecond(more, i)
      ensures TailClosed(Handled(all[i], more[i], capacity).live, all[i + 1].clients.live, more[i].now,
                         all[i + 1].config.readTimeout)
    {
      if i == |ws| {
        NewSecondIsDue(ws, w, mark);
      } else {
        assert forall j :: 0 <= j < |ws| ==> more[j] == ws[j];
        assert NewSecond(ws, i);
      }
    }
  }

  /** Refreshing an entry on its way out makes no difference. */
  lemma RefreshThenDrop(es: seq<Client>, fd: int, now: int)
    ensures Without(Refreshed(es, fd, now), fd) == Without(es, fd)
    ensures Find(Refreshed(es, fd, now), fd) == Find(es, fd)
  {
    var r := Refreshed(es, fd, now);
    var k := Find(es, fd);
    if k < |es| {
      assert r[k].key == fd;
      assert forall i :: 0 <= i < k ==> r[i] == es[i];
      assert Drop(r, k) == Drop(es, k);
    }
  }

  // ---- an idle client that is never closed -----------------------------------------------------

  /** From second `t` on, for `n` seconds, descriptor 3 has something to read, once a second, which
      completes no request. */
  function Trickle(t: int, n: nat): seq<Wakeup>
    decreases n
  {
    if n == 0 then [] else [Wakeup(t, [Traffic(3, [Look(t)])])] + Trickle(t + 1, n - 1)
  }

  lemma OneReady(r: Ready, config: Config)
    ensures AllReady([r], config) == ReadyEvents(r, config) && ConfigAfter([r], config) == NextConfig(r, config)
  {
    assert [r][1..] == [];
    assert AllReady([], NextConfig(r, config)) == [];
  }

  lemma OneTouch(fd: int, t: Touch)
    ensures Touches(fd, [t]) == [TouchEvent(fd, t)]
  {
    assert [t][1..] == [];
  }

  lemma TwoArrivals(a: Arrival, b: Arrival, limit: int)
    requires a.Arrived? && b.Arrived?
    ensures Arrivals([a, b], limit) ==
            [Accepted(limit, a.fd, a.ip, a.now, a.registered), Accepted(limit, b.fd, b.ip, b.now, b.registered)]
  {
    assert [a, b][1..] == [b] && [b][1..] == [];
    assert Arrivals([b], limit) == [Accepted(limit, b.fd, b.ip, b.now, b.registered)] + [];
  }

  lemma TrickleEvents(t: int, n: nat, config: Config)
    ensures n > 0 ==> LoopEvents(Trickle(t, n), t - 1, config)
                      == [Seen(3, t), Swept(t, config.readTimeout)] + LoopEvents(Trickle(t + 1, n - 1), t, config)
  {
    if n > 0 {
      var w := Wakeup(t, [Traffic(3, [Look(t)])]);
      assert Trickle(t, n)[0] == w && Trickle(t, n)[1..] == Trickle(t + 1, n - 1);
      OneReady(w.ready[0], config);
      OneTouch(3, Look(t));
      assert AllReady(w.ready, config) == [Seen(3, t)] && ConfigAfter(w.ready, config) == config;
      assert [Seen(3, t)] + [Swept(t, config.readTimeout)] == [Seen(3, t), Swept(t, config.readTimeout)];
    }
  }

  /** Clients 4 and 3, the second last seen at `seen`. */
  function TwoClients(seen: int): Clients {
    Clients([Entry(4, 1, "b"), Entry(3, seen, "a")], map["a" := 1, "b" := 1])
  }

  lemma TrickleTurn(t: int, timeout: int)
    requires timeout >= 0
    ensures Step(Step(TwoClients(t - 1), 2, Seen(3, t)), 2, Swept(t, timeout)) == TwoClients(t)
  {
    var r := Refreshed(TwoClients(t - 1).live, 3, t);
    assert TwoClients(t - 1).live[1..][0].key == 3;
    assert r == TwoClients(t).live;
    assert TwoClients(t).live[1..][0].key == 3;
  }

  lemma {:induction false} TrickleRuns(t: int, n: nat, config: Config)
    requires config.readTimeout >= 0
    ensures Run(TwoClients(t - 1), 2, LoopEvents(Trickle(t, n), t - 1, config)) == TwoClients(t + n - 1)
    decreases n
  {
    hide Step;
    if n > 0 {
      var timeout, rest := config.readTimeout, LoopEvents(Trickle(t + 1, n - 1), t, config);
      TrickleEvents(t, n, config);
      RunAppend(TwoClients(t - 1), 2, [Seen(3, t), Swept(t, timeout)], rest);
      assert [Seen(3, t), Swept(t, timeout)] == [Seen(3, t)] + [Swept(t, timeout)];
      RunOne(TwoClients(t - 1), 2, Seen(3, t), [Swept(t, timeout)]);
      RunOne(Step(TwoClients(t - 1), 2, Seen(3, t)), 2, Swept(t, timeout), []);
      TrickleTurn(t, timeout);
      TrickleRuns(t + 1, n - 1, config);
    }
  }

  /** Two clients connect in second 1.  */
  function Arriving(): Wakeup {
    Wakeup(1, [Incoming([Arrived(3, "a", 1, true), Arrived(4, "b", 1, true)])])
  }

  function FirstClient(): Clients {
    Clients([Entry(3, 1, "a")], map["a" := 1])
  }

  lemma ArrivingSteps(limit: int, timeout: int)
    requires limit >= 1 && timeout >= 0
    ensures Step(NOBODY, 2, Accepted(limit, 3, "a", 1, true)) == FirstClient()
    ensures Step(FirstClient(), 2, Accepted(limit, 4, "b", 1, true)) == TwoClients(1) &&
      Find(FirstClient().live, 4) == 1
    ensures Step(TwoClients(1), 2, Swept(1, timeout)) == TwoClients(1)
  {
    assert TwoClients(1).live[1..][0].key == 3;
  }

  lemma ThreeSteps(e: Event, f: Event, g: Event, w: Clients, v: Clients)
    requires Step(NOBODY, 2, e) == w && Step(w, 2, f) == v && Step(v, 2, g) == v
    ensures Run(NOBODY, 2, [e, f, g]) == v
    ensures Possible(NOBODY, e) && Possible(w, f) && Possible(v, g) ==> PossibleRun(NOBODY, 2, [e, f, g])
  {
    hide Step, Possible;
    var es := [e, f, g];
    assert es[1..] == [f, g] && [f, g][1..] == [g] && [g][1..] == [];
    assert Run(v, 2, [g]) == v && Run(w, 2, [f, g]) == v;
    if Possible(NOBODY, e) && Possible(w, f) && Possible(v, g) {
      assert PossibleRun(v, 2, [g]) && PossibleRun(w, 2, [f, g]);
    }
  }

  lemma ArrivingRuns(config: Config)
    requires config.readTimeout >= 0 && config.maxClientPerIp >= 1
    ensures var es := AllReady(Arriving().ready, config) + SweepEvents(true, 1, config.readTimeout);
            Run(NOBODY, 2, es) == TwoClients(1) && PossibleRun(NOBODY, 2, es)
  {
    hide Step, Run, PossibleRun;
    var timeout, limit := config.readTimeout, config.maxClientPerIp;
    var e, f, g := Accepted(limit, 3, "a", 1, true), Accepted(limit, 4, "b", 1, true), Swept(1, timeout);
    var script := [Arrived(3, "a", 1, true), Arrived(4, "b", 1, true)];
    TwoArrivals(script[0], script[1], limit);
    OneReady(Arriving().ready[0], config);
    assert AllReady(Arriving().ready, config) + SweepEvents(true, 1, timeout) == [e, f, g];
    ArrivingSteps(limit, timeout);
    ThreeSteps(e, f, g, FirstClient(), TwoClients(1));
  }

  /** A run of the event loop, with a wake-up and a sweep every second, in which a client that says
      nothing for `n` seconds is not closed, however large `n` is: it stands ahead of one that sends
      a byte a second. Both a read and a write event refresh a client where it stands. */
  lemma IdleClientSurvives(n: nat, config: Config)
    requires config.readTimeout >= 0 && config.maxClientPerIp >= 1
    ensures var ws := [Arriving()] + Trickle(2, n);
            Run(NOBODY, 2, LoopEvents(ws, 0, config)) == TwoClients(n + 1)
    ensures n > config.readTimeout ==> Expired(TwoClients(n + 1).live[0], n + 1, config.readTimeout)
  {
    var ws := [Arriving()] + Trickle(2, n);
    assert ws[1..] == Trickle(2, n);
    OneReady(Arriving().ready[0], config);
    var es := AllReady(Arriving().ready, config) + SweepEvents(true, 1, config.readTimeout);
    assert LoopEvents(ws, 0, config) == es + LoopEvents(Trickle(2, n), 1, config);
    RunAppend(NOBODY, 2, es, LoopEvents(Trickle(2, n), 1, config));
    ArrivingRuns(config);
    TrickleRuns(2, n, config);
  }
}
