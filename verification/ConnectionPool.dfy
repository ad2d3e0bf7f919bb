/**
 Pools of connections to MikroTik devices, and the manager that keeps them. The
 clients of a pool sit in a bounded channel; a caller that waits too long dials a
 connection of its own, and a connection that finds the channel full on its return
 is closed. Calls that are in flight keep their pool even when the manager has
 dropped it.

 Connections are numbered in the order in which they are dialled.
 */
module ConnectionPool {
  import opened Wrappers

  const DEFAULT_SIZE := 5

  datatype Pool = Pool(cap: nat, idle: seq<nat>)

  /** Every pool ever made, the pool registered under each id, and what became of the connections. */
  datatype Fleet = Fleet(pools: seq<Pool>, devices: map<string, nat>, closed: set<nat>, dialled: nat)

  /** An Execute waits for a client of its pool or holds one; a Close has some rounds left. */
  datatype Thread = Waiting(pool: nat) | Holding(pool: nat, conn: nat) | Closing(pool: nat, left: nat)

  datatype Machine = Machine(fleet: Fleet, threads: map<nat, Thread>)

  /**
   failsAt is the dial that fails, if one does. Remove closes the pool and drops it; where
   calls come between the rounds of Close, Drop is what is left to do after them.
   */
  datatype Command = Add(id: string, size: int, failsAt: Option<nat>) | Remove(id: string) | CloseAll | Drop(id: string)

  datatype Action =
    | Do(command: Command)
    | Begin(t: nat, id: string) | Take(t: nat) | DialOk(t: nat) | DialFail(t: nat) | Finish(t: nat)
    | BeginClose(t: nat, id: string) | Round(t: nat)

  function Elements(s: seq<nat>): set<nat> {
    set c | c in s
  }

  function Range(lo: nat, n: nat): (s: seq<nat>)
    ensures |s| == n && forall i :: 0 <= i < n ==> s[i] == lo + i
  {
    seq(n, i requires 0 <= i < n => lo + i)
  }

  function SizeOf(size: int): nat {
    if size <= 0 then DEFAULT_SIZE else size
  }

  predicate Succeeds(c: Command)
    requires c.Add?
  {
    c.id != "" && !(c.failsAt.Some? && c.failsAt.value < SizeOf(c.size))
  }

  function Drained(pools: seq<Pool>, which: set<nat>): (r: seq<Pool>)
    ensures |r| == |pools|
    ensures forall p :: 0 <= p < |pools| ==> r[p] == if p in which then pools[p].(idle := []) else pools[p]
  {
    seq(|pools|, p requires 0 <= p < |pools| => if p in which then pools[p].(idle := []) else pools[p])
  }

  function IdleOf(pools: seq<Pool>, which: set<nat>): set<nat> {
    set p, c | p in which && p < |pools| && c in pools[p].idle :: c
  }

  /** Close on each of the given pools. */
  function Emptied(f: Fleet, which: set<nat>): Fleet {
    f.(pools := Drained(f.pools, which), closed := f.closed + IdleOf(f.pools, which))
  }

  function Perform(f: Fleet, c: Command): Fleet {
    match c
    case Add(id, size, failsAt) =>
      if id == "" then f
      else if failsAt.Some? && failsAt.value < SizeOf(size) then
        f.(dialled := f.dialled + failsAt.value, closed := f.closed + Elements(Range(f.dialled, failsAt.value)))
      else f.(pools := f.pools + [Pool(SizeOf(size), Range(f.dialled, SizeOf(size)))],
              devices := f.devices[id := |f.pools|], dialled := f.dialled + SizeOf(size))
    case Remove(id) =>
      if id !in f.devices then f
      else Emptied(f, {f.devices[id]}).(devices := f.devices - {id})
    case CloseAll => Emptied(f, f.devices.Values)
    case Drop(id) => f.(devices := f.devices - {id})
  }

  /** ReturnClient: the channel and the closed connections afterwards. */
  function Returned(pool: Pool, closed: set<nat>, c: nat): (Pool, set<nat>) {
    if |pool.idle| < pool.cap then (pool.(idle := pool.idle + [c]), closed) else (pool, closed + {c})
  }

  function WithPool(m: Machine, p: nat, pool: Pool): Machine
    requires p < |m.fleet.pools|
  {
    m.(fleet := m.fleet.(pools := m.fleet.pools[p := pool]))
  }

  /** Thread t stands at its pool. */
  predicate At(m: Machine, t: nat) {
    t in m.threads && m.threads[t].pool < |m.fleet.pools|
  }

  /** One step of the manager or of one thread; a step that is not enabled changes nothing. */
  function Next(m: Machine, a: Action): Machine {
    match a
    case Do(c) => m.(fleet := Perform(m.fleet, c))
    case Begin(t, id) =>
      if t in m.threads || id !in m.fleet.devices then m
      else m.(threads := m.threads[t := Waiting(m.fleet.devices[id])])
    case Take(t) =>
      if !At(m, t) || !m.threads[t].Waiting? || m.fleet.pools[m.threads[t].pool].idle == [] then m
      else
        var p := m.threads[t].pool;
        var idle := m.fleet.pools[p].idle;
        WithPool(m, p, m.fleet.pools[p].(idle := idle[1..])).(threads := m.threads[t := Holding(p, idle[0])])
    case DialOk(t) =>
      if !At(m, t) || !m.threads[t].Waiting? then m
      else
        m.(fleet := m.fleet.(dialled := m.fleet.dialled + 1),
           threads := m.threads[t := Holding(m.threads[t].pool, m.fleet.dialled)])
    case DialFail(t) =>
      if !At(m, t) || !m.threads[t].Waiting? then m else m.(threads := m.threads - {t})
    case Finish(t) =>
      if !At(m, t) || !m.threads[t].Holding? then m
      else
        var p := m.threads[t].pool;
        var (pool, closed) := Returned(m.fleet.pools[p], m.fleet.closed, m.threads[t].conn);
        var m' := WithPool(m, p, pool);
        m'.(fleet := m'.fleet.(closed := closed), threads := m.threads - {t})
    case BeginClose(t, id) =>
      if t in m.threads || id !in m.fleet.devices || m.fleet.devices[id] >= |m.fleet.pools| then m
      else m.(threads := m.threads[t := Closing(m.fleet.devices[id], m.fleet.pools[m.fleet.devices[id]].cap)])
    case Round(t) =>
      if !At(m, t) || !m.threads[t].Closing? then m
      else if RoundEnds(m, t) then m.(threads := m.threads - {t})
      else
        var p := m.threads[t].pool;
        var idle := m.fleet.pools[p].idle;
        var m' := WithPool(m, p, m.fleet.pools[p].(idle := idle[1..]));
        m'.(fleet := m'.fleet.(closed := m.fleet.closed + {idle[0]}), threads := m.threads[t := Closing(p, m.threads[t].left - 1)])
  }

  /** The channel is empty, or all rounds have been made. */
  predicate RoundEnds(m: Machine, t: nat)
    requires At(m, t) && m.threads[t].Closing?
  {
    m.threads[t].left == 0 || m.fleet.pools[m.threads[t].pool].idle == []
  }

  const START := Machine(Fleet([], map[], {}, 0), map[])

  function RunOf(actions: seq<Action>): Machine {
    if actions == [] then START else Next(RunOf(actions[..|actions| - 1]), actions[|actions| - 1])
  }

  lemma Snoc(actions: seq<Action>, a: Action)
    ensures RunOf(actions + [a]) == Next(RunOf(actions), a)
  {
    assert (actions + [a])[..|actions|] == actions;
  }

  // ---- Every connection is in one place ------------------------------------

  datatype Place = Idle(pool: nat) | Held(thread: nat) | Shut

  ghost predicate NoRepeat(s: seq<nat>) {
    forall i, j :: 0 <= i < j < |s| ==> s[i] != s[j]
  }

  ghost predicate InChannel(f: Fleet, p: nat, c: nat) {
    p < |f.pools| && c in f.pools[p].idle
  }

  ghost predicate HeldBy(threads: map<nat, Thread>, t: nat, c: nat) {
    t in threads && threads[t].Holding? && threads[t].conn == c
  }

  /** place says where each dialled connection is, and it is there and nowhere else. */
  ghost predicate Placed(m: Machine, place: seq<Place>) {
    && |place| == m.fleet.dialled
    && (forall p, c: nat :: InChannel(m.fleet, p, c) <==> c < |place| && place[c] == Idle(p))
    && (forall t, c: nat :: HeldBy(m.threads, t, c) <==> c < |place| && place[c] == Held(t))
    && (forall c: nat :: c in m.fleet.closed <==> c < |place| && place[c] == Shut)
  }

  /** Channels are within their bounds and hold no client twice; threads and ids refer to pools. */
  ghost predicate Formed(m: Machine) {
    && (forall p :: 0 <= p < |m.fleet.pools| ==> NoRepeat(m.fleet.pools[p].idle) && |m.fleet.pools[p].idle| <= m.fleet.pools[p].cap)
    && (forall t :: t in m.threads ==> m.threads[t].pool < |m.fleet.pools|)
    && (forall id :: id in m.fleet.devices ==> m.fleet.devices[id] < |m.fleet.pools|)
    && (forall id, id' :: id in m.fleet.devices && id' in m.fleet.devices && id != id' ==> m.fleet.devices[id] != m.fleet.devices[id'])
  }

  lemma ClientPlace(m: Machine, place: seq<Place>, p: nat, i: nat)
    requires Placed(m, place) && p < |m.fleet.pools| && i < |m.fleet.pools[p].idle|
    ensures m.fleet.pools[p].idle[i] < |place| && place[m.fleet.pools[p].idle[i]] == Idle(p)
  {
    assert InChannel(m.fleet, p, m.fleet.pools[p].idle[i]);
  }

  lemma TakeKeeps(m: Machine, place: seq<Place>, t: nat) returns (place': seq<Place>)
    requires Placed(m, place) && Formed(m) && Next(m, Take(t)) != m
    ensures Placed(Next(m, Take(t)), place') && Formed(Next(m, Take(t)))
  {
    var p, m' := m.threads[t].pool, Next(m, Take(t));
    var idle := m.fleet.pools[p].idle;
    var c := idle[0];
    ClientPlace(m, place, p, 0);
    place' := place[c := Held(t)];
    forall q, d: nat ensures InChannel(m'.fleet, q, d) <==> InChannel(m.fleet, q, d) && !(q == p && d == c) {
      if q == p {
        assert idle == [c] + idle[1..];
        if d in idle[1..] {
          var i :| 0 <= i < |idle[1..]| && idle[1..][i] == d;
          assert idle[i + 1] == d;
        }
      }
    }
    forall u, d: nat ensures HeldBy(m'.threads, u, d) <==> (u == t && d == c) || (u != t && HeldBy(m.threads, u, d)) {}
    forall d: nat ensures !HeldBy(m.threads, t, d) {}
  }

  lemma DialKeeps(m: Machine, place: seq<Place>, t: nat) returns (place': seq<Place>)
    requires Placed(m, place) && Formed(m) && Next(m, DialOk(t)) != m
    ensures Placed(Next(m, DialOk(t)), place') && Formed(Next(m, DialOk(t)))
  {
    var m' := Next(m, DialOk(t));
    place' := place + [Held(t)];
    forall p, d: nat ensures InChannel(m'.fleet, p, d) <==> InChannel(m.fleet, p, d) {}
    forall u, d: nat ensures HeldBy(m'.threads, u, d) <==> (u == t && d == |place|) || (u != t && HeldBy(m.threads, u, d)) {}
    forall d: nat ensures !HeldBy(m.threads, t, d) {}
  }

  lemma WaitersKeep(m: Machine, place: seq<Place>, a: Action)
    requires Placed(m, place) && Formed(m)
    requires a.Begin? || a.DialFail? || a.BeginClose? || (a.Round? && At(m, a.t) && m.threads[a.t].Closing? && RoundEnds(m, a.t))
    ensures Placed(Next(m, a), place) && Formed(Next(m, a))
  {
    var m' := Next(m, a);
    forall p, d: nat ensures InChannel(m'.fleet, p, d) <==> InChannel(m.fleet, p, d) {}
    forall u, d: nat ensures HeldBy(m'.threads, u, d) <==> HeldBy(m.threads, u, d) {}
  }

  lemma FinishKeeps(m: Machine, place: seq<Place>, t: nat) returns (place': seq<Place>)
    requires Placed(m, place) && Formed(m) && Next(m, Finish(t)) != m
    ensures Placed(Next(m, Finish(t)), place') && Formed(Next(m, Finish(t)))
  {
    var p, c, m' := m.threads[t].pool, m.threads[t].conn, Next(m, Finish(t));
    var pool := m.fleet.pools[p];
    assert HeldBy(m.threads, t, c);
    forall u, d: nat ensures HeldBy(m'.threads, u, d) <==> u != t && HeldBy(m.threads, u, d) {}
    forall d | HeldBy(m.threads, t, d) ensures d == c {}
    if |pool.idle| < pool.cap {
      place' := place[c := Idle(p)];
      forall i | 0 <= i < |pool.idle| ensures pool.idle[i] != c {
        ClientPlace(m, place, p, i);
      }
      forall q, d: nat ensures InChannel(m'.fleet, q, d) <==> InChannel(m.fleet, q, d) || (q == p && d == c) {}
    } else {
      place' := place[c := Shut];
      forall q, d: nat ensures InChannel(m'.fleet, q, d) <==> InChannel(m.fleet, q, d) {}
    }
  }

  lemma RoundKeeps(m: Machine, place: seq<Place>, t: nat) returns (place': seq<Place>)
    requires Placed(m, place) && Formed(m) && At(m, t) && m.threads[t].Closing? && !RoundEnds(m, t)
    ensures Placed(Next(m, Round(t)), place') && Formed(Next(m, Round(t)))
  {
    var p, m' := m.threads[t].pool, Next(m, Round(t));
    var idle := m.fleet.pools[p].idle;
    var c := idle[0];
    ClientPlace(m, place, p, 0);
    place' := place[c := Shut];
    forall q, d: nat ensures InChannel(m'.fleet, q, d) <==> InChannel(m.fleet, q, d) && !(q == p && d == c) {
      if q == p {
        assert idle == [c] + idle[1..];
        if d in idle[1..] {
          var i :| 0 <= i < |idle[1..]| && idle[1..][i] == d;
          assert idle[i + 1] == d;
        }
      }
    }
    forall u, d: nat ensures HeldBy(m'.threads, u, d) <==> HeldBy(m.threads, u, d) {}
  }

  function Shutting(place: seq<Place>, which: set<nat>): (r: seq<Place>)
    ensures |r| == |place|
    ensures forall c :: 0 <= c < |place| ==> r[c] == if place[c].Idle? && place[c].pool in which then Shut else place[c]
  {
    seq(|place|, c requires 0 <= c < |place| => if place[c].Idle? && place[c].pool in which then Shut else place[c])
  }

  lemma EmptiedKeeps(m: Machine, place: seq<Place>, which: set<nat>) returns (place': seq<Place>)
    requires Placed(m, place) && Formed(m)
    ensures Placed(m.(fleet := Emptied(m.fleet, which)), place') && Formed(m.(fleet := Emptied(m.fleet, which)))
  {
    var f, f' := m.fleet, Emptied(m.fleet, which);
    place' := Shutting(place, which);
    forall p, d: nat ensures InChannel(f', p, d) <==> InChannel(f, p, d) && p !in which {}
    forall d: nat ensures d in IdleOf(f.pools, which) <==> exists p :: p in which && InChannel(f, p, d) {
      if d in IdleOf(f.pools, which) {
        var p :| p in which && p < |f.pools| && d in f.pools[p].idle;
        assert InChannel(f, p, d);
      }
    }
  }

  lemma AddKeeps(m: Machine, place: seq<Place>, id: string, n: nat) returns (place': seq<Place>)
    requires Placed(m, place) && Formed(m)
    ensures var f := m.fleet;
            var f' := f.(pools := f.pools + [Pool(n, Range(f.dialled, n))], devices := f.devices[id := |f.pools|], dialled := f.dialled + n);
            Placed(m.(fleet := f'), place') && Formed(m.(fleet := f'))
  {
    var f, q := m.fleet, |m.fleet.pools|;
    var f' := f.(pools := f.pools + [Pool(n, Range(f.dialled, n))], devices := f.devices[id := q], dialled := f.dialled + n);
    place' := place + seq(n, _ => Idle(q));
    forall p, d: nat ensures InChannel(f', p, d) <==> InChannel(f, p, d) || (p == q && |place| <= d < |place'|) {
      if p == q && |place| <= d < |place'| {
        assert Range(f.dialled, n)[d - |place|] == d;
      }
    }
  }

  lemma AddFailsKeeps(m: Machine, place: seq<Place>, n: nat) returns (place': seq<Place>)
    requires Placed(m, place) && Formed(m)
    ensures var f := m.fleet;
            var f' := f.(dialled := f.dialled + n, closed := f.closed + Elements(Range(f.dialled, n)));
            Placed(m.(fleet := f'), place') && Formed(m.(fleet := f'))
  {
    var f := m.fleet;
    var f' := f.(dialled := f.dialled + n, closed := f.closed + Elements(Range(f.dialled, n)));
    place' := place + seq(n, _ => Shut);
    forall d: nat ensures d in Elements(Range(f.dialled, n)) <==> |place| <= d < |place'| {
      if |place| <= d < |place'| {
        assert Range(f.dialled, n)[d - |place|] == d;
      }
    }
    forall p, d: nat ensures InChannel(f', p, d) <==> InChannel(f, p, d) {}
  }

  lemma FormedWithout(m: Machine, place: seq<Place>, id: string)
    requires Placed(m, place) && Formed(m)
    ensures var f' := m.fleet.(devices := m.fleet.devices - {id});
            Placed(m.(fleet := f'), place) && Formed(m.(fleet := f'))
  {
    var f' := m.fleet.(devices := m.fleet.devices - {id});
    forall p, d: nat ensures InChannel(f', p, d) <==> InChannel(m.fleet, p, d) {}
  }

  lemma CommandKeeps(m: Machine, place: seq<Place>, c: Command) returns (place': seq<Place>)
    requires Placed(m, place) && Formed(m)
    ensures Placed(Next(m, Do(c)), place') && Formed(Next(m, Do(c)))
  {
    place' := place;
    match c
    case Add(id, size, failsAt) =>
      if Succeeds(c) {
        place' := AddKeeps(m, place, id, SizeOf(size));
      } else if id != "" {
        place' := AddFailsKeeps(m, place, failsAt.value);
      }
    case Remove(id) =>
      if id in m.fleet.devices {
        place' := EmptiedKeeps(m, place, {m.fleet.devices[id]});
        FormedWithout(m.(fleet := Emptied(m.fleet, {m.fleet.devices[id]})), place', id);
      }
    case CloseAll => place' := EmptiedKeeps(m, place, m.fleet.devices.Values);
    case Drop(id) => FormedWithout(m, place, id);
  }

  lemma StepKeeps(m: Machine, place: seq<Place>, a: Action) returns (place': seq<Place>)
    requires Placed(m, place) && Formed(m)
    ensures Placed(Next(m, a), place') && Formed(Next(m, a))
  {
    place' := place;
    if Next(m, a) != m {
      match a
      case Do(c) => place' := CommandKeeps(m, place, c);
      case Begin(_, _) => WaitersKeep(m, place, a);
      case Take(t) => place' := TakeKeeps(m, place, t);
      case DialOk(t) => place' := DialKeeps(m, place, t);
      case DialFail(_) => WaitersKeep(m, place, a);
      case Finish(t) => place' := FinishKeeps(m, place, t);
      case BeginClose(_, _) => WaitersKeep(m, place, a);
      case Round(t) =>
        if RoundEnds(m, t) {
          WaitersKeep(m, place, a);
        } else {
          place' := RoundKeeps(m, place, t);
        }
    }
  }

  /**
   Over every interleaving of the manager's commands and of calls on any pools, each
   dialled connection is in one channel, or held by one call, or closed.
   */
  lemma {:induction false} ConnectionsConserved(actions: seq<Action>) returns (place: seq<Place>)
    ensures Placed(RunOf(actions), place) && Formed(RunOf(actions))
  {
    place := [];
    if actions != [] {
      place := ConnectionsConserved(actions[..|actions| - 1]);
      place := StepKeeps(RunOf(actions[..|actions| - 1]), place, actions[|actions| - 1]);
    }
  }

  // ---- How many there are --------------------------------------------------

  /** The first n connections. */
  function Upto(n: nat): (r: set<nat>)
    ensures forall c: nat :: c in r <==> c < n
  {
    RangeMembers(0, n);
    Elements(Range(0, n))
  }

  lemma RangeMembers(lo: nat, n: nat)
    ensures forall c: nat :: c in Elements(Range(lo, n)) <==> lo <= c < lo + n
  {
    forall c: nat | lo <= c < lo + n ensures c in Range(lo, n) {
      assert Range(lo, n)[c - lo] == c;
    }
  }

  lemma {:induction false} UptoSize(n: nat)
    ensures |Upto(n)| == n
  {
    if n == 0 {
      assert Upto(n) == {};
    } else {
      UptoSize(n - 1);
      assert Upto(n) == Upto(n - 1) + {n - 1};
    }
  }

  function IdleConns(f: Fleet): set<nat> {
    IdleOf(f.pools, Upto(|f.pools|))
  }

  function HeldConns(threads: map<nat, Thread>): set<nat> {
    set t | t in threads && threads[t].Holding? :: threads[t].conn
  }

  lemma IdleMember(pools: seq<Pool>, which: set<nat>, c: nat)
    ensures c in IdleOf(pools, which) <==> exists p :: p in which && p < |pools| && c in pools[p].idle
  {
  }

  lemma HeldMember(threads: map<nat, Thread>, c: nat)
    ensures c in HeldConns(threads) <==> exists t :: HeldBy(threads, t, c)
  {
    if c in HeldConns(threads) {
      var t :| t in threads && threads[t].Holding? && threads[t].conn == c;
      assert HeldBy(threads, t, c);
    }
  }

  /** The three kinds of places divide what was dialled. */
  ghost predicate Divided(m: Machine) {
    && IdleConns(m.fleet) !! HeldConns(m.threads) && IdleConns(m.fleet) !! m.fleet.closed && HeldConns(m.threads) !! m.fleet.closed
    && IdleConns(m.fleet) + HeldConns(m.threads) + m.fleet.closed == Upto(m.fleet.dialled)
  }

  lemma PlacedDivides(m: Machine, place: seq<Place>)
    requires Placed(m, place)
    ensures Divided(m)
  {
    var f := m.fleet;
    forall c: nat
      ensures c in IdleConns(f) <==> c < |place| && place[c].Idle?
      ensures c in HeldConns(m.threads) <==> c < |place| && place[c].Held?
    {
      IdleMember(f.pools, Upto(|f.pools|), c);
      HeldMember(m.threads, c);
      if c in IdleConns(f) {
        var p :| p in Upto(|f.pools|) && p < |f.pools| && c in f.pools[p].idle;
        assert InChannel(f, p, c);
      }
      if c < |place| && place[c].Idle? {
        assert InChannel(f, place[c].pool, c);
        assert place[c].pool in Upto(|f.pools|);
      }
      if c < |place| && place[c].Held? {
        assert HeldBy(m.threads, place[c].thread, c);
      }
    }
  }

  function Capacity(pools: seq<Pool>): nat {
    if pools == [] then 0 else Capacity(pools[..|pools| - 1]) + pools[|pools| - 1].cap
  }

  lemma {:induction false} ElementsSize(s: seq<nat>)
    ensures |Elements(s)| <= |s|
  {
    if s != [] {
      ElementsSize(s[1..]);
      assert Elements(s) == Elements(s[1..]) + {s[0]};
    }
  }

  lemma {:induction false} IdleAtMostCapacity(pools: seq<Pool>)
    requires forall p :: 0 <= p < |pools| ==> |pools[p].idle| <= pools[p].cap
    ensures |IdleOf(pools, Upto(|pools|))| <= Capacity(pools)
  {
    if pools == [] {
      assert IdleOf(pools, Upto(0)) == {};
    } else {
      var init, last := pools[..|pools| - 1], pools[|pools| - 1];
      IdleAtMostCapacity(init);
      ElementsSize(last.idle);
      var rest := IdleOf(init, Upto(|init|));
      forall c | c in IdleOf(pools, Upto(|pools|)) ensures c in rest + Elements(last.idle) {
        var p :| p in Upto(|pools|) && p < |pools| && c in pools[p].idle;
        if p < |init| {
          assert p in Upto(|init|) && c in init[p].idle;
        }
      }
      SubsetSize(IdleOf(pools, Upto(|pools|)), rest + Elements(last.idle));
    }
  }

  lemma {:induction false} SubsetSize(a: set<nat>, b: set<nat>)
    requires a <= b
    ensures |a| <= |b|
  {
    assert b == a + (b - a);
  }

  lemma {:induction false} HeldAtMostThreads(threads: map<nat, Thread>)
    ensures |HeldConns(threads)| <= |threads|
    decreases |threads|
  {
    if threads == map[] {
      assert HeldConns(threads) == {};
    } else {
      var t :| t in threads;
      var rest := threads - {t};
      assert rest.Keys == threads.Keys - {t};
      HeldAtMostThreads(rest);
      var own := if threads[t].Holding? then {threads[t].conn} else {};
      forall c | c in HeldConns(threads) ensures c in HeldConns(rest) + own {
        var u :| u in threads && threads[u].Holding? && threads[u].conn == c;
        if u != t {
          assert u in rest && rest[u].Holding? && rest[u].conn == c;
        }
      }
      SubsetSize(HeldConns(threads), HeldConns(rest) + own);
    }
  }

  // A pool that is never closed does not shrink.

  function Holders(threads: map<nat, Thread>, p: nat): set<nat> {
    set t | t in threads && threads[t].Holding? && threads[t].pool == p
  }

  predicate Drains(m: Machine, a: Action, p: nat) {
    match a
    case Do(Remove(id)) => id in m.fleet.devices && m.fleet.devices[id] == p
    case Do(CloseAll) => p in m.fleet.devices.Values
    case Round(t) => At(m, t) && m.threads[t].Closing? && m.threads[t].pool == p
    case _ => false
  }

  predicate NeverClosed(actions: seq<Action>, p: nat) {
    actions == [] || (NeverClosed(actions[..|actions| - 1], p) && !Drains(RunOf(actions[..|actions| - 1]), actions[|actions| - 1], p))
  }

  ghost predicate Whole(m: Machine, p: nat) {
    p < |m.fleet.pools| ==> m.fleet.pools[p].cap <= |m.fleet.pools[p].idle| + |Holders(m.threads, p)|
  }

  lemma HoldersAfter(threads: map<nat, Thread>, t: nat, thread: Thread, p: nat)
    requires t in threads ==> !threads[t].Holding?
    ensures Holders(threads[t := thread], p) ==
            if thread.Holding? && thread.pool == p then Holders(threads, p) + {t} else Holders(threads, p)
    ensures t !in Holders(threads, p)
  {
  }

  lemma HoldersWithout(threads: map<nat, Thread>, t: nat, p: nat)
    requires t in threads
    ensures Holders(threads - {t}, p) == Holders(threads, p) - {t}
    ensures t in Holders(threads, p) <==> threads[t].Holding? && threads[t].pool == p
  {
  }

  lemma CommandStaysWhole(m: Machine, c: Command, p: nat)
    requires Whole(m, p) && !Drains(m, Do(c), p)
    ensures Whole(Next(m, Do(c)), p)
  {
    var f, f' := m.fleet, Perform(m.fleet, c);
    if p < |f.pools| {
      assert f'.pools[p] == f.pools[p];
    }
  }

  lemma TakeStaysWhole(m: Machine, t: nat, p: nat)
    requires Formed(m) && Whole(m, p)
    ensures Whole(Next(m, Take(t)), p)
  {
    if Next(m, Take(t)) != m {
      HoldersAfter(m.threads, t, Next(m, Take(t)).threads[t], p);
    }
  }

  lemma FinishStaysWhole(m: Machine, t: nat, p: nat)
    requires Formed(m) && Whole(m, p)
    ensures Whole(Next(m, Finish(t)), p)
  {
    if t in m.threads {
      HoldersWithout(m.threads, t, p);
    }
  }

  lemma RoundStaysWhole(m: Machine, t: nat, p: nat)
    requires Whole(m, p) && !Drains(m, Round(t), p)
    ensures Whole(Next(m, Round(t)), p)
  {
    if At(m, t) && m.threads[t].Closing? {
      HoldersWithout(m.threads, t, p);
      if !RoundEnds(m, t) {
        HoldersAfter(m.threads, t, Next(m, Round(t)).threads[t], p);
      }
    }
  }

  lemma WaitersStayWhole(m: Machine, a: Action, p: nat)
    requires Whole(m, p) && (a.Begin? || a.DialOk? || a.DialFail? || a.BeginClose?)
    ensures Whole(Next(m, a), p)
  {
    var m' := Next(m, a);
    if a.t in m'.threads && (a.t in m.threads ==> !m.threads[a.t].Holding?) {
      HoldersAfter(m.threads, a.t, m'.threads[a.t], p);
    }
    if a.t in m.threads {
      HoldersWithout(m.threads, a.t, p);
    }
  }

  lemma StaysWhole(m: Machine, a: Action, p: nat)
    requires Formed(m) && Whole(m, p) && !Drains(m, a, p)
    ensures Whole(Next(m, a), p)
  {
    match a
    case Do(c) => CommandStaysWhole(m, c, p);
    case Take(t) => TakeStaysWhole(m, t, p);
    case Finish(t) => FinishStaysWhole(m, t, p);
    case Round(t) => RoundStaysWhole(m, t, p);
    case _ => WaitersStayWhole(m, a, p);
  }

  lemma {:induction false} WholeOnRuns(actions: seq<Action>, p: nat)
    requires NeverClosed(actions, p)
    ensures Whole(RunOf(actions), p)
  {
    if actions != [] {
      var init, a := actions[..|actions| - 1], actions[|actions| - 1];
      WholeOnRuns(init, p);
      var _ := ConnectionsConserved(init);
      StaysWhole(RunOf(init), a, p);
    }
  }

  /**
   Over every interleaving: dialled connections are counted by place, open ones are at
   most the capacity of all pools plus the calls in flight, and a pool that was never
   closed has its full number idle whenever no call on it is in flight.
   */
  lemma ConnectionsCounted(actions: seq<Action>)
    ensures var m := RunOf(actions);
            && |IdleConns(m.fleet)| + |HeldConns(m.threads)| + |m.fleet.closed| == m.fleet.dialled
            && |IdleConns(m.fleet)| + |HeldConns(m.threads)| <= Capacity(m.fleet.pools) + |m.threads|
            && forall p :: 0 <= p < |m.fleet.pools| && NeverClosed(actions, p) && Holders(m.threads, p) == {} ==>
                 |m.fleet.pools[p].idle| == m.fleet.pools[p].cap
  {
    var m := RunOf(actions);
    var place := ConnectionsConserved(actions);
    PlacedDivides(m, place);
    UptoSize(m.fleet.dialled);
    assert |IdleConns(m.fleet) + HeldConns(m.threads)| == |IdleConns(m.fleet)| + |HeldConns(m.threads)|;
    IdleAtMostCapacity(m.fleet.pools);
    HeldAtMostThreads(m.threads);
    forall p | 0 <= p < |m.fleet.pools| && NeverClosed(actions, p) && Holders(m.threads, p) == {}
      ensures |m.fleet.pools[p].idle| == m.fleet.pools[p].cap
    {
      WholeOnRuns(actions, p);
    }
  }
}
