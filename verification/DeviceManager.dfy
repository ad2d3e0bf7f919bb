/** The objects of the device manager, each method a step of the machine of connections. */
module DeviceManager {
  import opened Wrappers
  import opened ConnectionPool
  import opened PoolLeaks
  import opened ClosingRounds

  class Network {
    var dialled: nat
    var closed: set<nat>
    /** How many dials the device did not answer. */
    ghost var refused: nat

    constructor ()
      ensures dialled == 0 && closed == {} && refused == 0
    {
      dialled, closed, refused := 0, {}, 0;
    }

    /** The device answers, or it does not. */
    method Dial() returns (c: Option<nat>)
      modifies this
      ensures closed == old(closed)
      ensures if c.Some? then c.value == old(dialled) && dialled == old(dialled) + 1 else dialled == old(dialled)
      ensures refused == if c.Some? then old(refused) else old(refused) + 1
    {
      var answers: bool := *;
      if !answers {
        refused := refused + 1;
        return None;
      }
      c := Some(dialled);
      dialled := dialled + 1;
    }

    method Close(c: nat)
      modifies this
      ensures closed == old(closed) + {c} && dialled == old(dialled) && refused == old(refused)
    {
      closed := closed + {c};
    }
  }

  /** In machine m, pool p, the closed connections and the number of those dialled are as given. */
  ghost predicate Shows(m: Machine, p: nat, pool: Pool, closed: set<nat>, dialled: nat) {
    p < |m.fleet.pools| && m.fleet.pools[p] == pool && m.fleet.closed == closed && m.fleet.dialled == dialled
  }

  /** A step that changes them, and the threads, and nothing else. */
  ghost predicate StepsTo(m: Machine, a: Action, p: nat, pool: Pool, closed: set<nat>, dialled: nat, threads: map<nat, Thread>) {
    && p < |m.fleet.pools|
    && Next(m, a) == Machine(Fleet(m.fleet.pools[p := pool], m.fleet.devices, closed, dialled), threads)
  }

  class DevicePool {
    const cap: nat
    const net: Network
    var clients: seq<nat>

    ghost function View(): Pool
      reads this
    {
      Pool(cap, clients)
    }

    constructor (net: Network, cap: nat)
      ensures this.net == net && this.cap == cap && clients == []
    {
      this.net, this.cap, clients := net, cap, [];
    }

    /** A client of the pool, or after a timeout a new connection, or none: for every call, a step of its thread. */
    method GetClient(timedOut: bool) returns (c: Option<nat>)
      requires timedOut || clients != []
      modifies this, net
      ensures forall m, t, p :: Shows(m, p, old(View()), old(net.closed), old(net.dialled)) && t in m.threads && m.threads[t] == Waiting(p) ==>
                StepsTo(m, if !timedOut then Take(t) else if c.Some? then DialOk(t) else DialFail(t),
                        p, View(), net.closed, net.dialled, if c.Some? then m.threads[t := Holding(p, c.value)] else m.threads - {t})
      ensures !timedOut ==> c.Some?
      ensures net.refused == if c.Some? then old(net.refused) else old(net.refused) + 1
    {
      if !timedOut {
        c := Some(clients[0]);
        clients := clients[1..];
      } else {
        c := net.Dial();
      }
    }

    /** For every call that holds the client, the last step of its thread. */
    method ReturnClient(c: Option<nat>)
      modifies this, net
      ensures net.dialled == old(net.dialled)
      ensures c.None? ==> clients == old(clients) && net.closed == old(net.closed)
      ensures c.Some? ==> (View(), net.closed) == Returned(old(View()), old(net.closed), c.value)
      ensures c.Some? ==>
                forall m, t, p :: Shows(m, p, old(View()), old(net.closed), old(net.dialled)) && t in m.threads && m.threads[t] == Holding(p, c.value) ==>
                  StepsTo(m, Finish(t), p, View(), net.closed, net.dialled, m.threads - {t})
    {
      if c.None? { return; }
      if |clients| < cap {
        clients := clients + [c.value];
      } else {
        net.Close(c.value);
      }
    }

    /**
     As many rounds as the channel holds clients are enough to close them all: for every
     Close of the pool, its rounds with no call in between.
     */
    method Close()
      requires |clients| <= cap
      modifies this, net
      ensures clients == [] && net.closed == old(net.closed) + Elements(old(clients)) && net.dialled == old(net.dialled)
      ensures forall m, t, p: nat :: Shows(m, p, old(View()), old(net.closed), old(net.dialled)) && t in m.threads && m.threads[t] == Closing(p, cap) ==>
                Rounds(m, t, |old(clients)| + 1) ==
                Machine(Fleet(m.fleet.pools[p := View()], m.fleet.devices, net.closed, net.dialled), m.threads - {t})
    {
      forall m, t, p: nat | Shows(m, p, View(), net.closed, net.dialled) && t in m.threads && m.threads[t] == Closing(p, cap)
        ensures Rounds(m, t, |clients| + 1) ==
                Machine(Fleet(m.fleet.pools[p := Pool(cap, [])], m.fleet.devices, net.closed + Elements(clients), net.dialled), m.threads - {t})
      {
        RoundsClose(m, t, p);
      }
      var i := 0;
      while i < cap
        invariant 0 <= i <= cap
        invariant |clients| == |old(clients)| - i && clients == old(clients)[i..]
        invariant net.closed == old(net.closed) + Elements(old(clients)[..i])
        invariant net.dialled == old(net.dialled)
      {
        if clients == [] {
          assert old(clients)[..i] == old(clients);
          return;
        }
        var c := clients[0];
        assert old(clients)[..i + 1] == old(clients)[..i] + [c];
        clients := clients[1..];
        net.Close(c);
        i := i + 1;
      }
      assert old(clients)[..i] == old(clients);
    }
  }

  /** All connections of the pool are dialled, or those that were are closed again. */
  method NewDevicePool(net: Network, size: nat) returns (pool: Option<DevicePool>)
    modifies net
    ensures pool.Some? ==>
              && fresh(pool.value) && pool.value.cap == size && pool.value.net == net
              && pool.value.clients == Range(old(net.dialled), size)
              && net.dialled == old(net.dialled) + size && net.closed == old(net.closed)
    ensures net.refused == if pool.Some? then old(net.refused) else old(net.refused) + 1
    ensures pool.None? ==>
              exists n :: 0 <= n < size && net.dialled == old(net.dialled) + n
                          && net.closed == old(net.closed) + Elements(Range(old(net.dialled), n))
  {
    var p := new DevicePool(net, size);
    for i := 0 to size
      invariant fresh(p) && p.net == net && p.cap == size
      invariant p.clients == Range(old(net.dialled), i)
      invariant net.dialled == old(net.dialled) + i && net.closed == old(net.closed) && net.refused == old(net.refused)
    {
      var client := net.Dial();
      if client.None? {
        ghost var all := p.clients;
        for j := 0 to i
          invariant fresh(p) && p.net == net && p.clients == all[j..]
          invariant net.dialled == old(net.dialled) + i && net.refused == old(net.refused) + 1
          invariant net.closed == old(net.closed) + Elements(all[..j])
        {
          assert all[..j + 1] == all[..j] + [all[j]];
          var c := p.clients[0];
          p.clients := p.clients[1..];
          net.Close(c);
        }
        assert all[..i] == all;
        return None;
      }
      p.clients := p.clients + [client.value];
      assert p.clients == Range(old(net.dialled), i + 1);
    }
    pool := Some(p);
  }

  /** The pools are different objects, and place says which of them an id is registered with. */
  ghost predicate Registry(devices: map<string, DevicePool>, place: map<string, nat>, made: seq<DevicePool>) {
    && (forall i, j :: 0 <= i < j < |made| ==> made[i] != made[j])
    && place.Keys == devices.Keys
    && (forall id :: id in devices ==> place[id] < |made| && made[place[id]] == devices[id])
  }

  lemma RegistryWithout(devices: map<string, DevicePool>, place: map<string, nat>, made: seq<DevicePool>, id: string)
    requires Registry(devices, place, made)
    ensures Registry(devices - {id}, place - {id}, made)
  {
  }

  lemma RegistryWith(devices: map<string, DevicePool>, place: map<string, nat>, made: seq<DevicePool>, id: string, pool: DevicePool)
    requires Registry(devices, place, made) && pool !in made
    ensures Registry(devices[id := pool], place[id := |made|], made + [pool])
  {
  }

  /** The manager, with every pool it ever made and the places of the registered ones among them. */
  class Manager {
    const net: Network
    var devices: map<string, DevicePool>
    ghost var made: seq<DevicePool>
    ghost var place: map<string, nat>

    ghost predicate Valid()
      reads this, made
    {
      && Registry(devices, place, made)
      && forall i :: 0 <= i < |made| ==> made[i].net == net && |made[i].clients| <= made[i].cap
    }

    ghost function View(): Fleet
      reads this, made, net
    {
      Fleet(Views(made), place, net.closed, net.dialled)
    }

    constructor (net: Network)
      ensures this.net == net && Valid() && made == [] && devices == map[]
    {
      this.net, devices, made, place := net, map[], [], map[];
    }

    method AddDevice(id: string, size: int) returns (ok: bool, ghost failsAt: Option<nat>)
      requires Valid()
      modifies this, net
      ensures Valid() && View() == Perform(old(View()), Add(id, size, failsAt)) && (ok <==> Succeeds(Add(id, size, failsAt)))
      ensures made == old(made) || (|made| == |old(made)| + 1 && made[..|old(made)|] == old(made) && fresh(made[|old(made)|]))
    {
      failsAt := None;
      if id == "" { return false, None; }
      var poolSize: nat := if size <= 0 then DEFAULT_SIZE else size;
      var pool := NewDevicePool(net, poolSize);
      if pool.None? {
        ghost var n :| 0 <= n < poolSize && net.dialled == old(net.dialled) + n
                       && net.closed == old(net.closed) + Elements(Range(old(net.dialled), n));
        failsAt := Some(n);
        return false, failsAt;
      }
      Register(id, pool.value);
      ok := true;
    }

    /** m.devices[id] = pool. */
    method Register(id: string, pool: DevicePool)
      requires Valid() && pool !in made && pool.net == net && |pool.clients| <= pool.cap
      modifies this
      ensures Valid() && made == old(made) + [pool]
      ensures View() == old(View()).(pools := old(View()).pools + [pool.View()], devices := old(View()).devices[id := |old(made)|])
    {
      RegistryWith(devices, place, made, id, pool);
      devices := devices[id := pool];
      place := place[id := |made|];
      made := made + [pool];
    }

    /** delete(m.devices, id). */
    method Unregister(id: string)
      requires Valid()
      modifies this
      ensures Valid() && made == old(made) && View() == old(View()).(devices := old(View()).devices - {id})
    {
      RegistryWithout(devices, place, made, id);
      devices := devices - {id};
      place := place - {id};
    }

    /** pool.Close() as the manager sees it. */
    method ClosePool(pool: DevicePool, ghost p: nat)
      requires Valid() && p < |made| && made[p] == pool
      modifies net, pool
      ensures Valid() && View() == Emptied(old(View()), {p})
    {
      ghost var f := View();
      pool.Close();
      ClosedOne(f, View(), p);
    }

    method RemoveDevice(id: string) returns (ok: bool)
      requires Valid()
      modifies this, net, made
      ensures Valid() && made == old(made) && View() == Perform(old(View()), Remove(id))
      ensures ok <==> id in old(devices)
    {
      if id !in devices { return false; }
      ClosePool(devices[id], place[id]);
      Unregister(id);
      ok := true;
    }

    /** The pools stay registered, in any order of closing. */
    method CloseAllDevices()
      requires Valid()
      modifies net, made
      ensures Valid() && View() == Perform(old(View()), CloseAll)
    {
      var remaining := devices.Keys;
      ghost var before := View();
      EmptiedNone(before);
      PlacesNone(place);
      while remaining != {}
        invariant remaining <= devices.Keys
        invariant Valid() && View() == Emptied(before, Places(place, remaining))
        decreases remaining
      {
        var id :| id in remaining;
        ClosePool(devices[id], place[id]);
        EmptiedTwice(before, Places(place, remaining), {place[id]});
        PlacesMore(place, remaining, id);
        remaining := remaining - {id};
      }
      PlacesAll(place);
    }
  }

  /** The places of the ids that do not remain. */
  ghost function Places(place: map<string, nat>, remaining: set<string>): set<nat> {
    set id | id in place && id !in remaining :: place[id]
  }

  lemma PlacesNone(place: map<string, nat>)
    ensures Places(place, place.Keys) == {}
  {
  }

  lemma PlacesMore(place: map<string, nat>, remaining: set<string>, id: string)
    requires id in place && id in remaining
    ensures Places(place, remaining - {id}) == Places(place, remaining) + {place[id]}
  {
  }

  lemma PlacesAll(place: map<string, nat>)
    ensures Places(place, {}) == place.Values
  {
    forall p | p in place.Values ensures p in Places(place, {}) {
      var id :| id in place && place[id] == p;
      assert id !in {};
    }
  }

  ghost function Views(pools: seq<DevicePool>): (r: seq<Pool>)
    reads pools
    ensures |r| == |pools| && forall i :: 0 <= i < |pools| ==> r[i] == pools[i].View()
  {
    seq(|pools|, i requires 0 <= i < |pools| reads pools => pools[i].View())
  }

  lemma RoundsClose(m: Machine, t: nat, p: nat)
    requires p < |m.fleet.pools| && t in m.threads && m.threads[t] == Closing(p, m.fleet.pools[p].cap)
    requires |m.fleet.pools[p].idle| <= m.fleet.pools[p].cap
    ensures Rounds(m, t, |m.fleet.pools[p].idle| + 1) ==
            Machine(Fleet(m.fleet.pools[p := Pool(m.fleet.pools[p].cap, [])], m.fleet.devices,
                          m.fleet.closed + Elements(m.fleet.pools[p].idle), m.fleet.dialled), m.threads - {t})
  {
    var f := m.fleet;
    RoundsEmpty(m, t, p);
    ClosedOne(f, f.(pools := f.pools[p := Pool(f.pools[p].cap, [])], closed := f.closed + Elements(f.pools[p].idle)), p);
  }

  /** Closing one pool and leaving the others alone is emptying that one. */
  lemma ClosedOne(f: Fleet, f': Fleet, p: nat)
    requires |f'.pools| == |f.pools| && p < |f.pools| && f'.pools[p] == f.pools[p].(idle := [])
    requires forall i :: 0 <= i < |f.pools| && i != p ==> f'.pools[i] == f.pools[i]
    requires f'.closed == f.closed + Elements(f.pools[p].idle) && f'.dialled == f.dialled && f'.devices == f.devices
    ensures f' == Emptied(f, {p})
  {
    IdleOfOne(f.pools, p);
    assert f'.pools == Drained(f.pools, {p});
  }

  lemma EmptiedNone(f: Fleet)
    ensures Emptied(f, {}) == f
  {
    assert IdleOf(f.pools, {}) == {};
    assert Drained(f.pools, {}) == f.pools;
  }

  lemma EmptiedTwice(f: Fleet, a: set<nat>, b: set<nat>)
    ensures Emptied(Emptied(f, a), b) == Emptied(f, a + b)
  {
    var g := Emptied(f, a);
    forall c: nat ensures c in IdleOf(f.pools, a) + IdleOf(g.pools, b) <==> c in IdleOf(f.pools, a + b) {
      IdleMember(f.pools, a, c);
      IdleMember(g.pools, b, c);
      IdleMember(f.pools, a + b, c);
    }
    assert f.closed + IdleOf(f.pools, a) + IdleOf(g.pools, b) == f.closed + IdleOf(f.pools, a + b);
  }
}
