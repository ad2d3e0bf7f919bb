/** What Close leaves open: clients that calls hold, and clients of pools the manager has dropped. */
module PoolLeaks {
  import opened Wrappers
  import opened ConnectionPool

  function Unregistered(f: Fleet): set<nat> {
    Upto(|f.pools|) - f.devices.Values
  }

  /** Idle clients of pools that the manager no longer knows. */
  function Stray(f: Fleet): set<nat> {
    IdleOf(f.pools, Unregistered(f))
  }

  lemma IdleSplits(f: Fleet)
    ensures IdleConns(f) == IdleOf(f.pools, f.devices.Values) + Stray(f)
  {
    forall c: nat ensures c in IdleConns(f) <==> c in IdleOf(f.pools, f.devices.Values) + Stray(f) {
      IdleMember(f.pools, Upto(|f.pools|), c);
      IdleMember(f.pools, f.devices.Values, c);
      IdleMember(f.pools, Unregistered(f), c);
      if p :| 0 <= p < |f.pools| && c in f.pools[p].idle {
        assert p in Upto(|f.pools|);
        assert p in f.devices.Values || p in Unregistered(f);
      }
    }
  }

  lemma StrayAreOpen(m: Machine, place: seq<Place>)
    requires Placed(m, place)
    ensures Stray(m.fleet) !! IdleOf(m.fleet.pools, m.fleet.devices.Values)
  {
    var f := m.fleet;
    forall c | c in Stray(f) ensures c !in IdleOf(f.pools, f.devices.Values) {
      IdleMember(f.pools, f.devices.Values, c);
      IdleMember(f.pools, Unregistered(f), c);
      var p :| p in Unregistered(f) && p < |f.pools| && c in f.pools[p].idle;
      assert InChannel(f, p, c);
      forall q | q in f.devices.Values && q < |f.pools| ensures c !in f.pools[q].idle {
        assert InChannel(f, q, c) <==> c < |place| && place[c] == Idle(q);
      }
    }
  }

  /**
   After any interleaving, Close closes everything ever dialled exactly when no call
   holds a client and no pool that was dropped has one in its channel.
   */
  lemma CloseIsComplete(actions: seq<Action>)
    ensures var m, f := RunOf(actions), RunOf(actions + [Do(CloseAll)]).fleet;
            f.closed == Upto(f.dialled) <==> HeldConns(m.threads) == {} && Stray(m.fleet) == {}
  {
    var m := RunOf(actions);
    Snoc(actions, Do(CloseAll));
    var f := RunOf(actions + [Do(CloseAll)]).fleet;
    var place := ConnectionsConserved(actions);
    PlacedDivides(m, place);
    IdleSplits(m.fleet);
    StrayAreOpen(m, place);
    assert f.closed == m.fleet.closed + IdleOf(m.fleet.pools, m.fleet.devices.Values) && f.dialled == m.fleet.dialled;
    WhatIsLeft(m.fleet.closed, IdleOf(m.fleet.pools, m.fleet.devices.Values), Stray(m.fleet), HeldConns(m.threads), Upto(m.fleet.dialled));
  }

  lemma WhatIsLeft(closed: set<nat>, known: set<nat>, stray: set<nat>, held: set<nat>, all: set<nat>)
    requires known !! stray && (known + stray) !! held && (known + stray) !! closed && held !! closed
    requires known + stray + held + closed == all
    ensures closed + known == all <==> held == {} && stray == {}
  {
    if c :| c in held + stray {
      assert c in all && c !in closed + known;
    }
  }

  /** A dropped pool that no call refers to. */
  ghost predicate Abandoned(m: Machine, p: nat) {
    p in Unregistered(m.fleet) && forall t :: t in m.threads ==> m.threads[t].pool != p
  }

  lemma StaysAbandoned(m: Machine, a: Action, p: nat)
    requires Abandoned(m, p)
    ensures Abandoned(Next(m, a), p) && Next(m, a).fleet.pools[p] == m.fleet.pools[p]
  {
  }

  lemma {:induction false} AbandonedOnRuns(actions: seq<Action>, more: seq<Action>, p: nat)
    requires Abandoned(RunOf(actions), p)
    ensures var m, m' := RunOf(actions), RunOf(actions + more);
            Abandoned(m', p) && m'.fleet.pools[p] == m.fleet.pools[p]
  {
    if more == [] {
      assert actions + more == actions;
    } else {
      var init, a := more[..|more| - 1], more[|more| - 1];
      AbandonedOnRuns(actions, init, p);
      assert actions + more == (actions + init) + [a];
      Snoc(actions + init, a);
      StaysAbandoned(RunOf(actions + init), a, p);
    }
  }

  /** Nothing ever touches an abandoned pool again: its clients stay open for good. */
  lemma OpenForGood(actions: seq<Action>, more: seq<Action>, p: nat)
    requires Abandoned(RunOf(actions), p)
    ensures var m, m' := RunOf(actions), RunOf(actions + more);
            && Abandoned(m', p) && m'.fleet.pools[p] == m.fleet.pools[p]
            && Elements(m.fleet.pools[p].idle) !! m'.fleet.closed
  {
    AbandonedOnRuns(actions, more, p);
    IdleAreOpen(actions + more, p);
  }

  lemma IdleAreOpen(actions: seq<Action>, p: nat)
    requires p < |RunOf(actions).fleet.pools|
    ensures Elements(RunOf(actions).fleet.pools[p].idle) !! RunOf(actions).fleet.closed
  {
    var f := RunOf(actions).fleet;
    var place := ConnectionsConserved(actions);
    forall c | c in f.pools[p].idle ensures c !in f.closed {
      assert InChannel(f, p, c);
    }
  }

  /** The first pool of an id that is added twice is abandoned with its connection. */
  lemma ReplacedPoolLeaks()
    ensures var m := RunOf([Do(Add("d", 1, None)), Do(Add("d", 1, None))] + [Do(CloseAll)]);
            m.fleet.dialled == 2 && m.fleet.closed == {1} && Abandoned(m, 0) && m.fleet.pools[0].idle == [0]
  {
    var add := Do(Add("d", 1, None));
    AddedTwice();
    Snoc([add, add], Do(CloseAll));
    AllClosed();
  }

  lemma AllClosed()
    ensures Perform(Fleet([Pool(1, [0]), Pool(1, [1])], map["d" := 1], {}, 2), CloseAll) ==
            Fleet([Pool(1, [0]), Pool(1, [])], map["d" := 1], {1}, 2)
  {
    var two := Fleet([Pool(1, [0]), Pool(1, [1])], map["d" := 1], {}, 2);
    assert two.devices["d"] == 1 && two.devices.Values == {1};
    SecondEmptied();
  }

  lemma SecondEmptied()
    ensures var pools := [Pool(1, [0]), Pool(1, [1])];
            IdleOf(pools, {1}) == {1} && Drained(pools, {1}) == [Pool(1, [0]), Pool(1, [])]
  {
    IdleOfOne([Pool(1, [0]), Pool(1, [1])], 1);
    assert Elements([1]) == {1};
  }

  lemma AddedTwice()
    ensures RunOf([Do(Add("d", 1, None)), Do(Add("d", 1, None))]) ==
            Machine(Fleet([Pool(1, [0]), Pool(1, [1])], map["d" := 1], {}, 2), map[])
  {
    var add := Do(Add("d", 1, None));
    FirstAdded();
    SecondAdded();
    Snoc([], add);
    Snoc([add], add);
    assert [] + [add] == [add] && [add] + [add] == [add, add];
  }

  lemma FirstAdded()
    ensures Next(START, Do(Add("d", 1, None))) == Machine(Fleet([Pool(1, [0])], map["d" := 0], {}, 1), map[])
  {
    assert Range(0, 1) == [0];
  }

  lemma SecondAdded()
    ensures Next(Machine(Fleet([Pool(1, [0])], map["d" := 0], {}, 1), map[]), Do(Add("d", 1, None))) ==
            Machine(Fleet([Pool(1, [0]), Pool(1, [1])], map["d" := 1], {}, 2), map[])
  {
    assert Range(1, 1) == [1];
    assert [Pool(1, [0])] + [Pool(1, [1])] == [Pool(1, [0]), Pool(1, [1])];
    assert map["d" := 0]["d" := 1] == map["d" := 1];
  }

  lemma IdleOfOne(pools: seq<Pool>, p: nat)
    requires p < |pools|
    ensures IdleOf(pools, {p}) == Elements(pools[p].idle)
  {
    forall c: nat ensures c in IdleOf(pools, {p}) <==> c in pools[p].idle {
      IdleMember(pools, {p}, c);
    }
  }

  lemma ThreeSteps(a: Action, b: Action, c: Action)
    ensures RunOf([a, b, c]) == Next(Next(Next(START, a), b), c)
  {
    Snoc([], a);
    Snoc([a], b);
    Snoc([a, b], c);
    assert [] + [a] == [a] && [a] + [b] == [a, b] && [a, b] + [c] == [a, b, c];
  }

  /** A device is removed while a call holds its client, which then goes back into the dropped channel. */
  lemma LateReturnLeaks()
    ensures var m := RunOf([Do(Add("d", 1, None)), Begin(7, "d"), Take(7)] + [Do(Remove("d"))] + [Finish(7)]);
            m.fleet.closed == {} && Abandoned(m, 0) && m.fleet.pools[0].idle == [0]
  {
    var first := [Do(Add("d", 1, None)), Begin(7, "d"), Take(7)];
    ClientTaken();
    DeviceRemoved();
    Snoc(first, Do(Remove("d")));
    Snoc(first + [Do(Remove("d"))], Finish(7));
    ClientReturned();
  }

  lemma DeviceRemoved()
    ensures Next(Machine(Fleet([Pool(1, [])], map["d" := 0], {}, 1), map[7 := Holding(0, 0)]), Do(Remove("d"))) ==
            Machine(Fleet([Pool(1, [])], map[], {}, 1), map[7 := Holding(0, 0)])
  {
    IdleOfOne([Pool(1, [])], 0);
    assert map["d" := 0] - {"d"} == map[];
  }

  lemma ClientReturned()
    ensures Next(Machine(Fleet([Pool(1, [])], map[], {}, 1), map[7 := Holding(0, 0)]), Finish(7)) ==
            Machine(Fleet([Pool(1, [0])], map[], {}, 1), map[])
  {
    assert map[7 := Holding(0, 0)] - {7} == map[];
    assert [] + [0] == [0] && [Pool(1, [])][0 := Pool(1, [0])] == [Pool(1, [0])];
  }

  lemma ClientTaken()
    ensures RunOf([Do(Add("d", 1, None)), Begin(7, "d"), Take(7)]) ==
            Machine(Fleet([Pool(1, [])], map["d" := 0], {}, 1), map[7 := Holding(0, 0)])
  {
    FirstAdded();
    var one := Machine(Fleet([Pool(1, [0])], map["d" := 0], {}, 1), map[]);
    var waiting := one.(threads := map[7 := Waiting(0)]);
    assert Next(one, Begin(7, "d")) == waiting;
    assert [0][1..] == [] && waiting.threads[7 := Holding(0, 0)] == map[7 := Holding(0, 0)];
    assert waiting.fleet.pools[0 := Pool(1, [])] == [Pool(1, [])];
    ThreeSteps(Do(Add("d", 1, None)), Begin(7, "d"), Take(7));
  }

  // ---- Commands at rest ----------------------------------------------------

  /** The manager's commands come while no call is in flight. */
  predicate Quiet(actions: seq<Action>) {
    actions == [] ||
    (Quiet(actions[..|actions| - 1]) && (actions[|actions| - 1].Do? ==> RunOf(actions[..|actions| - 1]).threads == map[]))
  }

  /** The clients of a pool that is replaced under its id, or dropped, without being closed. */
  function Orphaned(f: Fleet, a: Action): set<nat> {
    if a.Do? && Unregisters(a.command) && a.command.id in f.devices && f.devices[a.command.id] < |f.pools|
    then Elements(f.pools[f.devices[a.command.id]].idle) else {}
  }

  predicate Unregisters(c: Command) {
    (c.Add? && Succeeds(c)) || c.Drop?
  }

  function Orphans(actions: seq<Action>): set<nat> {
    if actions == [] then {}
    else Orphans(actions[..|actions| - 1]) + Orphaned(RunOf(actions[..|actions| - 1]).fleet, actions[|actions| - 1])
  }

  /** Calls in flight are on registered pools. */
  ghost predicate OnRegistered(m: Machine) {
    forall t :: t in m.threads ==> m.threads[t].pool in m.fleet.devices.Values
  }

  lemma SameStray(f: Fleet, f': Fleet)
    requires |f'.pools| == |f.pools| && Unregistered(f') == Unregistered(f)
    requires forall p :: p in Unregistered(f) ==> f'.pools[p] == f.pools[p]
    ensures Stray(f') == Stray(f)
  {
    forall c: nat ensures c in Stray(f') <==> c in Stray(f) {
      IdleMember(f.pools, Unregistered(f), c);
      IdleMember(f'.pools, Unregistered(f), c);
    }
  }

  lemma CallStray(m: Machine, a: Action)
    requires Formed(m) && OnRegistered(m) && !a.Do?
    ensures OnRegistered(Next(m, a)) && Stray(Next(m, a).fleet) == Stray(m.fleet)
  {
    SameStray(m.fleet, Next(m, a).fleet);
  }

  lemma AddStray(f: Fleet, id: string, n: nat)
    requires Formed(Machine(f, map[]))
    ensures var f' := f.(pools := f.pools + [Pool(n, Range(f.dialled, n))], devices := f.devices[id := |f.pools|], dialled := f.dialled + n);
            Stray(f') == Stray(f) + if id in f.devices then Elements(f.pools[f.devices[id]].idle) else {}
  {
    var f' := f.(pools := f.pools + [Pool(n, Range(f.dialled, n))], devices := f.devices[id := |f.pools|], dialled := f.dialled + n);
    AddRegisters(f, id);
    var replaced := if id in f.devices then {f.devices[id]} else {};
    IdleOfAppend(f.pools, Pool(n, Range(f.dialled, n)), Unregistered(f) + replaced);
    IdleOfUnion(f.pools, Unregistered(f), replaced);
    if id in f.devices {
      IdleOfOne(f.pools, f.devices[id]);
    } else {
      assert IdleOf(f.pools, {}) == {};
    }
  }

  lemma IdleOfUnion(pools: seq<Pool>, a: set<nat>, b: set<nat>)
    ensures IdleOf(pools, a + b) == IdleOf(pools, a) + IdleOf(pools, b)
  {
    forall c: nat ensures c in IdleOf(pools, a + b) <==> c in IdleOf(pools, a) + IdleOf(pools, b) {
      IdleMember(pools, a + b, c);
      IdleMember(pools, a, c);
      IdleMember(pools, b, c);
    }
  }

  lemma IdleOfAppend(pools: seq<Pool>, pool: Pool, which: set<nat>)
    requires forall p :: p in which ==> p < |pools|
    ensures IdleOf(pools + [pool], which) == IdleOf(pools, which)
  {
    forall c: nat ensures c in IdleOf(pools + [pool], which) <==> c in IdleOf(pools, which) {
      IdleMember(pools + [pool], which, c);
      IdleMember(pools, which, c);
    }
  }

  lemma AddRegisters(f: Fleet, id: string)
    requires Formed(Machine(f, map[]))
    ensures Upto(|f.pools| + 1) - f.devices[id := |f.pools|].Values ==
            Unregistered(f) + if id in f.devices then {f.devices[id]} else {}
  {
    var devices := f.devices[id := |f.pools|];
    forall p: nat | p < |f.pools| ensures p in devices.Values <==> p in f.devices.Values && !(id in f.devices && p == f.devices[id]) {
      if p in f.devices.Values {
        var d :| d in f.devices && f.devices[d] == p;
        if d != id {
          assert d in devices && devices[d] == p;
        }
      }
      if p in devices.Values {
        var d :| d in devices && devices[d] == p;
        assert d != id && d in f.devices;
      }
    }
    assert devices[id] == |f.pools| && |f.pools| in devices.Values;
  }

  lemma RemoveStray(f: Fleet, id: string)
    requires Formed(Machine(f, map[])) && id in f.devices
    ensures Stray(Perform(f, Remove(id))) == Stray(f)
  {
    var f', p := Perform(f, Remove(id)), f.devices[id];
    assert f'.pools[p].idle == [];
    forall d | d in f.devices && d != id ensures f.devices[d] in f'.devices.Values {
      assert f'.devices[d] == f.devices[d];
    }
    forall c: nat ensures c in Stray(f') <==> c in Stray(f) {
      IdleMember(f.pools, Unregistered(f), c);
      IdleMember(f'.pools, Unregistered(f'), c);
      if q :| q in Unregistered(f) && c in f.pools[q].idle {
        assert q != p && q in Unregistered(f') && f'.pools[q] == f.pools[q];
      }
      if q :| q in Unregistered(f') && c in f'.pools[q].idle {
        assert q != p && f'.pools[q] == f.pools[q];
      }
    }
  }

  lemma CommandStray(f: Fleet, c: Command)
    requires Formed(Machine(f, map[]))
    ensures Stray(Perform(f, c)) == Stray(f) + Orphaned(f, Do(c))
  {
    match c
    case Add(id, size, failsAt) =>
      if Succeeds(c) {
        AddStray(f, id, SizeOf(size));
      } else {
        SameStray(f, Perform(f, c));
      }
    case Remove(id) =>
      if id in f.devices {
        RemoveStray(f, id);
      }
    case CloseAll => SameStray(f, Perform(f, c));
    case Drop(id) =>
      if id in f.devices {
        DropStray(f, id);
      } else {
        assert f.devices - {id} == f.devices;
      }
  }

  lemma DropStray(f: Fleet, id: string)
    requires Formed(Machine(f, map[])) && id in f.devices
    ensures Stray(f.(devices := f.devices - {id})) == Stray(f) + Elements(f.pools[f.devices[id]].idle)
  {
    var f', p := f.(devices := f.devices - {id}), f.devices[id];
    forall d | d in f.devices && d != id ensures f.devices[d] in f'.devices.Values {
      assert f'.devices[d] == f.devices[d];
    }
    assert p !in f'.devices.Values && Unregistered(f') == Unregistered(f) + {p};
    IdleOfUnion(f.pools, Unregistered(f), {p});
    IdleOfOne(f.pools, p);
  }

  lemma {:induction false} StrayAreOrphans(actions: seq<Action>)
    requires Quiet(actions)
    ensures OnRegistered(RunOf(actions)) && Stray(RunOf(actions).fleet) == Orphans(actions)
  {
    if actions == [] {
      assert Stray(START.fleet) == {};
    } else {
      var init, a := actions[..|actions| - 1], actions[|actions| - 1];
      StrayAreOrphans(init);
      var _ := ConnectionsConserved(init);
      if a.Do? {
        CommandStray(RunOf(init).fleet, a.command);
      } else {
        CallStray(RunOf(init), a);
        assert Orphaned(RunOf(init).fleet, a) == {};
      }
    }
  }

  /**
   When commands come at rest, whatever calls run in between, Close closes everything
   ever dialled exactly when no pool with idle clients was replaced under its id.
   */
  lemma ManagerCloseIsComplete(actions: seq<Action>)
    requires Quiet(actions) && RunOf(actions).threads == map[]
    ensures var f := RunOf(actions + [Do(CloseAll)]).fleet;
            f.closed == Upto(f.dialled) <==> Orphans(actions) == {}
  {
    StrayAreOrphans(actions);
    CloseIsComplete(actions);
    assert HeldConns(map[]) == {};
  }

  // ---- Any interleaving, by its history ------------------------------------

  /** Idle clients of a registered pool become stray with it, and so does a client returned to a dropped pool. */
  function Gained(m: Machine, a: Action): set<nat> {
    if a.Finish? && At(m, a.t) && m.threads[a.t].Holding? && ToDropped(m, a.t) && HasRoom(m, a.t) then {m.threads[a.t].conn}
    else Orphaned(m.fleet, a)
  }

  /** A call takes a stray client after all, or a Close that is still under way closes it. */
  function Regained(m: Machine, a: Action): set<nat> {
    if (a.Take? || a.Round?) && At(m, a.t) && ToDropped(m, a.t) && m.fleet.pools[m.threads[a.t].pool].idle != []
       && (if a.Take? then m.threads[a.t].Waiting? else m.threads[a.t].Closing? && m.threads[a.t].left > 0)
    then {m.fleet.pools[m.threads[a.t].pool].idle[0]} else {}
  }

  predicate ToDropped(m: Machine, t: nat)
    requires t in m.threads
  {
    m.threads[t].pool in Unregistered(m.fleet)
  }

  predicate HasRoom(m: Machine, t: nat)
    requires At(m, t)
  {
    |m.fleet.pools[m.threads[t].pool].idle| < m.fleet.pools[m.threads[t].pool].cap
  }

  function Strays(actions: seq<Action>): set<nat> {
    if actions == [] then {}
    else
      var m, a := RunOf(actions[..|actions| - 1]), actions[|actions| - 1];
      Strays(actions[..|actions| - 1]) + Gained(m, a) - Regained(m, a)
  }

  /** A change to one channel changes what is stray by that channel, if its pool was dropped. */
  lemma StrayByPool(f: Fleet, f': Fleet, p: nat)
    requires |f'.pools| == |f.pools| && f'.devices == f.devices && p < |f.pools|
    requires forall q :: 0 <= q < |f.pools| && q != p ==> f'.pools[q] == f.pools[q]
    ensures p !in Unregistered(f) ==> Stray(f') == Stray(f)
    ensures p in Unregistered(f) ==>
              && Stray(f) == IdleOf(f.pools, Unregistered(f) - {p}) + Elements(f.pools[p].idle)
              && Stray(f') == IdleOf(f.pools, Unregistered(f) - {p}) + Elements(f'.pools[p].idle)
  {
    var others := Unregistered(f) - {p};
    forall c: nat ensures c in IdleOf(f'.pools, others) <==> c in IdleOf(f.pools, others) {
      IdleMember(f.pools, others, c);
      IdleMember(f'.pools, others, c);
    }
    if p in Unregistered(f) {
      assert Unregistered(f) == others + {p} && Unregistered(f') == others + {p};
      IdleOfUnion(f.pools, others, {p});
      IdleOfUnion(f'.pools, others, {p});
      IdleOfOne(f.pools, p);
      IdleOfOne(f'.pools, p);
    } else {
      SameStray(f, f');
    }
  }

  /** A client in one channel is in no other. */
  lemma OneChannel(m: Machine, place: seq<Place>, p: nat, which: set<nat>)
    requires Placed(m, place) && p < |m.fleet.pools| && p !in which
    ensures IdleOf(m.fleet.pools, which) !! Elements(m.fleet.pools[p].idle)
  {
    var f := m.fleet;
    forall c | c in f.pools[p].idle ensures c !in IdleOf(f.pools, which) {
      IdleMember(f.pools, which, c);
      assert InChannel(f, p, c);
      forall q | q in which && q < |f.pools| ensures c !in f.pools[q].idle {
        assert InChannel(f, q, c) <==> c < |place| && place[c] == Idle(q);
      }
    }
  }

  lemma ElementsTail(s: seq<nat>)
    requires s != [] && NoRepeat(s)
    ensures Elements(s[1..]) == Elements(s) - {s[0]} && s[0] in Elements(s)
  {
    assert s == [s[0]] + s[1..];
    forall c | c in Elements(s[1..]) ensures c != s[0] {
      var i :| 0 <= i < |s[1..]| && s[1..][i] == c;
      assert s[i + 1] == c;
    }
  }

  /** Taking the first client off a channel. */
  lemma FirstLeaves(m: Machine, place: seq<Place>, f': Fleet, p: nat)
    requires Placed(m, place) && Formed(m) && p < |m.fleet.pools| && m.fleet.pools[p].idle != []
    requires f'.pools == m.fleet.pools[p := m.fleet.pools[p].(idle := m.fleet.pools[p].idle[1..])] && f'.devices == m.fleet.devices
    ensures Stray(f') == Stray(m.fleet) - (if p in Unregistered(m.fleet) then {m.fleet.pools[p].idle[0]} else {})
  {
    StrayByPool(m.fleet, f', p);
    if p in Unregistered(m.fleet) {
      OneChannel(m, place, p, Unregistered(m.fleet) - {p});
      ElementsTail(m.fleet.pools[p].idle);
    }
  }

  lemma FinishStray(m: Machine, t: nat)
    ensures Stray(Next(m, Finish(t)).fleet) == Stray(m.fleet) + Gained(m, Finish(t))
  {
    if At(m, t) && m.threads[t].Holding? {
      var p, f' := m.threads[t].pool, Next(m, Finish(t)).fleet;
      StrayByPool(m.fleet, f', p);
      if HasRoom(m, t) {
        assert Elements(m.fleet.pools[p].idle + [m.threads[t].conn]) == Elements(m.fleet.pools[p].idle) + {m.threads[t].conn};
      }
    }
  }

  lemma TakeStray(m: Machine, place: seq<Place>, a: Action)
    requires Placed(m, place) && Formed(m) && (a.Take? || a.Round?)
    ensures Stray(Next(m, a).fleet) == Stray(m.fleet) - Regained(m, a)
  {
    if Next(m, a).fleet != m.fleet {
      FirstLeaves(m, place, Next(m, a).fleet, m.threads[a.t].pool);
    }
  }

  lemma StrayStep(m: Machine, place: seq<Place>, a: Action)
    requires Placed(m, place) && Formed(m)
    ensures Stray(Next(m, a).fleet) == Stray(m.fleet) + Gained(m, a) - Regained(m, a)
  {
    match a
    case Do(c) => CommandStray(m.fleet, c);
    case Finish(t) => FinishStray(m, t);
    case Take(_) => TakeStray(m, place, a);
    case Round(_) => TakeStray(m, place, a);
    case DialOk(_) => SameStray(m.fleet, Next(m, a).fleet);
    case _ =>
  }

  /** Over every interleaving, what is stray is what became so and was not taken or closed since. */
  lemma {:induction false} StrayByHistory(actions: seq<Action>)
    ensures Stray(RunOf(actions).fleet) == Strays(actions)
  {
    if actions == [] {
      assert Stray(START.fleet) == {};
    } else {
      var init, a := actions[..|actions| - 1], actions[|actions| - 1];
      StrayByHistory(init);
      var place := ConnectionsConserved(init);
      StrayStep(RunOf(init), place, a);
    }
  }

  /** So Close is complete after a run exactly when no call holds a client and no client is stray by the history of the run. */
  lemma CloseIsCompleteByHistory(actions: seq<Action>)
    ensures var f := RunOf(actions + [Do(CloseAll)]).fleet;
            f.closed == Upto(f.dialled) <==> HeldConns(RunOf(actions).threads) == {} && Strays(actions) == {}
  {
    CloseIsComplete(actions);
    StrayByHistory(actions);
  }
}
