/** Close as the rounds it is made of, with calls on the pool in between. */
module ClosingRounds {
  import opened ConnectionPool
  import opened PoolLeaks

  // ---- Undisturbed ---------------------------------------------------------

  function Rounds(m: Machine, t: nat, n: nat): Machine
    decreases n
  {
    if n == 0 then m else Rounds(Next(m, Round(t)), t, n - 1)
  }

  /** With no call in between, the rounds empty the channel and the thread ends. */
  lemma {:induction false} RoundsEmpty(m: Machine, t: nat, p: nat)
    requires t in m.threads && m.threads[t].Closing? && m.threads[t].pool == p < |m.fleet.pools|
    requires |m.fleet.pools[p].idle| <= m.threads[t].left
    ensures Rounds(m, t, |m.fleet.pools[p].idle| + 1) == Machine(Emptied(m.fleet, {p}), m.threads - {t})
    decreases |m.fleet.pools[p].idle|
  {
    if m.fleet.pools[p].idle == [] {
      LastRound(m, t, p);
    } else {
      var m' := EarlierRound(m, t, p);
      RoundsEmpty(m', t, p);
    }
  }

  lemma LastRound(m: Machine, t: nat, p: nat)
    requires t in m.threads && m.threads[t].Closing? && m.threads[t].pool == p < |m.fleet.pools|
    requires m.fleet.pools[p].idle == []
    ensures Rounds(m, t, 1) == Machine(Emptied(m.fleet, {p}), m.threads - {t})
  {
    NothingToEmpty(m.fleet, p);
    assert Rounds(Next(m, Round(t)), t, 0) == Next(m, Round(t));
  }

  lemma EarlierRound(m: Machine, t: nat, p: nat) returns (m': Machine)
    requires t in m.threads && m.threads[t].Closing? && m.threads[t].pool == p < |m.fleet.pools|
    requires 0 < |m.fleet.pools[p].idle| <= m.threads[t].left
    ensures m' == Next(m, Round(t)) && t in m'.threads && m'.threads[t] == Closing(p, m.threads[t].left - 1)
    ensures p < |m'.fleet.pools| && |m'.fleet.pools[p].idle| == |m.fleet.pools[p].idle| - 1
    ensures Emptied(m'.fleet, {p}) == Emptied(m.fleet, {p}) && m'.threads - {t} == m.threads - {t}
  {
    m' := Next(m, Round(t));
    OneLess(m.fleet, m'.fleet, p);
    assert m'.threads - {t} == m.threads - {t};
  }

  lemma NothingToEmpty(f: Fleet, p: nat)
    requires p < |f.pools| && f.pools[p].idle == []
    ensures Emptied(f, {p}) == f
  {
    IdleOfOne(f.pools, p);
    assert Elements([]) == {};
    assert Drained(f.pools, {p}) == f.pools;
  }

  /** After one round there is the rest to empty. */
  lemma OneLess(f: Fleet, f': Fleet, p: nat)
    requires p < |f.pools| && f.pools[p].idle != []
    requires f' == f.(pools := f.pools[p := f.pools[p].(idle := f.pools[p].idle[1..])], closed := f.closed + {f.pools[p].idle[0]})
    ensures Emptied(f', {p}) == Emptied(f, {p})
  {
    var idle := f.pools[p].idle;
    IdleOfOne(f.pools, p);
    IdleOfOne(f'.pools, p);
    assert idle == [idle[0]] + idle[1..];
    assert Elements(idle) == {idle[0]} + Elements(idle[1..]);
    assert Drained(f'.pools, {p}) == Drained(f.pools, {p});
  }

  /** So Remove in one step is what BeginClose, the rounds and Drop come to when no call is in between. */
  lemma UndisturbedRemove(m: Machine, t: nat, id: string)
    requires Formed(m) && t !in m.threads && id in m.fleet.devices
    ensures var p := m.fleet.devices[id];
            Next(Rounds(Next(m, BeginClose(t, id)), t, |m.fleet.pools[p].idle| + 1), Do(Drop(id))) == Next(m, Do(Remove(id)))
  {
    var p, m1 := m.fleet.devices[id], Next(m, BeginClose(t, id));
    RoundsEmpty(m1, t, p);
    assert m1.threads - {t} == m.threads;
  }

  // ---- With calls in between -----------------------------------------------

  function RunFrom(m: Machine, actions: seq<Action>): Machine {
    if actions == [] then m else Next(RunFrom(m, actions[..|actions| - 1]), actions[|actions| - 1])
  }

  /** The client that a call returns to pool p in this step. */
  function ReturnedBy(m: Machine, a: Action, p: nat): set<nat> {
    if a.Finish? && At(m, a.t) && m.threads[a.t].Holding? && m.threads[a.t].pool == p then {m.threads[a.t].conn} else {}
  }

  function ReturnedTo(m: Machine, actions: seq<Action>, p: nat): set<nat> {
    if actions == [] then {}
    else ReturnedTo(m, actions[..|actions| - 1], p) + ReturnedBy(RunFrom(m, actions[..|actions| - 1]), actions[|actions| - 1], p)
  }

  /** Every idle client of p is among those. */
  ghost predicate Swept(m: Machine, p: nat, since: set<nat>) {
    p < |m.fleet.pools| && forall i :: 0 <= i < |m.fleet.pools[p].idle| ==> m.fleet.pools[p].idle[i] in since
  }

  /** Thread t is closing p, and what lies beyond its rounds is among those. */
  ghost predicate Sweeps(m: Machine, t: nat, p: nat, since: set<nat>) {
    && p < |m.fleet.pools| && t in m.threads && m.threads[t].Closing? && m.threads[t].pool == p
    && forall i :: m.threads[t].left <= i < |m.fleet.pools[p].idle| ==> m.fleet.pools[p].idle[i] in since
  }

  /** What a step does to the channel of p: it loses its first client, gains a returned one, is emptied, or stays. */
  lemma ChannelStep(m: Machine, a: Action, p: nat)
    requires p < |m.fleet.pools|
    ensures var m' := Next(m, a);
            var idle := m.fleet.pools[p].idle;
            && p < |m'.fleet.pools|
            && var idle' := m'.fleet.pools[p].idle;
               || idle' == idle || idle' == [] || (idle != [] && idle' == idle[1..])
               || (ReturnedBy(m, a, p) != {} && |idle'| == |idle| + 1 && idle'[..|idle|] == idle && idle'[|idle|] in ReturnedBy(m, a, p))
  {
  }

  lemma SweptStep(m: Machine, a: Action, p: nat, since: set<nat>)
    requires Swept(m, p, since)
    ensures Swept(Next(m, a), p, since + ReturnedBy(m, a, p))
  {
    ChannelStep(m, a, p);
    var idle, idle' := m.fleet.pools[p].idle, Next(m, a).fleet.pools[p].idle;
    forall i | 0 <= i < |idle'| ensures idle'[i] in since + ReturnedBy(m, a, p) {
      assert i < |idle| ==> idle[i] in since;
    }
  }

  /** A step of anyone else. */
  lemma OtherSweeps(m: Machine, a: Action, t: nat, p: nat, since: set<nat>)
    requires Sweeps(m, t, p, since) && a != Round(t)
    ensures Sweeps(Next(m, a), t, p, since + ReturnedBy(m, a, p))
  {
    ChannelStep(m, a, p);
    var idle, idle' := m.fleet.pools[p].idle, Next(m, a).fleet.pools[p].idle;
    ThreadStays(m, a, t);
    forall i | m.threads[t].left <= i < |idle'| ensures idle'[i] in since + ReturnedBy(m, a, p) {
      assert i < |idle| ==> idle[i] in since;
      assert i + 1 < |idle| ==> idle[i + 1] in since;
    }
  }

  lemma ThreadStays(m: Machine, a: Action, t: nat)
    requires t in m.threads && m.threads[t].Closing? && a != Round(t)
    ensures t in Next(m, a).threads && Next(m, a).threads[t] == m.threads[t]
  {
  }

  /** A round of t, which may be the last. */
  lemma RoundSweeps(m: Machine, t: nat, p: nat, since: set<nat>)
    requires Sweeps(m, t, p, since)
    ensures Sweeps(Next(m, Round(t)), t, p, since) || Swept(Next(m, Round(t)), p, since)
  {
    if !RoundEnds(m, t) {
      var idle := m.fleet.pools[p].idle;
      assert forall i :: 0 <= i < |idle[1..]| ==> idle[1..][i] == idle[i + 1];
    }
  }

  lemma SweepStep(m: Machine, a: Action, t: nat, p: nat, since: set<nat>)
    requires Sweeps(m, t, p, since) || Swept(m, p, since)
    ensures var since' := since + ReturnedBy(m, a, p);
            Sweeps(Next(m, a), t, p, since') || Swept(Next(m, a), p, since')
  {
    var since' := since + ReturnedBy(m, a, p);
    if Swept(m, p, since) {
      SweptStep(m, a, p, since);
    } else if a == Round(t) {
      RoundSweeps(m, t, p, since);
      assert since' == since;
    } else {
      OtherSweeps(m, a, t, p, since);
    }
  }

  lemma {:induction false} SweepRun(m: Machine, actions: seq<Action>, t: nat, p: nat)
    requires Sweeps(m, t, p, {})
    ensures var m', since := RunFrom(m, actions), ReturnedTo(m, actions, p);
            Sweeps(m', t, p, since) || Swept(m', p, since)
  {
    if actions != [] {
      var init, a := actions[..|actions| - 1], actions[|actions| - 1];
      SweepRun(m, init, t, p);
      SweepStep(RunFrom(m, init), a, t, p, ReturnedTo(m, init, p));
    }
  }

  /**
   Whatever calls, closings and commands come between the rounds of a Close and after
   it: once the Close has ended, every idle client of the pool was returned to it since
   the Close began.
   */
  lemma CloseSweeps(before: seq<Action>, t: nat, id: string, actions: seq<Action>)
    requires var m := RunOf(before); t !in m.threads && id in m.fleet.devices
    requires t !in RunFrom(RunOf(before + [BeginClose(t, id)]), actions).threads
    ensures var m, p := RunOf(before + [BeginClose(t, id)]), RunOf(before).fleet.devices[id];
            Swept(RunFrom(m, actions), p, ReturnedTo(m, actions, p))
  {
    var _ := ConnectionsConserved(before);
    Snoc(before, BeginClose(t, id));
    var m, p := RunOf(before + [BeginClose(t, id)]), RunOf(before).fleet.devices[id];
    assert Sweeps(m, t, p, {});
    SweepRun(m, actions, t, p);
  }
}
