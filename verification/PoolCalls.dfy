/** What one call on a pool and one command of the manager come to. */
module PoolCalls {
  import opened Wrappers
  import opened ConnectionPool

  /** An undisturbed call takes the client that has waited longest and puts it at the end of the channel. */
  lemma IdleClientServes(m: Machine, t: nat, id: string)
    requires Formed(m) && t !in m.threads && id in m.fleet.devices && m.fleet.pools[m.fleet.devices[id]].idle != []
    ensures var p := m.fleet.devices[id];
            var idle := m.fleet.pools[p].idle;
            var held := Next(Next(m, Begin(t, id)), Take(t));
            && HeldBy(held.threads, t, idle[0])
            && Next(held, Finish(t)) == WithPool(m, p, m.fleet.pools[p].(idle := idle[1..] + [idle[0]]))
  {
    var p := m.fleet.devices[id];
    var m1 := Next(m, Begin(t, id));
    assert m1.threads == m.threads[t := Waiting(p)];
    var held := Next(m1, Take(t));
    assert held.threads - {t} == m.threads;
  }

  /** A call that waited in vain dials; the new connection stays in the channel if there is room and is closed if not. */
  lemma NewConnectionServes(m: Machine, t: nat, id: string)
    requires Formed(m) && t !in m.threads && id in m.fleet.devices
    ensures var p, c := m.fleet.devices[id], m.fleet.dialled;
            var pool := m.fleet.pools[p];
            var held := Next(Next(m, Begin(t, id)), DialOk(t));
            var m' := Next(held, Finish(t));
            && HeldBy(held.threads, t, c) && m'.fleet.dialled == c + 1 && m'.threads == m.threads && m'.fleet.devices == m.fleet.devices
            && (if |pool.idle| < pool.cap
                then m'.fleet.pools == m.fleet.pools[p := pool.(idle := pool.idle + [c])] && m'.fleet.closed == m.fleet.closed
                else m'.fleet.pools == m.fleet.pools && m'.fleet.closed == m.fleet.closed + {c})
  {
    var held := Next(Next(m, Begin(t, id)), DialOk(t));
    assert held.threads - {t} == m.threads;
  }

  /** And if the device does not answer, nothing has changed. */
  lemma NoConnectionServes(m: Machine, t: nat, id: string)
    requires t !in m.threads && id in m.fleet.devices && m.fleet.devices[id] < |m.fleet.pools|
    ensures Next(Next(m, Begin(t, id)), DialFail(t)) == m
  {
    assert Next(m, Begin(t, id)).threads - {t} == m.threads;
  }

  /** A device that answers every dial is registered with a full pool of the size asked for, or of five. */
  lemma AddedPool(f: Fleet, id: string, size: int)
    requires id != ""
    ensures var f' := Perform(f, Add(id, size, None));
            var n := if size <= 0 then 5 else size;
            && id in f'.devices && f'.devices[id] == |f.pools| && |f'.pools| == |f.pools| + 1 && f'.pools[..|f.pools|] == f.pools
            && f'.pools[|f.pools|].cap == n == |f'.pools[|f.pools|].idle|
            && (forall i :: 0 <= i < n ==> f'.pools[|f.pools|].idle[i] == f.dialled + i)
            && f'.dialled == f.dialled + n && f'.closed == f.closed
            && (forall other :: other != id ==> (other in f'.devices <==> other in f.devices) && (other in f.devices ==> f'.devices[other] == f.devices[other]))
  {
  }

  /** Removing a device closes its idle clients and forgets it; the other pools stay. */
  lemma RemovedPool(f: Fleet, id: string)
    requires id in f.devices && f.devices[id] < |f.pools|
    ensures var f', p := Perform(f, Remove(id)), f.devices[id];
            && f'.devices == f.devices - {id} && f'.pools == f.pools[p := f.pools[p].(idle := [])]
            && (forall c :: c in f'.closed <==> c in f.closed || c in f.pools[p].idle) && f'.dialled == f.dialled
  {
    var f', p := Perform(f, Remove(id)), f.devices[id];
    forall c: nat ensures c in IdleOf(f.pools, {p}) <==> c in f.pools[p].idle {
      IdleMember(f.pools, {p}, c);
    }
    assert f'.pools == Drained(f.pools, {p}) == f.pools[p := f.pools[p].(idle := [])];
  }
}
