/** Backup codes: how often they are accepted over whole runs. */
module BackupCodes {
  import opened Wrappers
  import opened Http
  import opened Texts
  import opened TwoFactor
  import opened TwoFactorRuns

  /** The rows of u, or those of u with one hash. */
  function Copies(codes: seq<BackupCode>, u: nat, h: Option<Hash>): nat {
    if codes == [] then 0
    else
      var c := codes[|codes| - 1];
      Copies(codes[..|codes| - 1], u, h) + if c.owner == u && (h.None? || c.hash == h.value) then 1 else 0
  }

  ghost predicate CodesNumbered(s: State) {
    && (forall i :: 0 <= i < |s.codes| ==> s.codes[i].id < s.nextCode)
    && (forall i, j :: 0 <= i < j < |s.codes| ==> s.codes[i].id != s.codes[j].id)
  }

  lemma {:induction false} WithoutCodesOfCopies(codes: seq<BackupCode>, u: nat, v: nat, h: Option<Hash>)
    ensures Copies(WithoutCodesOf(codes, u), v, h) == if v == u then 0 else Copies(codes, v, h)
  {
    if codes != [] {
      var init, c := codes[..|codes| - 1], codes[|codes| - 1];
      WithoutCodesOfCopies(init, u, v, h);
      CopiesSnoc(WithoutCodesOf(init, u), c, v, h);
    }
  }

  lemma CopiesSnoc(codes: seq<BackupCode>, c: BackupCode, u: nat, h: Option<Hash>)
    ensures Copies(codes + [c], u, h) == Copies(codes, u, h) + if c.owner == u && (h.None? || c.hash == h.value) then 1 else 0
  {
    assert (codes + [c])[..|codes|] == codes;
  }

  lemma {:induction false} CopiesConcat(a: seq<BackupCode>, b: seq<BackupCode>, u: nat, h: Option<Hash>)
    ensures Copies(a + b, u, h) == Copies(a, u, h) + Copies(b, u, h)
  {
    if b == [] {
      assert a + b == a;
    } else {
      var init, c := b[..|b| - 1], b[|b| - 1];
      CopiesConcat(a, init, u, h);
      assert a + b == (a + init) + [c];
      CopiesSnoc(a + init, c, u, h);
    }
  }

  lemma {:induction false} NoSuchCode(codes: seq<BackupCode>, id: nat)
    requires forall i :: 0 <= i < |codes| ==> codes[i].id != id
    ensures WithoutCode(codes, id) == codes
  {
    if codes != [] {
      NoSuchCode(codes[..|codes| - 1], id);
    }
  }

  /** Deleting by id takes away one row and no other. */
  lemma {:induction false} WithoutCodeCopies(codes: seq<BackupCode>, k: nat, v: nat, h: Option<Hash>)
    requires k < |codes| && forall i, j :: 0 <= i < j < |codes| ==> codes[i].id != codes[j].id
    ensures var gone := codes[k];
            Copies(codes, v, h) == Copies(WithoutCode(codes, gone.id), v, h) +
                                   if gone.owner == v && (h.None? || gone.hash == h.value) then 1 else 0
    ensures |WithoutCode(codes, codes[k].id)| == |codes| - 1
  {
    var init, c := codes[..|codes| - 1], codes[|codes| - 1];
    if k == |codes| - 1 {
      NoSuchCode(init, c.id);
    } else {
      WithoutCodeCopies(init, k, v, h);
      CopiesSnoc(WithoutCode(init, codes[k].id), c, v, h);
    }
  }

  lemma {:induction false} CodesOfAreRows(codes: seq<BackupCode>, u: nat)
    ensures forall c :: c in CodesOf(codes, u) ==> c in codes && c.owner == u
  {
    if codes != [] {
      CodesOfAreRows(codes[..|codes| - 1], u);
    }
  }

  lemma {:induction false} MatchingIsRow(mine: seq<BackupCode>, h: Hash)
    ensures Matching(mine, h).Some? ==> Matching(mine, h).value in mine && Matching(mine, h).value.hash == h
    ensures Matching(mine, h).Some? <==> exists i :: 0 <= i < |mine| && mine[i].hash == h
  {
    if mine != [] {
      MatchingIsRow(mine[1..], h);
    }
  }

  /** A backup code of u is accepted in this step. */
  predicate Uses(cfg: Config, s: State, e: Event, u: nat, h: Option<Hash>) {
    && e.op.UseCode? && e.op.token < |s.tokens| && s.tokens[e.op.token].auth == u
    && s.tokens[e.op.token].twoFA == cfg.on
    && CodeUsed(cfg, s, s.tokens[e.op.token], e.op.code, e.w).1 == OK
    && (h.Some? ==> h.value == Hash(TrimSpace(e.op.code)))
  }

  /** And its row stays, since the deletion was lost. */
  predicate Keeps(cfg: Config, s: State, e: Event, u: nat, h: Option<Hash>) {
    Uses(cfg, s, e, u, h) && e.w.delete.Lost?
  }

  /** How a step changes the stored codes of u: by its use, unless the deletion is lost. */
  ghost predicate Consumes(cfg: Config, s: State, e: Event, s': State, u: nat, h: Option<Hash>) {
    Copies(s'.codes, u, h) + (if Uses(cfg, s, e, u, h) then 1 else 0) <=
    Copies(s.codes, u, h) + (if Keeps(cfg, s, e, u, h) then 1 else 0)
  }

  ghost predicate Creates(s: State, e: Event, u: nat) {
    e.op.CreateCodes? && e.op.token < |s.tokens| && s.tokens[e.op.token].auth == u
  }

  lemma {:induction false} WithoutIsOrdered(codes: seq<BackupCode>, u: nat)
    requires forall i, j :: 0 <= i < j < |codes| ==> codes[i].id != codes[j].id
    ensures forall i, j :: 0 <= i < j < |WithoutCodesOf(codes, u)| ==>
              WithoutCodesOf(codes, u)[i].id != WithoutCodesOf(codes, u)[j].id
    ensures forall i :: 0 <= i < |WithoutCodesOf(codes, u)| ==> WithoutCodesOf(codes, u)[i] in codes
  {
    if codes != [] {
      var init, c := codes[..|codes| - 1], codes[|codes| - 1];
      WithoutIsOrdered(init, u);
      var rest := WithoutCodesOf(init, u);
      forall i | 0 <= i < |rest| ensures rest[i].id != c.id {
        assert rest[i] in init;
      }
    }
  }

  lemma {:induction false} WithoutCodeOrdered(codes: seq<BackupCode>, id: nat)
    requires forall i, j :: 0 <= i < j < |codes| ==> codes[i].id != codes[j].id
    ensures forall i, j :: 0 <= i < j < |WithoutCode(codes, id)| ==> WithoutCode(codes, id)[i].id != WithoutCode(codes, id)[j].id
    ensures forall i :: 0 <= i < |WithoutCode(codes, id)| ==> WithoutCode(codes, id)[i] in codes
  {
    if codes != [] {
      var init, c := codes[..|codes| - 1], codes[|codes| - 1];
      WithoutCodeOrdered(init, id);
      var rest := WithoutCode(init, id);
      forall i | 0 <= i < |rest| ensures rest[i].id != c.id {
        assert rest[i] in init;
      }
    }
  }

  lemma UseNumbered(cfg: Config, s: State, c: Token, code: string, w: World)
    requires CodesNumbered(s)
    ensures CodesNumbered(CodeUsed(cfg, s, c, code, w).0)
  {
    var found := Matching(CodesOf(s.codes, c.auth), Hash(TrimSpace(code)));
    if found.Some? {
      WithoutCodeOrdered(s.codes, found.value.id);
    }
  }

  lemma CreateNumbered(cfg: Config, s: State, c: Token, password: string, texts: seq<string>, w: World)
    requires CodesNumbered(s)
    ensures CodesNumbered(CodesCreated(cfg, s, c, password, texts, w).0)
  {
    WithoutIsOrdered(s.codes, c.auth);
    var kept := if w.delete.Written? then WithoutCodesOf(s.codes, c.auth) else s.codes;
    assert CodesNumbered(s.(codes := kept));
    NewCodesNumbered(s.(codes := kept), c.auth, texts);
  }

  lemma NewCodesNumbered(s: State, u: nat, texts: seq<string>)
    requires CodesNumbered(s)
    ensures CodesNumbered(s.(codes := s.codes + NewCodes(u, texts, s.nextCode), nextCode := s.nextCode + |texts|))
  {
  }

  lemma DeactivateNumbered(cfg: Config, s: State, c: Token, password: string, w: World)
    requires CodesNumbered(s)
    ensures CodesNumbered(Deactivated(cfg, s, c, password, w).0)
  {
    WithoutIsOrdered(s.codes, c.auth);
  }

  lemma NumberedStep(cfg: Config, s: State, op: Op, w: World)
    requires CodesNumbered(s)
    ensures CodesNumbered(Step(cfg, s, op, w).0)
  {
    if BearsToken(op) && op.token < |s.tokens| {
      var c := s.tokens[op.token];
      if op.UseCode? {
        UseNumbered(cfg, s, c, op.code, w);
      } else if op.CreateCodes? {
        CreateNumbered(cfg, s, c, op.password, op.texts, w);
      } else if op.Deactivate? {
        DeactivateNumbered(cfg, s, c, op.password, w);
      } else {
        CodesElsewhere(cfg, s, op, w);
      }
    } else {
      CodesElsewhere(cfg, s, op, w);
    }
  }

  /** Codes are touched by three operations only. */
  lemma CodesElsewhere(cfg: Config, s: State, op: Op, w: World)
    requires BearsToken(op) && op.token < |s.tokens| ==> !op.UseCode? && !op.CreateCodes? && !op.Deactivate?
    ensures Step(cfg, s, op, w).0.codes == s.codes && Step(cfg, s, op, w).0.nextCode == s.nextCode
  {
  }

  /** An accepted code takes away one of the user's rows and none of anyone else's, unless the deletion is lost. */
  lemma AcceptedCodeIsSpent(cfg: Config, s: State, c: Token, code: string, w: World, u: nat, h: Option<Hash>)
    requires CodesNumbered(s) && c.twoFA == cfg.on != cfg.verified
    ensures var (s', status) := CodeUsed(cfg, s, c, code, w);
            && Copies(s'.codes, u, h) <= Copies(s.codes, u, h)
            && (status == OK ==> w.delete.Written? || (w.delete.Lost? && s'.codes == s.codes))
            && (status == OK && w.delete.Written? ==>
                  && |s'.codes| == |s.codes| - 1
                  && Copies(s.codes, c.auth, h) == Copies(s'.codes, c.auth, h) +
                       (if h.None? || Hash(TrimSpace(code)) == h.value then 1 else 0)
                  && forall v :: v != c.auth ==> Copies(s'.codes, v, h) == Copies(s.codes, v, h))
  {
    UseCopies(s, c.auth, Hash(TrimSpace(code)), u, h);
    UseCopies(s, c.auth, Hash(TrimSpace(code)), c.auth, h);
  }

  /** A code is accepted once more right after its use exactly when the deletion was lost or another row has its hash. */
  lemma AcceptedAgain(cfg: Config, s: State, c: Token, code: string, w: World)
    requires CodesNumbered(s) && c.twoFA == cfg.on != cfg.verified && CodeUsed(cfg, s, c, code, w).1 == OK
    ensures CodeUsed(cfg, CodeUsed(cfg, s, c, code, w).0, c, code, ALL_WELL).1 == OK <==>
            w.delete.Lost? || Copies(s.codes, c.auth, Some(Hash(TrimSpace(code)))) >= 2
  {
    var h := Hash(TrimSpace(code));
    AcceptedCodeIsSpent(cfg, s, c, code, w, c.auth, Some(h));
    var s' := CodeUsed(cfg, s, c, code, w).0;
    MatchingIffCopies(s.codes, c.auth, h);
    MatchingIffCopies(s'.codes, c.auth, h);
  }

  lemma MatchingIffCopies(codes: seq<BackupCode>, u: nat, h: Hash)
    ensures Matching(CodesOf(codes, u), h).Some? <==> Copies(codes, u, Some(h)) > 0
  {
    MatchingIsRow(CodesOf(codes, u), h);
    CopiesIffListed(codes, u, h);
  }

  lemma {:induction false} CopiesIffListed(codes: seq<BackupCode>, u: nat, h: Hash)
    ensures Copies(codes, u, Some(h)) > 0 <==> exists i :: 0 <= i < |CodesOf(codes, u)| && CodesOf(codes, u)[i].hash == h
  {
    if codes != [] {
      var init, c := codes[..|codes| - 1], codes[|codes| - 1];
      CopiesIffListed(init, u, h);
      var rest, all := CodesOf(init, u), CodesOf(codes, u);
      assert rest <= all;
      if c.owner == u {
        assert all[|rest|] == c;
      }
      if i :| 0 <= i < |rest| && rest[i].hash == h {
        assert all[i].hash == h;
      }
    }
  }

  lemma UseStep(cfg: Config, s: State, e: Event, u: nat, h: Option<Hash>)
    requires CodesNumbered(s) && DistinctStatuses(cfg) && e.op.UseCode?
    ensures Consumes(cfg, s, e, Step(cfg, s, e.op, e.w).0, u, h)
  {
    if e.op.token < |s.tokens| && s.tokens[e.op.token].twoFA == cfg.on {
      AcceptedCodeIsSpent(cfg, s, s.tokens[e.op.token], e.op.code, e.w, u, h);
    }
  }

  lemma DeactivateCopies(cfg: Config, s: State, c: Token, password: string, w: World, u: nat, h: Option<Hash>)
    ensures Copies(Deactivated(cfg, s, c, password, w).0.codes, u, h) <= Copies(s.codes, u, h)
  {
    WithoutCodesOfCopies(s.codes, c.auth, u, h);
  }

  lemma ForeignCreateCopies(cfg: Config, s: State, c: Token, password: string, texts: seq<string>, w: World, u: nat, h: Option<Hash>)
    requires c.auth != u
    ensures Copies(CodesCreated(cfg, s, c, password, texts, w).0.codes, u, h) == Copies(s.codes, u, h)
  {
    WithoutCodesOfCopies(s.codes, c.auth, u, h);
    var kept := if w.delete.Written? then WithoutCodesOf(s.codes, c.auth) else s.codes;
    assert Copies(kept, u, h) == Copies(s.codes, u, h);
    CopiesConcat(kept, NewCodes(c.auth, texts, s.nextCode), u, h);
    ForeignCodes(c.auth, texts, s.nextCode, u, h);
  }

  /** Codes of u that are neither made nor used can only disappear. */
  lemma OtherStep(cfg: Config, s: State, e: Event, u: nat, h: Option<Hash>)
    requires !e.op.UseCode? && !Creates(s, e, u)
    ensures Copies(Step(cfg, s, e.op, e.w).0.codes, u, h) <= Copies(s.codes, u, h)
  {
    if BearsToken(e.op) && e.op.token < |s.tokens| {
      var c := s.tokens[e.op.token];
      if e.op.CreateCodes? {
        ForeignCreateCopies(cfg, s, c, e.op.password, e.op.texts, e.w, u, h);
      } else if e.op.Deactivate? {
        DeactivateCopies(cfg, s, c, e.op.password, e.w, u, h);
      } else {
        CodesElsewhere(cfg, s, e.op, e.w);
      }
    } else {
      CodesElsewhere(cfg, s, e.op, e.w);
    }
  }

  /** The old codes that a creation leaves in place. */
  function Remaining(s: State, e: Event, u: nat, h: Option<Hash>): nat {
    if e.w.delete.Written? then 0 else Copies(s.codes, u, h)
  }

  /** New codes take the place of the old ones, unless the deletion or the insertion is lost. */
  lemma CreateStep(cfg: Config, s: State, e: Event, u: nat, h: Option<Hash>)
    requires Creates(s, e, u) && Step(cfg, s, e.op, e.w).1 == OK
    ensures Copies(Step(cfg, s, e.op, e.w).0.codes, u, h) ==
            Remaining(s, e, u, h) + (if e.w.save.Written? then Copies(NewCodes(u, e.op.texts, s.nextCode), u, h) else 0)
  {
    WithoutCodesOfCopies(s.codes, u, u, h);
    var kept := if e.w.delete.Written? then WithoutCodesOf(s.codes, u) else s.codes;
    assert Copies(kept, u, h) == Remaining(s, e, u, h);
    CopiesConcat(kept, NewCodes(u, e.op.texts, s.nextCode), u, h);
  }

  lemma UseCopies(s: State, a: nat, hash: Hash, u: nat, h: Option<Hash>)
    requires CodesNumbered(s)
    ensures var found := Matching(CodesOf(s.codes, a), hash);
            found.Some? ==>
              var after := WithoutCode(s.codes, found.value.id);
              && |after| == |s.codes| - 1
              && Copies(s.codes, u, h) == Copies(after, u, h) + (if a == u && (h.None? || hash == h.value) then 1 else 0)
              && forall v :: v != a ==> Copies(after, v, h) == Copies(s.codes, v, h)
  {
    var found := Matching(CodesOf(s.codes, a), hash);
    if found.Some? {
      MatchingIsRow(CodesOf(s.codes, a), hash);
      CodesOfAreRows(s.codes, a);
      var k :| 0 <= k < |s.codes| && s.codes[k] == found.value;
      WithoutCodeCopies(s.codes, k, u, h);
      forall v | v != a ensures Copies(WithoutCode(s.codes, found.value.id), v, h) == Copies(s.codes, v, h) {
        WithoutCodeCopies(s.codes, k, v, h);
      }
    }
  }

  function Hits(texts: seq<string>, h: Hash): set<nat> {
    set i | 0 <= i < |texts| && Hash(texts[i]) == h
  }

  lemma {:induction false} ForeignCodes(a: nat, texts: seq<string>, first: nat, u: nat, h: Option<Hash>)
    ensures a != u ==> Copies(NewCodes(a, texts, first), u, h) == 0
    ensures a == u && h.None? ==> Copies(NewCodes(a, texts, first), u, h) == |texts|
    ensures a == u && h.Some? ==>
              Copies(NewCodes(a, texts, first), u, h) == |Hits(texts, h.value)|
  {
    var codes := NewCodes(a, texts, first);
    if texts == [] {
      assert h.Some? ==> Hits(texts, h.value) == {};
    } else {
      var n := |texts| - 1;
      ForeignCodes(a, texts[..n], first, u, h);
      assert codes[..n] == NewCodes(a, texts[..n], first);
      if h.Some? {
        var before := Hits(texts[..n], h.value);
        assert Hits(texts, h.value) == if Hash(texts[n]) == h.value then before + {n} else before;
      }
    }
  }

  function UseCount(cfg: Config, states: seq<State>, events: seq<Event>, lo: nat, hi: nat, u: nat, h: Option<Hash>): nat
    requires lo <= hi <= |events| < |states|
    decreases hi
  {
    if lo == hi then 0
    else UseCount(cfg, states, events, lo, hi - 1, u, h) +
         if Uses(cfg, states[hi - 1], events[hi - 1], u, h) then 1 else 0
  }

  /** The accepted uses whose deletion was lost. */
  function KeepCount(cfg: Config, states: seq<State>, events: seq<Event>, lo: nat, hi: nat, u: nat, h: Option<Hash>): nat
    requires lo <= hi <= |events| < |states|
    decreases hi
  {
    if lo == hi then 0
    else KeepCount(cfg, states, events, lo, hi - 1, u, h) +
         if Keeps(cfg, states[hi - 1], events[hi - 1], u, h) then 1 else 0
  }

  lemma {:induction false} NumberedRun(cfg: Config, states: seq<State>, events: seq<Event>, n: nat)
    requires Run(cfg, states, events) && n <= |events|
    ensures CodesNumbered(states[n])
  {
    if n > 0 {
      NumberedRun(cfg, states, events, n - 1);
      assert states[n - 1 + 1] == Step(cfg, states[n - 1], events[n - 1].op, events[n - 1].w).0;
      NumberedStep(cfg, states[n - 1], events[n - 1].op, events[n - 1].w);
    }
  }

  lemma ConsumeStep(cfg: Config, s: State, e: Event, s': State, u: nat, h: Option<Hash>)
    requires CodesNumbered(s) && DistinctStatuses(cfg) && !Creates(s, e, u) && s' == Step(cfg, s, e.op, e.w).0
    ensures Consumes(cfg, s, e, s', u, h)
  {
    if e.op.UseCode? {
      UseStep(cfg, s, e, u, h);
    } else {
      OtherStep(cfg, s, e, u, h);
    }
  }

  lemma {:induction false} UsesAddUp(cfg: Config, states: seq<State>, events: seq<Event>, lo: nat, hi: nat, u: nat, h: Option<Hash>)
    requires lo <= hi <= |events| < |states|
    requires forall i :: lo <= i < hi ==> Consumes(cfg, states[i], events[i], states[i + 1], u, h)
    ensures Copies(states[hi].codes, u, h) + UseCount(cfg, states, events, lo, hi, u, h) <=
            Copies(states[lo].codes, u, h) + KeepCount(cfg, states, events, lo, hi, u, h)
    decreases hi
  {
    if lo < hi {
      UsesAddUp(cfg, states, events, lo, hi - 1, u, h);
      assert Consumes(cfg, states[hi - 1], events[hi - 1], states[hi - 1 + 1], u, h);
    }
  }

  /** While no new codes are made, codes are accepted at most as often as they are stored, plus once for each lost deletion. */
  lemma CodesAreConsumed(cfg: Config, states: seq<State>, events: seq<Event>, lo: nat, hi: nat, u: nat, h: Option<Hash>)
    requires Run(cfg, states, events) && DistinctStatuses(cfg) && lo <= hi <= |events|
    requires forall i :: lo <= i < hi ==> !Creates(states[i], events[i], u)
    ensures Copies(states[hi].codes, u, h) + UseCount(cfg, states, events, lo, hi, u, h) <=
            Copies(states[lo].codes, u, h) + KeepCount(cfg, states, events, lo, hi, u, h)
  {
    forall i | lo <= i < hi ensures Consumes(cfg, states[i], events[i], states[i + 1], u, h) {
      NumberedRun(cfg, states, events, i);
      ConsumeStep(cfg, states[i], events[i], states[i + 1], u, h);
    }
    UsesAddUp(cfg, states, events, lo, hi, u, h);
  }

  /**
   After ten codes have been made, at most ten are accepted before the next ones
   are made, and each text at most once if the ten are distinct; lost deletions add
   one each, and a lost deletion at the creation adds the codes from before.
   */
  lemma TenCodes(cfg: Config, states: seq<State>, events: seq<Event>, made: nat, hi: nat, u: nat, text: string)
    requires Run(cfg, states, events) && DistinctStatuses(cfg) && made < hi <= |events|
    requires Creates(states[made], events[made], u) && |events[made].op.texts| == 10
    requires Step(cfg, states[made], events[made].op, events[made].w).1 == OK
    requires forall i :: made < i < hi ==> !Creates(states[i], events[i], u)
    ensures UseCount(cfg, states, events, made + 1, hi, u, None) <=
            10 + Remaining(states[made], events[made], u, None) + KeepCount(cfg, states, events, made + 1, hi, u, None)
    ensures (forall i, j :: 0 <= i < j < 10 ==> events[made].op.texts[i] != events[made].op.texts[j]) ==>
              UseCount(cfg, states, events, made + 1, hi, u, Some(Hash(text))) <=
              1 + Remaining(states[made], events[made], u, Some(Hash(text)))
              + KeepCount(cfg, states, events, made + 1, hi, u, Some(Hash(text)))
  {
    var s, e := states[made], events[made];
    var texts, one := e.op.texts, Some(Hash(text));
    assert states[made + 1] == Step(cfg, s, e.op, e.w).0;
    CodesAreConsumed(cfg, states, events, made + 1, hi, u, None);
    CreateStep(cfg, s, e, u, None);
    ForeignCodes(u, texts, s.nextCode, u, None);
    CodesAreConsumed(cfg, states, events, made + 1, hi, u, one);
    CreateStep(cfg, s, e, u, one);
    ForeignCodes(u, texts, s.nextCode, u, one);
    if forall i, j :: 0 <= i < j < 10 ==> texts[i] != texts[j] {
      AtMostOnce(texts, text);
    }
  }

  lemma AtMostOnce(texts: seq<string>, text: string)
    requires forall i, j :: 0 <= i < j < |texts| ==> texts[i] != texts[j]
    ensures |Hits(texts, Hash(text))| <= 1
  {
    var hits := Hits(texts, Hash(text));
    if hits != {} {
      var k :| k in hits;
      assert hits == {k};
    }
  }
}
