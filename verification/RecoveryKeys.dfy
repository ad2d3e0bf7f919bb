/**
 The recovery key that a user was last given, and when it still resets the password.
 The row is written before the key is handed out, and either may fail.
 */
module RecoveryKeys {
  import opened Wrappers
  import opened Http
  import opened Texts
  import opened TwoFactor
  import opened TwoFactorRuns

  /** With status on, the key last handed out passes both checks. */
  ghost predicate InHand(cfg: Config, s: State, u: nat) {
    IsOn(cfg, s, u) ==> u in s.given && KeyFits(cfg, s.records[u], s.given[u])
  }

  ghost predicate GivenWhole(cfg: Config, s: State, u: nat) {
    u in s.given ==> |s.given[u]| == cfg.digits && FreeOf(s.given[u], ' ')
  }

  /** In a sound state a typed key passes exactly when it is the key of the row, with blanks. */
  lemma FitsIff(cfg: Config, s: State, u: nat, typed: string)
    requires UserSound(cfg, s, u) && IsOn(cfg, s, u)
    ensures u in s.recovery
    ensures KeyFits(cfg, s.records[u], typed) <==> RemoveAllSpace(typed) == s.recovery[u]
  {
  }

  // ---- What one call hands out ---------------------------------------------

  /** Two-factor was on, and a recovery by u comes as far as writing the row. */
  ghost predicate Renewing(cfg: Config, s: State, account: Option<nat>, passNew: string, passRepeat: string, typed: string, w: World, u: nat) {
    && account == Some(u) && |passNew| >= cfg.minLength && passNew == passRepeat && w.readOk
    && cfg.must2FA && u in s.passwords && IsOn(cfg, s, u) && KeyFits(cfg, s.records[u], typed)
  }

  /** An activation by u comes as far as writing the row. */
  ghost predicate Enrolling(cfg: Config, s: State, c: Token, otp: string, check: Check, w: World, u: nat) {
    && c.auth == u && Known(s, u) && c.twoFA != cfg.verified && c.twoFA != cfg.on
    && u in s.memory && s.memory[u].secret.Some? && |RemoveAllSpace(otp)| == cfg.digits
    && check.Accepted? && w.readOk && !IsOn(cfg, s, u)
  }

  lemma EnrolledFits(cfg: Config, s: State, u: nat, passSHA: Hash, blob: Blob, key: string, uuid: string)
    requires |key| == cfg.digits && FreeOf(key, ' ')
    ensures KeyFits(cfg, Enrolled(s, u, cfg.on, passSHA, blob, key, uuid).records[u], key)
    ensures forall other :: FreeOf(other, ' ') && other != key ==>
              !KeyFits(cfg, Enrolled(s, u, cfg.on, passSHA, blob, key, uuid).records[u], other)
  {
    NothingToRemove(key);
    forall other | FreeOf(other, ' ') ensures RemoveAllSpace(other) == other {
      NothingToRemove(other);
    }
  }

  /** What a recovery writes and hands out once it comes that far. */
  lemma RenewingResult(cfg: Config, s: State, account: Option<nat>, passNew: string, passRepeat: string, typed: string,
                       key: string, uuid: string, w: World, u: nat) returns (blob: Blob)
    requires UserSound(cfg, s, u) && Renewing(cfg, s, account, passNew, passRepeat, typed, w, u)
    ensures Recovered(cfg, s, account, passNew, passRepeat, typed, key, uuid, w) == Renewed(cfg, s, u, passNew, blob, key, uuid, w)
  {
    FitsIff(cfg, s, u, typed);
    blob := s.records[u].keyBackup.value.plain;
  }

  lemma EnrollingResult(cfg: Config, s: State, c: Token, otp: string, check: Check, key: string, uuid: string, w: World, u: nat)
    returns (passSHA: Hash, blob: Blob)
    requires Enrolling(cfg, s, c, otp, check, w, u)
    ensures Activated(cfg, s, c, otp, check, key, uuid, w) == Confirmed(cfg, s, u, passSHA, blob, key, uuid, w)
  {
    passSHA, blob := s.memory[u].passSHA, s.memory[u].secret.value.(counters := check.counters);
  }

  /** The key that a recovery hands out fits exactly when the row was not lost, or the key is the old one. */
  lemma RecoveryHandsOut(cfg: Config, s: State, account: Option<nat>, passNew: string, passRepeat: string, typed: string,
                         key: string, uuid: string, w: World, u: nat)
    requires UserSound(cfg, s, u) && Renewing(cfg, s, account, passNew, passRepeat, typed, w, u)
    requires |key| == cfg.digits && FreeOf(key, ' ')
    ensures var (s', status) := Recovered(cfg, s, account, passNew, passRepeat, typed, key, uuid, w);
            && (status == OK <==> !w.save.Refused? && !w.saveAuth.Refused?)
            && (status == OK ==> u in s'.given && s'.given[u] == key && IsOn(cfg, s', u)
                                 && (KeyFits(cfg, s'.records[u], key) <==> w.save.Written? || key == s.recovery[u]))
  {
    var blob := RenewingResult(cfg, s, account, passNew, passRepeat, typed, key, uuid, w, u);
    NothingToRemove(key);
    FitsIff(cfg, s, u, key);
    EnrolledFits(cfg, s, u, Hash(passNew), blob, key, uuid);
  }

  /** The key that an activation hands out belongs to a row exactly when the row was not lost. */
  lemma ActivationHandsOut(cfg: Config, s: State, c: Token, otp: string, check: Check, key: string, uuid: string, w: World, u: nat)
    requires Enrolling(cfg, s, c, otp, check, w, u) && |key| == cfg.digits && FreeOf(key, ' ')
    ensures var (s', status) := Activated(cfg, s, c, otp, check, key, uuid, w);
            && (status == OK <==> !w.save.Refused? && w.signOk)
            && (status == OK ==> u in s'.given && s'.given[u] == key
                                 && (IsOn(cfg, s', u) && KeyFits(cfg, s'.records[u], key) <==> w.save.Written?))
  {
    var passSHA, blob := EnrollingResult(cfg, s, c, otp, check, key, uuid, w, u);
    EnrolledFits(cfg, s.(memory := s.memory - {u}), u, passSHA, blob, key, uuid);
  }

  // ---- Exactly when a step takes the key out of the user's hand ------------

  ghost predicate ActivateLoses(cfg: Config, s: State, c: Token, otp: string, check: Check, key: string, w: World, u: nat) {
    && Enrolling(cfg, s, c, otp, check, w, u) && w.save.Written? && !w.signOk
    && !(u in s.given && s.given[u] == key)
  }

  /** The row is replaced and the answer is an error, or the row is lost and its key handed out. */
  ghost predicate RecoverLoses(cfg: Config, s: State, account: Option<nat>, passNew: string, passRepeat: string, typed: string,
                               key: string, w: World, u: nat) {
    && Renewing(cfg, s, account, passNew, passRepeat, typed, w, u)
    && ((w.save.Written? && w.saveAuth.Refused?) || (w.save.Lost? && !w.saveAuth.Refused?))
    && !(u in s.given && s.given[u] == key)
  }

  ghost predicate Loses(cfg: Config, s: State, op: Op, w: World, u: nat) {
    match op
    case Activate(t, otp, check, key, _) => t < |s.tokens| && ActivateLoses(cfg, s, s.tokens[t], otp, check, key, w, u)
    case Recover(account, new_, again, typed, key, _) => RecoverLoses(cfg, s, account, new_, again, typed, key, w, u)
    case _ => false
  }

  /** The row and the key in hand belong together, and both are whole. */
  ghost predicate Matched(cfg: Config, s: State, u: nat) {
    UserSound(cfg, s, u) && GivenWhole(cfg, s, u) && InHand(cfg, s, u)
  }

  /** Neither the row of u nor the key u was given has changed. */
  ghost predicate SameHand(s: State, s': State, u: nat) {
    && (u in s'.records <==> u in s.records) && (u in s.records ==> s'.records[u] == s.records[u])
    && (u in s'.given <==> u in s.given) && (u in s.given ==> s'.given[u] == s.given[u])
  }

  lemma ActivateElsewhere(cfg: Config, s: State, c: Token, otp: string, check: Check, key: string, uuid: string, w: World, u: nat)
    requires !Enrolling(cfg, s, c, otp, check, w, u)
    ensures SameHand(s, Activated(cfg, s, c, otp, check, key, uuid, w).0, u)
  {
  }

  lemma RecoverElsewhere(cfg: Config, s: State, account: Option<nat>, passNew: string, passRepeat: string, typed: string,
                         key: string, uuid: string, w: World, u: nat)
    requires !Renewing(cfg, s, account, passNew, passRepeat, typed, w, u)
    ensures SameHand(s, Recovered(cfg, s, account, passNew, passRepeat, typed, key, uuid, w).0, u)
  {
    if account.Some? {
      RecoverTouches(cfg, s, account.value, passNew, passRepeat, typed, key, uuid, w, u);
    }
  }

  /** The key in u's hand is the new one or the one from before. */
  ghost predicate GivenOneOf(s: State, s': State, key: string, u: nat) {
    u in s'.given ==> s'.given[u] == key || (u in s.given && s'.given[u] == s.given[u])
  }

  /** What a recovery for v means for u. */
  lemma RecoverTouches(cfg: Config, s: State, v: nat, passNew: string, passRepeat: string, typed: string,
                       key: string, uuid: string, w: World, u: nat)
    ensures var s' := Recovered(cfg, s, Some(v), passNew, passRepeat, typed, key, uuid, w).0;
            && GivenOneOf(s, s', key, u)
            && (u != v || !Renewing(cfg, s, Some(v), passNew, passRepeat, typed, w, v) ==> SameHand(s, s', u))
  {
    if Renewing(cfg, s, Some(v), passNew, passRepeat, typed, w, v) {
      var secret := Opened(s.records[v].keyBackup, Hash(RemoveAllSpace(typed)));
      if secret.Some? {
        RenewedHand(cfg, s, v, passNew, secret.value, key, uuid, w);
      }
    }
  }

  lemma ActivateHand(cfg: Config, s: State, c: Token, otp: string, check: Check, key: string, uuid: string, w: World, u: nat)
    requires Matched(cfg, s, u) && |key| == cfg.digits && FreeOf(key, ' ')
    ensures InHand(cfg, Activated(cfg, s, c, otp, check, key, uuid, w).0, u) <==> !ActivateLoses(cfg, s, c, otp, check, key, w, u)
  {
    if Enrolling(cfg, s, c, otp, check, w, u) {
      var passSHA, blob := EnrollingResult(cfg, s, c, otp, check, key, uuid, w, u);
      EnrolledFits(cfg, s.(memory := s.memory - {u}), u, passSHA, blob, key, uuid);
    } else {
      ActivateElsewhere(cfg, s, c, otp, check, key, uuid, w, u);
    }
  }

  lemma RenewedHand(cfg: Config, s: State, u: nat, passNew: string, secret: Blob, key: string, uuid: string, w: World)
    ensures var s' := Renewed(cfg, s, u, passNew, secret, key, uuid, w).0;
            && s'.records == (if w.save.Written? then Enrolled(s, u, cfg.on, Hash(passNew), secret, key, uuid).records else s.records)
            && s'.given == (if w.save.Refused? || w.saveAuth.Refused? then s.given else s.given[u := key])
  {
  }

  lemma RecoverHand(cfg: Config, s: State, account: Option<nat>, passNew: string, passRepeat: string, typed: string,
                    key: string, uuid: string, w: World, u: nat)
    requires Matched(cfg, s, u) && |key| == cfg.digits && FreeOf(key, ' ')
    ensures InHand(cfg, Recovered(cfg, s, account, passNew, passRepeat, typed, key, uuid, w).0, u) <==>
            !RecoverLoses(cfg, s, account, passNew, passRepeat, typed, key, w, u)
  {
    if Renewing(cfg, s, account, passNew, passRepeat, typed, w, u) {
      var blob := RenewingResult(cfg, s, account, passNew, passRepeat, typed, key, uuid, w, u);
      EnrolledFits(cfg, s, u, Hash(passNew), blob, key, uuid);
      NothingToRemove(key);
      NothingToRemove(s.given[u]);
      FitsIff(cfg, s, u, key);
      FitsIff(cfg, s, u, s.given[u]);
      RenewedHand(cfg, s, u, passNew, blob, key, uuid, w);
    } else {
      RecoverElsewhere(cfg, s, account, passNew, passRepeat, typed, key, uuid, w, u);
    }
  }

  lemma DeactivateHand(cfg: Config, s: State, c: Token, password: string, w: World, u: nat)
    requires InHand(cfg, s, u) && DistinctStatuses(cfg)
    ensures InHand(cfg, Deactivated(cfg, s, c, password, w).0, u)
  {
  }

  lemma GivenElsewhere(cfg: Config, s: State, op: Op, w: World)
    requires !op.Activate? && !op.Recover?
    ensures Step(cfg, s, op, w).0.given == s.given
  {
  }

  /** Every operation, with every outcome of its writes, takes the key out of u's hand exactly when its guard holds. */
  lemma HandLostExactly(cfg: Config, s: State, op: Op, w: World, u: nat)
    requires Matched(cfg, s, u) && DistinctStatuses(cfg) && Generated(cfg, op)
    ensures InHand(cfg, Step(cfg, s, op, w).0, u) <==> !Loses(cfg, s, op, w, u)
  {
    match op
    case Activate(t, otp, check, key, uuid) =>
      if t < |s.tokens| {
        ActivateHand(cfg, s, s.tokens[t], otp, check, key, uuid, w, u);
      }
    case Recover(account, new_, again, typed, key, uuid) => RecoverHand(cfg, s, account, new_, again, typed, key, uuid, w, u);
    case Deactivate(t, p) =>
      if t < |s.tokens| {
        DeactivateHand(cfg, s, s.tokens[t], p, w, u);
      }
    case _ =>
      RecoveryDataFrame(cfg, s, op, w, u);
      GivenElsewhere(cfg, s, op, w);
  }

  // ---- Whole runs ----------------------------------------------------------

  lemma ActivateGiven(cfg: Config, s: State, c: Token, otp: string, check: Check, key: string, uuid: string, w: World, u: nat)
    requires GivenWhole(cfg, s, u) && |key| == cfg.digits && FreeOf(key, ' ')
    ensures GivenWhole(cfg, Activated(cfg, s, c, otp, check, key, uuid, w).0, u)
  {
  }

  lemma RecoverGiven(cfg: Config, s: State, account: Option<nat>, passNew: string, passRepeat: string, typed: string,
                     key: string, uuid: string, w: World, u: nat)
    requires GivenWhole(cfg, s, u) && |key| == cfg.digits && FreeOf(key, ' ')
    ensures GivenWhole(cfg, Recovered(cfg, s, account, passNew, passRepeat, typed, key, uuid, w).0, u)
  {
    if account.Some? {
      RecoverTouches(cfg, s, account.value, passNew, passRepeat, typed, key, uuid, w, u);
    }
  }

  lemma GivenStaysWhole(cfg: Config, s: State, op: Op, w: World, u: nat)
    requires GivenWhole(cfg, s, u) && Generated(cfg, op)
    ensures GivenWhole(cfg, Step(cfg, s, op, w).0, u)
  {
    match op
    case Activate(t, otp, check, key, uuid) =>
      if t < |s.tokens| {
        ActivateGiven(cfg, s, s.tokens[t], otp, check, key, uuid, w, u);
      }
    case Recover(account, new_, again, typed, key, uuid) => RecoverGiven(cfg, s, account, new_, again, typed, key, uuid, w, u);
    case _ => GivenElsewhere(cfg, s, op, w);
  }

  lemma {:induction false} GivenWholeOnRuns(cfg: Config, states: seq<State>, events: seq<Event>, u: nat, n: nat)
    requires Run(cfg, states, events) && n <= |events|
    ensures GivenWhole(cfg, states[n], u)
  {
    if n > 0 {
      GivenWholeOnRuns(cfg, states, events, u, n - 1);
      assert states[n - 1 + 1] == Step(cfg, states[n - 1], events[n - 1].op, events[n - 1].w).0;
      GivenStaysWhole(cfg, states[n - 1], events[n - 1].op, events[n - 1].w, u);
    }
  }

  ghost predicate AlwaysInHand(cfg: Config, states: seq<State>, u: nat) {
    forall i :: 0 <= i < |states| ==> InHand(cfg, states[i], u)
  }

  ghost predicate NoStepLoses(cfg: Config, states: seq<State>, events: seq<Event>, u: nat)
    requires |states| == |events| + 1
  {
    forall i :: 0 <= i < |events| ==> !Loses(cfg, states[i], events[i].op, events[i].w, u)
  }

  ghost predicate ExactStep(cfg: Config, s: State, e: Event, s': State, u: nat) {
    InHand(cfg, s, u) ==> (InHand(cfg, s', u) <==> !Loses(cfg, s, e.op, e.w, u))
  }

  lemma {:induction false} InHandUpTo(cfg: Config, states: seq<State>, events: seq<Event>, u: nat, n: nat)
    requires |states| == |events| + 1 && n <= |events| && InHand(cfg, states[0], u)
    requires forall i :: 0 <= i < |events| ==> ExactStep(cfg, states[i], events[i], states[i + 1], u)
    requires NoStepLoses(cfg, states, events, u)
    ensures InHand(cfg, states[n], u)
  {
    if n > 0 {
      InHandUpTo(cfg, states, events, u, n - 1);
      assert ExactStep(cfg, states[n - 1], events[n - 1], states[n - 1 + 1], u);
    }
  }

  lemma InHandIffNoLoss(cfg: Config, states: seq<State>, events: seq<Event>, u: nat)
    requires |states| == |events| + 1 && InHand(cfg, states[0], u)
    requires forall i :: 0 <= i < |events| ==> ExactStep(cfg, states[i], events[i], states[i + 1], u)
    ensures AlwaysInHand(cfg, states, u) <==> NoStepLoses(cfg, states, events, u)
  {
    if NoStepLoses(cfg, states, events, u) {
      forall n | 0 <= n < |states| ensures InHand(cfg, states[n], u) {
        InHandUpTo(cfg, states, events, u, n);
      }
    }
    if AlwaysInHand(cfg, states, u) {
      forall i | 0 <= i < |events| ensures !Loses(cfg, states[i], events[i].op, events[i].w, u) {
        assert ExactStep(cfg, states[i], events[i], states[i + 1], u);
      }
    }
  }

  /** Over every run, the key last handed out fits throughout exactly when no step takes it out of the user's hand. */
  lemma InHandThroughout(cfg: Config, states: seq<State>, events: seq<Event>, u: nat)
    requires Run(cfg, states, events) && DistinctStatuses(cfg)
    ensures AlwaysInHand(cfg, states, u) <==> NoStepLoses(cfg, states, events, u)
  {
    forall i | 0 <= i < |events| ensures ExactStep(cfg, states[i], events[i], states[i + 1], u) {
      WrappingInvariant(cfg, states, events, i);
      GivenWholeOnRuns(cfg, states, events, u, i);
      assert UserSound(cfg, states[i], u);
      if InHand(cfg, states[i], u) {
        HandLostExactly(cfg, states[i], events[i].op, events[i].w, u);
      }
    }
    InHandIffNoLoss(cfg, states, events, u);
  }

  /**
   In every reachable state with two-factor on, the key last handed out, typed with any
   blanks, resets the password if it is in hand, and otherwise is answered with 401.
   */
  lemma RecoveryWithGivenKey(cfg: Config, states: seq<State>, events: seq<Event>, n: nat, u: nat,
                             typed: string, passNew: string, key: string, uuid: string)
    requires Run(cfg, states, events) && DistinctStatuses(cfg) && n <= |events| && cfg.must2FA
    requires IsOn(cfg, states[n], u) && u in states[n].given && SpacedOut(typed, states[n].given[u]) && |passNew| >= cfg.minLength
    ensures var (s', status) := Recovered(cfg, states[n], Some(u), passNew, passNew, typed, key, uuid, ALL_WELL);
            && (InHand(cfg, states[n], u) ==> status == OK && u in s'.passwords && s'.passwords[u] == passNew)
            && (!InHand(cfg, states[n], u) ==> status == UNAUTHORIZED && s' == states[n])
  {
    var s := states[n];
    WrappingInvariant(cfg, states, events, n);
    assert UserSound(cfg, s, u);
    GivenWholeOnRuns(cfg, states, events, u, n);
    NothingToRemove(s.given[u]);
    RemovingSpaces(typed, s.given[u]);
    FitsIff(cfg, s, u, typed);
    FitsIff(cfg, s, u, s.given[u]);
  }
}
