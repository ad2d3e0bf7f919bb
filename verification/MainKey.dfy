/**
 The main key is the secret wrapped under a password. This module says when that
 password is the user's current one, over every run.
 */
module MainKey {
  import opened Wrappers
  import opened Http
  import opened Texts
  import opened TwoFactor
  import opened TwoFactorRuns

  /** With status on, the main key opens under the current password. */
  ghost predicate KeyCurrent(cfg: Config, s: State, u: nat) {
    IsOn(cfg, s, u) ==> u in s.passwords && Opened(s.records[u].keyMain, Hash(s.passwords[u])).Some?
  }

  /** The entry in memory holds a secret with the hash of a password that is no longer current. */
  ghost predicate Stale(s: State, u: nat) {
    && u in s.memory && u in s.passwords
    && s.memory[u].passSHA != Hash(s.passwords[u]) && s.memory[u].secret.Some?
  }

  // ---- Exactly when a step loses the main key ------------------------------

  /** Validate2FA wraps a secret from memory under the hash that is with it, on an accepted and on a rejected OTP. */
  ghost predicate ValidateLoses(cfg: Config, s: State, c: Token, otp: string, check: Check, w: World, u: nat) {
    && c.auth == u != 0 && c.twoFA == cfg.on && IsOn(cfg, s, u) && Stale(s, u)
    && |RemoveAllSpace(otp)| == cfg.digits && w.readOk && !check.Broken? && w.save.Written?
  }

  /** Activate2FA does so on an accepted OTP. */
  ghost predicate ActivateLoses(cfg: Config, s: State, c: Token, otp: string, check: Check, w: World, u: nat) {
    && c.auth == u != 0 && c.twoFA != cfg.verified && c.twoFA != cfg.on && !IsOn(cfg, s, u) && Stale(s, u)
    && |RemoveAllSpace(otp)| == cfg.digits && w.readOk && check.Accepted? && w.save.Written?
  }

  /**
   Of the row and the password exactly one is written; without mandatory two-factor
   authentication the row is never touched.
   */
  ghost predicate HalfSaved(cfg: Config, w: World) {
    if cfg.must2FA then !w.save.Refused? && w.save.Written? != w.saveAuth.Written? else w.saveAuth.Written?
  }

  /** A password that is really new is saved without the row, or the other way round. */
  ghost predicate ChangeLoses(cfg: Config, s: State, passNew: string, passRepeat: string, w: World, u: nat) {
    && IsOn(cfg, s, u) && u in s.passwords && passNew != s.passwords[u]
    && |passNew| >= cfg.minLength && passNew == passRepeat && w.readOk && HalfSaved(cfg, w)
  }

  ghost predicate Loses(cfg: Config, s: State, op: Op, w: World, u: nat) {
    if BearsToken(op) && op.token >= |s.tokens| then false
    else match op
      case Validate(t, otp, check) => ValidateLoses(cfg, s, s.tokens[t], otp, check, w, u)
      case Activate(t, otp, check, _, _) => ActivateLoses(cfg, s, s.tokens[t], otp, check, w, u)
      case UpdatePassword(t, p, new_, again) =>
        ChangeLoses(cfg, s, new_, again, w, u) && s.tokens[t].auth == u != 0 && p == s.passwords[u]
      case Recover(account, new_, again, typed, _, _) =>
        ChangeLoses(cfg, s, new_, again, w, u) && account == Some(u) && (cfg.must2FA ==> KeyFits(cfg, s.records[u], typed))
      case _ => false
  }

  lemma ValidateKey(cfg: Config, s: State, c: Token, otp: string, check: Check, w: World, u: nat)
    requires KeyCurrent(cfg, s, u) && UserSound(cfg, s, u) && DistinctStatuses(cfg)
    ensures KeyCurrent(cfg, Validated(cfg, s, c, otp, check, w).0, u) <==> !ValidateLoses(cfg, s, c, otp, check, w, u)
  {
  }

  lemma EnrolledKey(cfg: Config, s: State, v: nat, status: string, passSHA: Hash, blob: Blob, key: string, uuid: string, u: nat)
    requires v != u ==> KeyCurrent(cfg, s, u)
    ensures KeyCurrent(cfg, Enrolled(s, v, status, passSHA, blob, key, uuid), u) <==>
            v != u || status != cfg.on || (u in s.passwords && passSHA == Hash(s.passwords[u]))
  {
  }

  lemma ActivateKey(cfg: Config, s: State, c: Token, otp: string, check: Check, key: string, uuid: string, w: World, u: nat)
    requires KeyCurrent(cfg, s, u) && UserSound(cfg, s, u) && DistinctStatuses(cfg)
    ensures KeyCurrent(cfg, Activated(cfg, s, c, otp, check, key, uuid, w).0, u) <==> !ActivateLoses(cfg, s, c, otp, check, w, u)
  {
    var v := c.auth;
    if Known(s, v) && v in s.memory && s.memory[v].secret.Some? && check.Accepted? {
      ConfirmedKey(cfg, s, v, s.memory[v].passSHA, s.memory[v].secret.value.(counters := check.counters), key, uuid, w, u);
    }
  }

  lemma ConfirmedKey(cfg: Config, s: State, v: nat, passSHA: Hash, blob: Blob, key: string, uuid: string, w: World, u: nat)
    requires KeyCurrent(cfg, s, u)
    ensures KeyCurrent(cfg, Confirmed(cfg, s, v, passSHA, blob, key, uuid, w).0, u) <==>
            !w.save.Written? || v != u || (u in s.passwords && passSHA == Hash(s.passwords[u]))
  {
    var cleared := s.(memory := s.memory - {v});
    assert KeyCurrent(cfg, cleared, u);
    EnrolledKey(cfg, cleared, v, cfg.on, passSHA, blob, key, uuid, u);
  }

  lemma UpdateKey(cfg: Config, s: State, c: Token, password: string, passNew: string, passRepeat: string, w: World, u: nat)
    requires KeyCurrent(cfg, s, u) && UserSound(cfg, s, u)
    ensures KeyCurrent(cfg, PasswordUpdated(cfg, s, c, password, passNew, passRepeat, w).0, u) <==>
            !(ChangeLoses(cfg, s, passNew, passRepeat, w, u) && c.auth == u != 0 && password == s.passwords[u])
  {
  }

  lemma RecoverKey(cfg: Config, s: State, account: Option<nat>, passNew: string, passRepeat: string, typed: string,
                   key: string, uuid: string, w: World, u: nat)
    requires KeyCurrent(cfg, s, u) && UserSound(cfg, s, u)
    ensures KeyCurrent(cfg, Recovered(cfg, s, account, passNew, passRepeat, typed, key, uuid, w).0, u) <==>
            !(ChangeLoses(cfg, s, passNew, passRepeat, w, u) && account == Some(u)
              && (cfg.must2FA ==> KeyFits(cfg, s.records[u], typed)))
  {
    if account.Some? && account.value in s.passwords && IsOn(cfg, s, account.value) {
      var v := account.value;
      var secret := Opened(s.records[v].keyBackup, Hash(RemoveAllSpace(typed)));
      if secret.Some? {
        RenewedKey(cfg, s, v, passNew, secret.value, key, uuid, w, u);
      }
    }
  }

  lemma RenewedKey(cfg: Config, s: State, v: nat, passNew: string, secret: Blob, key: string, uuid: string, w: World, u: nat)
    requires KeyCurrent(cfg, s, u) && IsOn(cfg, s, v) && v in s.passwords
    ensures KeyCurrent(cfg, Renewed(cfg, s, v, passNew, secret, key, uuid, w).0, u) <==>
            v != u || passNew == s.passwords[u] || w.save.Refused? || w.save.Written? == w.saveAuth.Written?
  {
    EnrolledKey(cfg, s, v, cfg.on, Hash(passNew), secret, key, uuid, u);
  }

  lemma DeactivateKey(cfg: Config, s: State, c: Token, password: string, w: World, u: nat)
    requires KeyCurrent(cfg, s, u) && DistinctStatuses(cfg)
    ensures KeyCurrent(cfg, Deactivated(cfg, s, c, password, w).0, u)
  {
  }

  /** Every operation, with every outcome of its writes, loses the main key of u exactly when its guard holds. */
  lemma KeyLostExactly(cfg: Config, s: State, op: Op, w: World, u: nat)
    requires KeyCurrent(cfg, s, u) && UserSound(cfg, s, u) && DistinctStatuses(cfg)
    ensures KeyCurrent(cfg, Step(cfg, s, op, w).0, u) <==> !Loses(cfg, s, op, w, u)
  {
    if !BearsToken(op) || op.token < |s.tokens| {
      match op
      case Activate(t, otp, check, key, uuid) => ActivateKey(cfg, s, s.tokens[t], otp, check, key, uuid, w, u);
      case Validate(t, otp, check) => ValidateKey(cfg, s, s.tokens[t], otp, check, w, u);
      case Deactivate(t, p) => DeactivateKey(cfg, s, s.tokens[t], p, w, u);
      case UpdatePassword(t, p, new_, again) => UpdateKey(cfg, s, s.tokens[t], p, new_, again, w, u);
      case Recover(account, new_, again, typed, key, uuid) =>
        RecoverKey(cfg, s, account, new_, again, typed, key, uuid, w, u);
      case _ => KeyElsewhere(cfg, s, op, w, u);
    }
  }

  lemma KeyElsewhere(cfg: Config, s: State, op: Op, w: World, u: nat)
    requires KeyCurrent(cfg, s, u) && UserSound(cfg, s, u)
    requires op.Register? || op.Login? || op.Refresh? || op.Setup? || op.CreateCodes? || op.UseCode?
    ensures KeyCurrent(cfg, Step(cfg, s, op, w).0, u)
  {
    RecordsElsewhere(cfg, s, op, w);
    if u in s.passwords {
      PasswordsElsewhere(cfg, s, op, w, u);
    }
  }

  // ---- Whole runs ----------------------------------------------------------

  ghost predicate KeyNeverLost(cfg: Config, states: seq<State>, u: nat) {
    forall i :: 0 <= i < |states| ==> KeyCurrent(cfg, states[i], u)
  }

  ghost predicate NoStepLoses(cfg: Config, states: seq<State>, events: seq<Event>, u: nat)
    requires |states| == |events| + 1
  {
    forall i :: 0 <= i < |events| ==> !Loses(cfg, states[i], events[i].op, events[i].w, u)
  }

  /** Step i of a run, reduced to what the induction needs. */
  ghost predicate ExactStep(cfg: Config, s: State, e: Event, s': State, u: nat) {
    KeyCurrent(cfg, s, u) ==> (KeyCurrent(cfg, s', u) <==> !Loses(cfg, s, e.op, e.w, u))
  }

  lemma {:induction false} KeyUpTo(cfg: Config, states: seq<State>, events: seq<Event>, u: nat, n: nat)
    requires |states| == |events| + 1 && n <= |events| && KeyCurrent(cfg, states[0], u)
    requires forall i :: 0 <= i < |events| ==> ExactStep(cfg, states[i], events[i], states[i + 1], u)
    requires NoStepLoses(cfg, states, events, u)
    ensures KeyCurrent(cfg, states[n], u)
  {
    if n > 0 {
      KeyUpTo(cfg, states, events, u, n - 1);
      assert ExactStep(cfg, states[n - 1], events[n - 1], states[n - 1 + 1], u);
    }
  }

  /** Over every run, the main key opens under the current password throughout exactly when no step loses it. */
  lemma KeyCurrentThroughout(cfg: Config, states: seq<State>, events: seq<Event>, u: nat)
    requires Run(cfg, states, events) && DistinctStatuses(cfg)
    ensures KeyNeverLost(cfg, states, u) <==> NoStepLoses(cfg, states, events, u)
  {
    forall i | 0 <= i < |events| ensures ExactStep(cfg, states[i], events[i], states[i + 1], u) {
      WrappingInvariant(cfg, states, events, i);
      assert UserSound(cfg, states[i], u);
      if KeyCurrent(cfg, states[i], u) {
        KeyLostExactly(cfg, states[i], events[i].op, events[i].w, u);
      }
    }
    KeyIffNoLoss(cfg, states, events, u);
  }

  lemma KeyIffNoLoss(cfg: Config, states: seq<State>, events: seq<Event>, u: nat)
    requires |states| == |events| + 1 && KeyCurrent(cfg, states[0], u)
    requires forall i :: 0 <= i < |events| ==> ExactStep(cfg, states[i], events[i], states[i + 1], u)
    ensures KeyNeverLost(cfg, states, u) <==> NoStepLoses(cfg, states, events, u)
  {
    if NoStepLoses(cfg, states, events, u) {
      forall n | 0 <= n < |states| ensures KeyCurrent(cfg, states[n], u) {
        KeyUpTo(cfg, states, events, u, n);
      }
    }
    if KeyNeverLost(cfg, states, u) {
      forall i | 0 <= i < |events| ensures !Loses(cfg, states[i], events[i].op, events[i].w, u) {
        assert ExactStep(cfg, states[i], events[i], states[i + 1], u);
      }
    }
  }

  /**
   In every reachable state with two-factor on, logging in with the current password
   and giving a correct OTP yields a verified token if the main key is current;
   otherwise every OTP is answered with 500, whatever it is.
   */
  lemma LoginThenOtp(cfg: Config, states: seq<State>, events: seq<Event>, n: nat, u: nat, otp: string, check: Check)
    requires Run(cfg, states, events) && DistinctStatuses(cfg) && cfg.must2FA && n <= |events|
    requires u != 0 && IsOn(cfg, states[n], u) && |RemoveAllSpace(otp)| == cfg.digits
    ensures u in states[n].passwords
    ensures var s := states[n];
            var (s1, in_) := LoggedIn(cfg, s, Some(u), false, s.passwords[u], ALL_WELL);
            var (s2, status) := Validated(cfg, s1, s1.tokens[|s1.tokens| - 1], otp, check, ALL_WELL);
            && in_ == OK
            && (status == OK && s2.tokens == s1.tokens + [Token(u, cfg.verified, None)] <==>
                KeyCurrent(cfg, s, u) && check.Accepted?)
            && (!KeyCurrent(cfg, s, u) ==> s2 == s1 && status == INTERNAL_ERROR)
  {
    WrappingInvariant(cfg, states, events, n);
    assert UserSound(cfg, states[n], u);
    AfterLogin(cfg, states[n], u, otp, check);
  }

  lemma AfterLogin(cfg: Config, s: State, u: nat, otp: string, check: Check)
    requires DistinctStatuses(cfg) && cfg.must2FA && u != 0 && u in s.passwords && IsOn(cfg, s, u)
    requires |RemoveAllSpace(otp)| == cfg.digits
    ensures var (s1, in_) := LoggedIn(cfg, s, Some(u), false, s.passwords[u], ALL_WELL);
            var (s2, status) := Validated(cfg, s1, s1.tokens[|s1.tokens| - 1], otp, check, ALL_WELL);
            && in_ == OK
            && (status == OK && s2.tokens == s1.tokens + [Token(u, cfg.verified, None)] <==>
                KeyCurrent(cfg, s, u) && check.Accepted?)
            && (!KeyCurrent(cfg, s, u) ==> s2 == s1 && status == INTERNAL_ERROR)
  {
  }

  // ---- Conditions a user can keep ------------------------------------------

  /** The password changes only while the user has no entry in memory, and both writes or none take place. */
  ghost predicate Unhurried(s: State, op: Op, w: World) {
    && (op.UpdatePassword? && op.token < |s.tokens| ==> s.tokens[op.token].auth !in s.memory)
    && (op.Recover? && op.account.Some? ==> op.account.value !in s.memory)
    && (op.UpdatePassword? || op.Recover? ==> !w.save.Lost? && w.saveAuth.Written?)
  }

  ghost predicate MemoryCurrent(s: State, u: nat) {
    u in s.memory ==> u in s.passwords && s.memory[u].passSHA == Hash(s.passwords[u])
  }

  lemma ActivateMemory(cfg: Config, s: State, c: Token, otp: string, check: Check, key: string, uuid: string, w: World, u: nat)
    requires MemoryCurrent(s, u)
    ensures MemoryCurrent(Activated(cfg, s, c, otp, check, key, uuid, w).0, u)
  {
  }

  lemma ValidateMemory(cfg: Config, s: State, c: Token, otp: string, check: Check, w: World, u: nat)
    requires MemoryCurrent(s, u)
    ensures MemoryCurrent(Validated(cfg, s, c, otp, check, w).0, u)
  {
  }

  lemma UpdateMemory(cfg: Config, s: State, c: Token, password: string, passNew: string, passRepeat: string, w: World, u: nat)
    requires MemoryCurrent(s, u) && c.auth !in s.memory
    ensures MemoryCurrent(PasswordUpdated(cfg, s, c, password, passNew, passRepeat, w).0, u)
  {
  }

  lemma RecoverMemory(cfg: Config, s: State, account: Option<nat>, passNew: string, passRepeat: string, typed: string,
                      key: string, uuid: string, w: World, u: nat)
    requires MemoryCurrent(s, u) && (account.Some? ==> account.value !in s.memory)
    ensures MemoryCurrent(Recovered(cfg, s, account, passNew, passRepeat, typed, key, uuid, w).0, u)
  {
  }

  lemma MemoryElsewhere(cfg: Config, s: State, op: Op, w: World, u: nat)
    requires MemoryCurrent(s, u) && !op.Activate? && !op.Validate? && !op.UpdatePassword? && !op.Recover?
    ensures MemoryCurrent(Step(cfg, s, op, w).0, u)
  {
  }

  lemma MemoryStaysCurrent(cfg: Config, s: State, op: Op, w: World, u: nat)
    requires MemoryCurrent(s, u) && Unhurried(s, op, w)
    ensures MemoryCurrent(Step(cfg, s, op, w).0, u)
  {
    if !BearsToken(op) || op.token < |s.tokens| {
      match op
      case Activate(t, otp, check, key, uuid) => ActivateMemory(cfg, s, s.tokens[t], otp, check, key, uuid, w, u);
      case Validate(t, otp, check) => ValidateMemory(cfg, s, s.tokens[t], otp, check, w, u);
      case UpdatePassword(t, p, new_, again) => UpdateMemory(cfg, s, s.tokens[t], p, new_, again, w, u);
      case Recover(account, new_, again, typed, key, uuid) =>
        RecoverMemory(cfg, s, account, new_, again, typed, key, uuid, w, u);
      case _ => MemoryElsewhere(cfg, s, op, w, u);
    }
  }

  lemma {:induction false} MemoryCurrentOnRuns(cfg: Config, states: seq<State>, events: seq<Event>, u: nat, n: nat)
    requires Run(cfg, states, events) && n <= |events|
    requires forall i :: 0 <= i < |events| ==> Unhurried(states[i], events[i].op, events[i].w)
    ensures MemoryCurrent(states[n], u)
  {
    if n > 0 {
      MemoryCurrentOnRuns(cfg, states, events, u, n - 1);
      assert states[n - 1 + 1] == Step(cfg, states[n - 1], events[n - 1].op, events[n - 1].w).0;
      MemoryStaysCurrent(cfg, states[n - 1], events[n - 1].op, events[n - 1].w, u);
    }
  }

  /** On unhurried runs no step loses the main key, and everything wrapped under a password is under the current one. */
  lemma PasswordWrapping(cfg: Config, states: seq<State>, events: seq<Event>, u: nat)
    requires Run(cfg, states, events) && DistinctStatuses(cfg) && cfg.must2FA
    requires forall i :: 0 <= i < |events| ==> Unhurried(states[i], events[i].op, events[i].w)
    ensures KeyNeverLost(cfg, states, u) && forall i :: 0 <= i < |states| ==> MemoryCurrent(states[i], u)
  {
    forall n | 0 <= n < |states| ensures MemoryCurrent(states[n], u) {
      MemoryCurrentOnRuns(cfg, states, events, u, n);
    }
    forall i | 0 <= i < |events| ensures !Loses(cfg, states[i], events[i].op, events[i].w, u) {
      assert MemoryCurrent(states[i], u) && Unhurried(states[i], events[i].op, events[i].w);
      assert !Stale(states[i], u);
    }
    KeyCurrentThroughout(cfg, states, events, u);
  }

  /**
   Why the password must not change during a login: after a change, an accepted or
   rejected OTP leaves the secret openable by the new password exactly when the entry
   holds no secret yet or the password is the same.
   */
  lemma ChangeDuringLogin(cfg: Config, s: State, c: Token, passNew: string, otp: string, check: Check)
    requires KeyCurrent(cfg, s, c.auth) && UserSound(cfg, s, c.auth) && MemoryCurrent(s, c.auth)
    requires DistinctStatuses(cfg) && cfg.must2FA && c.auth != 0 && c.twoFA == cfg.on && IsOn(cfg, s, c.auth) && c.auth in s.memory
    requires |passNew| >= cfg.minLength && |RemoveAllSpace(otp)| == cfg.digits && !check.Broken?
    ensures var u := c.auth;
            var (s1, changed) := PasswordUpdated(cfg, s, c, s.passwords[u], passNew, passNew, ALL_WELL);
            var s2 := Validated(cfg, s1, c, otp, check, ALL_WELL).0;
            && changed == OK
            && (KeyCurrent(cfg, s2, u) <==> s.memory[u].secret.None? || passNew == s.passwords[u])
  {
    UpdateKey(cfg, s, c, s.passwords[c.auth], passNew, passNew, ALL_WELL, c.auth);
    UpdateSound(cfg, s, c, s.passwords[c.auth], passNew, passNew, ALL_WELL, c.auth);
    var s1 := PasswordUpdated(cfg, s, c, s.passwords[c.auth], passNew, passNew, ALL_WELL).0;
    ValidateKey(cfg, s1, c, otp, check, ALL_WELL, c.auth);
  }

  /** And the same when the password is reset with the recovery key during a login. */
  lemma RecoverDuringLogin(cfg: Config, s: State, c: Token, typed: string, passNew: string, key: string, uuid: string,
                           otp: string, check: Check)
    requires KeyCurrent(cfg, s, c.auth) && UserSound(cfg, s, c.auth) && MemoryCurrent(s, c.auth)
    requires DistinctStatuses(cfg) && cfg.must2FA && c.auth != 0 && c.twoFA == cfg.on && IsOn(cfg, s, c.auth) && c.auth in s.memory
    requires KeyFits(cfg, s.records[c.auth], typed) && |key| == cfg.digits && FreeOf(key, ' ')
    requires |passNew| >= cfg.minLength && |RemoveAllSpace(otp)| == cfg.digits && !check.Broken?
    ensures var u := c.auth;
            var (s1, changed) := Recovered(cfg, s, Some(u), passNew, passNew, typed, key, uuid, ALL_WELL);
            var s2 := Validated(cfg, s1, c, otp, check, ALL_WELL).0;
            && changed == OK
            && (KeyCurrent(cfg, s2, u) <==> s.memory[u].secret.None? || passNew == s.passwords[u])
  {
    RecoverKey(cfg, s, Some(c.auth), passNew, passNew, typed, key, uuid, ALL_WELL, c.auth);
    RecoverSound(cfg, s, Some(c.auth), passNew, passNew, typed, key, uuid, ALL_WELL, c.auth);
    var s1 := Recovered(cfg, s, Some(c.auth), passNew, passNew, typed, key, uuid, ALL_WELL).0;
    ValidateKey(cfg, s1, c, otp, check, ALL_WELL, c.auth);
  }
}
