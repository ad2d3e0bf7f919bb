/** Where every token comes from, over every run: a password, a one-time password or a backup code. */
module TokenOrigins {
  import opened Wrappers
  import opened TwoFactor
  import opened TwoFactorRuns
  import opened VerifiedTokens
  import opened AuthAnswers

  /** The step earns exactly this token: by the current password, by what vouches for the user, or by refreshing one like it. */
  ghost predicate Earned(cfg: Config, s: State, op: Op, w: World, t: Token) {
    if BearsToken(op) && op.token >= |s.tokens| then false
    else match op
      case Login(account, barred, p) =>
        Admitted(s, account, barred, p, t.auth) && RowRead(cfg, w) && w.signOk && t == Token(t.auth, ClaimFor(cfg, s, t.auth), None)
      case Deactivate(i, p) =>
        MayDeactivate(cfg, s, s.tokens[i], p, w) && w.signOk && t == Token(s.tokens[i].auth, ClaimWithout(cfg, s, s.tokens[i].auth), None)
      case Refresh(i) =>
        Known(s, s.tokens[i].auth) && w.signOk && t == Token(s.tokens[i].auth, s.tokens[i].twoFA, Some(i))
      case _ => Vouched(cfg, s, op, t.auth) && Served(op, w) && t == Token(t.auth, cfg.verified, None)
  }

  ghost predicate GrowsExactly(cfg: Config, s: State, op: Op, w: World, s': State) {
    Appends(s, s') && forall t :: s'.tokens == s.tokens + [t] <==> Earned(cfg, s, op, w, t)
  }

  lemma LoginGrows(cfg: Config, s: State, op: Op, w: World)
    requires op.Login?
    ensures GrowsExactly(cfg, s, op, w, Step(cfg, s, op, w).0)
  {
    LoginExactly(cfg, s, op.account, op.barred, op.password, w);
    var s' := LoggedIn(cfg, s, op.account, op.barred, op.password, w).0;
    if op.account.Some? {
      var t := Token(op.account.value, ClaimFor(cfg, s, op.account.value), None);
      assert s'.tokens == s.tokens + [t] || s'.tokens == s.tokens;
    }
  }

  lemma DeactivateGrows(cfg: Config, s: State, op: Op, w: World)
    requires op.Deactivate? && op.token < |s.tokens| && UserSound(cfg, s, s.tokens[op.token].auth) && DistinctStatuses(cfg)
    ensures GrowsExactly(cfg, s, op, w, Step(cfg, s, op, w).0)
  {
    var c := s.tokens[op.token];
    DeactivateExactly(cfg, s, c, op.password, w);
    OneToken(s.tokens, Token(c.auth, ClaimWithout(cfg, s, c.auth), None));
  }

  lemma RefreshGrows(cfg: Config, s: State, op: Op, w: World)
    requires op.Refresh? && op.token < |s.tokens|
    ensures GrowsExactly(cfg, s, op, w, Step(cfg, s, op, w).0)
  {
    var c := s.tokens[op.token];
    OneToken(s.tokens, Token(c.auth, c.twoFA, Some(op.token)));
  }

  lemma OneToken(tokens: seq<Token>, t: Token)
    ensures forall t' :: tokens + [t'] == tokens + [t] <==> t' == t
  {
    forall t' | tokens + [t'] == tokens + [t] ensures t' == t {
      assert (tokens + [t'])[|tokens|] == (tokens + [t])[|tokens|];
    }
  }

  /** An accepted OTP and a matching code earn the verified token of the bearer. */
  lemma VouchedGrows(cfg: Config, s: State, op: Op, w: World)
    requires op.Validate? || op.Activate? || op.UseCode?
    requires op.token < |s.tokens| && UserSound(cfg, s, s.tokens[op.token].auth) && DistinctStatuses(cfg)
    ensures GrowsExactly(cfg, s, op, w, Step(cfg, s, op, w).0)
  {
    var c, s' := s.tokens[op.token], Step(cfg, s, op, w).0;
    VouchedStep(cfg, s, op, w, c);
    assert TokensGrow(cfg, s, op, w, s');
    OnlyVerified(cfg, s, op, w, c);
    forall t ensures s'.tokens == s.tokens + [t] <==> Earned(cfg, s, op, w, t) {
      OneToken(s.tokens, t);
      assert Issues(cfg, s, s', t.auth) <==> Vouched(cfg, s, op, t.auth) && Served(op, w);
    }
  }

  lemma OnlyVerified(cfg: Config, s: State, op: Op, w: World, c: Token)
    requires op.Validate? || op.Activate? || op.UseCode?
    requires op.token < |s.tokens| && c == s.tokens[op.token] && UserSound(cfg, s, c.auth) && DistinctStatuses(cfg)
    ensures var s' := Step(cfg, s, op, w).0; s'.tokens != s.tokens ==> Issues(cfg, s, s', c.auth)
  {
    match op
    case Validate(_, otp, check) => ValidateIssues(cfg, s, c, otp, check, w, c.auth);
    case Activate(_, otp, check, key, uuid) => ActivateIssues(cfg, s, c, otp, check, key, uuid, w, c.auth);
    case UseCode(_, code) => CodeIssues(cfg, s, c, code, w, c.auth);
  }

  lemma OthersGrow(cfg: Config, s: State, op: Op, w: World)
    requires op.Register? || op.Setup? || op.CreateCodes? || op.UpdatePassword? || op.Recover?
    ensures GrowsExactly(cfg, s, op, w, Step(cfg, s, op, w).0)
  {
    OthersIssue(cfg, s, op, w);
    forall t ensures s.tokens != s.tokens + [t] {
      assert |s.tokens + [t]| == |s.tokens| + 1;
    }
  }

  /** Every step adds exactly the token it earns, and none if it earns none. */
  lemma TokensAreEarned(cfg: Config, s: State, op: Op, w: World)
    requires Sound(cfg, s) && DistinctStatuses(cfg)
    ensures GrowsExactly(cfg, s, op, w, Step(cfg, s, op, w).0)
  {
    if BearsToken(op) && op.token >= |s.tokens| {
      forall t ensures s.tokens != s.tokens + [t] {
        assert |s.tokens + [t]| == |s.tokens| + 1;
      }
    } else {
      if BearsToken(op) {
        assert UserSound(cfg, s, s.tokens[op.token].auth);
      }
      match op
      case Login(_, _, _) => LoginGrows(cfg, s, op, w);
      case Deactivate(_, _) => DeactivateGrows(cfg, s, op, w);
      case Refresh(_) => RefreshGrows(cfg, s, op, w);
      case Validate(_, _, _) => VouchedGrows(cfg, s, op, w);
      case Activate(_, _, _, _, _) => VouchedGrows(cfg, s, op, w);
      case UseCode(_, _) => VouchedGrows(cfg, s, op, w);
      case _ => OthersGrow(cfg, s, op, w);
    }
  }

  // ---- Whole runs ----------------------------------------------------------

  /** Token i is a refresh of a refresh of ... token r, with the same user and claim. */
  ghost predicate Descends(tokens: seq<Token>, r: nat, i: nat)
    requires i < |tokens|
    decreases i
  {
    r == i || (tokens[i].parent.Some? && tokens[i].parent.value < i
               && tokens[tokens[i].parent.value].auth == tokens[i].auth && tokens[tokens[i].parent.value].twoFA == tokens[i].twoFA
               && Descends(tokens, r, tokens[i].parent.value))
  }

  lemma {:induction false} DescendsExtends(tokens: seq<Token>, more: seq<Token>, r: nat, i: nat)
    requires i < |tokens| && tokens <= more && Descends(tokens, r, i)
    ensures Descends(more, r, i)
    decreases i
  {
    if r != i {
      DescendsExtends(tokens, more, r, tokens[i].parent.value);
    }
  }

  /** Step k of the run added token r, and not by refreshing. */
  ghost predicate Origin(cfg: Config, states: seq<State>, events: seq<Event>, k: nat, r: nat) {
    && k < |events| && k + 1 < |states| && |states[k].tokens| == r < |states[k + 1].tokens|
    && !events[k].op.Refresh? && Earned(cfg, states[k], events[k].op, events[k].w, states[k + 1].tokens[r])
  }

  /** Token i of state n descends from the token r of an origin k, which has its user and claim. */
  ghost predicate TracesTo(cfg: Config, states: seq<State>, events: seq<Event>, n: nat, i: nat, k: nat, r: nat)
    requires n < |states| && i < |states[n].tokens|
  {
    && k < n && r <= i && Descends(states[n].tokens, r, i) && Origin(cfg, states, events, k, r)
    && states[k + 1].tokens[r].auth == states[n].tokens[i].auth && states[k + 1].tokens[r].twoFA == states[n].tokens[i].twoFA
  }

  lemma {:induction false} TraceToken(cfg: Config, states: seq<State>, events: seq<Event>, n: nat, i: nat) returns (k: nat, r: nat)
    requires n <= |events| < |states| && states[0].tokens == []
    requires forall m :: 0 <= m < |events| ==> GrowsExactly(cfg, states[m], events[m].op, events[m].w, states[m + 1])
    requires i < |states[n].tokens|
    ensures TracesTo(cfg, states, events, n, i, k, r)
    decreases n
  {
    assert n > 0;
    var s, op, s' := states[n - 1], events[n - 1].op, states[n - 1 + 1];
    assert GrowsExactly(cfg, s, op, events[n - 1].w, s');
    if i < |s.tokens| {
      assert s'.tokens[i] == s.tokens[i];
      k, r := TraceToken(cfg, states, events, n - 1, i);
      DescendsExtends(s.tokens, s'.tokens, r, i);
    } else {
      var t := s'.tokens[i];
      assert s'.tokens == s.tokens + [t];
      assert Earned(cfg, s, op, events[n - 1].w, t);
      if op.Refresh? {
        k, r := TraceToken(cfg, states, events, n - 1, op.token);
        DescendsExtends(s.tokens, s'.tokens, r, op.token);
      } else {
        k, r := n - 1, i;
      }
    }
  }

  /**
   Every token of every run, verified or not, goes back through refreshes for the same user
   and claim to a step that earned it: a login or a deactivation with the password that was
   current then, an accepted OTP for the user's secret, or one of the user's backup codes.
   */
  lemma EveryTokenIsEarned(cfg: Config, states: seq<State>, events: seq<Event>, n: nat, i: nat)
    requires Run(cfg, states, events) && DistinctStatuses(cfg) && n <= |events| && i < |states[n].tokens|
    ensures exists k: nat, r: nat :: TracesTo(cfg, states, events, n, i, k, r)
  {
    forall m | 0 <= m < |events| ensures GrowsExactly(cfg, states[m], events[m].op, events[m].w, states[m + 1]) {
      WrappingInvariant(cfg, states, events, m);
      TokensAreEarned(cfg, states[m], events[m].op, events[m].w);
    }
    var k, r := TraceToken(cfg, states, events, n, i);
  }
}
