/** Where tokens that claim to be verified come from, over every run. */
module VerifiedTokens {
  import opened Wrappers
  import opened Texts
  import opened TwoFactor
  import opened TwoFactorRuns

  // ---- Exactly when a step issues one --------------------------------------

  /** The OTP is accepted for the secret that was enrolled for u. */
  ghost predicate OtpVouches(cfg: Config, s: State, c: Token, otp: string, check: Check, u: nat) {
    && c.auth == u && c.twoFA == cfg.on && Known(s, u) && IsOn(cfg, s, u) && u in s.memory
    && |RemoveAllSpace(otp)| == cfg.digits && check.Accepted?
    && var secret := SecretFor(s.memory[u], s.records[u]);
       secret.Some? && s.records[u].keyMain.Some? && secret.value.seed == s.records[u].keyMain.value.plain.seed
  }

  /** The OTP is accepted for the secret that u has set up and not enrolled yet. */
  ghost predicate SetupVouches(cfg: Config, s: State, c: Token, otp: string, check: Check, u: nat) {
    && c.auth == u && c.twoFA != cfg.on && c.twoFA != cfg.verified && Known(s, u) && !IsOn(cfg, s, u)
    && u in s.memory && s.memory[u].secret.Some?
    && |RemoveAllSpace(otp)| == cfg.digits && check.Accepted?
  }

  /** The code is one of the backup codes stored for u. */
  ghost predicate CodeVouches(cfg: Config, s: State, c: Token, code: string, u: nat) {
    && c.auth == u && c.twoFA == cfg.on && Known(s, u) && TrimSpace(code) != ""
    && Matching(CodesOf(s.codes, u), Hash(TrimSpace(code))).Some?
  }

  ghost predicate Vouched(cfg: Config, s: State, op: Op, u: nat) {
    && BearsToken(op) && op.token < |s.tokens|
    && match op
       case Validate(t, otp, check) => OtpVouches(cfg, s, s.tokens[t], otp, check, u)
       case Activate(t, otp, check, _, _) => SetupVouches(cfg, s, s.tokens[t], otp, check, u)
       case UseCode(t, code) => CodeVouches(cfg, s, s.tokens[t], code, u)
       case _ => false
  }

  /** No call to the outside keeps the request from being answered. */
  ghost predicate Served(op: Op, w: World) {
    w.readOk && w.signOk && (op.Activate? ==> !w.save.Refused?) && (op.UseCode? ==> !w.delete.Refused?)
  }

  /** The step issues a verified token to u, and not by refreshing one. */
  ghost predicate Issues(cfg: Config, s: State, s': State, u: nat) {
    s'.tokens == s.tokens + [Token(u, cfg.verified, None)]
  }

  ghost predicate Appends(s: State, s': State) {
    s'.tokens == s.tokens || (|s'.tokens| == |s.tokens| + 1 && s'.tokens[..|s.tokens|] == s.tokens)
  }

  lemma IssuedAppends(s: State, v: nat, claim: string, parent: Option<nat>, w: World)
    ensures Appends(s, Issued(s, v, claim, parent, w).0)
  {
  }

  lemma ValidateIssues(cfg: Config, s: State, c: Token, otp: string, check: Check, w: World, u: nat)
    requires UserSound(cfg, s, c.auth) && DistinctStatuses(cfg)
    ensures var s' := Validated(cfg, s, c, otp, check, w).0;
            Appends(s, s') && (Issues(cfg, s, s', u) <==> OtpVouches(cfg, s, c, otp, check, u) && w.readOk && w.signOk)
            && (s'.tokens != s.tokens ==> Issues(cfg, s, s', c.auth))
  {
  }

  lemma ActivateIssues(cfg: Config, s: State, c: Token, otp: string, check: Check, key: string, uuid: string, w: World, u: nat)
    ensures var s' := Activated(cfg, s, c, otp, check, key, uuid, w).0;
            && Appends(s, s')
            && (Issues(cfg, s, s', u) <==> SetupVouches(cfg, s, c, otp, check, u) && w.readOk && w.signOk && !w.save.Refused?)
            && (s'.tokens != s.tokens ==> Issues(cfg, s, s', c.auth))
  {
  }

  lemma CodeIssues(cfg: Config, s: State, c: Token, code: string, w: World, u: nat)
    requires DistinctStatuses(cfg)
    ensures var s' := CodeUsed(cfg, s, c, code, w).0;
            && Appends(s, s')
            && (Issues(cfg, s, s', u) <==> CodeVouches(cfg, s, c, code, u) && w.readOk && w.signOk && !w.delete.Refused?)
            && (s'.tokens != s.tokens ==> Issues(cfg, s, s', c.auth))
  {
  }

  lemma DeactivateIssues(cfg: Config, s: State, c: Token, password: string, w: World)
    requires UserSound(cfg, s, c.auth) && DistinctStatuses(cfg)
    ensures var s' := Deactivated(cfg, s, c, password, w).0;
            Appends(s, s') && (s'.tokens != s.tokens ==> s'.tokens[|s.tokens|].twoFA != cfg.verified)
  {
  }

  lemma LoginIssues(cfg: Config, s: State, account: Option<nat>, barred: bool, password: string, w: World)
    requires (account.Some? ==> UserSound(cfg, s, account.value)) && DistinctStatuses(cfg)
    ensures var s' := LoggedIn(cfg, s, account, barred, password, w).0;
            Appends(s, s') && (s'.tokens != s.tokens ==> s'.tokens[|s.tokens|].twoFA != cfg.verified)
  {
  }

  lemma OthersIssue(cfg: Config, s: State, op: Op, w: World)
    requires op.Register? || op.Setup? || op.CreateCodes? || op.UpdatePassword? || op.Recover?
    ensures Step(cfg, s, op, w).0.tokens == s.tokens
  {
  }

  /** What a step may add to the tokens. */
  ghost predicate TokensGrow(cfg: Config, s: State, op: Op, w: World, s': State) {
    && Appends(s, s')
    && (forall u :: Issues(cfg, s, s', u) <==> Vouched(cfg, s, op, u) && Served(op, w))
    && (s'.tokens != s.tokens && s'.tokens[|s.tokens|].twoFA == cfg.verified ==>
          var t := s'.tokens[|s.tokens|];
          Issues(cfg, s, s', t.auth) || Renews(cfg, s, op, t))
  }

  ghost predicate Renews(cfg: Config, s: State, op: Op, t: Token) {
    && op.Refresh? && op.token < |s.tokens| && t.parent == Some(op.token)
    && s.tokens[op.token].auth == t.auth && s.tokens[op.token].twoFA == cfg.verified
  }

  /**
   Every step: a verified token is issued to u exactly when the request carries an
   accepted OTP for u's secret or one of u's backup codes and is served; any other verified
   token that appears renews one of the same user.
   */
  lemma IssuedExactly(cfg: Config, s: State, op: Op, w: World)
    requires Sound(cfg, s) && DistinctStatuses(cfg)
    ensures TokensGrow(cfg, s, op, w, Step(cfg, s, op, w).0)
  {
    var s' := Step(cfg, s, op, w).0;
    if BearsToken(op) && op.token < |s.tokens| {
      var c := s.tokens[op.token];
      assert UserSound(cfg, s, c.auth);
      VouchedStep(cfg, s, op, w, c);
    } else if op.Login? {
      assert op.account.Some? ==> UserSound(cfg, s, op.account.value);
      LoginIssues(cfg, s, op.account, op.barred, op.password, w);
    } else if !BearsToken(op) {
      OthersIssue(cfg, s, op, w);
    }
  }

  lemma VouchedStep(cfg: Config, s: State, op: Op, w: World, c: Token)
    requires BearsToken(op) && op.token < |s.tokens| && c == s.tokens[op.token]
    requires UserSound(cfg, s, c.auth) && DistinctStatuses(cfg)
    ensures TokensGrow(cfg, s, op, w, Step(cfg, s, op, w).0)
  {
    match op
    case Validate(_, _, _) => ValidateGrows(cfg, s, op, w, c);
    case Activate(_, _, _, _, _) => ActivateGrows(cfg, s, op, w, c);
    case UseCode(_, _) => CodeGrows(cfg, s, op, w, c);
    case Deactivate(_, p) => DeactivateIssues(cfg, s, c, p, w);
    case Refresh(t) => IssuedAppends(s, c.auth, c.twoFA, Some(t), w);
    case _ => OthersIssue(cfg, s, op, w);
  }

  lemma ValidateGrows(cfg: Config, s: State, op: Op, w: World, c: Token)
    requires op.Validate? && op.token < |s.tokens| && c == s.tokens[op.token]
    requires UserSound(cfg, s, c.auth) && DistinctStatuses(cfg)
    ensures TokensGrow(cfg, s, op, w, Step(cfg, s, op, w).0)
  {
    var s' := Validated(cfg, s, c, op.otp, op.check, w).0;
    forall u ensures Issues(cfg, s, s', u) <==> Vouched(cfg, s, op, u) && Served(op, w) {
      ValidateIssues(cfg, s, c, op.otp, op.check, w, u);
    }
    ValidateIssues(cfg, s, c, op.otp, op.check, w, c.auth);
  }

  lemma ActivateGrows(cfg: Config, s: State, op: Op, w: World, c: Token)
    requires op.Activate? && op.token < |s.tokens| && c == s.tokens[op.token]
    ensures TokensGrow(cfg, s, op, w, Step(cfg, s, op, w).0)
  {
    var s' := Activated(cfg, s, c, op.otp, op.check, op.key, op.uuid, w).0;
    forall u ensures Issues(cfg, s, s', u) <==> Vouched(cfg, s, op, u) && Served(op, w) {
      ActivateIssues(cfg, s, c, op.otp, op.check, op.key, op.uuid, w, u);
    }
    ActivateIssues(cfg, s, c, op.otp, op.check, op.key, op.uuid, w, c.auth);
  }

  lemma CodeGrows(cfg: Config, s: State, op: Op, w: World, c: Token)
    requires op.UseCode? && op.token < |s.tokens| && c == s.tokens[op.token] && DistinctStatuses(cfg)
    ensures TokensGrow(cfg, s, op, w, Step(cfg, s, op, w).0)
  {
    var s' := CodeUsed(cfg, s, c, op.code, w).0;
    forall u ensures Issues(cfg, s, s', u) <==> Vouched(cfg, s, op, u) && Served(op, w) {
      CodeIssues(cfg, s, c, op.code, w, u);
    }
    CodeIssues(cfg, s, c, op.code, w, c.auth);
  }

  // ---- Whole runs ----------------------------------------------------------

  /** Token i stems from token r by refreshing, zero or more times, for one user. */
  ghost predicate RefreshedFrom(tokens: seq<Token>, r: nat, i: nat)
    requires i < |tokens|
    decreases i
  {
    r == i || (tokens[i].parent.Some? && tokens[i].parent.value < i && tokens[tokens[i].parent.value].auth == tokens[i].auth
               && RefreshedFrom(tokens, r, tokens[i].parent.value))
  }

  lemma {:induction false} RefreshedFromExtends(tokens: seq<Token>, more: seq<Token>, r: nat, i: nat)
    requires i < |tokens| && tokens <= more && RefreshedFrom(tokens, r, i)
    ensures RefreshedFrom(more, r, i)
    decreases i
  {
    if r != i {
      RefreshedFromExtends(tokens, more, r, tokens[i].parent.value);
    }
  }

  /** Step k of the run issued token r to u, verified, on an accepted OTP or a matching backup code. */
  ghost predicate Issuance(cfg: Config, states: seq<State>, events: seq<Event>, k: nat, r: nat, u: nat) {
    && k < |events| && k + 1 < |states| && |states[k].tokens| == r
    && Issues(cfg, states[k], states[k + 1], u)
    && Vouched(cfg, states[k], events[k].op, u) && Served(events[k].op, events[k].w)
  }

  lemma {:induction false} TracedBack(cfg: Config, states: seq<State>, events: seq<Event>, n: nat, i: nat) returns (k: nat, r: nat)
    requires n <= |events| < |states| && states[0].tokens == []
    requires forall m :: 0 <= m < |events| ==> TokensGrow(cfg, states[m], events[m].op, events[m].w, states[m + 1])
    requires i < |states[n].tokens| && states[n].tokens[i].twoFA == cfg.verified
    ensures k < n && r <= i && RefreshedFrom(states[n].tokens, r, i)
    ensures Issuance(cfg, states, events, k, r, states[n].tokens[i].auth)
    decreases n
  {
    assert n > 0;
    var s, op, s' := states[n - 1], events[n - 1].op, states[n - 1 + 1];
    assert TokensGrow(cfg, s, op, events[n - 1].w, s');
    if i < |s.tokens| {
      assert s'.tokens[i] == s.tokens[i];
      k, r := TracedBack(cfg, states, events, n - 1, i);
      RefreshedFromExtends(s.tokens, s'.tokens, r, i);
    } else {
      var t := s'.tokens[i];
      if Issues(cfg, s, s', t.auth) {
        k, r := n - 1, i;
      } else {
        k, r := TracedBack(cfg, states, events, n - 1, op.token);
        RefreshedFromExtends(s.tokens, s'.tokens, r, op.token);
      }
    }
  }

  /**
   Every token that claims to be verified goes back, through refreshes for the same
   user, to a token that a step of the run issued, verified, to that user on an accepted
   OTP for the user's secret or on one of the user's backup codes.
   */
  lemma VerifiedTokensAreVouched(cfg: Config, states: seq<State>, events: seq<Event>, n: nat, i: nat)
    requires Run(cfg, states, events) && DistinctStatuses(cfg) && n <= |events|
    requires i < |states[n].tokens| && states[n].tokens[i].twoFA == cfg.verified
    ensures exists k: nat, r: nat :: k < n && r <= i && RefreshedFrom(states[n].tokens, r, i)
                           && Issuance(cfg, states, events, k, r, states[n].tokens[i].auth)
  {
    forall m | 0 <= m < |events| ensures TokensGrow(cfg, states[m], events[m].op, events[m].w, states[m + 1]) {
      WrappingInvariant(cfg, states, events, m);
      IssuedExactly(cfg, states[m], events[m].op, events[m].w);
    }
    var k, r := TracedBack(cfg, states, events, n, i);
  }
}
