/** What every run of the two-factor handlers guarantees. */
module TwoFactorRuns {
  import opened Wrappers
  import opened Http
  import opened Connections
  import opened Texts
  import opened TwoFactor

  datatype Op =
    | Register(newcomer: nat, password: string)
    | Login(account: Option<nat>, barred: bool, password: string)
    | Refresh(token: nat)
    | Setup(token: nat, password: string, seed: nat, made: bool)
    | Activate(token: nat, otp: string, check: Check, key: string, uuid: string)
    | Validate(token: nat, otp: string, check: Check)
    | Deactivate(token: nat, password: string)
    | CreateCodes(token: nat, password: string, texts: seq<string>)
    | UseCode(token: nat, code: string)
    | UpdatePassword(token: nat, password: string, passNew: string, passRepeat: string)
    | Recover(account: Option<nat>, passNew: string, passRepeat: string, typed: string, key: string, uuid: string)

  predicate BearsToken(op: Op) {
    !op.Register? && !op.Login? && !op.Recover?
  }

  /** Claims come from tokens the service has issued; anything else stops at the JWT middleware. */
  function Step(cfg: Config, s: State, op: Op, w: World): (State, int) {
    if BearsToken(op) && op.token >= |s.tokens| then (s, UNAUTHORIZED)
    else match op
      case Register(u, p) => if u == 0 || u in s.passwords then (s, BAD_REQUEST) else (s.(passwords := s.passwords[u := p]), CREATED)
      case Login(account, barred, p) => LoggedIn(cfg, s, account, barred, p, w)
      case Refresh(t) => Refreshed(s, t, w)
      case Setup(t, p, seed, made) => SetUp(cfg, s, s.tokens[t], p, seed, made, w)
      case Activate(t, otp, check, key, uuid) => Activated(cfg, s, s.tokens[t], otp, check, key, uuid, w)
      case Validate(t, otp, check) => Validated(cfg, s, s.tokens[t], otp, check, w)
      case Deactivate(t, p) => Deactivated(cfg, s, s.tokens[t], p, w)
      case CreateCodes(t, p, texts) => CodesCreated(cfg, s, s.tokens[t], p, texts, w)
      case UseCode(t, code) => CodeUsed(cfg, s, s.tokens[t], code, w)
      case UpdatePassword(t, p, new_, again) => PasswordUpdated(cfg, s, s.tokens[t], p, new_, again, w)
      case Recover(account, new_, again, typed, key, uuid) => Recovered(cfg, s, account, new_, again, typed, key, uuid, w)
  }

  datatype Event = Event(op: Op, w: World)

  const ALL_WELL := World(true, Written, Written, Written, true)

  const INITIAL := State(map[], map[], map[], [], 1, [], map[], map[])

  /** Generated recovery keys are hexadecimal digits, as many as an OTP has. */
  ghost predicate Generated(cfg: Config, op: Op) {
    op.Activate? || op.Recover? ==> |op.key| == cfg.digits && FreeOf(op.key, ' ')
  }

  ghost predicate Run(cfg: Config, states: seq<State>, events: seq<Event>) {
    && |states| == |events| + 1 && states[0] == INITIAL
    && forall i :: 0 <= i < |events| ==>
         Generated(cfg, events[i].op) && states[i + 1] == Step(cfg, states[i], events[i].op, events[i].w).0
  }

  ghost predicate DistinctStatuses(cfg: Config) {
    cfg.on != cfg.off && cfg.on != cfg.verified && cfg.off != cfg.verified && cfg.on != "" && cfg.off != "" && cfg.verified != ""
  }

  ghost predicate IsOn(cfg: Config, s: State, u: nat) {
    u in s.records && s.records[u].status == cfg.on
  }

  // ---- The two wrappings hold one secret -----------------------------------

  /** Main and backup key hold one seed; the recovery data belong to the last recovery key. */
  ghost predicate Wrapped(cfg: Config, r: Record, key: string) {
    && r.keyMain.Some? && r.keyBackup.Some? && r.uuidEnc.Some?
    && r.keyMain.value.plain.seed == r.keyBackup.value.plain.seed
    && r.uuidEnc.value.key == r.keyBackup.value.key == Hash(key)
    && r.uuidSHA == Some(Hash(r.uuidEnc.value.plain))
    && |key| == cfg.digits && FreeOf(key, ' ')
  }

  /** Status on means a whole wrapping, status off means no key material at all. */
  ghost predicate UserSound(cfg: Config, s: State, u: nat) {
    u in s.records ==>
      && u in s.passwords
      && (s.records[u].status == cfg.on || s.records[u] == Record(cfg.off, None, None, None, None))
      && (s.records[u].status == cfg.on ==>
            && u in s.recovery && Wrapped(cfg, s.records[u], s.recovery[u])
            && (u in s.memory && s.memory[u].secret.Some? ==>
                  s.memory[u].secret.value.seed == s.records[u].keyMain.value.plain.seed))
  }

  ghost predicate Sound(cfg: Config, s: State) {
    forall u :: UserSound(cfg, s, u)
  }

  lemma IssuedSound(cfg: Config, s: State, v: nat, claim: string, parent: Option<nat>, w: World, u: nat)
    requires UserSound(cfg, s, u)
    ensures UserSound(cfg, Issued(s, v, claim, parent, w).0, u)
  {
  }

  lemma EnrolledSound(cfg: Config, s: State, v: nat, passSHA: Hash, blob: Blob, key: string, uuid: string, u: nat)
    requires UserSound(cfg, s, u) && |key| == cfg.digits && FreeOf(key, ' ') && v in s.passwords
    requires v == u && v in s.memory && s.memory[v].secret.Some? ==> s.memory[v].secret.value.seed == blob.seed
    ensures UserSound(cfg, Enrolled(s, v, cfg.on, passSHA, blob, key, uuid), u)
  {
  }

  lemma SetUpSound(cfg: Config, s: State, c: Token, password: string, seed: nat, made: bool, w: World, u: nat)
    requires UserSound(cfg, s, u)
    ensures UserSound(cfg, SetUp(cfg, s, c, password, seed, made, w).0, u)
  {
  }

  lemma ActivateSound(cfg: Config, s: State, c: Token, otp: string, check: Check, key: string, uuid: string, w: World, u: nat)
    requires UserSound(cfg, s, u) && |key| == cfg.digits && FreeOf(key, ' ')
    ensures UserSound(cfg, Activated(cfg, s, c, otp, check, key, uuid, w).0, u)
  {
    var v := c.auth;
    if Known(s, v) && v in s.memory && s.memory[v].secret.Some? && check.Accepted? {
      ConfirmedSound(cfg, s, v, s.memory[v].passSHA, s.memory[v].secret.value.(counters := check.counters), key, uuid, w, u);
    }
  }

  lemma ConfirmedSound(cfg: Config, s: State, v: nat, passSHA: Hash, blob: Blob, key: string, uuid: string, w: World, u: nat)
    requires UserSound(cfg, s, u) && |key| == cfg.digits && FreeOf(key, ' ') && v in s.passwords
    ensures UserSound(cfg, Confirmed(cfg, s, v, passSHA, blob, key, uuid, w).0, u)
  {
    var cleared := s.(memory := s.memory - {v});
    assert UserSound(cfg, cleared, u);
    EnrolledSound(cfg, cleared, v, passSHA, blob, key, uuid, u);
  }

  lemma ValidateSound(cfg: Config, s: State, c: Token, otp: string, check: Check, w: World, u: nat)
    requires UserSound(cfg, s, u)
    ensures UserSound(cfg, Validated(cfg, s, c, otp, check, w).0, u)
  {
  }

  lemma DeactivateSound(cfg: Config, s: State, c: Token, password: string, w: World, u: nat)
    requires UserSound(cfg, s, u) && DistinctStatuses(cfg)
    ensures UserSound(cfg, Deactivated(cfg, s, c, password, w).0, u)
  {
  }

  lemma LoginSound(cfg: Config, s: State, account: Option<nat>, barred: bool, password: string, w: World, u: nat)
    requires UserSound(cfg, s, u)
    ensures UserSound(cfg, LoggedIn(cfg, s, account, barred, password, w).0, u)
  {
  }

  lemma UpdateSound(cfg: Config, s: State, c: Token, password: string, passNew: string, passRepeat: string, w: World, u: nat)
    requires UserSound(cfg, s, u)
    ensures UserSound(cfg, PasswordUpdated(cfg, s, c, password, passNew, passRepeat, w).0, u)
  {
  }

  lemma PasswordSavedSound(cfg: Config, s: State, account: Option<nat>, passNew: string, w: World, u: nat)
    requires UserSound(cfg, s, u)
    ensures account.Some? ==> UserSound(cfg, PasswordSaved(s, account.value, passNew, w).0, u)
  {
  }

  lemma RecoverSound(cfg: Config, s: State, account: Option<nat>, passNew: string, passRepeat: string, typed: string,
                     key: string, uuid: string, w: World, u: nat)
    requires UserSound(cfg, s, u) && |key| == cfg.digits && FreeOf(key, ' ')
    ensures UserSound(cfg, Recovered(cfg, s, account, passNew, passRepeat, typed, key, uuid, w).0, u)
  {
    PasswordSavedSound(cfg, s, account, passNew, w, u);
    if account.Some? && account.value in s.passwords && IsOn(cfg, s, account.value) {
      var v := account.value;
      var secret := Opened(s.records[v].keyBackup, Hash(RemoveAllSpace(typed)));
      if secret.Some? {
        RenewedSound(cfg, s, v, passNew, secret.value, key, uuid, w, u);
      }
    }
  }

  lemma RenewedSound(cfg: Config, s: State, v: nat, passNew: string, secret: Blob, key: string, uuid: string, w: World, u: nat)
    requires UserSound(cfg, s, u) && |key| == cfg.digits && FreeOf(key, ' ') && v in s.passwords
    requires v == u && v in s.memory && s.memory[v].secret.Some? ==> s.memory[v].secret.value.seed == secret.seed
    ensures UserSound(cfg, Renewed(cfg, s, v, passNew, secret, key, uuid, w).0, u)
  {
    var enrolled := Enrolled(s, v, cfg.on, Hash(passNew), secret, key, uuid);
    EnrolledSound(cfg, s, v, Hash(passNew), secret, key, uuid, u);
    PasswordSavedSound(cfg, s, Some(v), passNew, w, u);
    PasswordSavedSound(cfg, enrolled, Some(v), passNew, w, u);
    HandedOutSound(cfg, PasswordSaved(s, v, passNew, w), v, key, u);
    HandedOutSound(cfg, PasswordSaved(enrolled, v, passNew, w), v, key, u);
  }

  lemma HandedOutSound(cfg: Config, r: (State, int), v: nat, key: string, u: nat)
    requires UserSound(cfg, r.0, u)
    ensures UserSound(cfg, HandedOut(r, v, key).0, u)
  {
  }

  /** Every handler keeps the wrapping of every user. */
  lemma UserStaysSound(cfg: Config, s: State, op: Op, w: World, u: nat)
    requires UserSound(cfg, s, u) && DistinctStatuses(cfg) && Generated(cfg, op)
    ensures UserSound(cfg, Step(cfg, s, op, w).0, u)
  {
    if !BearsToken(op) || op.token < |s.tokens| {
      match op
      case Register(_, _) =>
      case Login(account, barred, p) => LoginSound(cfg, s, account, barred, p, w, u);
      case Refresh(_) =>
      case Setup(t, p, seed, made) => SetUpSound(cfg, s, s.tokens[t], p, seed, made, w, u);
      case Activate(t, otp, check, key, uuid) => ActivateSound(cfg, s, s.tokens[t], otp, check, key, uuid, w, u);
      case Validate(t, otp, check) => ValidateSound(cfg, s, s.tokens[t], otp, check, w, u);
      case Deactivate(t, p) => DeactivateSound(cfg, s, s.tokens[t], p, w, u);
      case CreateCodes(_, _, _) =>
      case UseCode(_, _) =>
      case UpdatePassword(t, p, new_, again) => UpdateSound(cfg, s, s.tokens[t], p, new_, again, w, u);
      case Recover(account, new_, again, typed, key, uuid) =>
        RecoverSound(cfg, s, account, new_, again, typed, key, uuid, w, u);
    }
  }

  lemma StepSound(cfg: Config, s: State, op: Op, w: World)
    requires Sound(cfg, s) && DistinctStatuses(cfg) && Generated(cfg, op)
    ensures Sound(cfg, Step(cfg, s, op, w).0)
  {
    forall u ensures UserSound(cfg, Step(cfg, s, op, w).0, u) {
      assert UserSound(cfg, s, u);
      UserStaysSound(cfg, s, op, w, u);
    }
  }

  /** The wrapping invariant holds in every state of every run, whichever writes are refused or lost. */
  lemma {:induction false} WrappingInvariant(cfg: Config, states: seq<State>, events: seq<Event>, n: nat)
    requires Run(cfg, states, events) && DistinctStatuses(cfg) && n <= |events|
    ensures Sound(cfg, states[n])
  {
    if n > 0 {
      WrappingInvariant(cfg, states, events, n - 1);
      assert states[n - 1 + 1] == Step(cfg, states[n - 1], events[n - 1].op, events[n - 1].w).0;
      StepSound(cfg, states[n - 1], events[n - 1].op, events[n - 1].w);
    }
  }

  // ---- Recovery ------------------------------------------------------------

  /** What recovery depends on is the same in both states, and so is the status. */
  ghost predicate SameRecoveryData(s: State, s': State, u: nat) {
    && s'.recovery == s.recovery && (u in s'.records <==> u in s.records)
    && (u in s.records ==>
          && s'.records[u].status == s.records[u].status && s'.records[u].keyBackup == s.records[u].keyBackup
          && s'.records[u].uuidEnc == s.records[u].uuidEnc && s'.records[u].uuidSHA == s.records[u].uuidSHA)
  }

  lemma ValidateFrame(cfg: Config, s: State, c: Token, otp: string, check: Check, w: World, u: nat)
    ensures SameRecoveryData(s, Validated(cfg, s, c, otp, check, w).0, u)
  {
  }

  lemma UpdateFrame(cfg: Config, s: State, c: Token, password: string, passNew: string, passRepeat: string, w: World, u: nat)
    ensures SameRecoveryData(s, PasswordUpdated(cfg, s, c, password, passNew, passRepeat, w).0, u)
  {
  }

  /** Only three operations touch what recovery depends on. */
  lemma RecoveryDataFrame(cfg: Config, s: State, op: Op, w: World, u: nat)
    requires !op.Activate? && !op.Recover? && !op.Deactivate?
    ensures SameRecoveryData(s, Step(cfg, s, op, w).0, u)
  {
    if !BearsToken(op) || op.token < |s.tokens| {
      match op
      case Validate(t, otp, check) => ValidateFrame(cfg, s, s.tokens[t], otp, check, w, u);
      case UpdatePassword(t, p, new_, again) => UpdateFrame(cfg, s, s.tokens[t], p, new_, again, w, u);
      case _ => RecordsElsewhere(cfg, s, op, w);
    }
  }

  /** Rows are written by five operations only. */
  lemma RecordsElsewhere(cfg: Config, s: State, op: Op, w: World)
    requires op.Register? || op.Login? || op.Refresh? || op.Setup? || op.CreateCodes? || op.UseCode?
    ensures SameRows(s, Step(cfg, s, op, w).0)
  {
    if !BearsToken(op) || op.token < |s.tokens| {
      match op
      case Login(account, barred, p) => LoginRows(cfg, s, account, barred, p, w);
      case Setup(t, p, seed, made) => SetUpRows(cfg, s, s.tokens[t], p, seed, made, w);
      case CreateCodes(t, p, texts) => CreateRows(cfg, s, s.tokens[t], p, texts, w);
      case UseCode(t, code) => UseRows(cfg, s, s.tokens[t], code, w);
      case _ =>
    }
  }

  ghost predicate SameRows(s: State, s': State) {
    s'.records == s.records && s'.recovery == s.recovery
  }

  lemma LoginRows(cfg: Config, s: State, account: Option<nat>, barred: bool, password: string, w: World)
    ensures SameRows(s, LoggedIn(cfg, s, account, barred, password, w).0)
  {
  }

  lemma SetUpRows(cfg: Config, s: State, c: Token, password: string, seed: nat, made: bool, w: World)
    ensures SameRows(s, SetUp(cfg, s, c, password, seed, made, w).0)
  {
  }

  lemma CreateRows(cfg: Config, s: State, c: Token, password: string, texts: seq<string>, w: World)
    ensures SameRows(s, CodesCreated(cfg, s, c, password, texts, w).0)
  {
  }

  lemma UseRows(cfg: Config, s: State, c: Token, code: string, w: World)
    ensures SameRows(s, CodeUsed(cfg, s, c, code, w).0)
  {
  }

  /**
   In every reachable state with two-factor on, the recovery key last generated,
   typed with any blanks, resets the password; the new one then opens the secret,
   and a new recovery key takes the place of the old one.
   */
  lemma RecoveryAlwaysWorks(cfg: Config, states: seq<State>, events: seq<Event>, n: nat, u: nat,
                            typed: string, passNew: string, key: string, uuid: string, w: World)
    requires Run(cfg, states, events) && DistinctStatuses(cfg) && n <= |events| && cfg.must2FA
    requires var s := states[n]; u in s.passwords && u in s.records && s.records[u].status == cfg.on
    requires u in states[n].recovery && SpacedOut(typed, states[n].recovery[u])
    requires |passNew| >= cfg.minLength && w == ALL_WELL
    ensures KeyFits(cfg, states[n].records[u], typed)
    ensures var (s', status) := Recovered(cfg, states[n], Some(u), passNew, passNew, typed, key, uuid, w);
            && status == OK && s'.passwords[u] == passNew && s'.recovery[u] == key
            && Opened(s'.records[u].keyMain, Hash(passNew)) ==
               Some(states[n].records[u].keyBackup.value.plain)
  {
    WrappingInvariant(cfg, states, events, n);
    assert UserSound(cfg, states[n], u);
    RemovingSpaces(typed, states[n].recovery[u]);
  }

  // ---- Who may change what -------------------------------------------------

  /** A password changes only for someone who gives the old one or, with two-factor on, a fitting recovery key. */
  lemma PasswordChangeIsEarned(cfg: Config, s: State, op: Op, w: World, u: nat)
    requires u in s.passwords && !HasPassword(Step(cfg, s, op, w).0, u, s.passwords[u])
    ensures op.UpdatePassword? || op.Recover?
    ensures op.UpdatePassword? ==>
              op.token < |s.tokens| && s.tokens[op.token].auth == u && op.password == s.passwords[u]
    ensures op.Recover? ==> op.account == Some(u) && (cfg.must2FA && IsOn(cfg, s, u) ==> KeyFits(cfg, s.records[u], op.typed))
    ensures op.passNew == op.passRepeat && |op.passNew| >= cfg.minLength && HasPassword(Step(cfg, s, op, w).0, u, op.passNew)
  {
    match op
    case UpdatePassword(t, p, new_, again) =>
      assert t < |s.tokens|;
      UpdateEarned(cfg, s, s.tokens[t], p, new_, again, w, u);
    case Recover(account, new_, again, typed, key, uuid) => RecoverEarned(cfg, s, account, new_, again, typed, key, uuid, w, u);
    case _ => PasswordsElsewhere(cfg, s, op, w, u);
  }

  ghost predicate HasPassword(s: State, u: nat, password: string) {
    u in s.passwords && s.passwords[u] == password
  }

  lemma PasswordsElsewhere(cfg: Config, s: State, op: Op, w: World, u: nat)
    requires !op.UpdatePassword? && !op.Recover? && u in s.passwords
    ensures HasPassword(Step(cfg, s, op, w).0, u, s.passwords[u])
  {
  }

  lemma UpdateEarned(cfg: Config, s: State, c: Token, password: string, passNew: string, passRepeat: string, w: World, u: nat)
    requires u in s.passwords && !HasPassword(PasswordUpdated(cfg, s, c, password, passNew, passRepeat, w).0, u, s.passwords[u])
    ensures c.auth == u && password == s.passwords[u] && passNew == passRepeat && |passNew| >= cfg.minLength
    ensures HasPassword(PasswordUpdated(cfg, s, c, password, passNew, passRepeat, w).0, u, passNew)
  {
  }

  lemma RecoverEarned(cfg: Config, s: State, account: Option<nat>, passNew: string, passRepeat: string, typed: string,
                      key: string, uuid: string, w: World, u: nat)
    requires u in s.passwords
    requires !HasPassword(Recovered(cfg, s, account, passNew, passRepeat, typed, key, uuid, w).0, u, s.passwords[u])
    ensures account == Some(u) && passNew == passRepeat && |passNew| >= cfg.minLength
    ensures cfg.must2FA && IsOn(cfg, s, u) ==> KeyFits(cfg, s.records[u], typed)
    ensures HasPassword(Recovered(cfg, s, account, passNew, passRepeat, typed, key, uuid, w).0, u, passNew)
  {
  }

  lemma ActivateSwitch(cfg: Config, s: State, c: Token, otp: string, check: Check, key: string, uuid: string, w: World, u: nat)
    requires IsOn(cfg, s, u) != IsOn(cfg, Activated(cfg, s, c, otp, check, key, uuid, w).0, u)
    ensures c.auth == u && !IsOn(cfg, s, u) && check.Accepted? && u in s.memory && s.memory[u].secret.Some?
  {
  }

  lemma DeactivateSwitch(cfg: Config, s: State, c: Token, password: string, w: World, u: nat)
    requires DistinctStatuses(cfg) && IsOn(cfg, s, u) != IsOn(cfg, Deactivated(cfg, s, c, password, w).0, u)
    ensures c.auth == u && IsOn(cfg, s, u) && u in s.passwords && password == s.passwords[u]
  {
  }

  lemma RecoverSwitch(cfg: Config, s: State, account: Option<nat>, passNew: string, passRepeat: string, typed: string,
                      key: string, uuid: string, w: World, u: nat)
    ensures IsOn(cfg, s, u) == IsOn(cfg, Recovered(cfg, s, account, passNew, passRepeat, typed, key, uuid, w).0, u)
  {
  }

  /** Two-factor goes on only with an accepted OTP for a secret in memory, and off only with the password. */
  lemma SwitchIsEarned(cfg: Config, s: State, op: Op, w: World, u: nat)
    requires DistinctStatuses(cfg) && IsOn(cfg, s, u) != IsOn(cfg, Step(cfg, s, op, w).0, u)
    ensures BearsToken(op) && op.token < |s.tokens| && s.tokens[op.token].auth == u
    ensures !IsOn(cfg, s, u) ==> op.Activate? && op.check.Accepted? && u in s.memory && s.memory[u].secret.Some?
    ensures IsOn(cfg, s, u) ==> op.Deactivate? && u in s.passwords && op.password == s.passwords[u]
  {
    match op
    case Activate(t, otp, check, key, uuid) =>
      assert t < |s.tokens|;
      ActivateSwitch(cfg, s, s.tokens[t], otp, check, key, uuid, w, u);
    case Deactivate(t, p) =>
      assert t < |s.tokens|;
      DeactivateSwitch(cfg, s, s.tokens[t], p, w, u);
    case Recover(account, new_, again, typed, key, uuid) => RecoverSwitch(cfg, s, account, new_, again, typed, key, uuid, w, u);
    case _ => RecoveryDataFrame(cfg, s, op, w, u);
  }
}
