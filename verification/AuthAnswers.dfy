/** What each handler of the two-factor service answers and changes, in every case. */
module AuthAnswers {
  import opened Wrappers
  import opened Http
  import opened Texts
  import opened TwoFactor
  import opened TwoFactorRuns
  import opened VerifiedTokens

  // ---- Login ---------------------------------------------------------------

  ghost predicate HasAccount(s: State, account: Option<nat>, u: nat) {
    account == Some(u) && u in s.passwords
  }

  /** The stored password is given for an account that may log in. */
  ghost predicate Admitted(s: State, account: Option<nat>, barred: bool, password: string, u: nat) {
    HasAccount(s, account, u) && !barred && password == s.passwords[u]
  }

  ghost predicate RowRead(cfg: Config, w: World) {
    cfg.must2FA ==> w.readOk
  }

  /** The claim of a login: the status of the row where two-factor is mandatory, or nothing. */
  function ClaimFor(cfg: Config, s: State, u: nat): string {
    if cfg.must2FA && u in s.records then s.records[u].status else ""
  }

  /**
   A login appends one token, with the claim of the user's row, exactly when the stored
   password is given for an account that is not barred, the row can be read and signing
   succeeds; with two-factor on it leaves the hash of that password in memory. It changes
   nothing else.
   */
  lemma LoginExactly(cfg: Config, s: State, account: Option<nat>, barred: bool, password: string, w: World)
    ensures var (s', status) := LoggedIn(cfg, s, account, barred, password, w);
            && (forall t :: s'.tokens == s.tokens + [t] <==>
                  Admitted(s, account, barred, password, t.auth) && RowRead(cfg, w) && w.signOk && t == Token(t.auth, ClaimFor(cfg, s, t.auth), None))
            && (status != OK ==> s'.tokens == s.tokens)
            && (status == OK <==> exists u :: Admitted(s, account, barred, password, u) && RowRead(cfg, w) && w.signOk)
            && (status == NOT_FOUND <==> forall u :: !HasAccount(s, account, u))
            && (status == UNAUTHORIZED <==> exists u :: HasAccount(s, account, u) && !Admitted(s, account, barred, password, u))
            && status in {OK, NOT_FOUND, UNAUTHORIZED, INTERNAL_ERROR}
            && s' == s.(tokens := s'.tokens, memory := s'.memory)
  {
    if account.Some? && account.value in s.passwords {
      var u := account.value;
      assert HasAccount(s, account, u);
      assert Admitted(s, account, barred, password, u) <==> !barred && password == s.passwords[u];
      var t := Token(u, ClaimFor(cfg, s, u), None);
      assert t.auth == u;
      var s' := LoggedIn(cfg, s, account, barred, password, w).0;
      forall t' | s'.tokens == s.tokens + [t'] ensures t' == t {
        assert s'.tokens[|s.tokens|] == t';
      }
    }
  }

  lemma LoginRemembers(cfg: Config, s: State, account: Option<nat>, barred: bool, password: string, w: World, u: nat)
    requires account == Some(u)
    ensures LoggedIn(cfg, s, account, barred, password, w).0.memory ==
            if Admitted(s, account, barred, password, u) && cfg.must2FA && w.readOk && IsOn(cfg, s, u)
            then s.memory[u := Entry(Hash(s.passwords[u]), None)] else s.memory
  {
  }

  // ---- Set-up --------------------------------------------------------------

  ghost predicate MaySetUp(cfg: Config, s: State, c: Token, password: string, w: World) {
    && Known(s, c.auth) && c.twoFA != cfg.verified && c.twoFA != cfg.on && w.readOk
    && !IsOn(cfg, s, c.auth) && password == s.passwords[c.auth]
  }

  /** A secret is put into memory exactly for the right password while two-factor is not on, and nothing else changes. */
  lemma SetUpExactly(cfg: Config, s: State, c: Token, password: string, seed: nat, made: bool, w: World)
    ensures var (s', status) := SetUp(cfg, s, c, password, seed, made, w);
            && (status == CREATED <==> MaySetUp(cfg, s, c, password, w) && made)
            && s' == s.(memory := if status == CREATED
                                  then s.memory[c.auth := Entry(Hash(password), Some(Blob(seed, 0)))] else s.memory)
            && (status == UNAUTHORIZED <==> c.auth == 0 || c.auth !in s.passwords)
            && (status == OK <==> Known(s, c.auth) && c.twoFA == cfg.verified)
            && (status == BAD_REQUEST <==>
                  Known(s, c.auth) && c.twoFA != cfg.verified
                  && (c.twoFA == cfg.on || (w.readOk && (IsOn(cfg, s, c.auth) || password != s.passwords[c.auth]))))
            && status in {CREATED, UNAUTHORIZED, OK, BAD_REQUEST, INTERNAL_ERROR}
  {
  }

  // ---- One-time passwords --------------------------------------------------

  /** An OTP is checked against the copy in memory or, without one, the row opened with the hash that is there. */
  ghost predicate HasSecret(s: State, u: nat) {
    && u in s.memory && u in s.records
    && (s.memory[u].secret.Some? || (s.records[u].keyMain.Some? && s.records[u].keyMain.value.key == s.memory[u].passSHA))
  }

  ghost predicate IsChecked(cfg: Config, s: State, c: Token, otp: string, check: Check, w: World) {
    && Known(s, c.auth) && c.twoFA == cfg.on && |RemoveAllSpace(otp)| == cfg.digits
    && w.readOk && IsOn(cfg, s, c.auth) && HasSecret(s, c.auth) && !check.Broken?
  }

  /** The secret with its new counters. */
  ghost function Counted(s: State, u: nat, check: Check): Blob
    requires HasSecret(s, u) && !check.Broken?
  {
    var secret := if s.memory[u].secret.Some? then s.memory[u].secret.value else s.records[u].keyMain.value.plain;
    Blob(secret.seed, check.counters)
  }

  /**
   Every OTP that is checked, accepted or rejected, has the secret with its new counters
   wrapped under the hash in memory, if the row is written; an accepted one clears memory, a
   rejected one leaves the secret there. An OTP that is not checked changes nothing.
   */
  lemma ValidateExactly(cfg: Config, s: State, c: Token, otp: string, check: Check, w: World)
    requires DistinctStatuses(cfg)
    ensures var (s', status) := Validated(cfg, s, c, otp, check, w);
            var u := c.auth;
            if !IsChecked(cfg, s, c, otp, check, w)
            then s' == s && (status == OK <==> Known(s, u) && c.twoFA == cfg.verified)
            else
              var blob := Counted(s, u, check);
              && s'.records == (if w.save.Written?
                                then s.records[u := s.records[u].(keyMain := Some(Sealed(s.memory[u].passSHA, blob)))] else s.records)
              && s'.memory == (if check.Accepted? then s.memory - {u} else s.memory[u := s.memory[u].(secret := Some(blob))])
              && s' == s.(records := s'.records, memory := s'.memory, tokens := s'.tokens)
              && (status == OK <==> check.Accepted? && w.signOk)
              && (check.Rejected? ==> status == BAD_REQUEST && s'.tokens == s.tokens)
  {
  }

  /** During a set-up, a rejected OTP only counts, and an accepted one that comes too late only clears memory. */
  lemma ActivateOtherwise(cfg: Config, s: State, c: Token, otp: string, check: Check, key: string, uuid: string, w: World)
    ensures var (s', status) := Activated(cfg, s, c, otp, check, key, uuid, w);
            var u := c.auth;
            var asked := Known(s, u) && c.twoFA != cfg.verified && c.twoFA != cfg.on && u in s.memory
                         && |RemoveAllSpace(otp)| == cfg.digits && s.memory[u].secret.Some?;
            && (!asked || check.Broken? || (check.Accepted? && !w.readOk) ==> s' == s && status != OK)
            && (asked && check.Rejected? ==>
                  status == BAD_REQUEST && s' == s.(memory := s.memory[u := s.memory[u].(secret := Some(s.memory[u].secret.value.(counters := check.counters)))]))
            && (asked && check.Accepted? && w.readOk && IsOn(cfg, s, u) ==>
                  status == BAD_REQUEST && s' == s.(memory := s.memory - {u}))
  {
  }

  /** The OTP of a set-up is accepted in time. */
  ghost predicate Confirms(cfg: Config, s: State, c: Token, otp: string, check: Check, w: World) {
    && Known(s, c.auth) && c.twoFA != cfg.verified && c.twoFA != cfg.on && c.auth in s.memory && s.memory[c.auth].secret.Some?
    && |RemoveAllSpace(otp)| == cfg.digits && check.Accepted? && w.readOk && !IsOn(cfg, s, c.auth)
  }

  /**
   An OTP that is accepted in time turns two-factor on, with the secret under the hash from
   the set-up and under the new recovery key, unless the row is refused or lost; memory is
   cleared and the key handed out with a verified token unless the row is refused.
   */
  lemma ActivateExactly(cfg: Config, s: State, c: Token, otp: string, check: Check, key: string, uuid: string, w: World)
    requires Confirms(cfg, s, c, otp, check, w)
    ensures var (s', status) := Activated(cfg, s, c, otp, check, key, uuid, w);
            var u := c.auth;
            var blob := Blob(s.memory[u].secret.value.seed, check.counters);
            var row := Record(cfg.on, Some(Sealed(s.memory[u].passSHA, blob)), Some(Sealed(Hash(key), blob)),
                              Some(Sealed(Hash(key), uuid)), Some(Hash(uuid)));
            && (status == OK <==> !w.save.Refused? && w.signOk)
            && s'.records == (if w.save.Written? then s.records[u := row] else s.records)
            && s'.recovery == (if w.save.Written? then s.recovery[u := key] else s.recovery)
            && s'.memory == (if w.save.Refused? then s.memory else s.memory - {u})
            && s'.given == (if status == OK then s.given[u := key] else s.given)
            && s'.tokens == (if status == OK then s.tokens + [Token(u, cfg.verified, None)] else s.tokens)
            && s' == s.(records := s'.records, recovery := s'.recovery, memory := s'.memory, given := s'.given, tokens := s'.tokens)
  {
  }

  /** The answers to an OTP, for a set-up and for a login. */
  lemma OtpAnswers(cfg: Config, s: State, c: Token, otp: string, check: Check, key: string, uuid: string, w: World)
    requires DistinctStatuses(cfg)
    ensures var status := Activated(cfg, s, c, otp, check, key, uuid, w).1;
            var asked := c.twoFA != cfg.verified && c.twoFA != cfg.on && c.auth in s.memory && |RemoveAllSpace(otp)| == cfg.digits;
            && (status == UNAUTHORIZED <==> !Known(s, c.auth))
            && (status == BAD_REQUEST <==>
                  Known(s, c.auth) && (!asked || (s.memory[c.auth].secret.Some? && (check.Rejected? || (check.Accepted? && w.readOk && IsOn(cfg, s, c.auth))))))
            && status in {OK, UNAUTHORIZED, BAD_REQUEST, INTERNAL_ERROR}
    ensures var status := Validated(cfg, s, c, otp, check, w).1;
            var asked := c.twoFA == cfg.on && c.auth in s.memory && |RemoveAllSpace(otp)| == cfg.digits;
            && (status == UNAUTHORIZED <==> !Known(s, c.auth))
            && (status == BAD_REQUEST <==>
                  Known(s, c.auth) && c.twoFA != cfg.verified
                  && (!asked || (w.readOk && (!IsOn(cfg, s, c.auth) || (HasSecret(s, c.auth) && check.Rejected?)))))
            && status in {OK, UNAUTHORIZED, BAD_REQUEST, INTERNAL_ERROR}
  {
  }

  // ---- Deactivation --------------------------------------------------------

  ghost predicate MayDeactivate(cfg: Config, s: State, c: Token, password: string, w: World) {
    && c.twoFA != "" && c.twoFA != cfg.off && w.readOk
    && c.auth in s.passwords && password == s.passwords[c.auth] && (IsOn(cfg, s, c.auth) ==> !w.save.Refused?)
  }

  function ClaimWithout(cfg: Config, s: State, u: nat): string {
    if u in s.records then cfg.off else ""
  }

  /**
   The right password turns two-factor off, deletes the backup codes and hands out a token
   that claims so, each as far as its call succeeds; otherwise nothing changes.
   */
  lemma DeactivateExactly(cfg: Config, s: State, c: Token, password: string, w: World)
    requires DistinctStatuses(cfg) && UserSound(cfg, s, c.auth)
    ensures var (s', status) := Deactivated(cfg, s, c, password, w);
            var u := c.auth;
            if !MayDeactivate(cfg, s, c, password, w)
            then
              && s' == s && (status == OK <==> c.twoFA == "" || c.twoFA == cfg.off)
              && (status == UNAUTHORIZED <==> c.twoFA != "" && c.twoFA != cfg.off && w.readOk && u !in s.passwords)
              && (status == BAD_REQUEST <==> c.twoFA != "" && c.twoFA != cfg.off && w.readOk && u in s.passwords && password != s.passwords[u])
              && status in {OK, UNAUTHORIZED, BAD_REQUEST, INTERNAL_ERROR}
            else
              && s'.records == (if IsOn(cfg, s, u) && w.save.Written?
                                then s.records[u := Record(cfg.off, None, None, None, None)] else s.records)
              && s'.codes == (if w.delete.Written? then WithoutCodesOf(s.codes, u) else s.codes)
              && s'.tokens == (if w.signOk then s.tokens + [Token(u, ClaimWithout(cfg, s, u), None)] else s.tokens)
              && s' == s.(records := s'.records, codes := s'.codes, tokens := s'.tokens)
              && status == (if w.signOk then OK else INTERNAL_ERROR)
  {
  }

  /** In particular it is off afterwards. */
  lemma DeactivationTurnsOff(cfg: Config, s: State, c: Token, password: string, w: World)
    requires DistinctStatuses(cfg) && UserSound(cfg, s, c.auth) && MayDeactivate(cfg, s, c, password, w) && w.save.Written?
    ensures !IsOn(cfg, Deactivated(cfg, s, c, password, w).0, c.auth)
  {
    DeactivateExactly(cfg, s, c, password, w);
  }

  // ---- Backup codes --------------------------------------------------------

  /** New codes are made exactly for a verified token and the right password, as far as the writes are not refused. */
  lemma CreateExactly(cfg: Config, s: State, c: Token, password: string, texts: seq<string>, w: World)
    ensures var (s', status) := CodesCreated(cfg, s, c, password, texts, w);
            var u := c.auth;
            var may := Known(s, u) && c.twoFA == cfg.verified && w.readOk && password == s.passwords[u]
                       && !(CodesOf(s.codes, u) != [] && w.delete.Refused?);
            && (status == OK <==> may && !w.save.Refused?)
            && (status == UNAUTHORIZED <==> !Known(s, u) || c.twoFA != cfg.verified)
            && (status == BAD_REQUEST <==> Known(s, u) && c.twoFA == cfg.verified && w.readOk && password != s.passwords[u])
            && status in {OK, UNAUTHORIZED, BAD_REQUEST, INTERNAL_ERROR}
            && (!may ==> s' == s)
            && (may ==>
                  var kept := if w.delete.Written? then WithoutCodesOf(s.codes, u) else s.codes;
                  s'.codes == if w.save.Written? then kept + NewCodes(u, texts, s.nextCode) else kept)
            && s' == s.(codes := s'.codes, nextCode := s'.nextCode)
  {
  }

  /** A backup code is accepted exactly when it vouches for its user and the request is served. */
  lemma CodeAnswers(cfg: Config, s: State, c: Token, code: string, w: World)
    requires DistinctStatuses(cfg)
    ensures var status := CodeUsed(cfg, s, c, code, w).1;
            var u := c.auth;
            && (status == OK <==> Known(s, u) && (c.twoFA == cfg.verified || (CodeVouches(cfg, s, c, code, u) && w.readOk && !w.delete.Refused? && w.signOk)))
            && (status == UNAUTHORIZED <==> !Known(s, u))
            && (status == BAD_REQUEST <==>
                  Known(s, u) && c.twoFA != cfg.verified
                  && (c.twoFA != cfg.on || TrimSpace(code) == "" || (w.readOk && !CodeVouches(cfg, s, c, code, u))))
            && status in {OK, UNAUTHORIZED, BAD_REQUEST, INTERNAL_ERROR}
  {
  }

  /** A refresh is answered with 401 for an unknown user and otherwise fails only with signing. */
  lemma RefreshAnswers(s: State, token: nat, w: World)
    requires token < |s.tokens|
    ensures var (s', status) := Refreshed(s, token, w);
            && status == (if s.tokens[token].auth == 0 || s.tokens[token].auth !in s.passwords then UNAUTHORIZED
                          else if w.signOk then OK else INTERNAL_ERROR)
            && s' == s.(tokens := s'.tokens)
  {
  }

  // ---- Passwords -----------------------------------------------------------

  ghost predicate NewPassword(cfg: Config, passNew: string, passRepeat: string) {
    passNew == passRepeat && |passNew| >= cfg.minLength
  }

  /** The old password is right, and where two-factor is mandatory and on, it opens the main key and the row is not refused. */
  ghost predicate MayUpdate(cfg: Config, s: State, c: Token, password: string, passNew: string, passRepeat: string, w: World) {
    && Known(s, c.auth) && NewPassword(cfg, passNew, passRepeat) && w.readOk && password == s.passwords[c.auth]
    && (cfg.must2FA && IsOn(cfg, s, c.auth) ==> Opened(s.records[c.auth].keyMain, Hash(password)).Some? && !w.save.Refused?)
  }

  /** A change takes effect exactly when it may be made and the password is written; the answer is OK unless that is refused. */
  lemma UpdateExactly(cfg: Config, s: State, c: Token, password: string, passNew: string, passRepeat: string, w: World)
    ensures var (s', status) := PasswordUpdated(cfg, s, c, password, passNew, passRepeat, w);
            var u := c.auth;
            var may := MayUpdate(cfg, s, c, password, passNew, passRepeat, w);
            && (status == OK <==> may && !w.saveAuth.Refused?)
            && (status == UNAUTHORIZED <==> u == 0 || u !in s.passwords)
            && (status == BAD_REQUEST <==>
                  Known(s, u) && (!NewPassword(cfg, passNew, passRepeat) || (w.readOk && password != s.passwords[u])))
            && status in {OK, UNAUTHORIZED, BAD_REQUEST, INTERNAL_ERROR}
            && s'.passwords == (if may && w.saveAuth.Written? then s.passwords[u := passNew] else s.passwords)
            && s' == s.(passwords := s'.passwords, records := s'.records)
  {
  }

  /** With two-factor mandatory and on, the same secret is wrapped under the new password, if the row is written. */
  lemma UpdateRewraps(cfg: Config, s: State, c: Token, password: string, passNew: string, passRepeat: string, w: World)
    ensures var u := c.auth;
            PasswordUpdated(cfg, s, c, password, passNew, passRepeat, w).0.records ==
            if MayUpdate(cfg, s, c, password, passNew, passRepeat, w) && cfg.must2FA && IsOn(cfg, s, u) && w.save.Written?
            then s.records[u := s.records[u].(keyMain := Some(Sealed(Hash(passNew), s.records[u].keyMain.value.plain)))]
            else s.records
  {
  }

  /** A recovery key fits exactly when, without blanks, it has the right length, opens the UUID, and the UUID has the stored hash. */
  lemma FitsExactly(cfg: Config, record: Record, typed: string, key: string)
    requires SpacedOut(typed, key)
    ensures KeyFits(cfg, record, typed) <==>
            && |key| == cfg.digits && record.uuidEnc.Some? && record.uuidEnc.value.key == Hash(key)
            && record.uuidSHA == Some(Hash(record.uuidEnc.value.plain))
  {
    RemovingSpaces(typed, key);
  }

  /** The mailed code leads to u, and where two-factor is mandatory and on, the recovery key fits and opens the backup key. */
  ghost predicate MayRecover(cfg: Config, s: State, account: Option<nat>, passNew: string, passRepeat: string, typed: string,
                             w: World, u: nat) {
    && HasAccount(s, account, u) && NewPassword(cfg, passNew, passRepeat) && w.readOk
    && (cfg.must2FA && IsOn(cfg, s, u) ==>
          && KeyFits(cfg, s.records[u], typed) && Opened(s.records[u].keyBackup, Hash(RemoveAllSpace(typed))).Some?
          && !w.save.Refused?)
  }

  /** A recovery takes effect exactly when it may be made and the password is written; the answer is OK unless that is refused. */
  lemma RecoverExactly(cfg: Config, s: State, account: Option<nat>, passNew: string, passRepeat: string, typed: string,
                       key: string, uuid: string, w: World, u: nat)
    requires account == Some(u)
    ensures var (s', status) := Recovered(cfg, s, account, passNew, passRepeat, typed, key, uuid, w);
            var may := MayRecover(cfg, s, account, passNew, passRepeat, typed, w, u);
            && (status == OK <==> may && !w.saveAuth.Refused?)
            && (status == BAD_REQUEST <==> !NewPassword(cfg, passNew, passRepeat) || (w.readOk && u !in s.passwords))
            && (status == UNAUTHORIZED <==>
                  NewPassword(cfg, passNew, passRepeat) && w.readOk && u in s.passwords && cfg.must2FA && IsOn(cfg, s, u)
                  && !KeyFits(cfg, s.records[u], typed))
            && status in {OK, UNAUTHORIZED, BAD_REQUEST, INTERNAL_ERROR}
            && s'.passwords == (if may && w.saveAuth.Written? then s.passwords[u := passNew] else s.passwords)
            && s' == s.(passwords := s'.passwords, records := s'.records, recovery := s'.recovery, given := s'.given)
  {
  }

  lemma RecoverWithoutAccount(cfg: Config, s: State, passNew: string, passRepeat: string, typed: string,
                              key: string, uuid: string, w: World)
    ensures var (s', status) := Recovered(cfg, s, None, passNew, passRepeat, typed, key, uuid, w);
            s' == s && status == if NewPassword(cfg, passNew, passRepeat) then UNAUTHORIZED else BAD_REQUEST
  {
  }

  /** Where two-factor is not mandatory or not on, a recovery touches neither row nor keys. */
  lemma PlainRecovery(cfg: Config, s: State, passNew: string, passRepeat: string, typed: string,
                      key: string, uuid: string, w: World, u: nat)
    requires !cfg.must2FA || !IsOn(cfg, s, u)
    ensures var s' := Recovered(cfg, s, Some(u), passNew, passRepeat, typed, key, uuid, w).0;
            s'.records == s.records && s'.recovery == s.recovery && s'.given == s.given
  {
  }
}
