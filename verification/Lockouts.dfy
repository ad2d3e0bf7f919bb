/** Runs from the initial state after which the current password, or the recovery key in the user's hand, no longer opens the secret. */
module Lockouts {
  import opened Wrappers
  import opened Connections
  import opened Texts
  import opened TwoFactor
  import opened TwoFactorRuns
  import opened MainKey
  import RecoveryKeys

  /** User 1, with a secret of seed 7, who moves from one password, and recovery key, to another. */
  datatype Story = Story(cfg: Config, first: string, second: string, otp: string, key: string, next: string, uuid: string)

  ghost predicate Fits(x: Story) {
    && DistinctStatuses(x.cfg) && x.first != x.second && |x.second| >= x.cfg.minLength
    && |RemoveAllSpace(x.otp)| == x.cfg.digits
    && |x.key| == x.cfg.digits && FreeOf(x.key, ' ') && |x.next| == x.cfg.digits && FreeOf(x.next, ' ') && x.key != x.next
  }

  const USUAL := Config("on", "off", "verified", 6, 6, true)

  /** For example: */
  lemma UsualStory()
    ensures Fits(Story(USUAL, "first-pass", "second-pass", "123456", "abcdef", "fedcba", "uuid"))
  {
    UsualStatuses();
    UsualOtp();
    assert "first-pass"[0] != "second-pass"[0];
    assert "abcdef"[0] != "fedcba"[0];
  }

  lemma UsualStatuses()
    ensures DistinctStatuses(USUAL)
  {
    assert |"on"| == 2 && |"off"| == 3 && |"verified"| == 8;
  }

  lemma UsualOtp()
    ensures |RemoveAllSpace("123456")| == 6
  {
    NothingToRemove("123456");
  }

  /** Two-factor is on for user 1, and the current password does not open the secret. */
  ghost predicate LockedOut(x: Story, s: State) {
    IsOn(x.cfg, s, 1) && 1 in s.passwords && !KeyCurrent(x.cfg, s, 1)
  }

  function Well(op: Op): Event {
    Event(op, ALL_WELL)
  }

  ghost predicate Leads(x: Story, s: State, e: Event, s': State) {
    Generated(x.cfg, e.op) && Step(x.cfg, s, e.op, e.w).0 == s'
  }

  lemma Extended(x: Story, states: seq<State>, events: seq<Event>, e: Event, s': State)
    returns (states': seq<State>, events': seq<Event>)
    requires Run(x.cfg, states, events) && Leads(x, states[|events|], e, s')
    ensures states' == states + [s'] && events' == events + [e] && Run(x.cfg, states', events')
  {
    states', events' := states + [s'], events + [e];
  }

  // ---- Enrolment -----------------------------------------------------------

  /** The secret under a password, with some counters. */
  function Row(x: Story, password: string, counters: int): Record {
    Record(x.cfg.on, Some(Sealed(Hash(password), Blob(7, counters))), Some(Sealed(Hash(x.key), Blob(7, 1))),
           Some(Sealed(Hash(x.key), x.uuid)), Some(Hash(x.uuid)))
  }

  function Registered(x: Story): State {
    INITIAL.(passwords := map[1 := x.first])
  }

  function LoggedInFirst(x: Story): State {
    Registered(x).(tokens := [Token(1, "", None)])
  }

  /** The secret is in memory under the first password; the password itself may have changed. */
  function SecretMade(x: Story, password: string): State {
    LoggedInFirst(x).(passwords := map[1 := password], memory := map[1 := Entry(Hash(x.first), Some(Blob(7, 0)))])
  }

  function Active(x: Story, password: string): State {
    LoggedInFirst(x).(passwords := map[1 := password], records := map[1 := Row(x, x.first, 1)],
                      tokens := [Token(1, "", None), Token(1, x.cfg.verified, None)], recovery := map[1 := x.key],
                      given := map[1 := x.key])
  }

  function SetUpEvents(x: Story): seq<Event> {
    [Well(Register(1, x.first)), Well(Login(Some(1), false, x.first)), Well(Setup(0, x.first, 7, true))]
  }

  function Activation(x: Story): Event {
    Well(Activate(0, x.otp, Accepted(1), x.key, x.uuid))
  }

  lemma SetsUp(x: Story) returns (states: seq<State>)
    requires Fits(x)
    ensures |states| == 4 && Run(x.cfg, states, SetUpEvents(x)) && states[3] == SecretMade(x, x.first)
  {
    var all, events := SetUpEvents(x), [];
    states := [INITIAL];
    states, events := Extended(x, states, events, all[0], Registered(x));
    states, events := Extended(x, states, events, all[1], LoggedInFirst(x));
    states, events := Extended(x, states, events, all[2], SecretMade(x, x.first));
    assert events == all;
  }

  /** The activation of the secret in memory, whatever the password is by now. */
  lemma Activates(x: Story, password: string)
    requires Fits(x)
    ensures Leads(x, SecretMade(x, password), Activation(x), Active(x, password))
  {
    var s := SecretMade(x, password);
    assert s.memory - {1} == map[];
  }

  lemma Enrols(x: Story) returns (states: seq<State>)
    requires Fits(x)
    ensures |states| == 5 && Run(x.cfg, states, Enrolment(x)) && states[4] == Active(x, x.first)
  {
    states := SetsUp(x);
    Activates(x, x.first);
    var events;
    states, events := Extended(x, states, SetUpEvents(x), Activation(x), Active(x, x.first));
  }

  // ---- Ways to be locked out ------------------------------------------

  function Change(x: Story): Op {
    UpdatePassword(0, x.first, x.second, x.second)
  }

  /** The password changes between the set-up and the activation. */
  lemma ChangeBeforeActivation(x: Story) returns (states: seq<State>, events: seq<Event>)
    requires Fits(x)
    ensures events == SetUpEvents(x) + [Well(Change(x))] + [Activation(x)]
    ensures Run(x.cfg, states, events) && LockedOut(x, states[|events|])
  {
    states := SetsUp(x);
    states, events := Extended(x, states, SetUpEvents(x), Well(Change(x)), SecretMade(x, x.second));
    Activates(x, x.second);
    states, events := Extended(x, states, events, Activation(x), Active(x, x.second));
  }

  function Enrolment(x: Story): seq<Event> {
    SetUpEvents(x) + [Activation(x)]
  }

  /** The secret is wrapped under the new password, and saving that password is refused. */
  lemma HalfSavedChange(x: Story) returns (states: seq<State>, events: seq<Event>)
    requires Fits(x) && x.cfg.must2FA
    ensures events == Enrolment(x) + [Event(Change(x), ALL_WELL.(saveAuth := Refused))]
    ensures Run(x.cfg, states, events) && LockedOut(x, states[|events|])
  {
    states := Enrols(x);
    var half := Active(x, x.first).(records := map[1 := Row(x, x.second, 1)]);
    states, events := Extended(x, states, Enrolment(x), Event(Change(x), ALL_WELL.(saveAuth := Refused)), half);
  }

  /** The COMMIT of the wrapped secret fails unnoticed, and the new password is saved. */
  lemma LostCommit(x: Story) returns (states: seq<State>, events: seq<Event>)
    requires Fits(x) && x.cfg.must2FA
    ensures events == Enrolment(x) + [Event(Change(x), ALL_WELL.(save := Lost))]
    ensures Run(x.cfg, states, events) && LockedOut(x, states[|events|])
  {
    states := Enrols(x);
    states, events := Extended(x, states, Enrolment(x), Event(Change(x), ALL_WELL.(save := Lost)), Active(x, x.second));
  }

  /** Where two-factor is not mandatory, a change of password leaves the row alone. */
  lemma UnmandatedChange(x: Story) returns (states: seq<State>, events: seq<Event>)
    requires Fits(x) && !x.cfg.must2FA
    ensures events == Enrolment(x) + [Well(Change(x))]
    ensures Run(x.cfg, states, events) && LockedOut(x, states[|events|])
  {
    states := Enrols(x);
    states, events := Extended(x, states, Enrolment(x), Well(Change(x)), Active(x, x.second));
  }

  // The same for recoveries, which also leave the user without a key that fits.

  function Recovery(x: Story): Op {
    Recover(Some(1), x.second, x.second, x.key, x.next, x.uuid)
  }

  /** Neither the password nor the key in the user's hand is of use. */
  ghost predicate LockedOutKeyless(x: Story, s: State) {
    LockedOut(x, s) && !RecoveryKeys.InHand(x.cfg, s, 1)
  }

  lemma KeyAccepted(x: Story, password: string)
    requires Fits(x)
    ensures KeyFits(x.cfg, Row(x, password, 1), x.key)
    ensures Opened(Row(x, password, 1).keyBackup, Hash(RemoveAllSpace(x.key))) == Some(Blob(7, 1))
  {
    NothingToRemove(x.key);
  }

  function RenewedRow(x: Story): Record {
    Record(x.cfg.on, Some(Sealed(Hash(x.second), Blob(7, 1))), Some(Sealed(Hash(x.next), Blob(7, 1))),
           Some(Sealed(Hash(x.next), x.uuid)), Some(Hash(x.uuid)))
  }

  /** The row is written for the new password and key, and saving that password is refused. */
  lemma HalfSavedRecovery(x: Story) returns (states: seq<State>, events: seq<Event>)
    requires Fits(x) && x.cfg.must2FA
    ensures events == Enrolment(x) + [Event(Recovery(x), ALL_WELL.(saveAuth := Refused))]
    ensures Run(x.cfg, states, events) && LockedOutKeyless(x, states[|events|])
  {
    states := Enrols(x);
    KeyAccepted(x, x.first);
    NothingToRemove(x.key);
    var half := Active(x, x.first).(records := map[1 := RenewedRow(x)], recovery := map[1 := x.next]);
    states, events := Extended(x, states, Enrolment(x), Event(Recovery(x), ALL_WELL.(saveAuth := Refused)), half);
  }

  /** The COMMIT of the row fails unnoticed, the new password is saved and the new key handed out. */
  lemma LostRecovery(x: Story) returns (states: seq<State>, events: seq<Event>)
    requires Fits(x) && x.cfg.must2FA
    ensures events == Enrolment(x) + [Event(Recovery(x), ALL_WELL.(save := Lost))]
    ensures Run(x.cfg, states, events) && LockedOutKeyless(x, states[|events|])
  {
    states := Enrols(x);
    KeyAccepted(x, x.first);
    NothingToRemove(x.next);
    var half := Active(x, x.second).(given := map[1 := x.next]);
    states, events := Extended(x, states, Enrolment(x), Event(Recovery(x), ALL_WELL.(save := Lost)), half);
  }

  // The second login, with a rejected OTP, the change and an accepted OTP.

  function LoggedInAgain(x: Story): State {
    var s := Active(x, x.first);
    s.(tokens := s.tokens + [Token(1, x.cfg.on, None)], memory := map[1 := Entry(Hash(x.first), None)])
  }

  function AfterRejection(x: Story): State {
    LoggedInAgain(x).(records := map[1 := Row(x, x.first, 2)], memory := map[1 := Entry(Hash(x.first), Some(Blob(7, 2)))])
  }

  function AfterChange(x: Story): State {
    AfterRejection(x).(passwords := map[1 := x.second], records := map[1 := Row(x, x.second, 2)])
  }

  function AfterAcceptance(x: Story): State {
    var s := AfterChange(x);
    s.(records := map[1 := Row(x, x.first, 3)], memory := map[], tokens := s.tokens + [Token(1, x.cfg.verified, None)])
  }

  function SecondLogin(x: Story): seq<Event> {
    [Well(Login(Some(1), false, x.first)), Well(Validate(2, x.otp, Rejected(2))), Well(Change(x)),
     Well(Validate(2, x.otp, Accepted(3)))]
  }

  lemma Rejects(x: Story)
    requires Fits(x) && x.cfg.must2FA
    ensures Leads(x, LoggedInAgain(x), SecondLogin(x)[1], AfterRejection(x))
  {
  }

  lemma Changes(x: Story)
    requires Fits(x) && x.cfg.must2FA
    ensures Leads(x, AfterRejection(x), SecondLogin(x)[2], AfterChange(x))
  {
  }

  lemma Accepts(x: Story)
    requires Fits(x) && x.cfg.must2FA
    ensures Leads(x, AfterChange(x), SecondLogin(x)[3], AfterAcceptance(x))
  {
    assert AfterChange(x).memory - {1} == map[];
  }

  lemma RejectsAgain(x: Story)
    requires Fits(x) && x.cfg.must2FA
    ensures Leads(x, AfterChange(x), Well(Validate(2, x.otp, Rejected(3))), AfterSecondRejection(x))
  {
  }

  function AfterSecondRejection(x: Story): State {
    AfterChange(x).(records := map[1 := Row(x, x.first, 3)], memory := map[1 := Entry(Hash(x.first), Some(Blob(7, 3)))])
  }

  lemma UpToChange(x: Story) returns (states: seq<State>, events: seq<Event>)
    requires Fits(x) && x.cfg.must2FA
    ensures events == Enrolment(x) + SecondLogin(x)[..3]
    ensures Run(x.cfg, states, events) && states[|events|] == AfterChange(x)
  {
    states := Enrols(x);
    events := Enrolment(x);
    var all := SecondLogin(x);
    assert Leads(x, Active(x, x.first), all[0], LoggedInAgain(x));
    states, events := Extended(x, states, events, all[0], LoggedInAgain(x));
    Rejects(x);
    states, events := Extended(x, states, events, all[1], AfterRejection(x));
    Changes(x);
    states, events := Extended(x, states, events, all[2], AfterChange(x));
  }

  /** All writes succeed: a rejected OTP, a change of password from another session, and an accepted OTP. */
  lemma ChangeWhileLoggingIn(x: Story) returns (states: seq<State>, events: seq<Event>)
    requires Fits(x) && x.cfg.must2FA
    ensures events == Enrolment(x) + SecondLogin(x)
    ensures Run(x.cfg, states, events) && LockedOut(x, states[|events|])
  {
    states, events := UpToChange(x);
    Accepts(x);
    states, events := Extended(x, states, events, SecondLogin(x)[3], AfterAcceptance(x));
  }

  /** The same with another rejected OTP at the end. */
  lemma RejectedAfterChange(x: Story) returns (states: seq<State>, events: seq<Event>)
    requires Fits(x) && x.cfg.must2FA
    ensures events == Enrolment(x) + SecondLogin(x)[..3] + [Well(Validate(2, x.otp, Rejected(3)))]
    ensures Run(x.cfg, states, events) && LockedOut(x, states[|events|])
  {
    states, events := UpToChange(x);
    RejectsAgain(x);
    states, events := Extended(x, states, events, Well(Validate(2, x.otp, Rejected(3))), AfterSecondRejection(x));
  }
}
