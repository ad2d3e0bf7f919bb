/** A run from the initial state in which one stored backup code is accepted twice. */
module CodeReuse {
  import opened Wrappers
  import opened Connections
  import opened Texts
  import opened TwoFactor
  import opened TwoFactorRuns
  import opened BackupCodes
  import opened Lockouts

  function WithCode(x: Story, text: string): State {
    Active(x, x.first).(codes := [BackupCode(1, 1, Hash(text))], nextCode := 2)
  }

  function AtSecondLogin(x: Story, text: string): State {
    var s := WithCode(x, text);
    s.(tokens := s.tokens + [Token(1, x.cfg.on, None)], memory := map[1 := Entry(Hash(x.first), None)])
  }

  function Accepted(x: Story, s: State): State {
    s.(tokens := s.tokens + [Token(1, x.cfg.verified, None)])
  }

  function Use(typed: string): Event {
    Event(UseCode(2, typed), ALL_WELL.(delete := Lost))
  }

  lemma Creates(x: Story, text: string)
    requires Fits(x)
    ensures Leads(x, Active(x, x.first), Well(CreateCodes(1, x.first, [text])), WithCode(x, text))
  {
    assert NewCodes(1, [text], 1) == [BackupCode(1, 1, Hash(text))];
    assert WithoutCodesOf([], 1) == [];
  }

  lemma LogsIn(x: Story, text: string)
    requires Fits(x) && x.cfg.must2FA
    ensures Leads(x, WithCode(x, text), Well(Login(Some(1), false, x.first)), AtSecondLogin(x, text))
  {
  }

  lemma Found(text: string)
    ensures Matching(CodesOf([BackupCode(1, 1, Hash(text))], 1), Hash(text)) == Some(BackupCode(1, 1, Hash(text)))
    ensures Copies([BackupCode(1, 1, Hash(text))], 1, None) == 1
  {
    var row := BackupCode(1, 1, Hash(text));
    assert [row][..0] == [] && CodesOf([row], 1) == [row];
  }

  /** With the one code stored and user 1 at the second factor, the code is accepted and stays. */
  lemma IsAccepted(x: Story, s: State, typed: string)
    requires Fits(x) && TrimSpace(typed) != "" && |s.tokens| >= 3 && s.tokens[2] == Token(1, x.cfg.on, None)
    requires 1 in s.passwords && s.codes == [BackupCode(1, 1, Hash(TrimSpace(typed)))]
    ensures Leads(x, s, Use(typed), Accepted(x, s))
    ensures Uses(x.cfg, s, Use(typed), 1, None)
  {
    Found(TrimSpace(typed));
  }

  /** The COMMIT that deletes the code fails unnoticed, and the same code is accepted again. */
  lemma AcceptedTwice(x: Story, typed: string) returns (states: seq<State>, events: seq<Event>)
    requires Fits(x) && x.cfg.must2FA && TrimSpace(typed) != ""
    ensures events == Enrolment(x) + [Well(CreateCodes(1, x.first, [TrimSpace(typed)]))] + [Well(Login(Some(1), false, x.first))]
                      + [Use(typed)] + [Use(typed)]
    ensures Run(x.cfg, states, events)
    ensures Copies(states[6].codes, 1, None) == 1 && UseCount(x.cfg, states, events, 6, 8, 1, None) == 2
  {
    var text := TrimSpace(typed);
    states := Enrols(x);
    Creates(x, text);
    states, events := Extended(x, states, Enrolment(x), Well(CreateCodes(1, x.first, [text])), WithCode(x, text));
    LogsIn(x, text);
    states, events := Extended(x, states, events, Well(Login(Some(1), false, x.first)), AtSecondLogin(x, text));
    var s := AtSecondLogin(x, text);
    IsAccepted(x, s, typed);
    states, events := Extended(x, states, events, Use(typed), Accepted(x, s));
    IsAccepted(x, Accepted(x, s), typed);
    states, events := Extended(x, states, events, Use(typed), Accepted(x, Accepted(x, s)));
    Found(text);
    assert UseCount(x.cfg, states, events, 6, 7, 1, None) == 1;
  }
}
