/** Runs from the initial state after which addresses have come to the wrong accounts. */
module AddressMixups {
  import opened Wrappers
  import opened Connections
  import opened EmailChange

  // ---- A lookup that fails -------------------------------------------------

  /** One ordinary registration in cipher mode, for an address that no account holds. */
  lemma OneMore(s: State, email: string)
    requires Sound(true, s) && email != "" && Unheld(s, email)
    ensures var s' := Registered(true, s, email, 0, true, NotRequired, true, Written).0;
            && s' == s.(accounts := s.accounts + [Account(s.nextAccount, "", Of(email))], nextAccount := s.nextAccount + 1)
            && Sound(true, s')
  {
    LetThrough(true, s, email, 0);
    TakenMeansHeld(true, s, email, 0);
    NewAccountFormed(true, s, email);
    NewAccountOneEach(true, s, email);
  }

  function Newcomer(email: string): Event {
    Register(email, 0, true, NotRequired, true, Written)
  }

  lemma OneRegistered(ann: string)
    requires ann != ""
    ensures var s := RunOf(true, [Newcomer(ann)]);
            Sound(true, s) && s == INITIAL.(accounts := [Account(1, "", Of(ann))], nextAccount := 2)
  {
    OneMore(INITIAL, ann);
    Appended(true, [], Newcomer(ann));
    assert [] + [Newcomer(ann)] == [Newcomer(ann)];
    assert [] + [Account(1, "", Of(ann))] == [Account(1, "", Of(ann))];
  }

  lemma TwoRegistered(ann: string, bob: string)
    requires ann != "" && bob != "" && ann != bob
    ensures var s := RunOf(true, [Newcomer(ann)] + [Newcomer(bob)]);
            Sound(true, s) && s == INITIAL.(accounts := [Account(1, "", Of(ann)), Account(2, "", Of(bob))], nextAccount := 3)
  {
    OneRegistered(ann);
    BobIsNew(RunOf(true, [Newcomer(ann)]), ann, bob);
    Appended(true, [Newcomer(ann)], Newcomer(bob));
  }

  lemma BobIsNew(s: State, ann: string, bob: string)
    requires Sound(true, s) && bob != "" && ann != bob && s == INITIAL.(accounts := [Account(1, "", Of(ann))], nextAccount := 2)
    ensures var s' := Applied(true, s, Newcomer(bob));
            Sound(true, s') && s' == INITIAL.(accounts := [Account(1, "", Of(ann)), Account(2, "", Of(bob))], nextAccount := 3)
  {
    OneMore(s, bob);
  }

  lemma BobTakesOver(s: State, ann: string, bob: string)
    requires Sound(true, s) && ann != ""
    requires s == INITIAL.(accounts := [Account(1, "", Of(ann)), Account(2, "", Of(bob))], nextAccount := 3)
    ensures ChangeAsked(true, s, 2, ann, true, true, NotRequired, Reads(true, false, true), Written).0.accounts ==
            [Account(1, "", Of(ann)), Account(2, "", Of(ann))]
  {
    FreeUnlessOverlooked(true, s, ann, Reads(true, false, true));
    assert AccountOf(s.accounts, 2) == Some(1);
    assert PendingOf(s.pending, 2) == None;
  }

  /** A failed lookup by digest gives Bob's account the address that is Ann's. */
  lemma FailedDigestLookup(ann: string, bob: string)
    requires ann != "" && bob != "" && ann != bob
    ensures var change := AskChange(2, ann, true, true, NotRequired, Reads(true, false, true), Written);
            RunOf(true, [Newcomer(ann)] + [Newcomer(bob)] + [change]).accounts ==
            [Account(1, "", Of(ann)), Account(2, "", Of(ann))]
  {
    var change := AskChange(2, ann, true, true, NotRequired, Reads(true, false, true), Written);
    TwoRegistered(ann, bob);
    var events := [Newcomer(ann)] + [Newcomer(bob)];
    Appended(true, events, change);
    BobTakesOver(RunOf(true, events), ann, bob);
  }

  // ---- A registration that looks elsewhere ---------------------------------

  function Plain(n: nat, email: string): Account {
    Account(n, email, NoDigest)
  }

  lemma FirstPlain(ann: string)
    ensures RunOf(false, [Newcomer(ann)]) == INITIAL.(accounts := [Plain(1, ann)], nextAccount := 2)
  {
    Appended(false, [], Newcomer(ann));
    assert [] + [Newcomer(ann)] == [Newcomer(ann)];
    assert [] + [Plain(1, ann)] == [Plain(1, ann)];
  }

  /** A payload with the authID 9 looks for the address in account 9 only. */
  lemma RegisteredTwice(ann: string)
    ensures RunOf(false, [Newcomer(ann)] + [Register(ann, 9, true, NotRequired, true, Written)]).accounts ==
            [Plain(1, ann), Plain(2, ann)]
  {
    FirstPlain(ann);
    Appended(false, [Newcomer(ann)], Register(ann, 9, true, NotRequired, true, Written));
    var s := INITIAL.(accounts := [Plain(1, ann)], nextAccount := 2);
    assert !Taken(false, s.accounts, ann, 9) && !Downgraded(false, s.accounts, 9);
  }

  // ---- A code that serves another ------------------------------------------

  lemma SecondPlain(ann: string, bob: string)
    requires ann != bob
    ensures RunOf(false, [Newcomer(ann)] + [Newcomer(bob)]) ==
            INITIAL.(accounts := [Plain(1, ann), Plain(2, bob)], nextAccount := 3)
  {
    FirstPlain(ann);
    Appended(false, [Newcomer(ann)], Newcomer(bob));
    var s := INITIAL.(accounts := [Plain(1, ann)], nextAccount := 2);
    assert !Taken(false, s.accounts, bob, 0) && !Downgraded(false, s.accounts, 0);
  }

  /** Accounts 1 and 2, with the given pending changes and codes. */
  function Two(ann: string, bob: string, pending: seq<Pending>, codes: map<string, CodeValue>): State {
    State([Plain(1, ann), Plain(2, bob)], 3, pending, |pending| + 1, codes)
  }

  function Wish(n: nat, u: nat, email: string): Pending {
    Pending(n, u, email, NoDigest)
  }

  function Ask(u: nat, email: string, code: string): Event {
    AskChange(u, email, true, true, Delivered(code), READABLE, Written)
  }

  lemma FirstAsks(ann: string, bob: string, new_: string, code: string)
    requires new_ != ann && new_ != bob
    ensures Applied(false, Two(ann, bob, [], map[]), Ask(1, new_, code)) ==
            Two(ann, bob, [Wish(1, 1, new_)], map[code := Address(new_)])
  {
    var s := Two(ann, bob, [], map[]);
    assert s.accounts[0].id == 1 && s.accounts[1].id == 2;
    assert AccountOf(s.accounts, 1) == Some(0);
    assert LookedUp(false, s.accounts, new_, READABLE).Free?;
  }

  lemma SecondAsks(ann: string, bob: string, new_: string, code: string, code': string)
    requires new_ != ann && new_ != bob
    ensures Applied(false, Two(ann, bob, [Wish(1, 1, new_)], map[code := Address(new_)]), Ask(2, new_, code')) ==
            Two(ann, bob, [Wish(1, 1, new_), Wish(2, 2, new_)], map[code := Address(new_), code' := Address(new_)])
  {
    var s := Two(ann, bob, [Wish(1, 1, new_)], map[code := Address(new_)]);
    assert s.accounts[0].id == 1 && s.accounts[1].id == 2;
    assert AccountOf(s.accounts, 2) == Some(1);
    assert PendingOf(s.pending, 2) == None;
    assert LookedUp(false, s.accounts, new_, READABLE).Free?;
  }

  lemma SecondVerifies(ann: string, bob: string, new_: string, codes: map<string, CodeValue>, code: string)
    requires new_ != ann && new_ != bob && code in codes && codes[code] == Address(new_)
    ensures Applied(false, Two(ann, bob, [Wish(1, 1, new_), Wish(2, 2, new_)], codes), Verify(code, true, true, true, Written, Written)).accounts ==
            [Plain(1, new_), Plain(2, bob)]
  {
    var s := Two(ann, bob, [Wish(1, 1, new_), Wish(2, 2, new_)], codes);
    assert s.pending[0].email == new_;
    assert PendingFor(s.pending, Address(new_), true) == Some(0);
    assert s.accounts[0].id == 1 && s.accounts[1].id == 2;
    assert AccountOf(s.accounts, 1) == Some(0);
    assert !InUse(s.accounts, s.pending[0], true);
  }

  /** Ann and then Bob ask for one address; the code mailed to Bob gives it to Ann. */
  lemma BobVerifiesForAnn(ann: string, bob: string, new_: string, code: string, code': string)
    requires ann != bob && new_ != ann && new_ != bob
    ensures RunOf(false, [Newcomer(ann)] + [Newcomer(bob)] + [Ask(1, new_, code)] + [Ask(2, new_, code')]
                         + [Verify(code', true, true, true, Written, Written)]).accounts ==
            [Plain(1, new_), Plain(2, bob)]
  {
    var events := [Newcomer(ann)] + [Newcomer(bob)];
    SecondPlain(ann, bob);
    Appended(false, events, Ask(1, new_, code));
    FirstAsks(ann, bob, new_, code);
    events := events + [Ask(1, new_, code)];
    Appended(false, events, Ask(2, new_, code'));
    SecondAsks(ann, bob, new_, code, code');
    events := events + [Ask(2, new_, code')];
    Appended(false, events, Verify(code', true, true, true, Written, Written));
    SecondVerifies(ann, bob, new_, map[code := Address(new_), code' := Address(new_)], code');
  }
}
