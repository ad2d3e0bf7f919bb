/**
 Subscription grants: ManageHotspotUser decides from the clock whether an account
 is created, renewed or refused, and what whole runs of it guarantee.
 */
module Subscriptions {
  import opened Wrappers
  import opened Http
  import opened Clock
  import opened Table
  import opened Reconciliation
  import opened Replacement
  import opened Hotspot

  datatype Request = Request(
    username: string, password: Option<Value>, isHomeUser: bool, plan: string, duration: int, devices: int)

  datatype Standing = NoAccount | Expired | Active | Unreadable

  /** IsUserExpired: LIMIT 1 reads the first Expiration row. */
  function StandingOf(t: Tables, u: string, now: int): Standing {
    var dates := Vals(t.check, u, EXPIRATION);
    if !Exists(t, u) then NoAccount
    else if dates == [] || dates[0].value == EMPTY then Expired
    else if !dates[0].value.Stamp? then Unreadable
    else if now > dates[0].value.seconds * SECOND then Expired
    else Active
  }

  /** A home user keeps the stored password. */
  function PasswordFor(t: Tables, req: Request): Option<Value> {
    var stored := Vals(t.check, req.username, CLEARTEXT_PASSWORD);
    if req.isHomeUser && stored != [] then Some(stored[0].value) else req.password
  }

  /** The expiry that is written, cut to whole seconds by the date format. */
  function ExpirySeconds(asked: int, duration: int): int {
    (asked + duration * SECOND) / SECOND
  }

  function Wanted(req: Request, password: Option<Value>, asked: int): UserInput {
    UserInput(
      req.username, password,
      Some([AttributeInput(EXPIRATION, DEFAULT_OP, Stamp(ExpirySeconds(asked, req.duration))),
            AttributeInput(SIMULTANEOUS_USE, DEFAULT_OP, Number(req.devices))]),
      None,
      Some([GroupInput(req.plan, Some(1))]))
  }

  /** The clock is read twice: at asked for the new expiry, at checked for the old one. */
  function Managed(t: Tables, req: Request, asked: int, checked: int, subscribing: bool): (Tables, int) {
    var input := Wanted(req, PasswordFor(t, req), asked);
    match StandingOf(t, req.username, checked)
    case Active => (t, if subscribing then CONFLICT else INTERNAL_ERROR)
    case NoAccount => (Created(t, input).0, OK)
    case Expired => (Updated(t, input).0, OK)
    case Unreadable => (t, INTERNAL_ERROR)
  }

  /**
   A failed statement ends a subscribing call without effect. When not
   subscribing, a failed password lookup is passed over instead.
   */
  method ManageHotspotUser(db: RadiusDb, req: Request, asked: int, checked: int, subscribing: bool) returns (status: int)
    modifies db, db.conn
    ensures db.conn.failures >= old(db.conn.failures)
    ensures db.conn.failures == old(db.conn.failures) ==>
              (db.tables, status) == Managed(old(db.tables), req, asked, checked, subscribing)
    ensures db.conn.unanswered >= old(db.conn.unanswered)
    ensures db.conn.unanswered > old(db.conn.unanswered) ==>
              req.isHomeUser && db.conn.failures > old(db.conn.failures)
    ensures db.conn.failures > old(db.conn.failures) && subscribing ==>
              && db.tables == old(db.tables)
              && status == if db.conn.unanswered > old(db.conn.unanswered) then NOT_FOUND else INTERNAL_ERROR
    ensures db.conn.failures > old(db.conn.failures) && !subscribing ==>
              || (db.tables == old(db.tables) && status == INTERNAL_ERROR)
              || (db.conn.unanswered > old(db.conn.unanswered) && (db.tables, status) ==
                    Managed(old(db.tables), req.(isHomeUser := false), asked, checked, false))
  {
    var u := req.username;
    var password := req.password;
    if req.isHomeUser {
      var read := db.conn.Ask();
      if read {
        password := FirstPassword(db.tables, u, password);
      } else if subscribing {
        return NOT_FOUND;
      }
    }
    var input := Wanted(req, password, asked);

    var ok := db.conn.Send();
    if !ok { return INTERNAL_ERROR; }
    var standing := NoAccount;
    if Select(db.tables.check, u) != [] {
      ok := db.conn.Send();
      if !ok { return INTERNAL_ERROR; }
      standing := StandingOf(db.tables, u, checked);
    }
    if standing == Active && subscribing {
      return CONFLICT;
    } else if standing == NoAccount {
      status := db.CreateHotspotUser(input);
      if status != CREATED { return; }
    } else if standing == Expired {
      status := db.UpdateHotspotUser(input);
      if status != OK { return; }
    } else {
      return INTERNAL_ERROR;
    }
    status := OK;
  }

  method FirstPassword(t: Tables, u: string, given: Option<Value>) returns (password: Option<Value>)
    ensures var stored := Vals(t.check, u, CLEARTEXT_PASSWORD);
            password == if stored != [] then Some(stored[0].value) else given
  {
    var rows := Select(t.check, u);
    ValsSelect(t.check, u, CLEARTEXT_PASSWORD);
    password := given;
    for i := 0 to |rows|
      invariant Vals(rows[..i], u, CLEARTEXT_PASSWORD) == []
    {
      assert rows[i] in rows;
      FirstOf(rows, i, u, CLEARTEXT_PASSWORD);
      if rows[i].name == CLEARTEXT_PASSWORD {
        return Some(rows[i].val.value);
      }
    }
    assert rows[..|rows|] == rows;
  }

  /** Row i is the first of its name if no row before it has that name. */
  lemma FirstOf(rows: seq<Row<Cell>>, i: nat, u: string, k: string)
    requires i < |rows| && rows[i].user == u && Vals(rows[..i], u, k) == []
    ensures rows[i].name == k ==> Vals(rows, u, k) != [] && Vals(rows, u, k)[0] == rows[i].val
    ensures rows[i].name != k ==> Vals(rows[..i + 1], u, k) == []
  {
    assert rows[..i + 1] == rows[..i] + [rows[i]];
    ValsInsert(rows[..i], rows[i], u, k);
    assert rows == rows[..i + 1] + rows[i + 1..];
    ValsConcat(rows[..i + 1], rows[i + 1..], u, k);
  }

  // ---- One grant, cell by cell ---------------------------------------------

  lemma ExistsIff(t: Tables, u: string)
    ensures Exists(t, u) <==> exists k :: Vals(t.check, u, k) != []
  {
    var rows := Select(t.check, u);
    if rows != [] {
      var k := rows[|rows| - 1].name;
      ValsSelect(t.check, u, k);
      assert Vals(rows, u, k) != [];
    }
    if k :| Vals(t.check, u, k) != [] {
      ValsSelect(t.check, u, k);
    }
  }

  function WantedCheck(req: Request, asked: int, k: string): seq<Cell> {
    if k == EXPIRATION then [Cell(DEFAULT_OP, Stamp(ExpirySeconds(asked, req.duration)))]
    else if k == SIMULTANEOUS_USE then [Cell(DEFAULT_OP, Number(req.devices))]
    else []
  }

  function WantedGroup(req: Request, k: string): seq<int> {
    if k == req.plan then [1] else []
  }

  lemma WantedVals(req: Request, password: Option<Value>, asked: int, k: string)
    ensures var input := Wanted(req, password, asked);
            && InputVals(Attributes(input.check.value), k) == WantedCheck(req, asked, k)
            && InputVals(Groups(input.groups.value), k) == WantedGroup(req, k)
  {
    var input := Wanted(req, password, asked);
    var attrs, groups := Attributes(input.check.value), Groups(input.groups.value);
    assert attrs[..1] == [attrs[0]] && attrs[..1][..0] == [] && groups[..0] == [];
    assert InputVals(attrs[..1], k) == if k == EXPIRATION then [attrs[0].val] else [];
  }

  lemma WantedIsPlain(req: Request, password: Option<Value>, asked: int)
    ensures PlainInput(Wanted(req, password, asked))
  {
  }

  /** The user's cells after the account is renewed. */
  lemma RenewalCells(t: Tables, req: Request, p: Option<Value>, asked: int, k: string)
    requires Exists(t, req.username)
    ensures var u := req.username;
            var t' := Updated(t, Wanted(req, p, asked)).0;
            && Vals(t'.check, u, k) == DiffCell(Vals(WithPassword(t.check, u, p), u, k), WantedCheck(req, asked, k),
                                               k == CLEARTEXT_PASSWORD, k in Kept(p))
            && t'.reply == t.reply
            && Vals(t'.groups, u, k) == DiffCell(Vals(t.groups, u, k), WantedGroup(req, k), false, false)
  {
    var u := req.username;
    var input := Wanted(req, p, asked);
    WantedVals(req, p, asked, k);
    DiffCells(WithPassword(t.check, u, p), u, Attributes(input.check.value), {CLEARTEXT_PASSWORD}, Kept(p), u, k);
    DiffCells(t.groups, u, Groups(input.groups.value), {}, {}, u, k);
  }

  /** The user's cells after the account is created. */
  lemma NewAccountCells(t: Tables, req: Request, p: Option<Value>, asked: int, k: string)
    requires !Exists(t, req.username)
    ensures var u := req.username;
            var t' := Created(t, Wanted(req, p, asked)).0;
            && Vals(t.check, u, k) == []
            && Vals(t'.check, u, k) == FirstCheck(p, k) + WantedCheck(req, asked, k)
            && t'.reply == t.reply
            && Vals(t'.groups, u, k) == Vals(t.groups, u, k) + WantedGroup(req, k)
  {
    WantedVals(req, p, asked, k);
    ExistsIff(t, req.username);
    CreateCells(t, Wanted(req, p, asked), k);
    assert t.reply + InputRows(req.username, Attributes([])) == t.reply;
  }

  /** A grant leaves one Expiration row with the new expiry, if there was at most one. */
  lemma GrantWritesExpiry(t: Tables, req: Request, asked: int, checked: int, subscribing: bool)
    requires OneExpiry(t, req.username)
    requires Managed(t, req, asked, checked, subscribing).1 == OK
    ensures Vals(Managed(t, req, asked, checked, subscribing).0.check, req.username, EXPIRATION) ==
            [Cell(DEFAULT_OP, Stamp(ExpirySeconds(asked, req.duration)))]
  {
    if Exists(t, req.username) {
      RenewalWritesExpiry(t, req, PasswordFor(t, req), asked);
    } else {
      NewAccountCells(t, req, PasswordFor(t, req), asked, EXPIRATION);
    }
  }

  lemma RenewalWritesExpiry(t: Tables, req: Request, p: Option<Value>, asked: int)
    requires OneExpiry(t, req.username) && Exists(t, req.username)
    ensures Vals(Updated(t, Wanted(req, p, asked)).0.check, req.username, EXPIRATION) == WantedCheck(req, asked, EXPIRATION)
  {
    RenewalCells(t, req, p, asked, EXPIRATION);
    PasswordCells(t.check, req.username, p, req.username, EXPIRATION);
    ReplacesOne(Vals(t.check, req.username, EXPIRATION), WantedCheck(req, asked, EXPIRATION)[0]);
  }

  lemma ManagedFrame(t: Tables, req: Request, asked: int, checked: int, subscribing: bool, other: string)
    requires other != req.username
    ensures Untouched(Managed(t, req, asked, checked, subscribing).0, t, other)
  {
    CreateFrame(t, Wanted(req, PasswordFor(t, req), asked), other);
    UpdateFrame(t, Wanted(req, PasswordFor(t, req), asked), other);
  }

  // ---- Runs ----------------------------------------------------------------

  /** One subscribing call as it went. */
  datatype Call = Call(req: Request, asked: int, checked: int, fault: bool, status: int)

  ghost predicate Outcome(t: Tables, c: Call, t': Tables) {
    if c.fault then t' == t && (c.status == INTERNAL_ERROR || (c.req.isHomeUser && c.status == NOT_FOUND))
    else (t', c.status) == Managed(t, c.req, c.asked, c.checked, true)
  }

  ghost predicate Run(states: seq<Tables>, log: seq<Call>) {
    && |states| == |log| + 1
    && (forall i {:trigger log[i]} :: 0 <= i < |log| ==> Outcome(states[i], log[i], states[i + 1]))
    && (forall i :: 0 <= i < |log| ==> log[i].asked <= log[i].checked)
    && (forall i, j :: 0 <= i < j < |log| ==> log[i].checked <= log[j].asked)
  }

  predicate IsGrant(c: Call, u: string) {
    c.status == OK && c.req.username == u
  }

  function ExpiryOf(c: Call): int {
    ExpirySeconds(c.asked, c.req.duration)
  }

  ghost predicate ShowsExpiry(t: Tables, u: string, seconds: int) {
    Vals(t.check, u, EXPIRATION) == [Cell(DEFAULT_OP, Stamp(seconds))]
  }

  ghost predicate OneExpiry(t: Tables, u: string) {
    |Vals(t.check, u, EXPIRATION)| <= 1
  }

  /** What one call does to a user's expiry. */
  lemma ExpiryStep(t: Tables, c: Call, t': Tables, u: string)
    requires OneExpiry(t, u) && Outcome(t, c, t')
    ensures Vals(t'.check, u, EXPIRATION) ==
            if IsGrant(c, u) then [Cell(DEFAULT_OP, Stamp(ExpiryOf(c)))] else Vals(t.check, u, EXPIRATION)
  {
    if !c.fault {
      if c.req.username != u {
        ManagedFrame(t, c.req, c.asked, c.checked, true, u);
      } else if c.status == OK {
        GrantWritesExpiry(t, c.req, c.asked, c.checked, true);
      }
    }
  }

  /** A grant is given only past the expiry shown. */
  lemma GrantNeedsExpiry(t: Tables, c: Call, t': Tables)
    requires Outcome(t, c, t') && c.status == OK
    requires var dates := Vals(t.check, c.req.username, EXPIRATION); dates != [] && dates[0].value.Stamp?
    ensures c.checked > Vals(t.check, c.req.username, EXPIRATION)[0].value.seconds * SECOND
  {
    ExistsIff(t, c.req.username);
  }

  lemma ShownDateIsActive(t: Tables, u: string, now: int)
    requires var dates := Vals(t.check, u, EXPIRATION);
             dates != [] && dates[0].value.Stamp? && now <= dates[0].value.seconds * SECOND
    ensures StandingOf(t, u, now) == Active
  {
    ExistsIff(t, u);
    assert Vals(t.check, u, EXPIRATION) != [];
    assert Exists(t, u);
  }

  lemma {:induction false} KeptFromStart(states: seq<Tables>, u: string, j: nat)
    requires j < |states| && OneExpiry(states[0], u)
    requires forall i :: 0 <= i < |states| - 1 && OneExpiry(states[i], u) ==> OneExpiry(states[i + 1], u)
    ensures OneExpiry(states[j], u)
  {
    if j > 0 {
      KeptFromStart(states, u, j - 1);
      assert OneExpiry(states[j - 1 + 1], u);
    }
  }

  lemma OneExpiryKept(states: seq<Tables>, log: seq<Call>, u: string, j: nat)
    requires Run(states, log) && j <= |log| && OneExpiry(states[0], u)
    ensures OneExpiry(states[j], u)
  {
    forall i | 0 <= i < |states| - 1 && OneExpiry(states[i], u) ensures OneExpiry(states[i + 1], u) {
      ExpiryStep(states[i], log[i], states[i + 1], u);
    }
    KeptFromStart(states, u, j);
  }

  /**
   After grant i the account always shows one expiry, and it is that of grant i
   or a later one, unless the expiry of grant i has been passed by the clock.
   */
  ghost predicate Covers(t: Tables, u: string, expiry: int, clock: int) {
    var dates := Vals(t.check, u, EXPIRATION);
    && |dates| == 1 && dates[0].value.Stamp?
    && (dates[0].value.seconds < expiry ==> clock > expiry * SECOND)
  }

  lemma GrantLastsStep(t: Tables, c: Call, t': Tables, u: string, expiry: int, clock: int)
    requires Outcome(t, c, t') && Covers(t, u, expiry, clock) && clock <= c.checked
    ensures Covers(t', u, expiry, c.checked)
  {
    ExpiryStep(t, c, t', u);
    if IsGrant(c, u) {
      GrantNeedsExpiry(t, c, t');
      var seen := Vals(t.check, u, EXPIRATION)[0].value.seconds;
      if seen >= expiry {
        assert c.checked > expiry * SECOND;
      }
    }
  }

  lemma {:induction false} GrantLasts(states: seq<Tables>, log: seq<Call>, u: string, i: nat, j: nat)
    requires Run(states, log) && i < j <= |log| && OneExpiry(states[0], u) && IsGrant(log[i], u)
    ensures Covers(states[j], u, ExpiryOf(log[i]), log[j - 1].checked)
    decreases j
  {
    var t, c, t' := states[j - 1], log[j - 1], states[j];
    OneExpiryKept(states, log, u, j - 1);
    assert Outcome(t, c, t');
    if j > i + 1 {
      GrantLasts(states, log, u, i, j - 1);
      assert log[j - 2].checked <= c.asked <= c.checked;
      GrantLastsStep(t, c, t', u, ExpiryOf(log[i]), log[j - 2].checked);
    } else {
      ExpiryStep(t, c, t', u);
    }
  }

  /** Inside the interval of an earlier grant a call changes nothing and, unless the database fails, is refused with 409. */
  lemma ActiveIntervalRefuses(states: seq<Tables>, log: seq<Call>, u: string, i: nat, j: nat)
    requires Run(states, log) && i < j < |log| && OneExpiry(states[0], u)
    requires IsGrant(log[i], u) && log[j].req.username == u
    requires log[j].checked <= ExpiryOf(log[i]) * SECOND
    ensures states[j + 1] == states[j] && log[j].status != OK
    ensures !log[j].fault ==> log[j].status == CONFLICT
  {
    GrantLasts(states, log, u, i, j);
    assert log[j - 1].checked <= log[j].asked <= log[j].checked;
    assert Outcome(states[j], log[j], states[j + 1]);
    var dates := Vals(states[j].check, u, EXPIRATION);
    assert dates[0].value.seconds * SECOND >= ExpiryOf(log[i]) * SECOND;
    ShownDateIsActive(states[j], u, log[j].checked);
  }

  /** Subscriptions never overlap: a grant comes strictly after the expiry of every earlier grant to the same user. */
  lemma SubscriptionsNeverOverlap(states: seq<Tables>, log: seq<Call>, u: string, i: nat, j: nat)
    requires Run(states, log) && i < j < |log| && OneExpiry(states[0], u)
    requires IsGrant(log[i], u) && IsGrant(log[j], u)
    ensures log[j].checked > ExpiryOf(log[i]) * SECOND
  {
    if log[j].checked <= ExpiryOf(log[i]) * SECOND {
      ActiveIntervalRefuses(states, log, u, i, j);
    }
  }

  /** A call that is no grant to u leaves the expiry shown, and a grant shows its own. */
  lemma ShownStep(t: Tables, c: Call, t': Tables, u: string, seconds: int)
    requires OneExpiry(t, u) && Outcome(t, c, t')
    ensures IsGrant(c, u) ==> ShowsExpiry(t', u, ExpiryOf(c))
    ensures !IsGrant(c, u) && ShowsExpiry(t, u, seconds) ==> ShowsExpiry(t', u, seconds)
  {
    ExpiryStep(t, c, t', u);
  }

  lemma {:induction false} ShownOn(states: seq<Tables>, u: string, seconds: int, i: nat, j: nat)
    requires i <= j < |states| && ShowsExpiry(states[i], u, seconds)
    requires forall m :: i <= m < j && ShowsExpiry(states[m], u, seconds) ==> ShowsExpiry(states[m + 1], u, seconds)
    ensures ShowsExpiry(states[j], u, seconds)
  {
    if i < j {
      ShownOn(states, u, seconds, i, j - 1);
      assert ShowsExpiry(states[j - 1 + 1], u, seconds);
    }
  }

  /** Between two grants the account shows the expiry of the first. */
  lemma ShownExpiry(states: seq<Tables>, log: seq<Call>, u: string, i: nat, j: nat)
    requires Run(states, log) && i < j <= |log| && OneExpiry(states[0], u) && IsGrant(log[i], u)
    requires forall m :: i < m < j ==> !IsGrant(log[m], u)
    ensures ShowsExpiry(states[j], u, ExpiryOf(log[i]))
  {
    var seconds := ExpiryOf(log[i]);
    OneExpiryKept(states, log, u, i);
    ShownStep(states[i], log[i], states[i + 1], u, seconds);
    forall m | i + 1 <= m < j && ShowsExpiry(states[m], u, seconds) ensures ShowsExpiry(states[m + 1], u, seconds) {
      OneExpiryKept(states, log, u, m);
      ShownStep(states[m], log[m], states[m + 1], u, seconds);
    }
    ShownOn(states, u, seconds, i + 1, j);
  }

  lemma StandingFromDate(t: Tables, c: Call, t': Tables, seconds: int)
    requires Outcome(t, c, t') && !c.fault
    requires Vals(t.check, c.req.username, EXPIRATION) == [Cell(DEFAULT_OP, Stamp(seconds))]
    ensures c.status == if c.checked > seconds * SECOND then OK else CONFLICT
  {
    ExistsIff(t, c.req.username);
    assert Vals(t.check, c.req.username, EXPIRATION) != [];
  }

  /** After the last grant to a user, an undisturbed call is granted if and only if that grant has expired. */
  lemma GrantedIffExpired(states: seq<Tables>, log: seq<Call>, u: string, i: nat, j: nat)
    requires Run(states, log) && i < j < |log| && OneExpiry(states[0], u) && IsGrant(log[i], u)
    requires forall m :: i < m < j ==> !IsGrant(log[m], u)
    requires log[j].req.username == u && !log[j].fault
    ensures log[j].status == if log[j].checked > ExpiryOf(log[i]) * SECOND then OK else CONFLICT
  {
    ShownExpiry(states, log, u, i, j);
    assert Outcome(states[j], log[j], states[j + 1]);
    StandingFromDate(states[j], log[j], states[j + 1], ExpiryOf(log[i]));
  }

  /** Renewing a home user's subscription keeps the password and drops any Auth-Type rows. */
  lemma HomeUserKeepsPassword(t: Tables, req: Request, asked: int, checked: int, password: Value)
    requires req.isHomeUser && password != EMPTY && StandingOf(t, req.username, checked) == Expired
    requires Vals(t.check, req.username, CLEARTEXT_PASSWORD) == [Cell(DEFAULT_OP, password)]
    ensures var t' := Managed(t, req, asked, checked, true).0;
            && Vals(t'.check, req.username, CLEARTEXT_PASSWORD) == [Cell(DEFAULT_OP, password)]
            && Vals(t'.check, req.username, AUTH_TYPE) == []
  {
    var input := Wanted(req, PasswordFor(t, req), asked);
    WantedIsPlain(req, PasswordFor(t, req), asked);
    PasswordCases(t, input);
  }

  // ---- The account after k grants ------------------------------------------

  function GrantsTo(log: seq<Call>, u: string): nat {
    if log == [] then 0
    else GrantsTo(log[..|log| - 1], u) + if IsGrant(log[|log| - 1], u) then 1 else 0
  }

  function LastGrant(log: seq<Call>, u: string): Call
    requires GrantsTo(log, u) > 0
  {
    if IsGrant(log[|log| - 1], u) then log[|log| - 1] else LastGrant(log[..|log| - 1], u)
  }

  /** Exactly these cells: n Auth-Type rows and one row each for expiry, devices and plan of the last grant. */
  ghost predicate Shape(t: Tables, u: string, log: seq<Call>) {
    var n := GrantsTo(log, u);
    forall k ::
      && Vals(t.check, u, k) == (
           if k == AUTH_TYPE then Fill(n, ACCEPT)
           else if n == 0 then []
           else WantedCheck(LastGrant(log, u).req, LastGrant(log, u).asked, k))
      && Vals(t.reply, u, k) == []
      && Vals(t.groups, u, k) == if n == 0 then [] else WantedGroup(LastGrant(log, u).req, k)
  }

  /** A grant without a password is a renewal or a creation with the wanted input. */
  lemma GrantIs(t: Tables, u: string, c: Call, t': Tables)
    requires Vals(t.check, u, CLEARTEXT_PASSWORD) == [] && Outcome(t, c, t') && IsGrant(c, u) && c.req.password.None?
    ensures t' == if Exists(t, u) then Updated(t, Wanted(c.req, None, c.asked)).0 else Created(t, Wanted(c.req, None, c.asked)).0
  {
    assert PasswordFor(t, c.req) == None;
  }

  lemma CheckShapeAfterGrant(t: Tables, u: string, log: seq<Call>, c: Call, t': Tables, k: string)
    requires Shape(t, u, log) && c.req.username == u
    requires t' == if Exists(t, u) then Updated(t, Wanted(c.req, None, c.asked)).0 else Created(t, Wanted(c.req, None, c.asked)).0
    ensures Vals(t'.check, u, k) ==
            if k == AUTH_TYPE then Fill(GrantsTo(log, u) + 1, ACCEPT) else WantedCheck(c.req, c.asked, k)
    ensures Vals(t'.reply, u, k) == []
    ensures Vals(t'.groups, u, k) == WantedGroup(c.req, k)
  {
    if Exists(t, u) {
      RenewedShape(t, u, log, c.req, c.asked, k);
    } else {
      NewShape(t, u, log, c.req, c.asked, k);
    }
  }

  lemma NewShape(t: Tables, u: string, log: seq<Call>, req: Request, asked: int, k: string)
    requires Shape(t, u, log) && req.username == u && !Exists(t, u)
    ensures var t' := Created(t, Wanted(req, None, asked)).0;
            && Vals(t'.check, u, k) == (
                 if k == AUTH_TYPE then Fill(GrantsTo(log, u) + 1, ACCEPT) else WantedCheck(req, asked, k))
            && Vals(t'.reply, u, k) == []
            && Vals(t'.groups, u, k) == WantedGroup(req, k)
  {
    NoAccountNoGrants(t, u, log, k);
    NewCells(t, req, asked, k);
    var n := GrantsTo(log, u) + 1;
    assert n == 1;
  }

  lemma NewCells(t: Tables, req: Request, asked: int, k: string)
    requires !Exists(t, req.username) && Vals(t.reply, req.username, k) == [] && Vals(t.groups, req.username, k) == []
    ensures var t' := Created(t, Wanted(req, None, asked)).0;
            && Vals(t'.check, req.username, k) == (if k == AUTH_TYPE then Fill(1, ACCEPT) else WantedCheck(req, asked, k))
            && Vals(t'.reply, req.username, k) == []
            && Vals(t'.groups, req.username, k) == WantedGroup(req, k)
  {
    NewAccountCells(t, req, None, asked, k);
    NewCell(asked, req, k);
  }

  lemma NoAccountNoGrants(t: Tables, u: string, log: seq<Call>, k: string)
    requires Shape(t, u, log) && !Exists(t, u)
    ensures GrantsTo(log, u) == 0
    ensures Vals(t.reply, u, k) == [] && Vals(t.groups, u, k) == []
  {
    ExistsIff(t, u);
    assert Vals(t.check, u, AUTH_TYPE) == [];
    assert |Vals(t.check, u, AUTH_TYPE)| == GrantsTo(log, u);
  }

  lemma NewCell(asked: int, req: Request, k: string)
    ensures FirstCheck(None, k) + WantedCheck(req, asked, k) == if k == AUTH_TYPE then Fill(1, ACCEPT) else WantedCheck(req, asked, k)
  {
    assert k == AUTH_TYPE ==> WantedCheck(req, asked, k) == [];
    assert Fill(1, ACCEPT) == [ACCEPT];
  }

  lemma RenewedShape(t: Tables, u: string, log: seq<Call>, req: Request, asked: int, k: string)
    requires Shape(t, u, log) && req.username == u && Exists(t, u)
    ensures var t' := Updated(t, Wanted(req, None, asked)).0;
            && Vals(t'.check, u, k) == (
                 if k == AUTH_TYPE then Fill(GrantsTo(log, u) + 1, ACCEPT) else WantedCheck(req, asked, k))
            && Vals(t'.reply, u, k) == []
            && Vals(t'.groups, u, k) == WantedGroup(req, k)
  {
    RenewalCells(t, req, None, asked, k);
    RenewedCheck(t, u, log, req, asked, k);
    assert Vals(t.reply, u, k) == [];
    assert Vals(t.groups, u, k) == if GrantsTo(log, u) == 0 then [] else WantedGroup(LastGrant(log, u).req, k);
    RenewedCell(Vals(t.groups, u, k), WantedGroup(req, k), false);
  }

  lemma RenewedCheck(t: Tables, u: string, log: seq<Call>, req: Request, asked: int, k: string)
    requires Shape(t, u, log)
    ensures DiffCell(Vals(WithPassword(t.check, u, None), u, k), WantedCheck(req, asked, k), k == CLEARTEXT_PASSWORD, k in Kept(None)) ==
            if k == AUTH_TYPE then Fill(GrantsTo(log, u) + 1, ACCEPT) else WantedCheck(req, asked, k)
  {
    PasswordCells(t.check, u, None, u, k);
    if k == AUTH_TYPE {
      RenewedAuthType(Vals(t.check, u, k), GrantsTo(log, u));
    } else {
      assert k == CLEARTEXT_PASSWORD ==> Vals(t.check, u, k) == [];
      RenewedCell(Vals(t.check, u, k), WantedCheck(req, asked, k), k == CLEARTEXT_PASSWORD);
    }
  }

  /** A kept cell that the input does not name only gains the new row. */
  lemma RenewedAuthType(before: seq<Cell>, n: nat)
    requires before == Fill(n, ACCEPT)
    ensures DiffCell(before + [ACCEPT], [], false, true) == Fill(n + 1, ACCEPT)
  {
    assert before + [ACCEPT] == Fill(n + 1, ACCEPT);
  }

  /** A cell with at most one value takes the one wanted, or none. */
  lemma RenewedCell<V>(before: seq<V>, wanted: seq<V>, skipped: bool)
    requires |before| <= 1 && |wanted| <= 1 && (skipped ==> before == [])
    ensures DiffCell(before, wanted, skipped, false) == wanted
  {
    if wanted != [] && before != [] {
      assert wanted == [wanted[0]];
      ReplacesOne(before, wanted[0]);
    }
  }

  lemma ShapeAfterGrant(t: Tables, u: string, log: seq<Call>, c: Call, t': Tables)
    requires Shape(t, u, log) && Outcome(t, c, t') && IsGrant(c, u) && c.req.password.None?
    ensures Shape(t', u, log + [c])
  {
    assert (log + [c])[..|log|] == log;
    assert LastGrant(log + [c], u) == c;
    assert Vals(t.check, u, CLEARTEXT_PASSWORD) == [];
    GrantIs(t, u, c, t');
    forall k
      ensures Vals(t'.check, u, k) ==
              if k == AUTH_TYPE then Fill(GrantsTo(log, u) + 1, ACCEPT) else WantedCheck(c.req, c.asked, k)
      ensures Vals(t'.reply, u, k) == []
      ensures Vals(t'.groups, u, k) == WantedGroup(c.req, k)
    {
      CheckShapeAfterGrant(t, u, log, c, t', k);
    }
  }

  /** Only a grant to a user touches the user's cells. */
  lemma NoGrantUntouched(t: Tables, u: string, c: Call, t': Tables)
    requires Outcome(t, c, t') && !IsGrant(c, u)
    ensures Untouched(t', t, u)
  {
    if !c.fault && c.req.username != u {
      ManagedFrame(t, c.req, c.asked, c.checked, true, u);
    } else {
      assert t' == t;
    }
  }

  lemma ShapeOtherwise(t: Tables, u: string, log: seq<Call>, c: Call, t': Tables)
    requires Shape(t, u, log) && Outcome(t, c, t') && !IsGrant(c, u)
    ensures Shape(t', u, log + [c])
  {
    NoGrantUntouched(t, u, c, t');
    assert (log + [c])[..|log|] == log;
    assert GrantsTo(log + [c], u) == GrantsTo(log, u);
    SameShape(t, u, log, t', log + [c]);
  }

  lemma SameShape(t: Tables, u: string, log: seq<Call>, t': Tables, log': seq<Call>)
    requires Shape(t, u, log) && Untouched(t', t, u) && GrantsTo(log', u) == GrantsTo(log, u)
    requires GrantsTo(log, u) > 0 ==> LastGrant(log', u) == LastGrant(log, u)
    ensures Shape(t', u, log')
  {
  }

  lemma RunPrefix(states: seq<Tables>, log: seq<Call>)
    requires Run(states, log) && log != []
    ensures Run(states[..|log|], log[..|log| - 1])
    ensures Outcome(states[|log| - 1], log[|log| - 1], states[|log|])
  {
    var n := |log| - 1;
    forall i | 0 <= i < n ensures Outcome(states[..n + 1][i], log[..n][i], states[..n + 1][i + 1]) {
      assert Outcome(states[i], log[i], states[i + 1]);
    }
  }

  /** Starting without rows, after any run the account has exactly the shape its grants give it. */
  lemma {:induction false} ExactAccountShape(states: seq<Tables>, log: seq<Call>, u: string)
    requires Run(states, log) && Shape(states[0], u, [])
    requires forall i :: 0 <= i < |log| && log[i].req.username == u ==> log[i].req.password.None?
    ensures Shape(states[|log|], u, log)
  {
    if log != [] {
      var n := |log| - 1;
      var init, c := log[..n], log[n];
      RunPrefix(states, log);
      ExactAccountShape(states[..n + 1], init, u);
      assert log == init + [c];
      if IsGrant(c, u) {
        ShapeAfterGrant(states[n], u, init, c, states[n + 1]);
      } else {
        ShapeOtherwise(states[n], u, init, c, states[n + 1]);
      }
    }
  }

  // ---- One row per attribute, over runs of every operation -----------------

  datatype Operation =
    | Create(input: UserInput)
    | Change(input: UserInput)
    | Remove(user: string)
    | PutAttribute(user: string, attribute: AttributeInput)
    | RemoveAttribute(user: string, name: string)
    | Manage(req: Request, asked: int, checked: int, subscribing: bool)

  /** What an operation does when no statement fails. */
  function Effect(t: Tables, op: Operation): Tables {
    match op
    case Create(input) => Created(t, input).0
    case Change(input) => Updated(t, input).0
    case Remove(u) => Deleted(t, u).0
    case PutAttribute(u, a) => CheckPut(t, u, a).0
    case RemoveAttribute(u, k) => CheckRemoved(t, u, k).0
    case Manage(req, asked, checked, subscribing) => Managed(t, req, asked, checked, subscribing).0
  }

  /** With faults: no effect, or that of the call with its password lookup passed over. */
  ghost predicate MayLeadTo(t: Tables, op: Operation, t': Tables) {
    || t' == t
    || t' == Effect(t, op)
    || (op.Manage? && t' == Effect(t, op.(req := op.req.(isHomeUser := false))))
  }

  ghost predicate WellFormed(op: Operation) {
    op.Create? || op.Change? ==>
      Distinct(Attributes(OrEmpty(op.input.check))) && CLEARTEXT_PASSWORD !in Names(Attributes(OrEmpty(op.input.check)))
  }

  lemma CreateUnique(t: Tables, input: UserInput)
    requires Unique(t.check, {AUTH_TYPE}) && WellFormed(Create(input))
    ensures Unique(Created(t, input).0.check, {AUTH_TYPE})
  {
    var u := input.username;
    var attrs := Attributes(OrEmpty(input.check));
    if !Exists(t, u) {
      var row := FirstRow(u, input.password);
      ExistsIff(t, u);
      forall u', k | k != AUTH_TYPE ensures |Vals(Created(t, input).0.check, u', k)| <= 1 {
        ValsInsert(t.check, row, u', k);
        ValsConcat(t.check + [row], InputRows(u, attrs), u', k);
        ValsInputRows(u, attrs, u', k);
        DistinctVals(attrs, k);
        InputValsNames(attrs, k);
      }
    }
  }

  lemma UpdateUnique(t: Tables, input: UserInput)
    requires Unique(t.check, {AUTH_TYPE}) && WellFormed(Change(input))
    ensures Unique(Updated(t, input).0.check, {AUTH_TYPE})
  {
    var u := input.username;
    var check := WithPassword(t.check, u, input.password);
    forall u', k | k != AUTH_TYPE ensures |Vals(check, u', k)| <= 1 {
      PasswordCells(t.check, u, input.password, u', k);
    }
    if input.check.Some? {
      DiffUnique(check, u, Attributes(input.check.value), {CLEARTEXT_PASSWORD}, Kept(input.password), {AUTH_TYPE});
    }
  }

  lemma ManageUnique(t: Tables, req: Request, asked: int, checked: int, subscribing: bool)
    requires Unique(t.check, {AUTH_TYPE})
    ensures Unique(Managed(t, req, asked, checked, subscribing).0.check, {AUTH_TYPE})
  {
    var input := Wanted(req, PasswordFor(t, req), asked);
    WantedIsPlain(req, PasswordFor(t, req), asked);
    CreateUnique(t, input);
    UpdateUnique(t, input);
  }

  lemma EffectUnique(t: Tables, op: Operation)
    requires Unique(t.check, {AUTH_TYPE}) && WellFormed(op)
    ensures Unique(Effect(t, op).check, {AUTH_TYPE})
  {
    match op
    case Create(input) => CreateUnique(t, input);
    case Change(input) => UpdateUnique(t, input);
    case Remove(u) =>
      forall u', k | k != AUTH_TYPE ensures |Vals(Deleted(t, u).0.check, u', k)| <= 1 {
        ValsWithoutUser(t.check, u, u', k);
      }
    case PutAttribute(u, a) =>
      forall u', k | k != AUTH_TYPE ensures |Vals(CheckPut(t, u, a).0.check, u', k)| <= 1 {
        PutCells(t, u, a, u', k);
      }
    case RemoveAttribute(u, name) =>
      forall u', k | k != AUTH_TYPE ensures |Vals(CheckRemoved(t, u, name).0.check, u', k)| <= 1 {
        RemoveCells(t, u, name, u', k);
      }
    case Manage(req, asked, checked, subscribing) => ManageUnique(t, req, asked, checked, subscribing);
  }

  /** Every run of well-formed operations, faults included, keeps one radcheck row per user and attribute but Auth-Type. */
  lemma {:induction false} RadcheckStaysUnique(states: seq<Tables>, ops: seq<Operation>)
    requires |states| == |ops| + 1 && Unique(states[0].check, {AUTH_TYPE})
    requires forall i :: 0 <= i < |ops| ==> WellFormed(ops[i]) && MayLeadTo(states[i], ops[i], states[i + 1])
    ensures forall i :: 0 <= i < |states| ==> Unique(states[i].check, {AUTH_TYPE})
  {
    for i := 0 to |ops|
      invariant forall j :: 0 <= j <= i ==> Unique(states[j].check, {AUTH_TYPE})
    {
      var t, op, t' := states[i], ops[i], states[i + 1];
      assert MayLeadTo(t, op, t');
      EffectUnique(t, op);
      if op.Manage? {
        EffectUnique(t, op.(req := op.req.(isHomeUser := false)));
      }
    }
  }
}
