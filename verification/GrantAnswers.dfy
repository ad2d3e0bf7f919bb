/** The answer to every subscription call, and the rows it leaves, read off the stored rows and the clock. */
module GrantAnswers {
  import opened Wrappers
  import opened Http
  import opened Clock
  import opened Table
  import opened Replacement
  import opened Hotspot
  import opened Subscriptions

  ghost predicate HasRow(t: Tables, u: string) {
    exists i :: 0 <= i < |t.check| && t.check[i].user == u
  }

  lemma {:induction false} SelectedIff(rows: seq<Row<Cell>>, u: string)
    ensures Select(rows, u) != [] <==> exists i :: 0 <= i < |rows| && rows[i].user == u
  {
    if rows != [] {
      var init := rows[..|rows| - 1];
      SelectedIff(init, u);
      if i :| 0 <= i < |init| && init[i].user == u {
        assert rows[i].user == u;
      }
      if i :| 0 <= i < |rows| && rows[i].user == u && i < |rows| - 1 {
        assert init[i].user == u;
      }
    }
  }

  /** The first Expiration value of u is a date. */
  ghost predicate Dated(t: Tables, u: string) {
    var dates := Vals(t.check, u, "Expiration");
    dates != [] && dates[0].value.Stamp?
  }

  /** It is missing or empty. */
  ghost predicate Undated(t: Tables, u: string) {
    var dates := Vals(t.check, u, "Expiration");
    dates == [] || dates[0].value == Text("")
  }

  ghost predicate Passed(t: Tables, u: string, now: int) {
    Dated(t, u) && now > Vals(t.check, u, "Expiration")[0].value.seconds * SECOND
  }

  ghost predicate Running(t: Tables, u: string, now: int) {
    Dated(t, u) && now <= Vals(t.check, u, "Expiration")[0].value.seconds * SECOND
  }

  /**
   Without faults and for every table: a call is granted exactly when the user has no row
   in radcheck, or no expiry, or one that has passed; while the expiry is running a
   subscriber gets 409, and everything else is 500 and changes nothing.
   */
  lemma AnswerFromRows(t: Tables, req: Request, asked: int, checked: int, subscribing: bool)
    ensures var (t', status) := Managed(t, req, asked, checked, subscribing);
            var u := req.username;
            && (status == OK <==> !HasRow(t, u) || Undated(t, u) || Passed(t, u, checked))
            && (status == CONFLICT <==> Running(t, u, checked) && subscribing)
            && (status == INTERNAL_ERROR <==>
                  HasRow(t, u) && !Undated(t, u) && (!Dated(t, u) || (Running(t, u, checked) && !subscribing)))
            && status in {OK, CONFLICT, INTERNAL_ERROR}
            && (status != OK ==> t' == t)
  {
    SelectedIff(t.check, req.username);
    ExistsIff(t, req.username);
    if Dated(t, req.username) {
      assert Vals(t.check, req.username, EXPIRATION) != [];
    }
  }

  // ---- The rows of a grant -------------------------------------------------

  /** At most one row for each name of u, except Auth-Type. */
  ghost predicate PlainAccount(t: Tables, u: string) {
    && (forall k :: k != "Auth-Type" ==> |Vals(t.check, u, k)| <= 1)
    && (forall k :: |Vals(t.groups, u, k)| <= 1)
  }

  /** A home user's stored password, or else the one of the request. */
  ghost predicate IsPassword(t: Tables, req: Request, p: Option<Value>) {
    var stored := Vals(t.check, req.username, "Cleartext-Password");
    if req.isHomeUser && stored != [] then p == Some(stored[0].value) else p == req.password
  }

  /** The expiry is the instant asked for, cut to whole seconds. */
  lemma ExpiryIsCut(asked: int, duration: int)
    ensures ExpirySeconds(asked, duration) * SECOND <= asked + duration * SECOND < ExpirySeconds(asked, duration) * SECOND + SECOND
  {
  }

  ghost predicate Expires(cells: seq<Cell>, asked: int, duration: int) {
    && |cells| == 1 && cells[0].op == ":=" && cells[0].value.Stamp?
    && cells[0].value.seconds * SECOND <= asked + duration * SECOND < cells[0].value.seconds * SECOND + SECOND
  }

  /** The cells of a new account for password p, or of one that had those of before. */
  ghost predicate PasswordKept(t: Tables, t': Tables, u: string, p: Option<Value>) {
    var had, has := Vals(t.check, u, "Cleartext-Password"), Vals(t'.check, u, "Cleartext-Password");
    var types, types' := Vals(t.check, u, "Auth-Type"), Vals(t'.check, u, "Auth-Type");
    match p
    case None => has == had && types' == types + [Cell(":=", Text("Accept"))]
    case Some(text) =>
      if text == Text("") then has == [] && types' == (if HasRow(t, u) then [] else [Cell(":=", Text("Accept"))])
      else has == [Cell(":=", text)] && types' == []
  }

  ghost predicate Granted(t: Tables, t': Tables, req: Request, asked: int, p: Option<Value>) {
    var u := req.username;
    && Expires(Vals(t'.check, u, "Expiration"), asked, req.duration)
    && Vals(t'.check, u, "Simultaneous-Use") == [Cell(":=", Number(req.devices))]
    && PasswordKept(t, t', u, p)
    && (forall k :: k !in {"Expiration", "Simultaneous-Use", "Cleartext-Password", "Auth-Type"} ==> Vals(t'.check, u, k) == [])
    && Vals(t'.groups, u, req.plan) == (if HasRow(t, u) then [1] else Vals(t.groups, u, req.plan) + [1])
    && (forall k :: k != req.plan ==> Vals(t'.groups, u, k) == if HasRow(t, u) then [] else Vals(t.groups, u, k))
    && t'.reply == t.reply
  }

  lemma NamesDiffer()
    ensures EXPIRATION != SIMULTANEOUS_USE && EXPIRATION != CLEARTEXT_PASSWORD && EXPIRATION != AUTH_TYPE
    ensures SIMULTANEOUS_USE != CLEARTEXT_PASSWORD && SIMULTANEOUS_USE != AUTH_TYPE && CLEARTEXT_PASSWORD != AUTH_TYPE
  {
    assert |EXPIRATION| == 10 && |SIMULTANEOUS_USE| == 16 && |CLEARTEXT_PASSWORD| == 18 && |AUTH_TYPE| == 9;
  }

  lemma RenewedCells(t: Tables, req: Request, p: Option<Value>, asked: int, k: string)
    requires Exists(t, req.username) && PlainAccount(t, req.username)
    ensures var t' := Updated(t, Wanted(req, p, asked)).0;
            && (k != CLEARTEXT_PASSWORD && k != AUTH_TYPE ==> Vals(t'.check, req.username, k) == WantedCheck(req, asked, k))
            && Vals(t'.groups, req.username, k) == WantedGroup(req, k)
            && t'.reply == t.reply
  {
    var u := req.username;
    RenewalCells(t, req, p, asked, k);
    PasswordCells(t.check, u, p, u, k);
    if WantedCheck(req, asked, k) != [] && k != AUTH_TYPE {
      ReplacesOne(Vals(t.check, u, k), WantedCheck(req, asked, k)[0]);
    }
    if WantedGroup(req, k) != [] {
      ReplacesOne(Vals(t.groups, u, k), 1);
    }
  }

  lemma RenewedPassword(t: Tables, req: Request, p: Option<Value>, asked: int)
    requires Exists(t, req.username)
    ensures PasswordKept(t, Updated(t, Wanted(req, p, asked)).0, req.username, p)
  {
    SelectedIff(t.check, req.username);
    WantedIsPlain(req, p, asked);
    PasswordCases(t, Wanted(req, p, asked));
  }

  lemma NewPassword(t: Tables, req: Request, p: Option<Value>, asked: int)
    requires !Exists(t, req.username)
    ensures PasswordKept(t, Created(t, Wanted(req, p, asked)).0, req.username, p)
  {
    SelectedIff(t.check, req.username);
    NamesDiffer();
    NewAccountCells(t, req, p, asked, CLEARTEXT_PASSWORD);
    NewAccountCells(t, req, p, asked, AUTH_TYPE);
  }

  lemma RenewalGranted(t: Tables, req: Request, p: Option<Value>, asked: int)
    requires Exists(t, req.username) && PlainAccount(t, req.username)
    ensures Granted(t, Updated(t, Wanted(req, p, asked)).0, req, asked, p)
  {
    SelectedIff(t.check, req.username);
    NamesDiffer();
    ExpiryIsCut(asked, req.duration);
    RenewedPassword(t, req, p, asked);
    forall k
      ensures var t' := Updated(t, Wanted(req, p, asked)).0;
              && (k != CLEARTEXT_PASSWORD && k != AUTH_TYPE ==> Vals(t'.check, req.username, k) == WantedCheck(req, asked, k))
              && Vals(t'.groups, req.username, k) == WantedGroup(req, k)
              && t'.reply == t.reply
    {
      RenewedCells(t, req, p, asked, k);
    }
  }

  lemma NewCheckCells(t: Tables, req: Request, p: Option<Value>, asked: int, k: string)
    requires !Exists(t, req.username)
    ensures var t' := Created(t, Wanted(req, p, asked)).0;
            && (k != CLEARTEXT_PASSWORD && k != AUTH_TYPE ==> Vals(t'.check, req.username, k) == WantedCheck(req, asked, k))
            && Vals(t'.groups, req.username, k) == Vals(t.groups, req.username, k) + WantedGroup(req, k)
            && t'.reply == t.reply
  {
    NewAccountCells(t, req, p, asked, k);
    if k != CLEARTEXT_PASSWORD && k != AUTH_TYPE {
      assert FirstCheck(p, k) == [];
    }
  }

  lemma CreationGranted(t: Tables, req: Request, p: Option<Value>, asked: int)
    requires !Exists(t, req.username)
    ensures Granted(t, Created(t, Wanted(req, p, asked)).0, req, asked, p)
  {
    SelectedIff(t.check, req.username);
    NamesDiffer();
    ExpiryIsCut(asked, req.duration);
    NewPassword(t, req, p, asked);
    forall k
      ensures var t' := Created(t, Wanted(req, p, asked)).0;
              && (k != CLEARTEXT_PASSWORD && k != AUTH_TYPE ==> Vals(t'.check, req.username, k) == WantedCheck(req, asked, k))
              && Vals(t'.groups, req.username, k) == Vals(t.groups, req.username, k) + WantedGroup(req, k)
              && t'.reply == t.reply
    {
      NewCheckCells(t, req, p, asked, k);
    }
    assert forall k :: k != req.plan ==> WantedGroup(req, k) == [];
  }

  lemma GrantedTables(t: Tables, req: Request, asked: int, checked: int, subscribing: bool)
    requires Managed(t, req, asked, checked, subscribing).1 == OK
    ensures Managed(t, req, asked, checked, subscribing).0 ==
            if Exists(t, req.username) then Updated(t, Wanted(req, PasswordFor(t, req), asked)).0
            else Created(t, Wanted(req, PasswordFor(t, req), asked)).0
  {
  }

  /**
   A granted call on a plain account leaves exactly the rows of the request: the expiry in
   whole seconds, the devices, the password and the plan as the only group.
   */
  lemma GrantLeavesRequest(t: Tables, req: Request, asked: int, checked: int, subscribing: bool)
    requires PlainAccount(t, req.username) && Managed(t, req, asked, checked, subscribing).1 == OK
    ensures IsPassword(t, req, PasswordFor(t, req))
    ensures Granted(t, Managed(t, req, asked, checked, subscribing).0, req, asked, PasswordFor(t, req))
  {
    var p := PasswordFor(t, req);
    GrantedTables(t, req, asked, checked, subscribing);
    if Exists(t, req.username) {
      RenewalGranted(t, req, p, asked);
    } else {
      CreationGranted(t, req, p, asked);
    }
  }

  // ---- Runs ----------------------------------------------------------------

  lemma NoRowStays(t: Tables, c: Call, t': Tables, u: string)
    requires !HasRow(t, u) && Outcome(t, c, t') && !IsGrant(c, u)
    ensures !HasRow(t', u)
  {
    if !c.fault {
      if c.req.username == u {
        AnswerFromRows(t, c.req, c.asked, c.checked, true);
      } else {
        ManagedFrame(t, c.req, c.asked, c.checked, true, u);
        RowFrame(t, t', u);
      }
    }
  }

  lemma RowFrame(t: Tables, t': Tables, u: string)
    requires SameFor(t'.check, t.check, u)
    ensures HasRow(t', u) ==> HasRow(t, u)
  {
    SelectedIff(t'.check, u);
    ExistsIff(t', u);
    if HasRow(t', u) {
      var k :| Vals(t'.check, u, k) != [];
      assert Vals(t.check, u, k) != [];
      ExistsIff(t, u);
      SelectedIff(t.check, u);
    }
  }

  lemma {:induction false} NoRowUntilGrant(states: seq<Tables>, log: seq<Call>, u: string, j: nat)
    requires |states| == |log| + 1 && j <= |log| && !HasRow(states[0], u)
    requires forall i :: 0 <= i < |log| ==> Outcome(states[i], log[i], states[i + 1])
    requires forall i :: 0 <= i < j ==> !IsGrant(log[i], u)
    ensures !HasRow(states[j], u)
  {
    if j > 0 {
      NoRowUntilGrant(states, log, u, j - 1);
      assert Outcome(states[j - 1], log[j - 1], states[j - 1 + 1]);
      NoRowStays(states[j - 1], log[j - 1], states[j], u);
    }
  }

  /** In every run, the first undisturbed call for a user who had no row is granted. */
  lemma FirstCallIsGranted(states: seq<Tables>, log: seq<Call>, u: string, j: nat)
    requires Run(states, log) && j < |log| && !HasRow(states[0], u)
    requires forall i :: 0 <= i < j ==> !IsGrant(log[i], u)
    requires log[j].req.username == u && !log[j].fault
    ensures log[j].status == OK && HasRow(states[j + 1], u)
  {
    NoRowUntilGrant(states, log, u, j);
    var t, c := states[j], log[j];
    assert Outcome(t, c, states[j + 1]);
    AnswerFromRows(t, c.req, c.asked, c.checked, true);
    SelectedIff(t.check, u);
    SelectedIff(states[j + 1].check, u);
    NewCheckCells(t, c.req, PasswordFor(t, c.req), c.asked, EXPIRATION);
    NamesDiffer();
    ExistsIff(states[j + 1], u);
  }

  // ---- Accounts that only grants have touched ------------------------------

  /** One row per name, and no group without a row in radcheck. */
  ghost predicate Tidy(t: Tables, u: string) {
    PlainAccount(t, u) && (!HasRow(t, u) ==> forall k :: Vals(t.groups, u, k) == [])
  }

  lemma GrantedIsTidy(t: Tables, t': Tables, req: Request, asked: int, p: Option<Value>)
    requires Tidy(t, req.username) && Granted(t, t', req, asked, p)
    ensures Tidy(t', req.username)
  {
    var u := req.username;
    NamesDiffer();
    forall k | k != "Auth-Type" ensures |Vals(t'.check, u, k)| <= 1 {
      if k == "Cleartext-Password" {
        assert |Vals(t.check, u, "Cleartext-Password")| <= 1;
      }
    }
    ShownRow(t', u);
  }

  lemma ShownRow(t: Tables, u: string)
    requires Vals(t.check, u, "Expiration") != []
    ensures HasRow(t, u)
  {
    SelectedIff(t.check, u);
    ExistsIff(t, u);
  }

  lemma TidyFrame(t: Tables, t': Tables, u: string)
    requires Tidy(t, u) && SameFor(t'.check, t.check, u) && SameFor(t'.groups, t.groups, u)
    ensures Tidy(t', u)
  {
    RowFrame(t', t, u);
  }

  lemma StaysTidy(t: Tables, c: Call, t': Tables, u: string)
    requires Tidy(t, u) && Outcome(t, c, t')
    ensures Tidy(t', u)
  {
    if !c.fault {
      if c.req.username != u {
        ManagedFrame(t, c.req, c.asked, c.checked, true, u);
        TidyFrame(t, t', u);
      } else {
        AnswerFromRows(t, c.req, c.asked, c.checked, true);
        if c.status == OK {
          GrantLeavesRequest(t, c.req, c.asked, c.checked, true);
          GrantedIsTidy(t, t', c.req, c.asked, PasswordFor(t, c.req));
        }
      }
    }
  }

  lemma {:induction false} TidyFromStart(states: seq<Tables>, u: string, j: nat)
    requires j < |states| && Tidy(states[0], u)
    requires forall i :: 0 <= i < |states| - 1 && Tidy(states[i], u) ==> Tidy(states[i + 1], u)
    ensures Tidy(states[j], u)
  {
    if j > 0 {
      TidyFromStart(states, u, j - 1);
      assert Tidy(states[j - 1 + 1], u);
    }
  }

  lemma TidyOnRuns(states: seq<Tables>, log: seq<Call>, u: string, j: nat)
    requires |states| == |log| + 1 && j <= |log| && Tidy(states[0], u)
    requires forall i :: 0 <= i < |log| ==> Outcome(states[i], log[i], states[i + 1])
    ensures Tidy(states[j], u)
  {
    forall i | 0 <= i < |states| - 1 && Tidy(states[i], u) ensures Tidy(states[i + 1], u) {
      StaysTidy(states[i], log[i], states[i + 1], u);
    }
    TidyFromStart(states, u, j);
  }
}
