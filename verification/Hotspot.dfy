/**
 Hotspot accounts in the three RADIUS tables: create, update, delete and the
 single-attribute operations, each inside its transaction. A handler works on a
 copy of the tables; COMMIT installs the copy and every failing statement before
 it discards the copy.
 */
module Hotspot {
  import opened Wrappers
  import opened Http
  import opened Table
  import opened Connections
  import opened Reconciliation
  import opened Replacement

  const DEFAULT_OP := ":="
  const CLEARTEXT_PASSWORD := "Cleartext-Password"
  const AUTH_TYPE := "Auth-Type"
  const EXPIRATION := "Expiration"
  const SIMULTANEOUS_USE := "Simultaneous-Use"

  /** An attribute value: a date, which the stored format holds to the second; a number; or any other text. */
  datatype Value = Text(text: string) | Stamp(seconds: int) | Number(n: int)
  datatype Cell = Cell(op: string, value: Value)

  const EMPTY := Text("")
  const ACCEPT := Cell(DEFAULT_OP, Text("Accept"))

  datatype Tables = Tables(check: seq<Row<Cell>>, reply: seq<Row<Cell>>, groups: seq<Row<int>>)

  datatype AttributeInput = AttributeInput(attribute: string, op: string, value: Value)
  datatype GroupInput = GroupInput(group: string, priority: Option<int>)
  /** None stands for a nil pointer or a nil slice. */
  datatype UserInput = UserInput(
    username: string,
    password: Option<Value>,
    check: Option<seq<AttributeInput>>,
    reply: Option<seq<AttributeInput>>,
    groups: Option<seq<GroupInput>>)

  function Attributes(attrs: seq<AttributeInput>): seq<Entry<Cell>> {
    seq(|attrs|, i requires 0 <= i < |attrs| =>
      Entry(attrs[i].attribute, Cell(if attrs[i].op == "" then DEFAULT_OP else attrs[i].op, attrs[i].value)))
  }

  function Groups(groups: seq<GroupInput>): seq<Entry<int>> {
    seq(|groups|, i requires 0 <= i < |groups| =>
      Entry(groups[i].group, if groups[i].priority.Some? then groups[i].priority.value else 1))
  }

  function OrEmpty<T>(o: Option<seq<T>>): seq<T> {
    if o.Some? then o.value else []
  }

  // ---- Specifications ------------------------------------------------------

  predicate Exists(t: Tables, u: string) {
    Select(t.check, u) != []
  }

  /** The password row of a new account, or the Auth-Type row that stands in for it. */
  function FirstRow(u: string, p: Option<Value>): Row<Cell> {
    if p.Some? && p.value != EMPTY then Row(u, CLEARTEXT_PASSWORD, Cell(DEFAULT_OP, p.value))
    else Row(u, AUTH_TYPE, ACCEPT)
  }

  function Created(t: Tables, input: UserInput): (Tables, int) {
    var u := input.username;
    if Exists(t, u) then (t, CONFLICT)
    else
      (Tables(t.check + [FirstRow(u, input.password)] + InputRows(u, Attributes(OrEmpty(input.check))),
              t.reply + InputRows(u, Attributes(OrEmpty(input.reply))),
              t.groups + InputRows(u, Groups(OrEmpty(input.groups)))), CREATED)
  }

  /** No password means one more Auth-Type row, an empty one means no password row. */
  function WithPassword(check: seq<Row<Cell>>, u: string, password: Option<Value>): seq<Row<Cell>> {
    if password.None? then Insert(check, u, AUTH_TYPE, ACCEPT)
    else
      var cleared := Without(check, u, {CLEARTEXT_PASSWORD});
      if password.value == EMPTY then cleared
      else Insert(cleared, u, CLEARTEXT_PASSWORD, Cell(DEFAULT_OP, password.value))
  }

  function Kept(password: Option<Value>): set<string> {
    if password.None? then {AUTH_TYPE} else {}
  }

  function Updated(t: Tables, input: UserInput): (Tables, int) {
    var u := input.username;
    if !Exists(t, u) then (t, NOT_FOUND)
    else
      var check := WithPassword(t.check, u, input.password);
      (Tables(
         if input.check.None? then check
         else Diff(check, u, Attributes(input.check.value), {CLEARTEXT_PASSWORD}, Kept(input.password)),
         if input.reply.None? then t.reply else Diff(t.reply, u, Attributes(input.reply.value), {}, {}),
         if input.groups.None? then t.groups else Diff(t.groups, u, Groups(input.groups.value), {}, {})), OK)
  }

  /** The simple form: every supplied section is deleted and inserted afresh. */
  function Replaced(t: Tables, input: UserInput): Tables {
    var u := input.username;
    var check := WithPassword(t.check, u, input.password);
    Tables(
      if input.check.None? then check
      else Replace(check, u, Attributes(input.check.value), {CLEARTEXT_PASSWORD}, Kept(input.password)),
      if input.reply.None? then t.reply else Replace(t.reply, u, Attributes(input.reply.value), {}, {}),
      if input.groups.None? then t.groups else Replace(t.groups, u, Groups(input.groups.value), {}, {}))
  }

  function Deleted(t: Tables, u: string): (Tables, int) {
    if !Exists(t, u) then (t, NOT_FOUND)
    else (Tables(WithoutUser(t.check, u), WithoutUser(t.reply, u), WithoutUser(t.groups, u)), OK)
  }

  function CheckPut(t: Tables, u: string, a: AttributeInput): (Tables, int) {
    var cell := Cell(if a.op == "" then DEFAULT_OP else a.op, a.value);
    if !Exists(t, u) then (t, NOT_FOUND)
    else if Vals(t.check, u, a.attribute) != [] then (t.(check := Update(t.check, u, a.attribute, cell)), OK)
    else (t.(check := Insert(t.check, u, a.attribute, cell)), OK)
  }

  function CheckRemoved(t: Tables, u: string, attribute: string): (Tables, int) {
    if !Exists(t, u) || Vals(t.check, u, attribute) == [] then (t, NOT_FOUND)
    else (t.(check := Without(t.check, u, {attribute})), OK)
  }

  // ---- Handlers ------------------------------------------------------------

  method InsertAll<V>(conn: Connection, rows: seq<Row<V>>, u: string, input: seq<Entry<V>>)
    returns (ok: bool, result: seq<Row<V>>)
    modifies conn
    ensures conn.failures >= old(conn.failures) && conn.unanswered == old(conn.unanswered)
    ensures ok <==> conn.failures == old(conn.failures)
    ensures ok ==> result == rows + InputRows(u, input)
  {
    result := rows;
    for i := 0 to |input|
      invariant conn.failures == old(conn.failures) && conn.unanswered == old(conn.unanswered)
      invariant result == rows + InputRows(u, input[..i])
    {
      ok := conn.Send();
      if !ok { return; }
      assert input[..i + 1][..i] == input[..i];
      result := Insert(result, u, input[i].name, input[i].val);
    }
    assert input[..|input|] == input;
    ok := true;
  }

  class RadiusDb {
    var tables: Tables
    const conn: Connection

    constructor ()
      ensures tables == Tables([], [], []) && fresh(conn)
    {
      tables := Tables([], [], []);
      conn := new Connection();
    }

    /** A fault anywhere leaves the tables as they were; without one the full effect is committed. */
    method CreateHotspotUser(input: UserInput) returns (status: int)
      modifies this, conn
      ensures conn.failures >= old(conn.failures) && conn.unanswered == old(conn.unanswered)
      ensures conn.failures == old(conn.failures) ==> (tables, status) == Created(old(tables), input)
      ensures conn.failures > old(conn.failures) ==> tables == old(tables) && status == INTERNAL_ERROR
    {
      var begun := conn.Send();
      if !begun { return INTERNAL_ERROR; }
      var work := tables;
      var u := input.username;
      var ok := conn.Send();
      if !ok { return INTERNAL_ERROR; }
      if Select(work.check, u) != [] { return CONFLICT; }

      ok := conn.Send();
      if !ok { return INTERNAL_ERROR; }
      if input.password.Some? && input.password.value != EMPTY {
        work := work.(check := Insert(work.check, u, CLEARTEXT_PASSWORD, Cell(DEFAULT_OP, input.password.value)));
      } else {
        work := work.(check := Insert(work.check, u, AUTH_TYPE, ACCEPT));
      }
      var check, reply, groups;
      ok, check := InsertAll(conn, work.check, u, Attributes(OrEmpty(input.check)));
      if !ok { return INTERNAL_ERROR; }
      ok, reply := InsertAll(conn, work.reply, u, Attributes(OrEmpty(input.reply)));
      if !ok { return INTERNAL_ERROR; }
      ok, groups := InsertAll(conn, work.groups, u, Groups(OrEmpty(input.groups)));
      if !ok { return INTERNAL_ERROR; }

      ok := conn.Send();
      if !ok { return INTERNAL_ERROR; }
      tables := Tables(check, reply, groups);
      status := CREATED;
    }

    /** The failure of BEGIN is not looked at here: it surfaces at the first statement. */
    method UpdateHotspotUser(input: UserInput) returns (status: int)
      modifies this, conn
      ensures conn.failures >= old(conn.failures) && conn.unanswered == old(conn.unanswered)
      ensures conn.failures == old(conn.failures) ==> (tables, status) == Updated(old(tables), input)
      ensures conn.failures > old(conn.failures) ==> tables == old(tables) && status == INTERNAL_ERROR
    {
      var u := input.username;
      var ok := conn.Send();
      if !ok { return INTERNAL_ERROR; }
      if Select(tables.check, u) == [] { return NOT_FOUND; }

      var begun := conn.Send();
      var work := tables;
      var authTypeAdded := false;
      ok := conn.Send();
      if !begun || !ok { return INTERNAL_ERROR; }
      if input.password.Some? {
        work := work.(check := Without(work.check, u, {CLEARTEXT_PASSWORD}));
        if input.password.value != EMPTY {
          ok := conn.Send();
          if !ok { return INTERNAL_ERROR; }
          work := work.(check := Insert(work.check, u, CLEARTEXT_PASSWORD, Cell(DEFAULT_OP, input.password.value)));
        }
      } else {
        work := work.(check := Insert(work.check, u, AUTH_TYPE, ACCEPT));
        authTypeAdded := true;
      }

      if input.check.Some? {
        var check;
        ok, check := Reconcile(conn, work.check, u, Attributes(input.check.value), {CLEARTEXT_PASSWORD},
                               if authTypeAdded then {AUTH_TYPE} else {});
        if !ok { return INTERNAL_ERROR; }
        work := work.(check := check);
      }
      if input.reply.Some? {
        var reply;
        ok, reply := Reconcile(conn, work.reply, u, Attributes(input.reply.value), {}, {});
        if !ok { return INTERNAL_ERROR; }
        work := work.(reply := reply);
      }
      if input.groups.Some? {
        var groups;
        ok, groups := Reconcile(conn, work.groups, u, Groups(input.groups.value), {}, {});
        if !ok { return INTERNAL_ERROR; }
        work := work.(groups := groups);
      }

      ok := conn.Send();
      if !ok { return INTERNAL_ERROR; }
      tables := work;
      status := OK;
    }

    method DeleteHotspotUser(u: string) returns (status: int)
      modifies this, conn
      ensures conn.failures >= old(conn.failures) && conn.unanswered == old(conn.unanswered)
      ensures conn.failures == old(conn.failures) ==> (tables, status) == Deleted(old(tables), u)
      ensures conn.failures > old(conn.failures) ==> tables == old(tables) && status == INTERNAL_ERROR
    {
      var ok := conn.Send();
      if !ok { return INTERNAL_ERROR; }
      if Select(tables.check, u) == [] { return NOT_FOUND; }
      var begun := conn.Send();
      if !begun { return INTERNAL_ERROR; }
      var work := tables;
      ok := conn.Send();
      if !ok { return INTERNAL_ERROR; }
      work := work.(check := WithoutUser(work.check, u));
      ok := conn.Send();
      if !ok { return INTERNAL_ERROR; }
      work := work.(reply := WithoutUser(work.reply, u));
      ok := conn.Send();
      if !ok { return INTERNAL_ERROR; }
      work := work.(groups := WithoutUser(work.groups, u));
      ok := conn.Send();
      if !ok { return INTERNAL_ERROR; }
      tables := work;
      status := OK;
    }

    method AddOrUpdateRadCheckAttribute(u: string, a: AttributeInput) returns (status: int)
      modifies this, conn
      ensures conn.failures >= old(conn.failures) && conn.unanswered == old(conn.unanswered)
      ensures conn.failures == old(conn.failures) ==> (tables, status) == CheckPut(old(tables), u, a)
      ensures conn.failures > old(conn.failures) ==> tables == old(tables) && status == INTERNAL_ERROR
    {
      var ok := conn.Send();
      if !ok { return INTERNAL_ERROR; }
      if Select(tables.check, u) == [] { return NOT_FOUND; }
      var cell := Cell(if a.op == "" then DEFAULT_OP else a.op, a.value);
      ok := conn.Send();
      if !ok { return INTERNAL_ERROR; }
      var exists_ := Vals(tables.check, u, a.attribute) != [];
      ok := conn.Send();
      if !ok { return INTERNAL_ERROR; }
      if exists_ {
        tables := tables.(check := Update(tables.check, u, a.attribute, cell));
      } else {
        tables := tables.(check := Insert(tables.check, u, a.attribute, cell));
      }
      status := OK;
    }

    method DeleteRadCheckAttribute(u: string, attribute: string) returns (status: int)
      modifies this, conn
      ensures conn.failures >= old(conn.failures) && conn.unanswered == old(conn.unanswered)
      ensures conn.failures == old(conn.failures) ==> (tables, status) == CheckRemoved(old(tables), u, attribute)
      ensures conn.failures > old(conn.failures) ==> tables == old(tables) && status == INTERNAL_ERROR
    {
      var ok := conn.Send();
      if !ok { return INTERNAL_ERROR; }
      if Select(tables.check, u) == [] { return NOT_FOUND; }
      ok := conn.Send();
      if !ok { return INTERNAL_ERROR; }
      if Vals(tables.check, u, attribute) == [] { return NOT_FOUND; }
      ok := conn.Send();
      if !ok { return INTERNAL_ERROR; }
      tables := tables.(check := Without(tables.check, u, {attribute}));
      status := OK;
    }
  }

  // ---- The update is the replacement ---------------------------------------

  ghost predicate SameRows(a: Tables, b: Tables) {
    multiset(a.check) == multiset(b.check) && multiset(a.reply) == multiset(b.reply) && multiset(a.groups) == multiset(b.groups)
  }

  ghost predicate SectionsMergeable(t: Tables, input: UserInput) {
    var u := input.username;
    && (input.check.Some? ==>
          InputMergeable(WithPassword(t.check, u, input.password), u, Attributes(input.check.value),
                         {CLEARTEXT_PASSWORD}, Kept(input.password)))
    && (input.reply.Some? ==> InputMergeable(t.reply, u, Attributes(input.reply.value), {}, {}))
    && (input.groups.Some? ==> InputMergeable(t.groups, u, Groups(input.groups.value), {}, {}))
  }

  /** The diff is the replacement exactly when every supplied section is mergeable. */
  lemma UpdateIsReplacement(t: Tables, input: UserInput)
    requires Exists(t, input.username)
    ensures SameRows(Updated(t, input).0, Replaced(t, input)) <==> SectionsMergeable(t, input)
  {
    var u := input.username;
    if input.check.Some? {
      DiffIsReplacement(WithPassword(t.check, u, input.password), u, Attributes(input.check.value),
                        {CLEARTEXT_PASSWORD}, Kept(input.password));
    }
    if input.reply.Some? {
      DiffIsReplacement(t.reply, u, Attributes(input.reply.value), {}, {});
    }
    if input.groups.Some? {
      DiffIsReplacement(t.groups, u, Groups(input.groups.value), {}, {});
    }
  }

  /** Distinct names in every section, the check section naming neither password nor Auth-Type. */
  ghost predicate PlainInput(input: UserInput) {
    && OneOfEach(OrEmpty(input.check)) && OneOfEach(OrEmpty(input.reply)) && OneOfEachGroup(OrEmpty(input.groups))
    && !Gives(OrEmpty(input.check), CLEARTEXT_PASSWORD) && !Gives(OrEmpty(input.check), AUTH_TYPE)
  }

  ghost predicate OneOfEach(attrs: seq<AttributeInput>) {
    forall i, j :: 0 <= i < j < |attrs| ==> attrs[i].attribute != attrs[j].attribute
  }

  ghost predicate OneOfEachGroup(groups: seq<GroupInput>) {
    forall i, j :: 0 <= i < j < |groups| ==> groups[i].group != groups[j].group
  }

  ghost predicate Gives(attrs: seq<AttributeInput>, k: string) {
    exists i :: 0 <= i < |attrs| && attrs[i].attribute == k
  }

  ghost predicate GivesGroup(groups: seq<GroupInput>, k: string) {
    exists i :: 0 <= i < |groups| && groups[i].group == k
  }

  lemma AttributeNames(attrs: seq<AttributeInput>, k: string)
    ensures k in Names(Attributes(attrs)) <==> Gives(attrs, k)
    ensures OneOfEach(attrs) ==> Distinct(Attributes(attrs))
  {
    if i :| 0 <= i < |attrs| && attrs[i].attribute == k {
      assert Attributes(attrs)[i].name == k;
    }
  }

  lemma GroupNames(groups: seq<GroupInput>, k: string)
    ensures k in Names(Groups(groups)) <==> GivesGroup(groups, k)
    ensures OneOfEachGroup(groups) ==> Distinct(Groups(groups))
  {
    if i :| 0 <= i < |groups| && groups[i].group == k {
      assert Groups(groups)[i].name == k;
    }
  }

  lemma PlainNames(input: UserInput)
    requires PlainInput(input)
    ensures Distinct(Attributes(OrEmpty(input.check))) && Distinct(Attributes(OrEmpty(input.reply)))
    ensures Distinct(Groups(OrEmpty(input.groups)))
    ensures CLEARTEXT_PASSWORD !in Names(Attributes(OrEmpty(input.check))) && AUTH_TYPE !in Names(Attributes(OrEmpty(input.check)))
  {
    AttributeNames(OrEmpty(input.check), CLEARTEXT_PASSWORD);
    AttributeNames(OrEmpty(input.check), AUTH_TYPE);
    AttributeNames(OrEmpty(input.reply), "");
    GroupNames(OrEmpty(input.groups), "");
  }

  ghost predicate PlainTables(t: Tables) {
    Unique(t.check, {AUTH_TYPE}) && Unique(t.reply, {}) && Unique(t.groups, {})
  }

  lemma PasswordCells(check: seq<Row<Cell>>, u: string, password: Option<Value>, u': string, k: string)
    ensures Vals(WithPassword(check, u, password), u', k) ==
            if u' == u && k == AUTH_TYPE && password.None? then Vals(check, u, AUTH_TYPE) + [ACCEPT]
            else if u' == u && k == CLEARTEXT_PASSWORD && password.Some? then
              (if password.value == EMPTY then [] else [Cell(DEFAULT_OP, password.value)])
            else Vals(check, u', k)
  {
    if password.None? {
      ValsInsert(check, Row(u, AUTH_TYPE, ACCEPT), u', k);
    } else {
      var cleared := Without(check, u, {CLEARTEXT_PASSWORD});
      ValsWithout(check, u, {CLEARTEXT_PASSWORD}, u', k);
      ValsInsert(cleared, Row(u, CLEARTEXT_PASSWORD, Cell(DEFAULT_OP, password.value)), u', k);
    }
  }

  lemma PlainUpdateIsReplacement(t: Tables, input: UserInput)
    requires Exists(t, input.username) && PlainTables(t) && PlainInput(input)
    ensures SameRows(Updated(t, input).0, Replaced(t, input))
  {
    var u := input.username;
    PlainNames(input);
    if input.check.Some? {
      var check := WithPassword(t.check, u, input.password);
      forall k | k in Names(Attributes(input.check.value)) ensures |Vals(check, u, k)| <= 1 {
        PasswordCells(t.check, u, input.password, u, k);
      }
      DistinctInputsMerge(check, u, Attributes(input.check.value), {CLEARTEXT_PASSWORD}, Kept(input.password));
    }
    if input.reply.Some? {
      DistinctInputsMerge(t.reply, u, Attributes(input.reply.value), {}, {});
    }
    if input.groups.Some? {
      DistinctInputsMerge(t.groups, u, Groups(input.groups.value), {}, {});
    }
  }

  /** A name that the check section does not give keeps its cells, unless it is deleted as stale. */
  lemma UngivenCells(t: Tables, input: UserInput, k: string)
    requires Exists(t, input.username) && k !in Names(Attributes(OrEmpty(input.check)))
    ensures var u := input.username;
            var before := Vals(WithPassword(t.check, u, input.password), u, k);
            Vals(Updated(t, input).0.check, u, k) ==
            if input.check.None? || k == CLEARTEXT_PASSWORD || k in Kept(input.password) then before else []
  {
    InputValsNames(Attributes(OrEmpty(input.check)), k);
    if input.check.Some? {
      var check := WithPassword(t.check, input.username, input.password);
      DiffCells(check, input.username, Attributes(input.check.value), {CLEARTEXT_PASSWORD}, Kept(input.password), input.username, k);
    }
  }

  /** The password and Auth-Type rows in the three password cases. */
  lemma PasswordCases(t: Tables, input: UserInput)
    requires Exists(t, input.username) && PlainInput(input)
    ensures var u := input.username;
            var password := Vals(Updated(t, input).0.check, u, CLEARTEXT_PASSWORD);
            var authType := Vals(Updated(t, input).0.check, u, AUTH_TYPE);
            match input.password
            case None =>
              password == Vals(t.check, u, CLEARTEXT_PASSWORD) && authType == Vals(t.check, u, AUTH_TYPE) + [ACCEPT]
            case Some(p) =>
              && password == (if p == EMPTY then [] else [Cell(DEFAULT_OP, p)])
              && authType == if input.check.Some? then [] else Vals(t.check, u, AUTH_TYPE)
  {
    PlainNames(input);
    UngivenCells(t, input, CLEARTEXT_PASSWORD);
    UngivenCells(t, input, AUTH_TYPE);
    PasswordCells(t.check, input.username, input.password, input.username, CLEARTEXT_PASSWORD);
    PasswordCells(t.check, input.username, input.password, input.username, AUTH_TYPE);
  }

  // ---- The cells of a new account ------------------------------------------

  function FirstCheck(p: Option<Value>, k: string): seq<Cell> {
    if p.Some? && p.value != EMPTY
    then if k == CLEARTEXT_PASSWORD then [Cell(DEFAULT_OP, p.value)] else []
    else if k == AUTH_TYPE then [ACCEPT] else []
  }

  lemma CreateCells(t: Tables, input: UserInput, k: string)
    requires !Exists(t, input.username)
    ensures var u := input.username;
            var t' := Created(t, input).0;
            && Vals(t'.check, u, k) ==
                 Vals(t.check, u, k) + FirstCheck(input.password, k) + InputVals(Attributes(OrEmpty(input.check)), k)
            && Vals(t'.reply, u, k) == Vals(t.reply, u, k) + InputVals(Attributes(OrEmpty(input.reply)), k)
            && Vals(t'.groups, u, k) == Vals(t.groups, u, k) + InputVals(Groups(OrEmpty(input.groups)), k)
  {
    var u := input.username;
    var row := FirstRow(u, input.password);
    assert Created(t, input).0.check == (t.check + [row]) + InputRows(u, Attributes(OrEmpty(input.check)));
    FirstRowCells(t.check, u, input.password, k);
    AppendCells(t.check + [row], u, Attributes(OrEmpty(input.check)), k);
    AppendCells(t.reply, u, Attributes(OrEmpty(input.reply)), k);
    AppendCells(t.groups, u, Groups(OrEmpty(input.groups)), k);
  }

  lemma FirstRowCells(check: seq<Row<Cell>>, u: string, p: Option<Value>, k: string)
    ensures Vals(check + [FirstRow(u, p)], u, k) == Vals(check, u, k) + FirstCheck(p, k)
  {
    ValsInsert(check, FirstRow(u, p), u, k);
  }

  lemma AppendCells<V>(rows: seq<Row<V>>, u: string, input: seq<Entry<V>>, k: string)
    ensures Vals(rows + InputRows(u, input), u, k) == Vals(rows, u, k) + InputVals(input, k)
  {
    ValsConcat(rows, InputRows(u, input), u, k);
    ValsInputRows(u, input, u, k);
  }

  // ---- Frame ---------------------------------------------------------------

  ghost predicate Untouched(a: Tables, b: Tables, other: string) {
    SameFor(a.check, b.check, other) && SameFor(a.reply, b.reply, other) && SameFor(a.groups, b.groups, other)
  }

  lemma AppendFrame<V>(rows: seq<Row<V>>, u: string, input: seq<Entry<V>>, other: string)
    requires other != u
    ensures SameFor(rows + InputRows(u, input), rows, other)
  {
    forall k ensures Vals(rows + InputRows(u, input), other, k) == Vals(rows, other, k) {
      ValsConcat(rows, InputRows(u, input), other, k);
      ValsInputRows(u, input, other, k);
    }
  }

  lemma CreateFrame(t: Tables, input: UserInput, other: string)
    requires other != input.username
    ensures Untouched(Created(t, input).0, t, other)
  {
    var u := input.username;
    if !Exists(t, u) {
      var row := FirstRow(u, input.password);
      AppendFrame(t.check + [row], u, Attributes(OrEmpty(input.check)), other);
      AppendFrame(t.reply, u, Attributes(OrEmpty(input.reply)), other);
      AppendFrame(t.groups, u, Groups(OrEmpty(input.groups)), other);
      forall k ensures Vals(t.check + [row], other, k) == Vals(t.check, other, k) {
        ValsInsert(t.check, row, other, k);
      }
    }
  }

  lemma UpdateFrame(t: Tables, input: UserInput, other: string)
    requires other != input.username
    ensures Untouched(Updated(t, input).0, t, other)
  {
    var u := input.username;
    if Exists(t, u) {
      var check := WithPassword(t.check, u, input.password);
      forall k ensures Vals(check, other, k) == Vals(t.check, other, k) {
        PasswordCells(t.check, u, input.password, other, k);
      }
      if input.check.Some? {
        DiffFrame(check, u, Attributes(input.check.value), {CLEARTEXT_PASSWORD}, Kept(input.password), other);
      }
      if input.reply.Some? {
        DiffFrame(t.reply, u, Attributes(input.reply.value), {}, {}, other);
      }
      if input.groups.Some? {
        DiffFrame(t.groups, u, Groups(input.groups.value), {}, {}, other);
      }
    }
  }

  lemma DeleteFrame(t: Tables, u: string, other: string)
    ensures other != u ==> Untouched(Deleted(t, u).0, t, other)
    ensures other == u && Exists(t, u) ==>
              Untouched(Deleted(t, u).0, Tables([], [], []), u) && Deleted(t, u).1 == OK
    ensures !Exists(t, u) ==> Deleted(t, u) == (t, NOT_FOUND)
  {
    forall k
      ensures Vals(WithoutUser(t.check, u), other, k) == if other == u then [] else Vals(t.check, other, k)
      ensures Vals(WithoutUser(t.reply, u), other, k) == if other == u then [] else Vals(t.reply, other, k)
      ensures Vals(WithoutUser(t.groups, u), other, k) == if other == u then [] else Vals(t.groups, other, k)
    {
      ValsWithoutUser(t.check, u, other, k);
      ValsWithoutUser(t.reply, u, other, k);
      ValsWithoutUser(t.groups, u, other, k);
    }
  }

  lemma PutCells(t: Tables, u: string, a: AttributeInput, u': string, k: string)
    ensures var cell := Cell(if a.op == "" then DEFAULT_OP else a.op, a.value);
            Vals(CheckPut(t, u, a).0.check, u', k) ==
            if u' == u && k == a.attribute && Exists(t, u)
            then (if Vals(t.check, u, k) == [] then [cell] else Fill(|Vals(t.check, u, k)|, cell))
            else Vals(t.check, u', k)
    ensures var (t', status) := CheckPut(t, u, a);
            t'.reply == t.reply && t'.groups == t.groups && (status == if Exists(t, u) then OK else NOT_FOUND)
  {
    var cell := Cell(if a.op == "" then DEFAULT_OP else a.op, a.value);
    ValsUpdate(t.check, u, a.attribute, cell, u', k);
    ValsInsert(t.check, Row(u, a.attribute, cell), u', k);
  }

  lemma RemoveCells(t: Tables, u: string, attribute: string, u': string, k: string)
    ensures Vals(CheckRemoved(t, u, attribute).0.check, u', k) ==
            if u' == u && k == attribute && Exists(t, u) then [] else Vals(t.check, u', k)
    ensures var (t', status) := CheckRemoved(t, u, attribute);
            && t'.reply == t.reply && t'.groups == t.groups
            && (status == if Exists(t, u) && Vals(t.check, u, attribute) != [] then OK else NOT_FOUND)
  {
    ValsWithout(t.check, u, {attribute}, u', k);
  }
}
