/** The rows that creating and updating an account leave, read off the fields of the request. */
module AccountRows {
  import opened Wrappers
  import opened Http
  import opened Table
  import opened Reconciliation
  import opened Replacement
  import opened Hotspot

  function Stored(a: AttributeInput): Cell {
    Cell(if a.op == "" then ":=" else a.op, a.value)
  }

  function Priority(g: GroupInput): int {
    match g.priority
    case None => 1
    case Some(n) => n
  }

  // ---- What the sections of a request give ---------------------------------

  lemma GivenCell(attrs: seq<AttributeInput>, i: nat)
    requires OneOfEach(attrs) && i < |attrs|
    ensures InputVals(Attributes(attrs), attrs[i].attribute) == [Stored(attrs[i])]
  {
    AttributeNames(attrs, "");
    DistinctGiven(Attributes(attrs), i);
  }

  lemma GivenPriority(groups: seq<GroupInput>, i: nat)
    requires OneOfEachGroup(groups) && i < |groups|
    ensures InputVals(Groups(groups), groups[i].group) == [Priority(groups[i])]
  {
    GroupNames(groups, "");
    DistinctGiven(Groups(groups), i);
  }

  lemma UngivenCell(attrs: seq<AttributeInput>, k: string)
    requires !Gives(attrs, k)
    ensures InputVals(Attributes(attrs), k) == []
  {
    AttributeNames(attrs, k);
    InputValsNames(Attributes(attrs), k);
  }

  lemma UngivenPriority(groups: seq<GroupInput>, k: string)
    requires !GivesGroup(groups, k)
    ensures InputVals(Groups(groups), k) == []
  {
    GroupNames(groups, k);
    InputValsNames(Groups(groups), k);
  }

  // ---- Update --------------------------------------------------------------

  /** After an update, exactly the given attributes are left of a section that is supplied, and a missing one is as before. */
  ghost predicate Holds(after: seq<Row<Cell>>, before: seq<Row<Cell>>, u: string, section: Option<seq<AttributeInput>>, aside: set<string>) {
    match section
    case None => forall k :: k !in aside ==> Vals(after, u, k) == Vals(before, u, k)
    case Some(attrs) =>
      && (forall i :: 0 <= i < |attrs| ==> Vals(after, u, attrs[i].attribute) == [Stored(attrs[i])])
      && (forall k :: k !in aside && !Gives(attrs, k) ==> Vals(after, u, k) == [])
  }

  ghost predicate HoldsGroups(after: seq<Row<int>>, before: seq<Row<int>>, u: string, section: Option<seq<GroupInput>>) {
    match section
    case None => forall k :: Vals(after, u, k) == Vals(before, u, k)
    case Some(groups) =>
      && (forall i :: 0 <= i < |groups| ==> Vals(after, u, groups[i].group) == [Priority(groups[i])])
      && (forall k :: !GivesGroup(groups, k) ==> Vals(after, u, k) == [])
  }

  lemma UpdatedCheck(t: Tables, input: UserInput)
    requires Exists(t, input.username) && PlainTables(t) && PlainInput(input)
    ensures Holds(Updated(t, input).0.check, t.check, input.username, input.check, {CLEARTEXT_PASSWORD, AUTH_TYPE})
  {
    var u, after := input.username, Updated(t, input).0.check;
    var check := WithPassword(t.check, u, input.password);
    if input.check.Some? {
      var attrs := input.check.value;
      forall i | 0 <= i < |attrs| ensures Vals(after, u, attrs[i].attribute) == [Stored(attrs[i])] {
        var k := attrs[i].attribute;
        assert Gives(attrs, k);
        GivenCell(attrs, i);
        PasswordCells(t.check, u, input.password, u, k);
        DiffCells(check, u, Attributes(attrs), {CLEARTEXT_PASSWORD}, Kept(input.password), u, k);
        ReplacesOne(Vals(t.check, u, k), Stored(attrs[i]));
      }
      forall k | k !in {CLEARTEXT_PASSWORD, AUTH_TYPE} && !Gives(attrs, k) ensures Vals(after, u, k) == [] {
        UngivenCell(attrs, k);
        DiffCells(check, u, Attributes(attrs), {CLEARTEXT_PASSWORD}, Kept(input.password), u, k);
      }
    } else {
      forall k | k !in {CLEARTEXT_PASSWORD, AUTH_TYPE} ensures Vals(after, u, k) == Vals(t.check, u, k) {
        PasswordCells(t.check, u, input.password, u, k);
      }
    }
  }

  lemma UpdatedReply(t: Tables, input: UserInput)
    requires Exists(t, input.username) && PlainTables(t) && PlainInput(input)
    ensures Holds(Updated(t, input).0.reply, t.reply, input.username, input.reply, {})
  {
    var u, after := input.username, Updated(t, input).0.reply;
    if input.reply.Some? {
      var attrs := input.reply.value;
      forall i | 0 <= i < |attrs| ensures Vals(after, u, attrs[i].attribute) == [Stored(attrs[i])] {
        GivenCell(attrs, i);
        DiffCells(t.reply, u, Attributes(attrs), {}, {}, u, attrs[i].attribute);
        ReplacesOne(Vals(t.reply, u, attrs[i].attribute), Stored(attrs[i]));
      }
      forall k | !Gives(attrs, k) ensures Vals(after, u, k) == [] {
        UngivenCell(attrs, k);
        DiffCells(t.reply, u, Attributes(attrs), {}, {}, u, k);
      }
    }
  }

  lemma UpdatedGroups(t: Tables, input: UserInput)
    requires Exists(t, input.username) && PlainTables(t) && PlainInput(input)
    ensures HoldsGroups(Updated(t, input).0.groups, t.groups, input.username, input.groups)
  {
    var u, after := input.username, Updated(t, input).0.groups;
    if input.groups.Some? {
      var groups := input.groups.value;
      forall i | 0 <= i < |groups| ensures Vals(after, u, groups[i].group) == [Priority(groups[i])] {
        GivenPriority(groups, i);
        DiffCells(t.groups, u, Groups(groups), {}, {}, u, groups[i].group);
        ReplacesOne(Vals(t.groups, u, groups[i].group), Priority(groups[i]));
      }
      forall k | !GivesGroup(groups, k) ensures Vals(after, u, k) == [] {
        UngivenPriority(groups, k);
        DiffCells(t.groups, u, Groups(groups), {}, {}, u, k);
      }
    }
  }

  /**
   A plain update of a plain account: each attribute that is given has its own operator,
   or := if none is given, and its own value, each group its own priority, or 1; every other
   name of a section that is supplied is gone. Password and Auth-Type are PasswordCases.
   */
  lemma UpdateStoresInput(t: Tables, input: UserInput)
    requires PlainTables(t) && PlainInput(input)
    ensures var (t', status) := Updated(t, input);
            && (!Exists(t, input.username) ==> t' == t && status == NOT_FOUND)
            && (Exists(t, input.username) ==>
                  && status == OK
                  && Holds(t'.check, t.check, input.username, input.check, {CLEARTEXT_PASSWORD, AUTH_TYPE})
                  && Holds(t'.reply, t.reply, input.username, input.reply, {})
                  && HoldsGroups(t'.groups, t.groups, input.username, input.groups))
  {
    if Exists(t, input.username) {
      UpdatedCheck(t, input);
      UpdatedReply(t, input);
      UpdatedGroups(t, input);
    }
  }

  // ---- Create --------------------------------------------------------------

  /** The given attributes follow what was there, and no other name changes. */
  ghost predicate Adds(after: seq<Row<Cell>>, before: seq<Row<Cell>>, u: string, attrs: seq<AttributeInput>, aside: set<string>) {
    && (forall i :: 0 <= i < |attrs| && attrs[i].attribute !in aside ==>
          Vals(after, u, attrs[i].attribute) == Vals(before, u, attrs[i].attribute) + [Stored(attrs[i])])
    && (forall k :: k !in aside && !Gives(attrs, k) ==> Vals(after, u, k) == Vals(before, u, k))
  }

  ghost predicate AddsGroups(after: seq<Row<int>>, before: seq<Row<int>>, u: string, groups: seq<GroupInput>) {
    && (forall i :: 0 <= i < |groups| ==> Vals(after, u, groups[i].group) == Vals(before, u, groups[i].group) + [Priority(groups[i])])
    && (forall k :: !GivesGroup(groups, k) ==> Vals(after, u, k) == Vals(before, u, k))
  }

  lemma CreatedCheck(t: Tables, input: UserInput)
    requires !Exists(t, input.username) && OneOfEach(OrEmpty(input.check))
    ensures Adds(Created(t, input).0.check, t.check, input.username, OrEmpty(input.check), {CLEARTEXT_PASSWORD, AUTH_TYPE})
  {
    var u, attrs, after := input.username, OrEmpty(input.check), Created(t, input).0.check;
    forall i | 0 <= i < |attrs| && attrs[i].attribute !in {CLEARTEXT_PASSWORD, AUTH_TYPE}
      ensures Vals(after, u, attrs[i].attribute) == Vals(t.check, u, attrs[i].attribute) + [Stored(attrs[i])]
    {
      GivenCell(attrs, i);
      CreateCells(t, input, attrs[i].attribute);
    }
    forall k | k !in {CLEARTEXT_PASSWORD, AUTH_TYPE} && !Gives(attrs, k) ensures Vals(after, u, k) == Vals(t.check, u, k) {
      UngivenCell(attrs, k);
      CreateCells(t, input, k);
    }
  }

  lemma CreatedReply(t: Tables, input: UserInput)
    requires !Exists(t, input.username) && OneOfEach(OrEmpty(input.reply))
    ensures Adds(Created(t, input).0.reply, t.reply, input.username, OrEmpty(input.reply), {})
  {
    var u, attrs, after := input.username, OrEmpty(input.reply), Created(t, input).0.reply;
    forall i | 0 <= i < |attrs|
      ensures Vals(after, u, attrs[i].attribute) == Vals(t.reply, u, attrs[i].attribute) + [Stored(attrs[i])]
    {
      GivenCell(attrs, i);
      CreateCells(t, input, attrs[i].attribute);
    }
    forall k | !Gives(attrs, k) ensures Vals(after, u, k) == Vals(t.reply, u, k) {
      UngivenCell(attrs, k);
      CreateCells(t, input, k);
    }
  }

  lemma CreatedGroups(t: Tables, input: UserInput)
    requires !Exists(t, input.username) && OneOfEachGroup(OrEmpty(input.groups))
    ensures AddsGroups(Created(t, input).0.groups, t.groups, input.username, OrEmpty(input.groups))
  {
    var u, groups, after := input.username, OrEmpty(input.groups), Created(t, input).0.groups;
    forall i | 0 <= i < |groups|
      ensures Vals(after, u, groups[i].group) == Vals(t.groups, u, groups[i].group) + [Priority(groups[i])]
    {
      GivenPriority(groups, i);
      CreateCells(t, input, groups[i].group);
    }
    forall k | !GivesGroup(groups, k) ensures Vals(after, u, k) == Vals(t.groups, u, k) {
      UngivenPriority(groups, k);
      CreateCells(t, input, k);
    }
  }

  /** The password of a new account is stored if there is one; otherwise Auth-Type Accept stands in for it. */
  lemma CreatedPassword(t: Tables, input: UserInput)
    requires !Exists(t, input.username) && PlainInput(input)
    ensures var check, u, p := Created(t, input).0.check, input.username, input.password;
            if p.Some? && p.value != Text("")
            then Vals(check, u, "Cleartext-Password") == Vals(t.check, u, "Cleartext-Password") + [Cell(":=", p.value)]
                 && Vals(check, u, "Auth-Type") == Vals(t.check, u, "Auth-Type")
            else Vals(check, u, "Cleartext-Password") == Vals(t.check, u, "Cleartext-Password")
                 && Vals(check, u, "Auth-Type") == Vals(t.check, u, "Auth-Type") + [Cell(":=", Text("Accept"))]
  {
    UngivenCell(OrEmpty(input.check), CLEARTEXT_PASSWORD);
    UngivenCell(OrEmpty(input.check), AUTH_TYPE);
    CreateCells(t, input, CLEARTEXT_PASSWORD);
    CreateCells(t, input, AUTH_TYPE);
  }

  /** Creating an account: each attribute and group is stored with its own operator, value and priority, beside what the user had. */
  lemma CreateStoresInput(t: Tables, input: UserInput)
    requires PlainInput(input)
    ensures var (t', status) := Created(t, input);
            && (Exists(t, input.username) ==> t' == t && status == CONFLICT)
            && (!Exists(t, input.username) ==>
                  && status == CREATED
                  && Adds(t'.check, t.check, input.username, OrEmpty(input.check), {CLEARTEXT_PASSWORD, AUTH_TYPE})
                  && Adds(t'.reply, t.reply, input.username, OrEmpty(input.reply), {})
                  && AddsGroups(t'.groups, t.groups, input.username, OrEmpty(input.groups)))
  {
    if !Exists(t, input.username) {
      CreatedCheck(t, input);
      CreatedReply(t, input);
      CreatedGroups(t, input);
    }
  }
}
