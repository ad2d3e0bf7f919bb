/**
 Registration and change of e-mail addresses. An address is stored in plain text
 or, with encryption at rest, as a digest; the mode is fixed for a run. A change
 is made at once or kept pending until a mailed code is presented.

 Digests are collision free: a digest stands for the address it was made from.
 */
module EmailChange {
  import opened Wrappers
  import opened Http
  import opened Connections

  datatype Digest = NoDigest | Of(text: string)

  /** A row of auths. */
  datatype Account = Account(id: nat, email: string, hash: Digest)
  /** A row of temp_emails. */
  datatype Pending = Pending(id: nat, account: nat, email: string, hash: Digest)
  /** What a verification code leads to in Redis: an address or the hexadecimal form of a digest. */
  datatype CodeValue = Address(text: string) | Hex(text: string)

  datatype State = State(accounts: seq<Account>, nextAccount: nat, pending: seq<Pending>, nextPending: nat,
                         codes: map<string, CodeValue>)

  /** SendEmail: not needed, failed before or after its code was stored, or delivered. */
  datatype Delivery = NotRequired | Failed(stored: Option<string>) | Delivered(code: string)

  /** Which reads of UpdateEmail succeed: the lookup by address, the lookup by digest, and all others. */
  datatype Reads = Reads(plain: bool, digest: bool, rest: bool)
  datatype Lookup = Found | Free | Unreadable

  /** First row, in the order of the primary key, that satisfies a condition. */
  function First<T>(rows: seq<T>, p: T -> bool): (r: Option<nat>)
    ensures r.Some? ==> r.value < |rows| && p(rows[r.value]) && forall i :: 0 <= i < r.value ==> !p(rows[i])
    ensures r.None? ==> forall i :: 0 <= i < |rows| ==> !p(rows[i])
  {
    if rows == [] then None
    else
      var init := rows[..|rows| - 1];
      var earlier := First(init, p);
      if earlier.Some? then earlier
      else
        assert forall i :: 0 <= i < |init| ==> rows[i] == init[i];
        if p(rows[|rows| - 1]) then Some(|rows| - 1) else None
  }

  function AccountOf(accounts: seq<Account>, u: nat): (r: Option<nat>)
    ensures r.Some? ==> r.value < |accounts| && accounts[r.value].id == u
    ensures r.None? ==> forall i :: 0 <= i < |accounts| ==> accounts[i].id != u
  {
    First(accounts, (a: Account) => a.id == u)
  }

  function PendingOf(pending: seq<Pending>, u: nat): (r: Option<nat>)
    ensures r.Some? ==> r.value < |pending| && pending[r.value].account == u
    ensures r.None? ==> forall i :: 0 <= i < |pending| ==> pending[i].account != u
  {
    First(pending, (p: Pending) => p.account == u)
  }

  /** The handler's lookups by address and by digest; a non-zero authId narrows them to that account. */
  function WithEmail(accounts: seq<Account>, email: string, authId: nat): (r: Option<nat>)
    ensures r.Some? ==> r.value < |accounts| && accounts[r.value].email == email && (authId == 0 || accounts[r.value].id == authId)
    ensures r.None? ==> forall i :: 0 <= i < |accounts| ==> !(accounts[i].email == email && (authId == 0 || accounts[i].id == authId))
  {
    First(accounts, (a: Account) => a.email == email && (authId == 0 || a.id == authId))
  }

  function WithHash(accounts: seq<Account>, hash: Digest, authId: nat): (r: Option<nat>)
    ensures r.Some? ==> r.value < |accounts| && accounts[r.value].hash == hash && (authId == 0 || accounts[r.value].id == authId)
    ensures r.None? ==> forall i :: 0 <= i < |accounts| ==> !(accounts[i].hash == hash && (authId == 0 || accounts[i].id == authId))
  {
    First(accounts, (a: Account) => a.hash == hash && (authId == 0 || a.id == authId))
  }

  function ColumnEmail(cipher: bool, email: string): string {
    if cipher then "" else email
  }

  function ColumnHash(cipher: bool, email: string): Digest {
    if cipher then Of(email) else NoDigest
  }

  // ---- Specifications ------------------------------------------------------

  predicate Taken(cipher: bool, accounts: seq<Account>, email: string, authId: nat) {
    || WithEmail(accounts, email, authId).Some?
    || (cipher && WithHash(accounts, Of(email), authId).Some?)
  }

  /** Plain-text mode refuses to work on a table that already holds digests. */
  predicate Downgraded(cipher: bool, accounts: seq<Account>, authId: nat) {
    !cipher && First(accounts, (a: Account) => a.hash != NoDigest && (authId == 0 || a.id == authId)).Some?
  }

  function Registered(cipher: bool, s: State, email: string, authId: nat, valid: bool, mail: Delivery,
                      readOk: bool, save: Write): (State, int) {
    if !valid then (s, BAD_REQUEST)
    else if !readOk then (s, INTERNAL_ERROR)
    else if WithEmail(s.accounts, email, authId).Some? then (s, BAD_REQUEST)
    else if Downgraded(cipher, s.accounts, authId) then (s, INTERNAL_ERROR)
    else if Taken(cipher, s.accounts, email, authId) then (s, BAD_REQUEST)
    else if mail.Failed? || save.Refused? then (s, INTERNAL_ERROR)
    else if save.Lost? then (s, CREATED)
    else (s.(accounts := s.accounts + [Account(s.nextAccount, ColumnEmail(cipher, email), ColumnHash(cipher, email))],
             nextAccount := s.nextAccount + 1), CREATED)
  }

  function WithCode(cipher: bool, codes: map<string, CodeValue>, email: string, mail: Delivery): map<string, CodeValue> {
    var value := if cipher then Hex(email) else Address(email);
    match mail
    case NotRequired => codes
    case Failed(stored) => if stored.Some? then codes[stored.value := value] else codes
    case Delivered(code) => codes[code := value]
  }

  predicate SameRequest(p: Pending, email: string) {
    if p.email != "" then p.email == email else p.hash == Of(email)
  }

  /** GetUserByEmail answers with the error of the lookup by address; that of the lookup by digest is dropped. */
  function LookedUp(cipher: bool, accounts: seq<Account>, email: string, seen: Reads): Lookup {
    if seen.plain && WithEmail(accounts, email, 0).Some? then Found
    else if cipher && seen.digest && WithHash(accounts, Of(email), 0).Some? then Found
    else if seen.plain then Free
    else Unreadable
  }

  function ChangeAsked(cipher: bool, s: State, u: nat, email: string, valid: bool, passOk: bool, mail: Delivery,
                       seen: Reads, save: Write): (State, int) {
    var me := AccountOf(s.accounts, u);
    var row := PendingOf(s.pending, u);
    var found := LookedUp(cipher, s.accounts, email, seen);
    if u == 0 || me.None? then (s, UNAUTHORIZED)
    else if !valid then (s, BAD_REQUEST)
    else if found.Unreadable? then (s, INTERNAL_ERROR)
    else if found.Found? then (s, BAD_REQUEST)
    else if !seen.rest then (s, INTERNAL_ERROR)
    else if !passOk then (s, BAD_REQUEST)
    else if row.Some? && SameRequest(s.pending[row.value], email) then (s, BAD_REQUEST)
    else Mailed(cipher, s, me.value, u, email, mail, save)
  }

  function Mailed(cipher: bool, s: State, me: nat, u: nat, email: string, mail: Delivery, save: Write): (State, int)
    requires me < |s.accounts|
  {
    Requested(cipher, s.(codes := WithCode(cipher, s.codes, email, mail)), me, u, email, mail, save)
  }

  /** The last part of the request: the change is made at once, or written to the user's pending row. */
  function Requested(cipher: bool, s: State, me: nat, u: nat, email: string, mail: Delivery, save: Write): (State, int)
    requires me < |s.accounts|
  {
    var row := PendingOf(s.pending, u);
    if mail.Failed? || save.Refused? then (s, INTERNAL_ERROR)
    else if save.Lost? then (s, OK)
    else if mail.NotRequired? then
      var mine := s.accounts[me].(email := ColumnEmail(cipher, email), hash := ColumnHash(cipher, email));
      (s.(accounts := s.accounts[me := mine]), OK)
    else if row.Some? then
      var again := s.pending[row.value].(email := ColumnEmail(cipher, email), hash := ColumnHash(cipher, email));
      (s.(pending := s.pending[row.value := again]), OK)
    else
      (s.(pending := s.pending + [Pending(s.nextPending, u, ColumnEmail(cipher, email), ColumnHash(cipher, email))],
          nextPending := s.nextPending + 1), OK)
  }

  /** The pending row a code's value leads to; isEmail is how the value is judged when it is read back. */
  function PendingFor(pending: seq<Pending>, value: CodeValue, isEmail: bool): Option<nat> {
    if isEmail then First(pending, (p: Pending) => value == Address(p.email))
    else First(pending, (p: Pending) => p.hash.Of? && value == Hex(p.hash.text))
  }

  predicate InUse(accounts: seq<Account>, p: Pending, isEmail: bool) {
    if isEmail then WithEmail(accounts, p.email, 0).Some? else WithHash(accounts, p.hash, 0).Some?
  }

  function ChangeVerified(s: State, code: string, isEmail: bool, delCodeOk: bool, readOk: bool,
                          delete: Write, save: Write): (State, int) {
    if code !in s.codes then (s, BAD_REQUEST)
    else
      var s1 := if delCodeOk then s.(codes := s.codes - {code}) else s;
      var row := PendingFor(s.pending, s.codes[code], isEmail);
      if !readOk then (s1, INTERNAL_ERROR)
      else if row.None? then (s1, BAD_REQUEST)
      else Moved(s1, row.value, isEmail, delete, save)
  }

  /** The last part of the verification: pending row k becomes the address of its account. */
  function Moved(s: State, k: nat, isEmail: bool, delete: Write, save: Write): (State, int)
    requires k < |s.pending|
  {
    var p := s.pending[k];
    var me := AccountOf(s.accounts, p.account);
    if InUse(s.accounts, p, isEmail) || me.None? then (s, BAD_REQUEST)
    else
      var s' := if delete.Written? then s.(pending := s.pending[..k] + s.pending[k + 1..]) else s;
      if save.Refused? then (s', INTERNAL_ERROR)
      else if save.Lost? then (s', OK)
      else (s'.(accounts := s.accounts[me.value := s.accounts[me.value].(email := p.email, hash := p.hash)]), OK)
  }

  // ---- Handlers ------------------------------------------------------------

  class Service {
    const cipher: bool
    var accounts: seq<Account>
    var nextAccount: nat
    var pending: seq<Pending>
    var nextPending: nat
    var codes: map<string, CodeValue>

    function View(): State
      reads this
    {
      State(accounts, nextAccount, pending, nextPending, codes)
    }

    constructor (cipher: bool)
      ensures this.cipher == cipher && View() == INITIAL
    {
      this.cipher := cipher;
      accounts, nextAccount, pending, nextPending, codes := [], 1, [], 1, map[];
    }

    method CreateUserAuth(email: string, authId: nat, valid: bool, mail: Delivery, readOk: bool, save: Write)
      returns (status: int)
      modifies this
      ensures (View(), status) == Registered(cipher, old(View()), email, authId, valid, mail, readOk, save)
    {
      if !valid { return BAD_REQUEST; }
      if !readOk { return INTERNAL_ERROR; }
      var same := WithEmail(accounts, email, authId);
      if same.Some? { return BAD_REQUEST; }
      if !cipher {
        var digest := First(accounts, (a: Account) => a.hash != NoDigest && (authId == 0 || a.id == authId));
        if digest.Some? { return INTERNAL_ERROR; }
      }
      var account := Account(nextAccount, email, NoDigest);
      if cipher {
        account := account.(hash := Of(email));
        same := WithHash(accounts, Of(email), authId);
        if same.Some? { return BAD_REQUEST; }
      }
      if mail.Failed? { return INTERNAL_ERROR; }
      if cipher {
        account := account.(email := "");
      }
      if save.Refused? { return INTERNAL_ERROR; }
      if save.Lost? { return CREATED; }
      accounts := accounts + [account];
      nextAccount := nextAccount + 1;
      status := CREATED;
    }

    method UpdateEmail(u: nat, email: string, valid: bool, passOk: bool, mail: Delivery, seen: Reads, save: Write)
      returns (status: int)
      modifies this
      ensures (View(), status) == ChangeAsked(cipher, old(View()), u, email, valid, passOk, mail, seen, save)
    {
      var me := AccountOf(accounts, u);
      if u == 0 || me.None? { return UNAUTHORIZED; }
      if !valid { return BAD_REQUEST; }
      var found := LookedUp(cipher, accounts, email, seen);
      if found.Unreadable? { return INTERNAL_ERROR; }
      if found.Found? { return BAD_REQUEST; }
      if !seen.rest { return INTERNAL_ERROR; }
      if !passOk { return BAD_REQUEST; }
      var row := PendingOf(pending, u);
      if row.Some? {
        var temp := pending[row.value];
        var repeated := if temp.email != "" then temp.email == email else temp.hash == Of(email);
        if repeated { return BAD_REQUEST; }
      }
      status := Request(me.value, u, email, mail, save);
    }

    /** The last part of UpdateEmail, from the mail on. */
    method Request(me: nat, u: nat, email: string, mail: Delivery, save: Write) returns (status: int)
      requires me < |accounts|
      modifies this
      ensures (View(), status) == Mailed(cipher, old(View()), me, u, email, mail, save)
    {
      codes := WithCode(cipher, codes, email, mail);
      var row := PendingOf(pending, u);
      var temp := if row.Some? then pending[row.value] else Pending(nextPending, u, "", NoDigest);
      if !cipher {
        temp := temp.(email := email, hash := NoDigest);
      } else {
        temp := temp.(email := "", hash := Of(email));
      }
      if mail.Failed? { return INTERNAL_ERROR; }
      if save.Refused? { return INTERNAL_ERROR; }
      if save.Lost? { return OK; }
      if mail.Delivered? {
        if row.Some? {
          pending := pending[row.value := temp];
        } else {
          pending := pending + [temp];
          nextPending := nextPending + 1;
        }
      } else {
        accounts := accounts[me := accounts[me].(email := temp.email, hash := temp.hash)];
      }
      status := OK;
    }

    method VerifyUpdatedEmail(code: string, isEmail: bool, delCodeOk: bool, readOk: bool, delete: Write, save: Write)
      returns (status: int)
      modifies this
      ensures (View(), status) == ChangeVerified(old(View()), code, isEmail, delCodeOk, readOk, delete, save)
    {
      if code !in codes { return BAD_REQUEST; }
      var value := codes[code];
      if delCodeOk { codes := codes - {code}; }
      if !readOk { return INTERNAL_ERROR; }
      var row := PendingFor(pending, value, isEmail);
      if row.None? { return BAD_REQUEST; }
      status := Move(row.value, isEmail, delete, save);
    }

    /** The last part of VerifyUpdatedEmail, for the pending row that was found. */
    method Move(k: nat, isEmail: bool, delete: Write, save: Write) returns (status: int)
      requires k < |pending|
      modifies this
      ensures (View(), status) == Moved(old(View()), k, isEmail, delete, save)
    {
      var temp := pending[k];
      if InUse(accounts, temp, isEmail) { return BAD_REQUEST; }
      var me := AccountOf(accounts, temp.account);
      if me.None? { return BAD_REQUEST; }
      var account := accounts[me.value].(email := temp.email, hash := temp.hash);
      if delete.Written? { pending := pending[..k] + pending[k + 1..]; }
      if save.Refused? { return INTERNAL_ERROR; }
      if save.Lost? { return OK; }
      accounts := accounts[me.value := account];
      status := OK;
    }
  }

  // ---- One account per address ---------------------------------------------

  const INITIAL := State([], 1, [], 1, map[])
  const READABLE := Reads(true, true, true)

  /** No two accounts share an address or a digest. */
  ghost predicate OneEach(s: State) {
    && (forall i, j :: 0 <= i < j < |s.accounts| && s.accounts[i].email != "" ==> s.accounts[i].email != s.accounts[j].email)
    && (forall i, j :: 0 <= i < j < |s.accounts| && s.accounts[i].hash != NoDigest ==> s.accounts[i].hash != s.accounts[j].hash)
  }

  /** A non-empty address in the column of the mode, and nothing in the other. */
  ghost predicate InMode(cipher: bool, email: string, hash: Digest) {
    if cipher then email == "" && hash.Of? && hash.text != "" else email != "" && hash == NoDigest
  }

  /** Rows are in the storage mode, account ids are their own, and no account has two pending changes. */
  ghost predicate Formed(cipher: bool, s: State) {
    && (forall i :: 0 <= i < |s.accounts| ==> InMode(cipher, s.accounts[i].email, s.accounts[i].hash))
    && (forall i :: 0 <= i < |s.pending| ==> InMode(cipher, s.pending[i].email, s.pending[i].hash))
    && (forall i :: 0 <= i < |s.accounts| ==> s.accounts[i].id < s.nextAccount)
    && (forall i, j :: 0 <= i < j < |s.accounts| ==> s.accounts[i].id != s.accounts[j].id)
    && (forall i, j :: 0 <= i < j < |s.pending| ==> s.pending[i].account != s.pending[j].account)
  }

  ghost predicate Sound(cipher: bool, s: State) {
    Formed(cipher, s) && OneEach(s)
  }

  datatype Event =
    | Register(email: string, authId: nat, valid: bool, mail: Delivery, readOk: bool, save: Write)
    | AskChange(user: nat, email: string, valid: bool, passOk: bool, mail: Delivery, seen: Reads, save: Write)
    | Verify(code: string, isEmail: bool, delCodeOk: bool, readOk: bool, delete: Write, save: Write)

  function Applied(cipher: bool, s: State, e: Event): State {
    match e
    case Register(email, authId, valid, mail, r, w) => Registered(cipher, s, email, authId, valid, mail, r, w).0
    case AskChange(u, email, valid, passOk, mail, r, w) => ChangeAsked(cipher, s, u, email, valid, passOk, mail, r, w).0
    case Verify(code, isEmail, d, r, t, w) => ChangeVerified(s, code, isEmail, d, r, t, w).0
  }

  function RunOf(cipher: bool, events: seq<Event>): State {
    if events == [] then INITIAL else Applied(cipher, RunOf(cipher, events[..|events| - 1]), events[|events| - 1])
  }

  /** The empty string is never a valid address. */
  ghost predicate WellFormed(e: Event) {
    e.Register? || e.AskChange? ==> (e.valid ==> e.email != "")
  }

  /** The account that holds an address, in either column. */
  ghost predicate Holds(a: Account, email: string) {
    a.email == email || a.hash == Of(email)
  }

  ghost predicate Unheld(s: State, email: string) {
    forall i :: 0 <= i < |s.accounts| ==> !Holds(s.accounts[i], email)
  }

  /** Someone other than account u holds the address. */
  ghost predicate HeldByOther(s: State, email: string, u: nat) {
    exists i :: 0 <= i < |s.accounts| && Holds(s.accounts[i], email) && s.accounts[i].id != u
  }

  /**
   The calls that overlook the holder of an address: a registration whose authID narrows
   the lookups to another account, and an immediate change whose lookup by digest failed.
   */
  ghost predicate Overlooks(cipher: bool, s: State, e: Event) {
    match e
    case Register(email, authId, valid, mail, readOk, save) =>
      && valid && readOk && !mail.Failed? && save.Written?
      && authId != 0 && HeldByOther(s, email, authId)
    case AskChange(u, email, valid, passOk, mail, seen, save) =>
      && cipher && seen == Reads(true, false, true)
      && u != 0 && AccountOf(s.accounts, u).Some? && valid && passOk && mail.NotRequired? && save.Written?
      && !Repeats(s, u, email) && HeldByOther(s, email, u)
    case Verify(_, _, _, _, _, _) => false
  }

  /** The user's own pending change already asks for the address. */
  ghost predicate Repeats(s: State, u: nat, email: string) {
    var row := PendingOf(s.pending, u);
    row.Some? && SameRequest(s.pending[row.value], email)
  }

  // What the storage mode makes of an address.

  function NewAccount(cipher: bool, s: State, email: string): State {
    s.(accounts := s.accounts + [Account(s.nextAccount, ColumnEmail(cipher, email), ColumnHash(cipher, email))],
       nextAccount := s.nextAccount + 1)
  }

  function Assigned(s: State, k: nat, email: string, hash: Digest): State
    requires k < |s.accounts|
  {
    s.(accounts := s.accounts[k := s.accounts[k].(email := email, hash := hash)])
  }

  lemma NewAccountFormed(cipher: bool, s: State, email: string)
    requires Formed(cipher, s) && email != ""
    ensures Formed(cipher, NewAccount(cipher, s, email))
  {
  }

  /** A new account leaves addresses apart exactly when nobody held its address. */
  lemma NewAccountOneEach(cipher: bool, s: State, email: string)
    requires Sound(cipher, s) && email != ""
    ensures OneEach(NewAccount(cipher, s, email)) <==> Unheld(s, email)
  {
    var s' := NewAccount(cipher, s, email);
    var n := |s.accounts|;
    if !Unheld(s, email) {
      var i :| 0 <= i < n && Holds(s.accounts[i], email);
      assert InMode(cipher, s.accounts[i].email, s.accounts[i].hash);
      assert s'.accounts[i] == s.accounts[i];
      assert if cipher then s'.accounts[i].hash == s'.accounts[n].hash == Of(email)
             else s'.accounts[i].email == s'.accounts[n].email == email;
    }
  }

  lemma AssignFormed(cipher: bool, s: State, k: nat, email: string, hash: Digest)
    requires Formed(cipher, s) && k < |s.accounts| && InMode(cipher, email, hash)
    ensures Formed(cipher, Assigned(s, k, email, hash))
  {
  }

  /** Giving an address to one account keeps addresses apart exactly when no other account holds it. */
  lemma AssignOneEach(cipher: bool, s: State, k: nat, email: string, hash: Digest, address: string)
    requires Sound(cipher, s) && k < |s.accounts| && InMode(cipher, email, hash)
    requires address == (if cipher then hash.text else email)
    ensures OneEach(Assigned(s, k, email, hash)) <==> !HeldByOther(s, address, s.accounts[k].id)
  {
    var s' := Assigned(s, k, email, hash);
    if HeldByOther(s, address, s.accounts[k].id) {
      var i :| 0 <= i < |s.accounts| && Holds(s.accounts[i], address) && s.accounts[i].id != s.accounts[k].id;
      assert InMode(cipher, s.accounts[i].email, s.accounts[i].hash);
      assert i != k && s'.accounts[i] == s.accounts[i];
      var a, b := if i < k then i else k, if i < k then k else i;
      assert if cipher then s'.accounts[a].hash == s'.accounts[b].hash else s'.accounts[a].email == s'.accounts[b].email;
    } else {
      forall i | 0 <= i < |s.accounts| && i != k ensures !Holds(s.accounts[i], address) {
        assert s.accounts[i].id != s.accounts[k].id;
      }
    }
  }

  lemma SoundIgnores(cipher: bool, s: State, t: State)
    requires Sound(cipher, s) && t.accounts == s.accounts && t.nextAccount == s.nextAccount && t.pending == s.pending
    ensures Sound(cipher, t)
  {
  }

  // ---- Registration --------------------------------------------------------

  /** The lookups of a registration, narrowed or not, find a holder exactly when there is one among the rows they see. */
  lemma TakenMeansHeld(cipher: bool, s: State, email: string, authId: nat)
    requires Sound(cipher, s) && email != ""
    ensures Taken(cipher, s.accounts, email, authId) <==>
            exists i :: 0 <= i < |s.accounts| && Holds(s.accounts[i], email) && (authId == 0 || s.accounts[i].id == authId)
    ensures !Downgraded(cipher, s.accounts, authId)
  {
    forall i | 0 <= i < |s.accounts| ensures InMode(cipher, s.accounts[i].email, s.accounts[i].hash) {}
  }

  lemma OnlyHolder(cipher: bool, s: State, email: string, i: nat)
    requires Sound(cipher, s) && email != "" && i < |s.accounts| && Holds(s.accounts[i], email)
    ensures forall j :: 0 <= j < |s.accounts| && Holds(s.accounts[j], email) ==> j == i
  {
    forall j | 0 <= j < |s.accounts| && Holds(s.accounts[j], email) ensures j == i {
      assert InMode(cipher, s.accounts[j].email, s.accounts[j].hash);
      assert InMode(cipher, s.accounts[i].email, s.accounts[i].hash);
    }
  }

  /** A registration is let through exactly when no account, or one the authID hides, holds the address. */
  lemma LetThrough(cipher: bool, s: State, email: string, authId: nat)
    requires Sound(cipher, s) && email != ""
    ensures !Taken(cipher, s.accounts, email, authId) <==> Unheld(s, email) || (authId != 0 && HeldByOther(s, email, authId))
  {
    TakenMeansHeld(cipher, s, email, authId);
    if !Unheld(s, email) {
      var i :| 0 <= i < |s.accounts| && Holds(s.accounts[i], email);
      OnlyHolder(cipher, s, email, i);
    }
  }

  /**
   A registration keeps addresses unique unless it is written and carries an authID
   other than the id of the account that holds the address.
   */
  lemma RegistrationWithId(cipher: bool, s: State, e: Event)
    requires Sound(cipher, s) && e.Register? && WellFormed(e)
    ensures Formed(cipher, Applied(cipher, s, e))
    ensures OneEach(Applied(cipher, s, e)) <==> !Overlooks(cipher, s, e)
  {
    if e.valid {
      LetThrough(cipher, s, e.email, e.authId);
      TakenMeansHeld(cipher, s, e.email, e.authId);
      NewAccountFormed(cipher, s, e.email);
      NewAccountOneEach(cipher, s, e.email);
    }
  }

  // ---- Requests ------------------------------------------------------------

  lemma PendingSound(cipher: bool, s: State, u: nat, email: string, row: Option<nat>)
    requires Sound(cipher, s) && email != "" && row == PendingOf(s.pending, u)
    ensures var temp := Pending(s.nextPending, u, ColumnEmail(cipher, email), ColumnHash(cipher, email));
            row.None? ==> Sound(cipher, s.(pending := s.pending + [temp], nextPending := s.nextPending + 1))
    ensures row.Some? ==>
              Sound(cipher, s.(pending := s.pending[row.value :=
                s.pending[row.value].(email := ColumnEmail(cipher, email), hash := ColumnHash(cipher, email))]))
  {
  }

  /** What the request writes: at once it is unique iff nobody else holds the address, pending it always is. */
  lemma RequestedUnique(cipher: bool, s: State, me: nat, u: nat, email: string, mail: Delivery, save: Write)
    requires Sound(cipher, s) && email != "" && me < |s.accounts| && s.accounts[me].id == u
    ensures Formed(cipher, Requested(cipher, s, me, u, email, mail, save).0)
    ensures OneEach(Requested(cipher, s, me, u, email, mail, save).0) <==>
            !(mail.NotRequired? && save.Written? && HeldByOther(s, email, u))
  {
    if !mail.Failed? && save.Written? {
      if mail.NotRequired? {
        AssignFormed(cipher, s, me, ColumnEmail(cipher, email), ColumnHash(cipher, email));
        AssignOneEach(cipher, s, me, ColumnEmail(cipher, email), ColumnHash(cipher, email), email);
      } else {
        PendingSound(cipher, s, u, email, PendingOf(s.pending, u));
      }
    }
  }

  /** The request goes on although the address is held exactly when the lookup by digest was needed and failed. */
  lemma FreeUnlessOverlooked(cipher: bool, s: State, email: string, seen: Reads)
    requires Sound(cipher, s) && email != ""
    ensures LookedUp(cipher, s.accounts, email, seen).Free? <==>
            seen.plain && (Unheld(s, email) || (cipher && !seen.digest))
    ensures LookedUp(cipher, s.accounts, email, seen).Unreadable? <==>
            !seen.plain && !(cipher && seen.digest && !Unheld(s, email))
  {
    forall i | 0 <= i < |s.accounts| ensures InMode(cipher, s.accounts[i].email, s.accounts[i].hash) {}
  }

  /**
   A request keeps addresses unique unless the change is made at once, for an address
   held by someone else, after the lookup by digest failed.
   */
  lemma ChangeOverHeldAddress(cipher: bool, s: State, e: Event)
    requires Sound(cipher, s) && e.AskChange? && WellFormed(e)
    ensures Formed(cipher, Applied(cipher, s, e))
    ensures OneEach(Applied(cipher, s, e)) <==> !Overlooks(cipher, s, e)
  {
    var me := AccountOf(s.accounts, e.user);
    if e.valid && me.Some? {
      FreeUnlessOverlooked(cipher, s, e.email, e.seen);
      var s1 := s.(codes := WithCode(cipher, s.codes, e.email, e.mail));
      SoundIgnores(cipher, s, s1);
      RequestedUnique(cipher, s1, me.value, e.user, e.email, e.mail, e.save);
      assert HeldByOther(s1, e.email, e.user) <==> HeldByOther(s, e.email, e.user);
    }
  }

  // ---- Verification --------------------------------------------------------

  lemma DropPendingSound(cipher: bool, s: State, k: nat)
    requires Sound(cipher, s) && k < |s.pending|
    ensures Sound(cipher, s.(pending := s.pending[..k] + s.pending[k + 1..]))
  {
    var rest := s.pending[..k] + s.pending[k + 1..];
    assert forall i :: 0 <= i < |rest| ==> rest[i] == s.pending[if i < k then i else i + 1];
  }

  /** However the code's value is judged, the address that is about to be assigned is nobody's. */
  lemma VerifiedAddressIsFree(cipher: bool, s: State, p: Pending, isEmail: bool)
    requires Sound(cipher, s) && InMode(cipher, p.email, p.hash) && !InUse(s.accounts, p, isEmail)
    ensures Unheld(s, if cipher then p.hash.text else p.email)
  {
    forall i | 0 <= i < |s.accounts| ensures !Holds(s.accounts[i], if cipher then p.hash.text else p.email) {
      assert InMode(cipher, s.accounts[i].email, s.accounts[i].hash);
    }
  }

  lemma GivenSound(cipher: bool, s: State, k: nat, email: string, hash: Digest)
    requires Sound(cipher, s) && k < |s.accounts| && InMode(cipher, email, hash)
    requires Unheld(s, if cipher then hash.text else email)
    ensures Sound(cipher, Assigned(s, k, email, hash))
  {
    AssignFormed(cipher, s, k, email, hash);
    AssignOneEach(cipher, s, k, email, hash, if cipher then hash.text else email);
  }

  lemma MovedSound(cipher: bool, s: State, k: nat, isEmail: bool, delete: Write, save: Write)
    requires Sound(cipher, s) && k < |s.pending|
    ensures Sound(cipher, Moved(s, k, isEmail, delete, save).0)
  {
    var p := s.pending[k];
    var me := AccountOf(s.accounts, p.account);
    assert InMode(cipher, p.email, p.hash);
    if !InUse(s.accounts, p, isEmail) && me.Some? {
      VerifiedAddressIsFree(cipher, s, p, isEmail);
      DropPendingSound(cipher, s, k);
      var s' := if delete.Written? then s.(pending := s.pending[..k] + s.pending[k + 1..]) else s;
      GivenSound(cipher, s', me.value, p.email, p.hash);
    }
  }

  /** A verification always keeps addresses unique. */
  lemma VerifySound(cipher: bool, s: State, e: Event)
    requires Sound(cipher, s) && e.Verify?
    ensures Sound(cipher, Applied(cipher, s, e))
  {
    if e.code in s.codes {
      var s1 := if e.delCodeOk then s.(codes := s.codes - {e.code}) else s;
      SoundIgnores(cipher, s, s1);
      var row := PendingFor(s.pending, s.codes[e.code], e.isEmail);
      if row.Some? {
        MovedSound(cipher, s1, row.value, e.isEmail, e.delete, e.save);
      }
    }
  }

  // ---- Whole runs ----------------------------------------------------------

  /** One step loses uniqueness exactly when it overlooks a holder, and keeps everything else in any case. */
  lemma StepKeepsUnique(cipher: bool, s: State, e: Event)
    requires Sound(cipher, s) && WellFormed(e)
    ensures Formed(cipher, Applied(cipher, s, e))
    ensures OneEach(Applied(cipher, s, e)) <==> !Overlooks(cipher, s, e)
  {
    match e
    case Register(_, _, _, _, _, _) => RegistrationWithId(cipher, s, e);
    case AskChange(_, _, _, _, _, _, _) => ChangeOverHeldAddress(cipher, s, e);
    case Verify(_, _, _, _, _, _) => VerifySound(cipher, s, e);
  }

  ghost predicate UniqueThroughout(cipher: bool, events: seq<Event>) {
    forall n :: 0 <= n <= |events| ==> OneEach(RunOf(cipher, events[..n]))
  }

  ghost predicate NeverOverlooks(cipher: bool, events: seq<Event>) {
    forall n :: 0 <= n < |events| ==> !Overlooks(cipher, RunOf(cipher, events[..n]), events[n])
  }

  lemma RunSnoc(cipher: bool, events: seq<Event>, n: nat)
    requires n < |events|
    ensures RunOf(cipher, events[..n + 1]) == Applied(cipher, RunOf(cipher, events[..n]), events[n])
  {
    assert events[..n + 1][..n] == events[..n];
  }

  lemma Appended(cipher: bool, events: seq<Event>, e: Event)
    ensures RunOf(cipher, events + [e]) == Applied(cipher, RunOf(cipher, events), e)
  {
    assert (events + [e])[..|events|] == events;
  }

  /** Step n of a run, reduced to what the induction needs. */
  ghost predicate ExactStep(cipher: bool, s: State, e: Event, s': State) {
    Sound(cipher, s) ==> Formed(cipher, s') && (OneEach(s') <==> !Overlooks(cipher, s, e))
  }

  lemma RunStep(cipher: bool, events: seq<Event>, n: nat)
    requires n < |events| && WellFormed(events[n])
    ensures ExactStep(cipher, RunOf(cipher, events[..n]), events[n], RunOf(cipher, events[..n + 1]))
  {
    RunSnoc(cipher, events, n);
    if Sound(cipher, RunOf(cipher, events[..n])) {
      StepKeepsUnique(cipher, RunOf(cipher, events[..n]), events[n]);
    }
  }

  lemma {:induction false} SoundIfCareful(cipher: bool, events: seq<Event>, n: nat)
    requires n <= |events| && forall i :: 0 <= i < |events| ==> WellFormed(events[i])
    requires NeverOverlooks(cipher, events)
    ensures Sound(cipher, RunOf(cipher, events[..n]))
  {
    if n == 0 {
      assert RunOf(cipher, events[..0]) == INITIAL;
    } else {
      SoundIfCareful(cipher, events, n - 1);
      RunStep(cipher, events, n - 1);
    }
  }

  lemma {:induction false} SoundIfUnique(cipher: bool, events: seq<Event>, n: nat)
    requires n <= |events| && forall i :: 0 <= i < |events| ==> WellFormed(events[i])
    requires UniqueThroughout(cipher, events)
    ensures Sound(cipher, RunOf(cipher, events[..n]))
  {
    if n == 0 {
      assert RunOf(cipher, events[..0]) == INITIAL;
    } else {
      SoundIfUnique(cipher, events, n - 1);
      RunStep(cipher, events, n - 1);
    }
  }

  /**
   Over every interleaving of registrations, change requests and verifications, whatever
   fails, no two accounts ever share an address or a digest exactly when no call
   overlooked the holder of the address it gave away.
   */
  lemma UniqueIffNeverOverlooks(cipher: bool, events: seq<Event>)
    requires forall i :: 0 <= i < |events| ==> WellFormed(events[i])
    ensures UniqueThroughout(cipher, events) <==> NeverOverlooks(cipher, events)
  {
    if NeverOverlooks(cipher, events) {
      forall n | 0 <= n <= |events| ensures OneEach(RunOf(cipher, events[..n])) {
        SoundIfCareful(cipher, events, n);
      }
    }
    if UniqueThroughout(cipher, events) {
      forall n | 0 <= n < |events| ensures !Overlooks(cipher, RunOf(cipher, events[..n]), events[n]) {
        SoundIfUnique(cipher, events, n);
        RunStep(cipher, events, n);
      }
    }
  }

  /** A registration without authID; a request whose lookup by digest answers, or that has to be verified. */
  ghost predicate Careful(cipher: bool, e: Event) {
    match e
    case Register(_, authId, _, _, _, _) => authId == 0
    case AskChange(_, _, _, _, mail, seen, _) => !cipher || seen.digest || !mail.NotRequired?
    case Verify(_, _, _, _, _, _) => true
  }

  /** In particular on runs of careful calls, which also leave at most one pending change per account. */
  lemma OneAccountPerAddress(cipher: bool, events: seq<Event>)
    requires forall i :: 0 <= i < |events| ==> WellFormed(events[i]) && Careful(cipher, events[i])
    ensures Sound(cipher, RunOf(cipher, events)) && UniqueThroughout(cipher, events)
  {
    forall n | 0 <= n < |events| ensures !Overlooks(cipher, RunOf(cipher, events[..n]), events[n]) {
      assert Careful(cipher, events[n]);
    }
    UniqueIffNeverOverlooks(cipher, events);
    SoundIfCareful(cipher, events, |events|);
    assert events[..|events|] == events;
  }

  /**
   A code leads to an address, not to the user who asked for it: presenting the code
   right after the request gives the address to that user exactly when no earlier
   pending row asks for the same address.
   */
  lemma CodeServesFirstRequest(cipher: bool, s: State, u: nat, email: string, code: string)
    requires Sound(cipher, s) && email != ""
    requires ChangeAsked(cipher, s, u, email, true, true, Delivered(code), READABLE, Written).1 == OK
    ensures var s1 := ChangeAsked(cipher, s, u, email, true, true, Delivered(code), READABLE, Written).0;
            var s2 := ChangeVerified(s1, code, !cipher, true, true, Written, Written).0;
            var me, row := AccountOf(s.accounts, u), PendingOf(s1.pending, u);
            && me.Some? && row.Some? && me.value < |s2.accounts|
            && (Holds(s2.accounts[me.value], email) <==>
                forall i :: 0 <= i < row.value ==> !SameRequest(s1.pending[i], email))
  {
    var s1 := ChangeAsked(cipher, s, u, email, true, true, Delivered(code), READABLE, Written).0;
    ChangeOverHeldAddress(cipher, s, AskChange(u, email, true, true, Delivered(code), READABLE, Written));
    FreeUnlessOverlooked(cipher, s, email, READABLE);
    var value := if cipher then Hex(email) else Address(email);
    assert s1.codes[code] == value && s1.accounts == s.accounts;
    AskedRow(cipher, s, u, email, code);
    var row := PendingOf(s1.pending, u);
    LookupFindsFirst(cipher, s1, email, row.value);
    var k := PendingFor(s1.pending, value, !cipher);
    var s' := s1.(codes := s1.codes - {code});
    MovedGives(cipher, s', k.value, email, AccountOf(s.accounts, u).value);
    VerifiedIsMoved(s1, code, !cipher);
    assert k.value == row.value <==> s1.pending[k.value].account == u;
  }

  lemma VerifiedIsMoved(s: State, code: string, isEmail: bool)
    requires code in s.codes && PendingFor(s.pending, s.codes[code], isEmail).Some?
    ensures ChangeVerified(s, code, isEmail, true, true, Written, Written) ==
            Moved(s.(codes := s.codes - {code}), PendingFor(s.pending, s.codes[code], isEmail).value, isEmail, Written, Written)
  {
  }

  lemma AskedRow(cipher: bool, s: State, u: nat, email: string, code: string)
    requires Sound(cipher, s) && email != ""
    requires ChangeAsked(cipher, s, u, email, true, true, Delivered(code), READABLE, Written).1 == OK
    ensures var s1 := ChangeAsked(cipher, s, u, email, true, true, Delivered(code), READABLE, Written).0;
            var row := PendingOf(s1.pending, u);
            row.Some? && s1.pending[row.value].email == ColumnEmail(cipher, email)
            && s1.pending[row.value].hash == ColumnHash(cipher, email)
  {
    var s1 := ChangeAsked(cipher, s, u, email, true, true, Delivered(code), READABLE, Written).0;
    ChangeOverHeldAddress(cipher, s, AskChange(u, email, true, true, Delivered(code), READABLE, Written));
    var before := PendingOf(s.pending, u);
    var k := if before.Some? then before.value else |s.pending|;
    assert s1.pending[k].account == u && s1.pending[k].email == ColumnEmail(cipher, email);
    assert s1.pending[PendingOf(s1.pending, u).value].account == u;
  }

  lemma LookupFindsFirst(cipher: bool, s: State, email: string, row: nat)
    requires Sound(cipher, s) && email != "" && row < |s.pending|
    requires s.pending[row].email == ColumnEmail(cipher, email) && s.pending[row].hash == ColumnHash(cipher, email)
    ensures var k := PendingFor(s.pending, if cipher then Hex(email) else Address(email), !cipher);
            && k.Some? && k.value <= row && SameRequest(s.pending[k.value], email)
            && (k.value == row <==> forall i :: 0 <= i < row ==> !SameRequest(s.pending[i], email))
  {
    var k := PendingFor(s.pending, if cipher then Hex(email) else Address(email), !cipher);
    forall i | 0 <= i < |s.pending|
      ensures SameRequest(s.pending[i], email) <==>
              s.pending[i].email == ColumnEmail(cipher, email) && s.pending[i].hash == ColumnHash(cipher, email)
    {
      assert InMode(cipher, s.pending[i].email, s.pending[i].hash);
    }
    assert k.Some?;
    assert InMode(cipher, s.pending[k.value].email, s.pending[k.value].hash);
  }

  /** Row k goes to its own account and to no other. */
  lemma MovedGives(cipher: bool, s: State, k: nat, email: string, me: nat)
    requires Sound(cipher, s) && k < |s.pending| && me < |s.accounts| && email != "" && SameRequest(s.pending[k], email)
    requires Unheld(s, email)
    ensures var s' := Moved(s, k, !cipher, Written, Written).0;
            me < |s'.accounts| && (Holds(s'.accounts[me], email) <==> s.pending[k].account == s.accounts[me].id)
  {
    var p := s.pending[k];
    assert InMode(cipher, p.email, p.hash);
    var holder := AccountOf(s.accounts, p.account);
    if holder.Some? && holder.value != me {
      assert s.accounts[holder.value].id != s.accounts[me].id;
    }
  }

  /** An ordinary registration succeeds exactly when nobody holds the address, and then the new account holds it. */
  lemma FreeAddressIsRegistered(cipher: bool, s: State, email: string)
    requires Sound(cipher, s) && email != ""
    ensures var (s', status) := Registered(cipher, s, email, 0, true, NotRequired, true, Written);
            && (status == CREATED <==> Unheld(s, email))
            && (status == CREATED ==> |s'.accounts| == |s.accounts| + 1 && Holds(s'.accounts[|s.accounts|], email)
                                      && s'.accounts[..|s.accounts|] == s.accounts)
            && (status != CREATED ==> s' == s)
  {
    TakenMeansHeld(cipher, s, email, 0);
    LetThrough(cipher, s, email, 0);
  }

  /** A change that needs no verification is made exactly when the address is free and not already pending, and to that account only. */
  lemma ImmediateChange(cipher: bool, s: State, u: nat, email: string)
    requires Sound(cipher, s) && email != "" && u != 0 && AccountOf(s.accounts, u).Some?
    ensures var (s', status) := ChangeAsked(cipher, s, u, email, true, true, NotRequired, READABLE, Written);
            var me := AccountOf(s.accounts, u).value;
            && (status == OK <==> Unheld(s, email) && !Repeats(s, u, email))
            && (status == OK ==> |s'.accounts| == |s.accounts| && s'.accounts[me].id == u && Holds(s'.accounts[me], email)
                                 && forall i :: 0 <= i < |s.accounts| && i != me ==> s'.accounts[i] == s.accounts[i])
            && s'.pending == s.pending
  {
    FreeUnlessOverlooked(cipher, s, email, READABLE);
  }
}
