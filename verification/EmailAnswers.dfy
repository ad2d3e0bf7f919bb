/** What registrations, change requests and verifications answer and write, in every case. */
module EmailAnswers {
  import opened Http
  import opened Connections
  import opened EmailChange

  /** An address as it is stored: in plain text, or as a digest with encryption at rest. */
  ghost predicate Stores(cipher: bool, email: string, hash: Digest, address: string) {
    if cipher then email == "" && hash == Of(address) else email == address && hash == NoDigest
  }

  // ---- Registration --------------------------------------------------------

  /** An account that a lookup can see has the address in plain text, its digest, or any digest. */
  ghost predicate InPlain(s: State, email: string, authId: nat) {
    exists i :: 0 <= i < |s.accounts| && s.accounts[i].email == email && (authId == 0 || s.accounts[i].id == authId)
  }

  ghost predicate InDigest(s: State, email: string, authId: nat) {
    exists i :: 0 <= i < |s.accounts| && s.accounts[i].hash == Of(email) && (authId == 0 || s.accounts[i].id == authId)
  }

  ghost predicate AnyDigest(s: State, authId: nat) {
    exists i :: 0 <= i < |s.accounts| && s.accounts[i].hash != NoDigest && (authId == 0 || s.accounts[i].id == authId)
  }

  /**
   Whatever the table holds, rows of both modes included: a registration is answered with 201
   exactly when the address is valid, in no account that it sees, in plain text or as a
   digest with encryption at rest, no digest is there without it, and nothing fails.
   */
  lemma RegistrationAnswer(cipher: bool, s: State, email: string, authId: nat, valid: bool, mail: Delivery, readOk: bool, save: Write)
    ensures var (s', status) := Registered(cipher, s, email, authId, valid, mail, readOk, save);
            var plain := InPlain(s, email, authId);
            var digest := cipher && InDigest(s, email, authId);
            var downgrade := !cipher && AnyDigest(s, authId);
            && (status == CREATED <==> valid && readOk && !plain && !digest && !downgrade && !mail.Failed? && !save.Refused?)
            && (status == BAD_REQUEST <==> !valid || (readOk && (plain || digest)))
            && status in {CREATED, BAD_REQUEST, INTERNAL_ERROR}
            && (status == CREATED && save.Written? ==>
                  && |s'.accounts| == |s.accounts| + 1 && s'.accounts[..|s.accounts|] == s.accounts
                  && s' == s.(accounts := s'.accounts, nextAccount := s.nextAccount + 1)
                  && s'.accounts[|s.accounts|].id == s.nextAccount
                  && Stores(cipher, s'.accounts[|s.accounts|].email, s'.accounts[|s.accounts|].hash, email))
            && (!(status == CREATED && save.Written?) ==> s' == s)
  {
    TakenIff(cipher, s, email, authId);
    DowngradedIff(cipher, s, authId);
  }

  lemma TakenIff(cipher: bool, s: State, email: string, authId: nat)
    ensures WithEmail(s.accounts, email, authId).Some? <==> InPlain(s, email, authId)
    ensures WithHash(s.accounts, Of(email), authId).Some? <==> InDigest(s, email, authId)
  {
  }

  lemma DowngradedIff(cipher: bool, s: State, authId: nat)
    ensures Downgraded(cipher, s.accounts, authId) <==> !cipher && AnyDigest(s, authId)
  {
  }

  // ---- Requests ------------------------------------------------------------

  /** The request comes as far as the mail: the right password for a valid address that no lookup found and that is not pending. */
  ghost predicate Reaches(cipher: bool, s: State, u: nat, email: string, valid: bool, passOk: bool, seen: Reads) {
    && u != 0 && AccountOf(s.accounts, u).Some? && valid && passOk && seen.plain && seen.rest
    && !InPlain(s, email, 0) && !(cipher && seen.digest && InDigest(s, email, 0)) && !AlreadyAsked(s, u, email)
  }

  /** The user's own pending row asks for the address, in plain text or, without any, as a digest. */
  ghost predicate AlreadyAsked(s: State, u: nat, email: string) {
    var row := PendingOf(s.pending, u);
    && row.Some?
    && (s.pending[row.value].email == email != "" || (s.pending[row.value].email == "" && s.pending[row.value].hash == Of(email)))
  }

  /** The address is not valid or was found, or the reads succeed and the password is wrong or the address already pending. */
  ghost predicate Refuses(cipher: bool, s: State, u: nat, email: string, valid: bool, passOk: bool, seen: Reads) {
    var found := (seen.plain && InPlain(s, email, 0)) || (cipher && seen.digest && InDigest(s, email, 0));
    !valid || found || (seen.plain && seen.rest && (!passOk || AlreadyAsked(s, u, email)))
  }

  /** The code that is mailed leads to the address, in the form of the storage mode. */
  ghost predicate CodeStored(cipher: bool, codes: map<string, CodeValue>, codes': map<string, CodeValue>, email: string, mail: Delivery) {
    var value := if cipher then Hex(email) else Address(email);
    match mail
    case NotRequired => codes' == codes
    case Failed(stored) => codes' == if stored.Some? then codes[stored.value := value] else codes
    case Delivered(code) => codes' == codes[code := value]
  }

  /** Nothing but account me has changed, and it holds the address. */
  ghost predicate Reassigned(cipher: bool, s: State, s': State, me: nat, email: string) {
    && me < |s.accounts| == |s'.accounts| && s'.accounts[me].id == s.accounts[me].id
    && Stores(cipher, s'.accounts[me].email, s'.accounts[me].hash, email)
    && (forall i :: 0 <= i < |s.accounts| && i != me ==> s'.accounts[i] == s.accounts[i])
  }

  /** The user's one pending row asks for the address; all other rows are as before. */
  ghost predicate Wishes(cipher: bool, s: State, s': State, u: nat, email: string) {
    var row := PendingOf(s.pending, u);
    var k := if row.Some? then row.value else |s.pending|;
    && |s'.pending| == (if row.Some? then |s.pending| else |s.pending| + 1)
    && s'.pending[k].account == u && Stores(cipher, s'.pending[k].email, s'.pending[k].hash, email)
    && (forall i :: 0 <= i < |s.pending| && i != k ==> s'.pending[i] == s.pending[i])
  }

  /** A request is answered with 200 exactly when it comes as far as the mail and neither mail nor write is refused. */
  lemma RequestAnswer(cipher: bool, s: State, u: nat, email: string, valid: bool, passOk: bool, mail: Delivery, seen: Reads, save: Write)
    ensures var status := ChangeAsked(cipher, s, u, email, valid, passOk, mail, seen, save).1;
            && (status == OK <==> Reaches(cipher, s, u, email, valid, passOk, seen) && !mail.Failed? && !save.Refused?)
            && (status == UNAUTHORIZED <==> u == 0 || AccountOf(s.accounts, u).None?)
            && (status == BAD_REQUEST <==> u != 0 && AccountOf(s.accounts, u).Some? && Refuses(cipher, s, u, email, valid, passOk, seen))
            && status in {OK, UNAUTHORIZED, BAD_REQUEST, INTERNAL_ERROR}
  {
    TakenIff(cipher, s, email, 0);
  }

  lemma RequestIsMailed(cipher: bool, s: State, u: nat, email: string, valid: bool, passOk: bool, mail: Delivery, seen: Reads, save: Write)
    ensures ChangeAsked(cipher, s, u, email, valid, passOk, mail, seen, save).0 ==
            if Reaches(cipher, s, u, email, valid, passOk, seen)
            then Mailed(cipher, s, AccountOf(s.accounts, u).value, u, email, mail, save).0 else s
  {
    TakenIff(cipher, s, email, 0);
  }

  /**
   A request that does not come as far as the mail changes nothing; in particular one with
   a wrong password. Otherwise the code is stored, and what is written is the account itself
   where no verification is needed and the user's pending row where it is.
   */
  lemma RequestWrites(cipher: bool, s: State, u: nat, email: string, valid: bool, passOk: bool, mail: Delivery, seen: Reads, save: Write)
    ensures var s' := ChangeAsked(cipher, s, u, email, valid, passOk, mail, seen, save).0;
            var written := !mail.Failed? && save.Written?;
            && (!Reaches(cipher, s, u, email, valid, passOk, seen) ==> s' == s)
            && (Reaches(cipher, s, u, email, valid, passOk, seen) ==>
                  && CodeStored(cipher, s.codes, s'.codes, email, mail)
                  && (if written && mail.NotRequired? then Reassigned(cipher, s, s', AccountOf(s.accounts, u).value, email)
                      else s'.accounts == s.accounts)
                  && (if written && mail.Delivered? then Wishes(cipher, s, s', u, email) else s'.pending == s.pending)
                  && s'.nextAccount == s.nextAccount)
  {
    RequestIsMailed(cipher, s, u, email, valid, passOk, mail, seen, save);
    if Reaches(cipher, s, u, email, valid, passOk, seen) {
      MailedWrites(cipher, s, AccountOf(s.accounts, u).value, u, email, mail, save);
    }
  }

  lemma MailedWrites(cipher: bool, s: State, me: nat, u: nat, email: string, mail: Delivery, save: Write)
    requires me < |s.accounts|
    ensures var s' := Mailed(cipher, s, me, u, email, mail, save).0;
            var written := !mail.Failed? && save.Written?;
            && CodeStored(cipher, s.codes, s'.codes, email, mail)
            && (if written && mail.NotRequired? then Reassigned(cipher, s, s', me, email) else s'.accounts == s.accounts)
            && (if written && mail.Delivered? then Wishes(cipher, s, s', u, email) else s'.pending == s.pending)
            && s'.nextAccount == s.nextAccount
  {
  }

  // ---- Verification --------------------------------------------------------

  /** The pending row asks for the address, or holds the digest, that the code leads to. */
  ghost predicate AskedBy(p: Pending, value: CodeValue, isEmail: bool) {
    if isEmail then value == Address(p.email) else p.hash.Of? && value == Hex(p.hash.text)
  }

  ghost predicate FirstAsked(pending: seq<Pending>, value: CodeValue, isEmail: bool, k: nat) {
    k < |pending| && AskedBy(pending[k], value, isEmail) && forall i :: 0 <= i < k ==> !AskedBy(pending[i], value, isEmail)
  }

  ghost predicate Used(s: State, p: Pending, isEmail: bool) {
    exists i :: 0 <= i < |s.accounts| && (if isEmail then s.accounts[i].email == p.email else s.accounts[i].hash == p.hash)
  }

  lemma FirstAskedIs(pending: seq<Pending>, value: CodeValue, isEmail: bool)
    ensures var row := PendingFor(pending, value, isEmail);
            && (row.Some? ==> FirstAsked(pending, value, isEmail, row.value))
            && (row.None? ==> forall k :: 0 <= k < |pending| ==> !AskedBy(pending[k], value, isEmail))
  {
  }

  /** A code that is not stored changes nothing; any other is deleted, as far as that succeeds, whatever comes of it. */
  lemma CodeAnswer(s: State, code: string, isEmail: bool, delCodeOk: bool, readOk: bool, delete: Write, save: Write)
    ensures var (s', status) := ChangeVerified(s, code, isEmail, delCodeOk, readOk, delete, save);
            && (code !in s.codes ==> s' == s && status == BAD_REQUEST)
            && (code in s.codes ==> s'.codes == if delCodeOk then s.codes - {code} else s.codes)
            && (code in s.codes && !readOk ==> s'.accounts == s.accounts && s'.pending == s.pending && status == INTERNAL_ERROR)
            && (code in s.codes && readOk && (forall k :: 0 <= k < |s.pending| ==> !AskedBy(s.pending[k], s.codes[code], isEmail)) ==>
                  s'.accounts == s.accounts && s'.pending == s.pending && status == BAD_REQUEST)
            && s'.nextAccount == s.nextAccount && s'.nextPending == s.nextPending
  {
    if code in s.codes {
      FirstAskedIs(s.pending, s.codes[code], isEmail);
    }
  }

  /**
   The first pending row that the code leads to becomes the address of its account,
   exactly when nobody uses the address and the account exists; row and account change as
   far as the writes are not refused or lost.
   */
  lemma VerificationAnswer(s: State, code: string, isEmail: bool, delCodeOk: bool, delete: Write, save: Write, k: nat)
    requires code in s.codes && FirstAsked(s.pending, s.codes[code], isEmail, k)
    ensures var (s', status) := ChangeVerified(s, code, isEmail, delCodeOk, true, delete, save);
            var p := s.pending[k];
            var me := AccountOf(s.accounts, p.account);
            var may := !Used(s, p, isEmail) && me.Some?;
            && status == (if !may then BAD_REQUEST else if save.Refused? then INTERNAL_ERROR else OK)
            && s'.pending == (if may && delete.Written? then s.pending[..k] + s.pending[k + 1..] else s.pending)
            && s'.accounts == (if may && save.Written?
                               then s.accounts[me.value := s.accounts[me.value].(email := p.email, hash := p.hash)] else s.accounts)
  {
    FirstAskedIs(s.pending, s.codes[code], isEmail);
    var row := PendingFor(s.pending, s.codes[code], isEmail);
    assert row.Some? && !(row.value < k) && !(k < row.value);
    UsedIff(s, s.pending[k], isEmail);
  }

  lemma UsedIff(s: State, p: Pending, isEmail: bool)
    ensures InUse(s.accounts, p, isEmail) <==> Used(s, p, isEmail)
  {
  }
}
