/**
 Two-factor authentication: a TOTP secret (RFC 6238) is kept encrypted under a
 hash of the password and again under a hash of a recovery key, with a copy in
 memory while a login is under way.

 Cryptography is ideal: a hash stands for the text it was made from, a sealed
 value opens under its own key only, and comparing a password with its stored
 hash is equality.
 */
module TwoFactor {
  import opened Wrappers
  import opened Http
  import opened Connections
  import opened Texts

  datatype Hash = Hash(of: string)
  datatype Sealed<T> = Sealed(key: Hash, plain: T)

  /** Decryption; None also stands for the empty column. */
  function Opened<T>(box: Option<Sealed<T>>, key: Hash): Option<T> {
    if box.Some? && box.value.key == key then Some(box.value.plain) else None
  }

  /** A serialized TOTP object: validating a code changes its counters, never its seed. */
  datatype Blob = Blob(seed: nat, counters: int)
  datatype Check = Accepted(counters: int) | Rejected(counters: int) | Broken

  /** service.Validate2FA; the empty secret cannot be read as a TOTP object. */
  function Checked(secret: Option<Blob>, check: Check): Check {
    if secret.None? then Broken else check
  }

  /** A row of two_fas. */
  datatype Record = Record(
    status: string,
    keyMain: Option<Sealed<Blob>>, keyBackup: Option<Sealed<Blob>>,
    uuidEnc: Option<Sealed<string>>, uuidSHA: Option<Hash>)

  /** An entry of InMemorySecret2FA. */
  datatype Entry = Entry(passSHA: Hash, secret: Option<Blob>)

  /** A row of two_fa_backups. */
  datatype BackupCode = BackupCode(id: nat, owner: nat, hash: Hash)

  /** A pair of signed tokens; parent is the pair that was refreshed, if any. */
  datatype Token = Token(auth: nat, twoFA: string, parent: Option<nat>)

  datatype Config = Config(on: string, off: string, verified: string, digits: nat, minLength: nat, must2FA: bool)

  /**
   recovery is the recovery key last generated for an account and stored with its row;
   given is the one last handed out to its owner.
   */
  datatype State = State(
    passwords: map<nat, string>, records: map<nat, Record>, memory: map<nat, Entry>,
    codes: seq<BackupCode>, nextCode: nat, tokens: seq<Token>, recovery: map<nat, string>, given: map<nat, string>)

  /** How the calls to the outside fare during one request; save is of two-factor rows, saveAuth of the password. */
  datatype World = World(readOk: bool, save: Write, saveAuth: Write, delete: Write, signOk: bool)

  predicate Known(s: State, u: nat) {
    u != 0 && u in s.passwords
  }

  function Issued(s: State, u: nat, claim: string, parent: Option<nat>, w: World): (State, int) {
    if w.signOk then (s.(tokens := s.tokens + [Token(u, claim, parent)]), OK) else (s, INTERNAL_ERROR)
  }

  function CodesOf(codes: seq<BackupCode>, u: nat): seq<BackupCode> {
    if codes == [] then []
    else
      var rest := CodesOf(codes[..|codes| - 1], u);
      if codes[|codes| - 1].owner == u then rest + [codes[|codes| - 1]] else rest
  }

  function WithoutCodesOf(codes: seq<BackupCode>, u: nat): seq<BackupCode> {
    if codes == [] then []
    else
      var rest := WithoutCodesOf(codes[..|codes| - 1], u);
      if codes[|codes| - 1].owner == u then rest else rest + [codes[|codes| - 1]]
  }

  lemma {:induction false} NothingToDelete(codes: seq<BackupCode>, u: nat)
    requires CodesOf(codes, u) == []
    ensures WithoutCodesOf(codes, u) == codes
  {
    if codes != [] {
      NothingToDelete(codes[..|codes| - 1], u);
    }
  }

  /** DELETE by primary key. */
  function WithoutCode(codes: seq<BackupCode>, id: nat): seq<BackupCode> {
    if codes == [] then []
    else
      var rest := WithoutCode(codes[..|codes| - 1], id);
      if codes[|codes| - 1].id == id then rest else rest + [codes[|codes| - 1]]
  }

  function NewCodes(u: nat, texts: seq<string>, first: nat): seq<BackupCode> {
    seq(|texts|, i requires 0 <= i < |texts| => BackupCode(first + i, u, Hash(texts[i])))
  }

  /** The first code of u with the given hash. */
  function Matching(mine: seq<BackupCode>, hash: Hash): Option<BackupCode> {
    if mine == [] then None
    else if mine[0].hash == hash then Some(mine[0])
    else Matching(mine[1..], hash)
  }

  // ---- Specifications, one per handler -------------------------------------

  function SetUp(cfg: Config, s: State, c: Token, password: string, seed: nat, made: bool, w: World): (State, int) {
    var u := c.auth;
    if !Known(s, u) then (s, UNAUTHORIZED)
    else if c.twoFA == cfg.verified then (s, OK)
    else if c.twoFA == cfg.on then (s, BAD_REQUEST)
    else if !w.readOk then (s, INTERNAL_ERROR)
    else if u in s.records && s.records[u].status == cfg.on then (s, BAD_REQUEST)
    else if password != s.passwords[u] then (s, BAD_REQUEST)
    else if !made then (s, INTERNAL_ERROR)
    else (s.(memory := s.memory[u := Entry(Hash(password), Some(Blob(seed, 0)))]), CREATED)
  }

  function Activated(cfg: Config, s: State, c: Token, otp: string, check: Check, key: string, uuid: string, w: World): (State, int) {
    var u := c.auth;
    if !Known(s, u) then (s, UNAUTHORIZED)
    else if c.twoFA == cfg.verified || c.twoFA == cfg.on || u !in s.memory then (s, BAD_REQUEST)
    else if |RemoveAllSpace(otp)| != cfg.digits then (s, BAD_REQUEST)
    else
      var entry := s.memory[u];
      match Checked(entry.secret, check)
      case Broken => (s, INTERNAL_ERROR)
      case Rejected(n) => (s.(memory := s.memory[u := entry.(secret := Some(entry.secret.value.(counters := n)))]), BAD_REQUEST)
      case Accepted(n) =>
        var blob := entry.secret.value.(counters := n);
        if !w.readOk then (s, INTERNAL_ERROR)
        else if u in s.records && s.records[u].status == cfg.on then (s.(memory := s.memory - {u}), BAD_REQUEST)
        else Confirmed(cfg, s, u, entry.passSHA, blob, key, uuid, w)
  }

  /** The last part of an activation: the row, the memory entry, the tokens and the recovery key. */
  function Confirmed(cfg: Config, s: State, u: nat, passSHA: Hash, blob: Blob, key: string, uuid: string, w: World): (State, int) {
    var cleared := s.(memory := s.memory - {u});
    match w.save
    case Refused => (s, INTERNAL_ERROR)
    case Lost => HandedOut(Issued(cleared, u, cfg.verified, None, w), u, key)
    case Written => HandedOut(Issued(Enrolled(cleared, u, cfg.on, passSHA, blob, key, uuid), u, cfg.verified, None, w), u, key)
  }

  /** A new recovery key is part of the answer, if that is not an error. */
  function HandedOut(r: (State, int), u: nat, key: string): (State, int) {
    if r.1 == OK then (r.0.(given := r.0.given[u := key]), OK) else r
  }

  /** A row that wraps the secret under a password and a new recovery key. */
  function Enrolled(s: State, u: nat, status: string, passSHA: Hash, blob: Blob, key: string, uuid: string): State {
    var record := Record(status, Some(Sealed(passSHA, blob)), Some(Sealed(Hash(key), blob)),
                         Some(Sealed(Hash(key), uuid)), Some(Hash(uuid)));
    s.(records := s.records[u := record], recovery := s.recovery[u := key])
  }

  /** The secret an OTP is checked against: the copy in memory, or else the stored one. */
  function SecretFor(entry: Entry, record: Record): Option<Blob> {
    if entry.secret.Some? then entry.secret else Opened(record.keyMain, entry.passSHA)
  }

  function Validated(cfg: Config, s: State, c: Token, otp: string, check: Check, w: World): (State, int) {
    var u := c.auth;
    if !Known(s, u) then (s, UNAUTHORIZED)
    else if c.twoFA == cfg.verified then (s, OK)
    else if c.twoFA != cfg.on || u !in s.memory then (s, BAD_REQUEST)
    else if |RemoveAllSpace(otp)| != cfg.digits then (s, BAD_REQUEST)
    else if !w.readOk then (s, INTERNAL_ERROR)
    else if u !in s.records || s.records[u].status != cfg.on then (s, BAD_REQUEST)
    else
      var entry, record := s.memory[u], s.records[u];
      var secret := SecretFor(entry, record);
      match Checked(secret, check)
      case Broken => (s, INTERNAL_ERROR)
      case Rejected(n) =>
        var blob := secret.value.(counters := n);
        var stored := record.(keyMain := Some(Sealed(entry.passSHA, blob)));
        (s.(memory := s.memory[u := entry.(secret := Some(blob))],
            records := if w.save.Written? then s.records[u := stored] else s.records), BAD_REQUEST)
      case Accepted(n) =>
        var stored := record.(keyMain := Some(Sealed(entry.passSHA, secret.value.(counters := n))));
        Issued(s.(memory := s.memory - {u}, records := if w.save.Written? then s.records[u := stored] else s.records),
               u, cfg.verified, None, w)
  }

  function Deactivated(cfg: Config, s: State, c: Token, password: string, w: World): (State, int) {
    var u := c.auth;
    if c.twoFA == "" || c.twoFA == cfg.off then (s, OK)
    else if !w.readOk then (s, INTERNAL_ERROR)
    else if u !in s.passwords then (s, UNAUTHORIZED)
    else if password != s.passwords[u] then (s, BAD_REQUEST)
    else
      var status := if u in s.records then s.records[u].status else "";
      var active := u in s.records && status == cfg.on;
      if active && w.save.Refused? then (s, INTERNAL_ERROR)
      else
        var records := if active && w.save.Written? then s.records[u := Record(cfg.off, None, None, None, None)] else s.records;
        var claim := if active then cfg.off else if status == "" || status == cfg.off then status else c.twoFA;
        Issued(s.(records := records, codes := if w.delete.Written? then WithoutCodesOf(s.codes, u) else s.codes), u, claim, None, w)
  }

  function CodesCreated(cfg: Config, s: State, c: Token, password: string, texts: seq<string>, w: World): (State, int) {
    var u := c.auth;
    if !Known(s, u) || c.twoFA != cfg.verified then (s, UNAUTHORIZED)
    else if !w.readOk then (s, INTERNAL_ERROR)
    else if password != s.passwords[u] then (s, BAD_REQUEST)
    else if CodesOf(s.codes, u) != [] && w.delete.Refused? then (s, INTERNAL_ERROR)
    else
      var kept := if w.delete.Written? then WithoutCodesOf(s.codes, u) else s.codes;
      if w.save.Refused? then (s.(codes := kept), INTERNAL_ERROR)
      else if w.save.Lost? then (s.(codes := kept), OK)
      else (s.(codes := kept + NewCodes(u, texts, s.nextCode), nextCode := s.nextCode + |texts|), OK)
  }

  function CodeUsed(cfg: Config, s: State, c: Token, code: string, w: World): (State, int) {
    var u := c.auth;
    if !Known(s, u) then (s, UNAUTHORIZED)
    else if c.twoFA == cfg.verified then (s, OK)
    else if c.twoFA != cfg.on || TrimSpace(code) == "" then (s, BAD_REQUEST)
    else if !w.readOk then (s, INTERNAL_ERROR)
    else
      var found := Matching(CodesOf(s.codes, u), Hash(TrimSpace(code)));
      if found.None? then (s, BAD_REQUEST)
      else if w.delete.Refused? then (s, INTERNAL_ERROR)
      else
        var kept := if w.delete.Written? then WithoutCode(s.codes, found.value.id) else s.codes;
        Issued(s.(codes := kept), u, cfg.verified, None, w)
  }

  /** account is the one the e-mail address belongs to; barred when its address still needs verification. */
  function LoggedIn(cfg: Config, s: State, account: Option<nat>, barred: bool, password: string, w: World): (State, int) {
    if account.None? || account.value !in s.passwords then (s, NOT_FOUND)
    else
      var u := account.value;
      if barred || password != s.passwords[u] then (s, UNAUTHORIZED)
      else if cfg.must2FA && !w.readOk then (s, INTERNAL_ERROR)
      else if cfg.must2FA && u in s.records then
        var status := s.records[u].status;
        Issued(if status == cfg.on then s.(memory := s.memory[u := Entry(Hash(password), None)]) else s, u, status, None, w)
      else Issued(s, u, "", None, w)
  }

  function Refreshed(s: State, token: nat, w: World): (State, int)
    requires token < |s.tokens|
  {
    var c := s.tokens[token];
    if !Known(s, c.auth) then (s, UNAUTHORIZED) else Issued(s, c.auth, c.twoFA, Some(token), w)
  }

  function PasswordUpdated(cfg: Config, s: State, c: Token, password: string, passNew: string, passRepeat: string, w: World): (State, int) {
    var u := c.auth;
    if !Known(s, u) then (s, UNAUTHORIZED)
    else if |passNew| < cfg.minLength || passNew != passRepeat then (s, BAD_REQUEST)
    else if !w.readOk then (s, INTERNAL_ERROR)
    else if password != s.passwords[u] then (s, BAD_REQUEST)
    else
      if !(cfg.must2FA && u in s.records && s.records[u].status == cfg.on) then PasswordSaved(s, u, passNew, w)
      else
        var secret := Opened(s.records[u].keyMain, Hash(password));
        if secret.None? then (s, INTERNAL_ERROR) else Rewrapped(s, u, passNew, secret.value, w)
  }

  /** The last part of a change with two-factor on: the main key, then the password. */
  function Rewrapped(s: State, u: nat, passNew: string, secret: Blob, w: World): (State, int)
    requires u in s.records
  {
    match w.save
    case Refused => (s, INTERNAL_ERROR)
    case Lost => PasswordSaved(s, u, passNew, w)
    case Written =>
      var record := s.records[u].(keyMain := Some(Sealed(Hash(passNew), secret)));
      PasswordSaved(s.(records := s.records[u := record]), u, passNew, w)
  }

  /** The last part of both ways to change a password. */
  function PasswordSaved(s: State, u: nat, passNew: string, w: World): (State, int) {
    if w.saveAuth.Refused? then (s, INTERNAL_ERROR)
    else if w.saveAuth.Lost? then (s, OK)
    else (s.(passwords := s.passwords[u := passNew]), OK)
  }

  /** Both checks of the recovery key: it opens the UUID, and the UUID has the stored hash. */
  predicate KeyFits(cfg: Config, record: Record, typed: string) {
    var key := RemoveAllSpace(typed);
    var uuid := Opened(record.uuidEnc, Hash(key));
    |key| == cfg.digits && uuid.Some? && record.uuidSHA == Some(Hash(uuid.value))
  }

  /** account is the one the mailed secret code leads to. */
  function Recovered(cfg: Config, s: State, account: Option<nat>, passNew: string, passRepeat: string, typed: string,
                     key: string, uuid: string, w: World): (State, int) {
    if |passNew| < cfg.minLength || passNew != passRepeat then (s, BAD_REQUEST)
    else if account.None? then (s, UNAUTHORIZED)
    else if !w.readOk then (s, INTERNAL_ERROR)
    else if account.value !in s.passwords then (s, BAD_REQUEST)
    else
      var u := account.value;
      if !(cfg.must2FA && u in s.records && s.records[u].status == cfg.on) then PasswordSaved(s, u, passNew, w)
      else if !KeyFits(cfg, s.records[u], typed) then (s, UNAUTHORIZED)
      else
        var secret := Opened(s.records[u].keyBackup, Hash(RemoveAllSpace(typed)));
        if secret.None? then (s, INTERNAL_ERROR) else Renewed(cfg, s, u, passNew, secret.value, key, uuid, w)
  }

  /** The last part of a recovery with two-factor on: the whole row, the password and the new recovery key. */
  function Renewed(cfg: Config, s: State, u: nat, passNew: string, secret: Blob, key: string, uuid: string, w: World): (State, int) {
    match w.save
    case Refused => (s, INTERNAL_ERROR)
    case Lost => HandedOut(PasswordSaved(s, u, passNew, w), u, key)
    case Written => HandedOut(PasswordSaved(Enrolled(s, u, cfg.on, Hash(passNew), secret, key, uuid), u, passNew, w), u, key)
  }

  // ---- Handlers ------------------------------------------------------------

  class Service {
    const cfg: Config
    var passwords: map<nat, string>
    var records: map<nat, Record>
    var memory: map<nat, Entry>
    var codes: seq<BackupCode>
    var nextCode: nat
    var tokens: seq<Token>
    ghost var recovery: map<nat, string>
    ghost var given: map<nat, string>

    ghost function View(): State
      reads this
    {
      State(passwords, records, memory, codes, nextCode, tokens, recovery, given)
    }

    constructor (cfg: Config)
      ensures this.cfg == cfg && View() == State(map[], map[], map[], [], 1, [], map[], map[])
    {
      this.cfg := cfg;
      passwords, records, memory, codes, nextCode, tokens := map[], map[], map[], [], 1, [];
      recovery, given := map[], map[];
    }

    method Issue(u: nat, claim: string, parent: Option<nat>, w: World) returns (status: int)
      modifies this`tokens
      ensures (View(), status) == Issued(old(View()), u, claim, parent, w)
    {
      if !w.signOk { return INTERNAL_ERROR; }
      tokens := tokens + [Token(u, claim, parent)];
      status := OK;
    }

    method Setup2FA(c: Token, password: string, seed: nat, made: bool, w: World) returns (status: int)
      modifies this
      ensures (View(), status) == SetUp(cfg, old(View()), c, password, seed, made, w)
    {
      var u := c.auth;
      if u == 0 || u !in passwords { return UNAUTHORIZED; }
      if c.twoFA == cfg.verified { return OK; }
      if c.twoFA == cfg.on { return BAD_REQUEST; }
      if !w.readOk { return INTERNAL_ERROR; }
      if u in records && records[u].status == cfg.on { return BAD_REQUEST; }
      if password != passwords[u] { return BAD_REQUEST; }
      if !made { return INTERNAL_ERROR; }
      memory := memory[u := Entry(Hash(password), Some(Blob(seed, 0)))];
      status := CREATED;
    }

    method Activate2FA(c: Token, otp: string, check: Check, key: string, uuid: string, w: World) returns (status: int)
      modifies this
      ensures (View(), status) == Activated(cfg, old(View()), c, otp, check, key, uuid, w)
    {
      var u := c.auth;
      if u == 0 || u !in passwords { return UNAUTHORIZED; }
      if c.twoFA == cfg.verified { return BAD_REQUEST; }
      if c.twoFA == cfg.on { return BAD_REQUEST; }
      if u !in memory { return BAD_REQUEST; }
      var entry := memory[u];
      if |RemoveAllSpace(otp)| != cfg.digits { return BAD_REQUEST; }
      match Checked(entry.secret, check) {
        case Broken => return INTERNAL_ERROR;
        case Rejected(n) =>
          memory := memory[u := entry.(secret := Some(entry.secret.value.(counters := n)))];
          return BAD_REQUEST;
        case Accepted(n) =>
          var blob := entry.secret.value.(counters := n);
          if !w.readOk { return INTERNAL_ERROR; }
          if u in records && records[u].status == cfg.on {
            memory := memory - {u};
            return BAD_REQUEST;
          }
          var keyMain := Sealed(entry.passSHA, blob);
          var keyBackup := Sealed(Hash(key), blob);
          var uuidEnc := Sealed(Hash(key), uuid);
          if w.save.Refused? { return INTERNAL_ERROR; }
          if w.save.Written? {
            records := records[u := Record(cfg.on, Some(keyMain), Some(keyBackup), Some(uuidEnc), Some(Hash(uuid)))];
            recovery := recovery[u := key];
          }
          memory := memory - {u};
          status := Issue(u, cfg.verified, None, w);
          if status == OK { given := given[u := key]; }
      }
    }

    method Validate2FA(c: Token, otp: string, check: Check, w: World) returns (status: int)
      modifies this
      ensures (View(), status) == Validated(cfg, old(View()), c, otp, check, w)
    {
      var u := c.auth;
      if u == 0 || u !in passwords { return UNAUTHORIZED; }
      if c.twoFA == cfg.verified { return OK; }
      if c.twoFA != cfg.on { return BAD_REQUEST; }
      if u !in memory { return BAD_REQUEST; }
      var entry := memory[u];
      if |RemoveAllSpace(otp)| != cfg.digits { return BAD_REQUEST; }
      var secret := entry.secret;
      if !w.readOk { return INTERNAL_ERROR; }
      if u !in records { return BAD_REQUEST; }
      var record := records[u];
      if record.status != cfg.on { return BAD_REQUEST; }
      if secret.None? {
        secret := Opened(record.keyMain, entry.passSHA);
        if secret.None? { return INTERNAL_ERROR; }
      }
      match check {
        case Broken => return INTERNAL_ERROR;
        case Rejected(n) =>
          var blob := secret.value.(counters := n);
          memory := memory[u := entry.(secret := Some(blob))];
          record := record.(keyMain := Some(Sealed(entry.passSHA, blob)));
          if w.save.Written? { records := records[u := record]; }
          return BAD_REQUEST;
        case Accepted(n) =>
          record := record.(keyMain := Some(Sealed(entry.passSHA, secret.value.(counters := n))));
          if w.save.Written? { records := records[u := record]; }
          memory := memory - {u};
          status := Issue(u, cfg.verified, None, w);
      }
    }

    method Deactivate2FA(c: Token, password: string, w: World) returns (status: int)
      modifies this
      ensures (View(), status) == Deactivated(cfg, old(View()), c, password, w)
    {
      var u := c.auth;
      if c.twoFA == "" || c.twoFA == cfg.off { return OK; }
      if !w.readOk { return INTERNAL_ERROR; }
      if u !in passwords { return UNAUTHORIZED; }
      if password != passwords[u] { return BAD_REQUEST; }
      var claim := c.twoFA;
      if u !in records {
        claim := "";
      } else {
        var record := records[u];
        if record.status == "" || record.status == cfg.off {
          claim := record.status;
        }
        if record.status == cfg.on {
          if w.save.Refused? { return INTERNAL_ERROR; }
          if w.save.Written? { records := records[u := Record(cfg.off, None, None, None, None)]; }
          claim := cfg.off;
        }
      }
      if w.delete.Written? { codes := WithoutCodesOf(codes, u); }
      status := Issue(u, claim, None, w);
    }

    method CreateBackup2FA(c: Token, password: string, texts: seq<string>, w: World) returns (status: int)
      modifies this
      ensures (View(), status) == CodesCreated(cfg, old(View()), c, password, texts, w)
    {
      var u := c.auth;
      if u == 0 || u !in passwords { return UNAUTHORIZED; }
      if c.twoFA != cfg.verified { return UNAUTHORIZED; }
      if !w.readOk { return INTERNAL_ERROR; }
      if password != passwords[u] { return BAD_REQUEST; }
      var hashes: seq<Hash> := [];
      for i := 0 to |texts|
        invariant |hashes| == i && forall j :: 0 <= j < i ==> hashes[j] == Hash(texts[j])
      {
        hashes := hashes + [Hash(texts[i])];
      }
      if CodesOf(codes, u) != [] {
        if w.delete.Refused? { return INTERNAL_ERROR; }
        if w.delete.Written? { codes := WithoutCodesOf(codes, u); }
      } else {
        NothingToDelete(codes, u);
      }
      var rows: seq<BackupCode> := [];
      for i := 0 to |hashes|
        invariant |rows| == i && forall j :: 0 <= j < i ==> rows[j] == BackupCode(nextCode + j, u, Hash(texts[j]))
      {
        rows := rows + [BackupCode(nextCode + i, u, hashes[i])];
      }
      if w.save.Refused? { return INTERNAL_ERROR; }
      if w.save.Lost? { return OK; }
      assert rows == NewCodes(u, texts, nextCode);
      codes := codes + rows;
      nextCode := nextCode + |texts|;
      status := OK;
    }

    method ValidateBackup2FA(c: Token, code: string, w: World) returns (status: int)
      modifies this
      ensures (View(), status) == CodeUsed(cfg, old(View()), c, code, w)
    {
      var u := c.auth;
      if u == 0 || u !in passwords { return UNAUTHORIZED; }
      if c.twoFA == cfg.verified { return OK; }
      if c.twoFA != cfg.on { return BAD_REQUEST; }
      var text := TrimSpace(code);
      if text == "" { return BAD_REQUEST; }
      if !w.readOk { return INTERNAL_ERROR; }
      var mine := CodesOf(codes, u);
      if |mine| == 0 { return BAD_REQUEST; }
      var hash := Hash(text);
      var valid, validId := false, 0;
      var i := 0;
      while i < |mine| && !valid
        invariant 0 <= i <= |mine|
        invariant !valid ==> Matching(mine, hash) == Matching(mine[i..], hash)
        invariant valid ==> Matching(mine, hash).Some? && Matching(mine, hash).value.id == validId
        decreases |mine| - i
      {
        if mine[i].hash == hash {
          valid, validId := true, mine[i].id;
        }
        assert mine[i..][1..] == mine[i + 1..];
        i := i + 1;
      }
      if !valid { return BAD_REQUEST; }
      if w.delete.Refused? { return INTERNAL_ERROR; }
      if w.delete.Written? { codes := WithoutCode(codes, validId); }
      status := Issue(u, cfg.verified, None, w);
    }

    method Login(account: Option<nat>, barred: bool, password: string, w: World) returns (status: int)
      modifies this
      ensures (View(), status) == LoggedIn(cfg, old(View()), account, barred, password, w)
    {
      if account.None? || account.value !in passwords { return NOT_FOUND; }
      var u := account.value;
      if barred { return UNAUTHORIZED; }
      if password != passwords[u] { return UNAUTHORIZED; }
      var claim := "";
      if cfg.must2FA {
        if !w.readOk { return INTERNAL_ERROR; }
        if u in records {
          claim := records[u].status;
          if records[u].status == cfg.on {
            memory := memory[u := Entry(Hash(password), None)];
          }
        }
      }
      status := Issue(u, claim, None, w);
    }

    method Refresh(token: nat, w: World) returns (status: int)
      requires token < |tokens|
      modifies this
      ensures (View(), status) == Refreshed(old(View()), token, w)
    {
      var c := tokens[token];
      if c.auth == 0 || c.auth !in passwords { return UNAUTHORIZED; }
      status := Issue(c.auth, c.twoFA, Some(token), w);
    }

    method PasswordUpdate(c: Token, password: string, passNew: string, passRepeat: string, w: World) returns (status: int)
      modifies this
      ensures (View(), status) == PasswordUpdated(cfg, old(View()), c, password, passNew, passRepeat, w)
    {
      var u := c.auth;
      if u == 0 || u !in passwords { return UNAUTHORIZED; }
      if |passNew| < cfg.minLength { return BAD_REQUEST; }
      if passNew != passRepeat { return BAD_REQUEST; }
      if !w.readOk { return INTERNAL_ERROR; }
      if password != passwords[u] { return BAD_REQUEST; }
      var process2FA := cfg.must2FA && u in records && records[u].status == cfg.on;
      if process2FA {
        var record := records[u];
        var secret := Opened(record.keyMain, Hash(password));
        if secret.None? { return INTERNAL_ERROR; }
        record := record.(keyMain := Some(Sealed(Hash(passNew), secret.value)));
        if w.save.Refused? { return INTERNAL_ERROR; }
        if w.save.Written? { records := records[u := record]; }
      }
      if w.saveAuth.Refused? { return INTERNAL_ERROR; }
      if w.saveAuth.Written? { passwords := passwords[u := passNew]; }
      status := OK;
    }

    method PasswordRecover(account: Option<nat>, passNew: string, passRepeat: string, typed: string,
                           key: string, uuid: string, w: World) returns (status: int)
      modifies this
      ensures (View(), status) == Recovered(cfg, old(View()), account, passNew, passRepeat, typed, key, uuid, w)
    {
      if |passNew| < cfg.minLength { return BAD_REQUEST; }
      if passNew != passRepeat { return BAD_REQUEST; }
      if account.None? { return UNAUTHORIZED; }
      if !w.readOk { return INTERNAL_ERROR; }
      if account.value !in passwords { return BAD_REQUEST; }
      var u := account.value;
      ghost var renewed := false;
      if cfg.must2FA {
        var text := RemoveAllSpace(typed);
        if u in records && records[u].status == cfg.on {
          var record := records[u];
          if |text| != cfg.digits { return UNAUTHORIZED; }
          var plain := Opened(record.uuidEnc, Hash(text));
          if plain.None? { return UNAUTHORIZED; }
          if Some(Hash(plain.value)) != record.uuidSHA { return UNAUTHORIZED; }
          var secret := Opened(record.keyBackup, Hash(text));
          if secret.None? { return INTERNAL_ERROR; }
          record := record.(keyBackup := Some(Sealed(Hash(key), secret.value)));
          record := record.(keyMain := Some(Sealed(Hash(passNew), secret.value)));
          record := record.(uuidEnc := Some(Sealed(Hash(key), uuid)), uuidSHA := Some(Hash(uuid)));
          if w.save.Refused? { return INTERNAL_ERROR; }
          if w.save.Written? {
            records := records[u := record];
            recovery := recovery[u := key];
          }
          renewed := true;
        }
      }
      if w.saveAuth.Refused? { return INTERNAL_ERROR; }
      if w.saveAuth.Written? { passwords := passwords[u := passNew]; }
      if renewed { given := given[u := key]; }
      status := OK;
    }
  }
}
