/**
 The contents of the configuration store after any run. Records, index entries and
 session values share one ordered key space.
 */
module ConfigHistory {
  import opened Clock

  datatype ConfigType = Device | Mpesa | Radius | Database

  function TypeName(kind: ConfigType): string {
    match kind
    case Device => "device"
    case Mpesa => "mpesa"
    case Radius => "radius"
    case Database => "database"
  }

  datatype Config = Config(kind: ConfigType, id: string, isp: string, body: string)

  /** A session value and the second in which it expires. */
  datatype Timed = Timed(data: string, expires: int)

  /** Stored bytes: a JSON record, the id an index entry holds, or a session value. */
  datatype Value = Record(config: Config) | Reference(id: string) | Session(value: Timed)

  /** The second an entry saved at an instant expires in, given its time to live. */
  function ExpiryOf(now: int, ttl: int): int {
    (now + ttl) / SECOND
  }

  /** The store keeps expiry as an unsigned number in which zero stands for never. */
  predicate Live(value: Timed, now: int) {
    value.expires <= 0 || now / SECOND < value.expires
  }

  type Db = map<string, Value>

  function Key(kind: ConfigType, id: string): string {
    TypeName(kind) + ":" + id
  }

  function IspPrefix(isp: string, kind: ConfigType): string {
    "isp" + ":" + (isp + ":" + (TypeName(kind) + ":"))
  }

  function IspKey(isp: string, kind: ConfigType, id: string): string {
    IspPrefix(isp, kind) + id
  }

  function SessionKey(session: string, key: string): string {
    "session" + ":" + (session + ":" + key)
  }

  // ---- The key encoding ----------------------------------------------------

  predicate NoColon(s: string) {
    ':' !in s
  }

  /** The text before the first colon and the text after it can be told apart. */
  lemma FirstField(a: string, x: string, b: string, y: string)
    requires NoColon(a) && NoColon(b) && a + ":" + x == b + ":" + y
    ensures a == b && x == y
  {
    var s := a + ":" + x;
    var t := b + ":" + y;
    assert s[|a|] == ':' && t[|b|] == ':';
    assert forall i :: 0 <= i < |a| ==> s[i] == a[i] && a[i] in a;
    assert forall i :: 0 <= i < |b| ==> t[i] == b[i] && b[i] in b;
    assert |a| == |b|;
    assert a == s[..|a|] && b == t[..|b|] && x == s[|a| + 1..] && y == t[|b| + 1..];
  }

  lemma TypeNames(k: ConfigType, k': ConfigType)
    ensures NoColon(TypeName(k)) && TypeName(k) != "isp" && TypeName(k) != "session"
    ensures TypeName(k) == TypeName(k') ==> k == k'
  {
  }

  lemma KeyInjective(k: ConfigType, id: string, k': ConfigType, id': string)
    requires Key(k, id) == Key(k', id')
    ensures k == k' && id == id'
  {
    TypeNames(k, k');
    TypeNames(k', k);
    FirstField(TypeName(k), id, TypeName(k'), id');
  }

  /** For example: */
  lemma KeyFormats()
    ensures Key(Device, "5") == "device:5" && Key(Mpesa, "5") == "mpesa:5" && Key(Radius, "5") == "radius:5" && Key(Database, "5") == "database:5"
    ensures IspKey("acme", Device, "5") == "isp:acme:device:5" && SessionKey("s", "k") == "session:s:k"
  {
  }

  lemma KeyIsNoIspKey(k: ConfigType, id: string, isp: string, k': ConfigType, id': string)
    ensures Key(k, id) != IspKey(isp, k', id')
  {
    if Key(k, id) == IspKey(isp, k', id') {
      TypeNames(k, k);
      var rest := isp + ":" + (TypeName(k') + ":");
      assert IspKey(isp, k', id') == "isp" + ":" + (rest + id');
      FirstField(TypeName(k), id, "isp", rest + id');
    }
  }

  lemma SessionKeysApart(session: string, key: string, k: ConfigType, id: string, isp: string)
    ensures SessionKey(session, key) != Key(k, id) && SessionKey(session, key) != IspKey(isp, k, id)
    ensures !(IspPrefix(isp, k) <= SessionKey(session, key))
  {
    TypeNames(k, k);
    var tail := session + ":" + key;
    if SessionKey(session, key) == Key(k, id) {
      FirstField("session", tail, TypeName(k), id);
    }
    var p, s := IspPrefix(isp, k), SessionKey(session, key);
    assert p[0] == 'i' && s[0] == 's';
  }

  /** One colon-free field can be taken off the front of both sides. */
  lemma FieldPrefix(a: string, x: string, b: string, y: string)
    requires NoColon(a) && NoColon(b) && a + ":" + x <= b + ":" + y
    ensures a == b && x <= y
  {
    var s, t := a + ":" + x, b + ":" + y;
    var rest := t[|s|..];
    assert t == a + ":" + (x + rest);
    FirstField(a, x + rest, b, y);
  }

  lemma NestedKey(isp: string, k: ConfigType, id: string)
    ensures IspKey(isp, k, id) == "isp" + ":" + (isp + ":" + (TypeName(k) + ":" + id))
  {
    var name := TypeName(k);
    assert isp + ":" + (name + ":") + id == isp + ":" + (name + ":" + id);
  }

  lemma PeelTag(isp: string, k: ConfigType, isp': string, k': ConfigType, id': string)
    requires IspPrefix(isp, k) <= IspKey(isp', k', id')
    ensures isp + ":" + (TypeName(k) + ":") <= isp' + ":" + (TypeName(k') + ":" + id')
  {
    NestedKey(isp', k', id');
    FieldPrefix("isp", isp + ":" + (TypeName(k) + ":"), "isp", isp' + ":" + (TypeName(k') + ":" + id'));
  }

  lemma PeelType(k: ConfigType, k': ConfigType, id': string)
    requires TypeName(k) + ":" <= TypeName(k') + ":" + id'
    ensures k == k'
  {
    TypeNames(k, k');
    TypeNames(k', k);
    assert TypeName(k) + ":" + "" == TypeName(k) + ":";
    FieldPrefix(TypeName(k), "", TypeName(k'), id');
  }

  /** An index prefix of a colon-free ISP is a prefix of keys of the same ISP and type only, among colon-free ISPs. */
  lemma IspKeyParts(isp: string, k: ConfigType, isp': string, k': ConfigType, id': string)
    requires NoColon(isp) && NoColon(isp') && IspPrefix(isp, k) <= IspKey(isp', k', id')
    ensures isp == isp' && k == k'
  {
    PeelTag(isp, k, isp', k', id');
    FieldPrefix(isp, TypeName(k) + ":", isp', TypeName(k') + ":" + id');
    PeelType(k, k', id');
  }

  lemma IndexKeysApart(isp: string, k: ConfigType, k': ConfigType, id': string, session: string, key: string)
    ensures !(IspPrefix(isp, k) <= Key(k', id')) && !(IspPrefix(isp, k) <= SessionKey(session, key))
  {
    SessionKeysApart(session, key, k, "", isp);
    var p := IspPrefix(isp, k);
    assert p[0] == 'i';
    assert Key(k', id')[0] == TypeName(k')[0] != 'i';
  }

  // ---- Runs ----------------------------------------------------------------

  datatype Event =
    | Save(config: Config, first: bool, second: bool)
    | Delete(kind: ConfigType, id: string, ok: bool)
    | SaveSession(session: string, key: string, data: string, now: int, ttl: int, ok: bool)
    | DeleteSession(session: string, key: string, ok: bool)

  /** The record and its index entry are written in two transactions; either may fail. */
  function Saved(db: Db, c: Config, first: bool, second: bool): Db {
    if !first then db
    else
      var stored := db[Key(c.kind, c.id) := Record(c)];
      if c.isp != "" && second then stored[IspKey(c.isp, c.kind, c.id) := Reference(c.id)] else stored
  }

  function Applied(db: Db, e: Event): Db {
    match e
    case Save(c, first, second) => Saved(db, c, first, second)
    case Delete(kind, id, ok) => if ok then db - {Key(kind, id)} else db
    case SaveSession(s, k, data, now, ttl, ok) => if ok then db[SessionKey(s, k) := Session(Timed(data, ExpiryOf(now, ttl)))] else db
    case DeleteSession(s, k, ok) => if ok then db - {SessionKey(s, k)} else db
  }

  function RunOf(events: seq<Event>): Db {
    if events == [] then map[] else Applied(RunOf(events[..|events| - 1]), events[|events| - 1])
  }

  /**
   What a run amounts to: the records last saved and not deleted, the id last written
   under every index key, and the session values last saved and not deleted, expired or not.
   */
  datatype History = History(records: map<(ConfigType, string), Config>, indexed: map<string, string>, sessions: map<string, Timed>)

  const NOTHING := History(map[], map[], map[])

  function Indexed(indexed: map<string, string>, c: Config): map<string, string> {
    indexed[IspKey(c.isp, c.kind, c.id) := c.id]
  }

  function Extended(h: History, e: Event): History {
    match e
    case Save(c, first, second) =>
      if !first then h
      else h.(records := h.records[(c.kind, c.id) := c],
              indexed := if c.isp != "" && second then Indexed(h.indexed, c) else h.indexed)
    case Delete(kind, id, ok) => if ok then h.(records := h.records - {(kind, id)}) else h
    case SaveSession(s, k, data, now, ttl, ok) => if ok then h.(sessions := h.sessions[SessionKey(s, k) := Timed(data, ExpiryOf(now, ttl))]) else h
    case DeleteSession(s, k, ok) => if ok then h.(sessions := h.sessions - {SessionKey(s, k)}) else h
  }

  function HistoryOf(events: seq<Event>): History {
    if events == [] then NOTHING
    else Extended(HistoryOf(events[..|events| - 1]), events[|events| - 1])
  }

  lemma Snoc(events: seq<Event>, e: Event)
    ensures RunOf(events + [e]) == Applied(RunOf(events), e)
    ensures HistoryOf(events + [e]) == Extended(HistoryOf(events), e)
  {
    assert (events + [e])[..|events|] == events;
  }

  // ---- The store is what its history says ----------------------------------

  /** The four areas of the key space, and what they hold. */
  ghost predicate RecordsHold(db: Db, h: History) {
    && (forall kind, id :: Key(kind, id) in db <==> (kind, id) in h.records)
    && (forall kind, id :: (kind, id) in h.records ==>
          && db[Key(kind, id)] == Record(h.records[(kind, id)])
          && h.records[(kind, id)].kind == kind && h.records[(kind, id)].id == id)
  }

  ghost predicate IndexHolds(db: Db, h: History) {
    && (forall isp, kind, id :: IspKey(isp, kind, id) in db <==> IspKey(isp, kind, id) in h.indexed)
    && (forall key :: key in h.indexed ==> IsIndexKey(key) && key in db && db[key] == Reference(h.indexed[key]))
  }

  ghost predicate SessionsHold(db: Db, h: History) {
    && (forall s, k :: SessionKey(s, k) in db <==> SessionKey(s, k) in h.sessions)
    && (forall key :: key in h.sessions ==> IsSessionKey(key) && key in db && db[key] == Session(h.sessions[key]))
  }

  ghost predicate IsRecordKey(key: string) {
    exists kind, id :: key == Key(kind, id)
  }

  ghost predicate IsIndexKey(key: string) {
    exists isp, kind, id :: key == IspKey(isp, kind, id)
  }

  ghost predicate IsSessionKey(key: string) {
    exists s, k :: key == SessionKey(s, k)
  }

  ghost predicate Describes(db: Db, h: History) {
    && RecordsHold(db, h) && IndexHolds(db, h) && SessionsHold(db, h)
    && forall key :: key in db ==> IsRecordKey(key) || IsIndexKey(key) || IsSessionKey(key)
  }

  lemma AreasApart(key: string)
    ensures !(IsRecordKey(key) && IsIndexKey(key))
    ensures !(IsRecordKey(key) && IsSessionKey(key)) && !(IsIndexKey(key) && IsSessionKey(key))
  {
    if IsRecordKey(key) {
      var kind, id :| key == Key(kind, id);
      if isp, kind', id' :| key == IspKey(isp, kind', id') {
        KeyIsNoIspKey(kind, id, isp, kind', id');
      }
      if s, k :| key == SessionKey(s, k) {
        SessionKeysApart(s, k, kind, id, "");
      }
    }
    if isp, kind, id :| key == IspKey(isp, kind, id) {
      if s, k :| key == SessionKey(s, k) {
        SessionKeysApart(s, k, kind, id, isp);
      }
    }
  }

  /** A change to one key leaves alone every area the key is not in. */
  ghost predicate DiffersAt(db: Db, db': Db, key: string) {
    forall k :: k != key ==> (k in db <==> k in db') && (k in db ==> db'[k] == db[k])
  }

  lemma RecordsUntouched(db: Db, db': Db, h: History, h': History, key: string)
    requires RecordsHold(db, h) && DiffersAt(db, db', key) && !IsRecordKey(key) && h'.records == h.records
    ensures RecordsHold(db', h')
  {
    forall kind, id ensures Key(kind, id) != key {}
  }

  lemma IndexUntouched(db: Db, db': Db, h: History, h': History, key: string)
    requires IndexHolds(db, h) && DiffersAt(db, db', key) && !IsIndexKey(key) && h'.indexed == h.indexed
    ensures IndexHolds(db', h')
  {
    forall isp, kind, id ensures IspKey(isp, kind, id) != key {}
    forall k | k in h'.indexed ensures IsIndexKey(k) && k in db' && db'[k] == Reference(h'.indexed[k]) {
      assert k != key;
    }
  }

  lemma SessionsUntouched(db: Db, db': Db, h: History, h': History, key: string)
    requires SessionsHold(db, h) && DiffersAt(db, db', key) && !IsSessionKey(key) && h'.sessions == h.sessions
    ensures SessionsHold(db', h')
  {
    forall s, k ensures SessionKey(s, k) != key {}
    forall k | k in h'.sessions ensures IsSessionKey(k) && k in db' && db'[k] == Session(h'.sessions[k]) {
      assert k != key;
    }
  }

  lemma RecordWritten(db: Db, h: History, c: Config)
    requires Describes(db, h)
    ensures Describes(db[Key(c.kind, c.id) := Record(c)], h.(records := h.records[(c.kind, c.id) := c]))
  {
    var key := Key(c.kind, c.id);
    var db', h' := db[key := Record(c)], h.(records := h.records[(c.kind, c.id) := c]);
    assert IsRecordKey(key);
    AreasApart(key);
    IndexUntouched(db, db', h, h', key);
    SessionsUntouched(db, db', h, h', key);
    forall kind, id ensures Key(kind, id) in db' <==> (kind, id) in h'.records
      ensures Key(kind, id) == key ==> (kind, id) == (c.kind, c.id)
    {
      if Key(kind, id) == key {
        KeyInjective(kind, id, c.kind, c.id);
      }
    }
    assert RecordsHold(db', h');
  }

  lemma RecordDeleted(db: Db, h: History, kind: ConfigType, id: string)
    requires Describes(db, h)
    ensures Describes(db - {Key(kind, id)}, h.(records := h.records - {(kind, id)}))
  {
    var key := Key(kind, id);
    var db', h' := db - {key}, h.(records := h.records - {(kind, id)});
    assert IsRecordKey(key);
    AreasApart(key);
    IndexUntouched(db, db', h, h', key);
    SessionsUntouched(db, db', h, h', key);
    forall kind', id' ensures Key(kind', id') in db' <==> (kind', id') in h'.records {
      if Key(kind', id') == key {
        KeyInjective(kind', id', kind, id);
      }
    }
    assert RecordsHold(db', h');
  }

  lemma ReferenceWritten(db: Db, h: History, c: Config)
    requires Describes(db, h)
    ensures Describes(db[IspKey(c.isp, c.kind, c.id) := Reference(c.id)], h.(indexed := Indexed(h.indexed, c)))
  {
    var key := IspKey(c.isp, c.kind, c.id);
    var db', h' := db[key := Reference(c.id)], h.(indexed := Indexed(h.indexed, c));
    assert IsIndexKey(key);
    AreasApart(key);
    RecordsUntouched(db, db', h, h', key);
    SessionsUntouched(db, db', h, h', key);
    assert IndexHolds(db', h');
  }

  lemma SessionWritten(db: Db, h: History, s: string, k: string, data: Timed)
    requires Describes(db, h)
    ensures Describes(db[SessionKey(s, k) := Session(data)], h.(sessions := h.sessions[SessionKey(s, k) := data]))
  {
    var key := SessionKey(s, k);
    var db', h' := db[key := Session(data)], h.(sessions := h.sessions[key := data]);
    assert IsSessionKey(key);
    AreasApart(key);
    RecordsUntouched(db, db', h, h', key);
    IndexUntouched(db, db', h, h', key);
    assert SessionsHold(db', h');
  }

  lemma SessionDeleted(db: Db, h: History, s: string, k: string)
    requires Describes(db, h)
    ensures Describes(db - {SessionKey(s, k)}, h.(sessions := h.sessions - {SessionKey(s, k)}))
  {
    var key := SessionKey(s, k);
    var db', h' := db - {key}, h.(sessions := h.sessions - {key});
    assert IsSessionKey(key);
    AreasApart(key);
    RecordsUntouched(db, db', h, h', key);
    IndexUntouched(db, db', h, h', key);
    assert SessionsHold(db', h');
  }

  lemma StepDescribed(db: Db, h: History, e: Event)
    requires Describes(db, h)
    ensures Describes(Applied(db, e), Extended(h, e))
  {
    match e
    case Save(c, first, second) =>
      if first {
        RecordWritten(db, h, c);
        if c.isp != "" && second {
          ReferenceWritten(db[Key(c.kind, c.id) := Record(c)], h.(records := h.records[(c.kind, c.id) := c]), c);
        }
      }
    case Delete(kind, id, _) => RecordDeleted(db, h, kind, id);
    case SaveSession(s, k, data, now, ttl, _) => SessionWritten(db, h, s, k, Timed(data, ExpiryOf(now, ttl)));
    case DeleteSession(s, k, _) => SessionDeleted(db, h, s, k);
  }

  /** After every run, faults included, the store is what its history describes. */
  lemma {:induction false} RunDescribed(events: seq<Event>)
    ensures Describes(RunOf(events), HistoryOf(events))
  {
    if events != [] {
      RunDescribed(events[..|events| - 1]);
      StepDescribed(RunOf(events[..|events| - 1]), HistoryOf(events[..|events| - 1]), events[|events| - 1]);
    }
  }

  // ---- Session values last until they expire -------------------------------

  predicate Touches(e: Event, key: string) {
    (e.SaveSession? || e.DeleteSession?) && e.ok && SessionKey(e.session, e.key) == key
  }

  lemma {:induction false} SessionStays(events: seq<Event>, more: seq<Event>, key: string)
    requires forall i :: 0 <= i < |more| ==> !Touches(more[i], key)
    ensures key in HistoryOf(events + more).sessions <==> key in HistoryOf(events).sessions
    ensures key in HistoryOf(events).sessions ==> HistoryOf(events + more).sessions[key] == HistoryOf(events).sessions[key]
  {
    if more == [] {
      assert events + more == events;
    } else {
      var init, e := more[..|more| - 1], more[|more| - 1];
      SessionStays(events, init, key);
      Snoc(events + init, e);
      assert events + more == (events + init) + [e];
      assert !Touches(e, key);
    }
  }

  /** A value that was saved and not touched since is found exactly until the second its time to live ends in. */
  lemma SessionLasts(events: seq<Event>, session: string, key: string, data: string, now: int, ttl: int, more: seq<Event>, at: int)
    requires forall i :: 0 <= i < |more| ==> !Touches(more[i], SessionKey(session, key))
    requires now + ttl >= SECOND
    ensures var k, h := SessionKey(session, key), HistoryOf(events + [SaveSession(session, key, data, now, ttl, true)] + more);
            && k in h.sessions && h.sessions[k].data == data
            && (Live(h.sessions[k], at) <==> at < now + ttl - (now + ttl) % SECOND)
  {
    Snoc(events, SaveSession(session, key, data, now, ttl, true));
    SessionStays(events + [SaveSession(session, key, data, now, ttl, true)], more, SessionKey(session, key));
    var e := now + ttl;
    assert e == e / SECOND * SECOND + e % SECOND && at == at / SECOND * SECOND + at % SECOND;
  }
}
