/** The configuration store, and its listing by ISP. */
module ConfigStore {
  import opened Wrappers
  import opened KeyOrder
  import opened ConfigHistory
  import opened Listings

  /** The store, with the log of all calls so far. */
  class Store {
    var db: Db
    ghost var log: seq<Event>

    ghost predicate Valid()
      reads this
    {
      db == RunOf(log)
    }

    constructor ()
      ensures Valid() && log == []
    {
      db := map[];
      log := [];
    }

    method SaveConfig(c: Config, first: bool, second: bool) returns (ok: bool)
      requires Valid()
      modifies this
      ensures Valid() && log == old(log) + [Save(c, first, second)]
      ensures Describes(db, Extended(HistoryOf(old(log)), Save(c, first, second)))
      ensures ok <==> first && (c.isp == "" || second)
    {
      Snoc(log, Save(c, first, second));
      log := log + [Save(c, first, second)];
      RunDescribed(log);
      if !first { return false; }
      db := db[Key(c.kind, c.id) := Record(c)];
      if c.isp != "" {
        if !second { return false; }
        db := db[IspKey(c.isp, c.kind, c.id) := Reference(c.id)];
      }
      ok := true;
    }

    /** The index entry is left behind. */
    method DeleteConfig(kind: ConfigType, id: string, ok: bool)
      requires Valid()
      modifies this
      ensures Valid() && log == old(log) + [Delete(kind, id, ok)]
      ensures Describes(db, Extended(HistoryOf(old(log)), Delete(kind, id, ok)))
    {
      Snoc(log, Delete(kind, id, ok));
      log := log + [Delete(kind, id, ok)];
      RunDescribed(log);
      if ok { db := db - {Key(kind, id)}; }
    }

    method SaveSessionValue(session: string, key: string, data: string, now: int, ttl: int, ok: bool)
      requires Valid()
      modifies this
      ensures Valid() && log == old(log) + [SaveSession(session, key, data, now, ttl, ok)]
      ensures Describes(db, Extended(HistoryOf(old(log)), SaveSession(session, key, data, now, ttl, ok)))
    {
      Snoc(log, SaveSession(session, key, data, now, ttl, ok));
      log := log + [SaveSession(session, key, data, now, ttl, ok)];
      RunDescribed(log);
      if ok { db := db[SessionKey(session, key) := Session(Timed(data, ExpiryOf(now, ttl)))]; }
    }

    method DeleteSessionValue(session: string, key: string, ok: bool)
      requires Valid()
      modifies this
      ensures Valid() && log == old(log) + [DeleteSession(session, key, ok)]
      ensures Describes(db, Extended(HistoryOf(old(log)), DeleteSession(session, key, ok)))
    {
      Snoc(log, DeleteSession(session, key, ok));
      log := log + [DeleteSession(session, key, ok)];
      RunDescribed(log);
      if ok { db := db - {SessionKey(session, key)}; }
    }

    /** What was last saved under the type and id and not deleted since. */
    method GetConfig(kind: ConfigType, id: string) returns (c: Option<Config>)
      requires Valid()
      ensures var h := HistoryOf(log); c == if (kind, id) in h.records then Some(h.records[(kind, id)]) else None
    {
      RunDescribed(log);
      var key := Key(kind, id);
      if key !in db { return None; }
      c := Some(db[key].config);
    }

    /** What was last saved under the session's key and not deleted since, unless it has expired. */
    method GetSessionValue(session: string, key: string, now: int) returns (data: Option<string>)
      requires Valid()
      ensures var h, k := HistoryOf(log), SessionKey(session, key);
              data == if k in h.sessions && Live(h.sessions[k], now) then Some(h.sessions[k].data) else None
    {
      RunDescribed(log);
      if SessionKey(session, key) !in db { return None; }
      var value := db[SessionKey(session, key)].value;
      if !Live(value, now) { return None; }
      data := Some(value.data);
    }

    /** The next key of the cursor: the least one that is not before from, or after it. */
    method Following(from: string, strictly: bool) returns (k: Option<string>)
      ensures IsNext(db, from, strictly, k)
    {
      LessTotal(from, from);
      var keys := set other | other in db && AtMost(from, other) && (strictly ==> other != from);
      assert forall other :: other in db && AtMost(from, other) && (strictly ==> other != from) ==> other in keys;
      if keys == {} { return None; }
      var m := Least(keys);
      k := Some(m);
    }

    /**
     Appends to out the records that the index entries under the prefix lead to, in the
     order of the index keys, and compares as Listings says with the plain filter.
     */
    method ListConfigsByISP(isp: string, kind: ConfigType, out: seq<Config>) returns (result: seq<Config>)
      requires Valid()
      ensures result == out + Listing(HistoryOf(log), isp, kind)
      ensures ComparesWithFilter(log, isp, kind, out, result)
    {
      ghost var h := HistoryOf(log);
      var prefix := IspPrefix(isp, kind);
      var found: seq<Config> := [];
      var cursor := Following(prefix, false);
      CursorStart(log, db, h, isp, kind, cursor);
      while cursor.Some? && prefix <= cursor.value
        invariant cursor.Some? ==> cursor.value in db && AtMost(prefix, cursor.value)
        invariant found + Rest(h, isp, kind, cursor) == Listing(h, isp, kind)
        decreases if cursor.Some? then After(db, cursor.value) else {}
      {
        var key := cursor.value;
        IndexEntry(log, db, h, isp, kind, key);
        var configId := db[key].id;
        RecordAt(log, db, h, kind, configId);
        cursor := Following(key, true);
        AfterShrinks(db, key, cursor);
        if cursor.Some? && prefix != key {
          LessTransitive(prefix, key, cursor.value);
        }
        CursorStep(log, db, h, isp, kind, key, cursor, found);
        if Key(kind, configId) in db {
          found := found + [db[Key(kind, configId)].config];
        }
      }
      CursorEnd(h, prefix, cursor);
      result := out + found;
      ListingCompares(log, isp, kind, out, result);
    }
  }

  // ---- The cursor ----------------------------------------------------------

  ghost predicate IsNext(db: Db, from: string, strictly: bool, next: Option<string>) {
    && (next.Some? ==> next.value in db && AtMost(from, next.value) && (strictly ==> Less(from, next.value)))
    && forall other :: other in db && AtMost(from, other) && (strictly ==> other != from) ==>
         next.Some? && AtMost(next.value, other)
  }

  /** The index keys the cursor has yet to visit. */
  ghost function Remaining(h: History, prefix: string, cursor: Option<string>): set<string> {
    set key | key in h.indexed && prefix <= key && cursor.Some? && AtMost(cursor.value, key)
  }

  /** What the cursor has yet to append. */
  ghost function Rest(h: History, isp: string, kind: ConfigType, cursor: Option<string>): seq<Config> {
    Fetched(h, kind, Sorted(Remaining(h, IspPrefix(isp, kind), cursor)))
  }

  lemma RecordAt(log: seq<Event>, db: Db, h: History, kind: ConfigType, id: string)
    requires db == RunOf(log) && h == HistoryOf(log)
    ensures Key(kind, id) in db <==> (kind, id) in h.records
    ensures Key(kind, id) in db ==> db[Key(kind, id)] == Record(h.records[(kind, id)])
  {
    RunDescribed(log);
  }

  /** A key under an index prefix is an index entry. */
  lemma IndexEntry(log: seq<Event>, db: Db, h: History, isp: string, kind: ConfigType, key: string)
    requires db == RunOf(log) && h == HistoryOf(log) && key in db && IspPrefix(isp, kind) <= key
    ensures key in h.indexed && db[key] == Reference(h.indexed[key])
  {
    RunDescribed(log);
    if kind', id' :| key == Key(kind', id') {
      IndexKeysApart(isp, kind, kind', id', "", "");
    } else if isp', kind', id' :| key == IspKey(isp', kind', id') {
    } else {
      var s, k :| key == SessionKey(s, k);
      IndexKeysApart(isp, kind, Device, "", s, k);
    }
  }

  lemma CursorStart(log: seq<Event>, db: Db, h: History, isp: string, kind: ConfigType, cursor: Option<string>)
    requires db == RunOf(log) && h == HistoryOf(log) && IsNext(db, IspPrefix(isp, kind), false, cursor)
    ensures Remaining(h, IspPrefix(isp, kind), cursor) == IndexKeys(h, IspPrefix(isp, kind))
  {
    RunDescribed(log);
    var p := IspPrefix(isp, kind);
    forall key | key in IndexKeys(h, p) ensures key in Remaining(h, p, cursor) {
      PrefixIsLeast(p, key);
    }
  }

  /** Moving the cursor on passes exactly the key it was at. */
  lemma CursorStep(log: seq<Event>, db: Db, h: History, isp: string, kind: ConfigType, key: string, next: Option<string>,
                   found: seq<Config>)
    requires db == RunOf(log) && h == HistoryOf(log) && key in h.indexed && IspPrefix(isp, kind) <= key && IsNext(db, key, true, next)
    ensures (if (kind, h.indexed[key]) in h.records then found + [h.records[(kind, h.indexed[key])]] else found)
              + Rest(h, isp, kind, next) == found + Rest(h, isp, kind, Some(key))
  {
    var p := IspPrefix(isp, kind);
    RemainingStep(log, db, h, p, key, next);
    SortedCons(key, Remaining(h, p, Some(key)));
    FetchedCons(h, kind, key, Sorted(Remaining(h, p, next)), found);
  }

  lemma FetchedCons(h: History, kind: ConfigType, key: string, rest: seq<string>, found: seq<Config>)
    requires key in h.indexed
    ensures found + Fetched(h, kind, [key] + rest) ==
            (if (kind, h.indexed[key]) in h.records then found + [h.records[(kind, h.indexed[key])]] else found)
              + Fetched(h, kind, rest)
  {
    assert ([key] + rest)[1..] == rest;
  }

  lemma RemainingStep(log: seq<Event>, db: Db, h: History, p: string, key: string, next: Option<string>)
    requires db == RunOf(log) && h == HistoryOf(log) && key in h.indexed && p <= key && IsNext(db, key, true, next)
    ensures IsLeast(key, Remaining(h, p, Some(key)))
    ensures Remaining(h, p, next) == Remaining(h, p, Some(key)) - {key}
  {
    RunDescribed(log);
    var now, later := Remaining(h, p, Some(key)), Remaining(h, p, next);
    forall k | k in later ensures k in now - {key} {
      if k != next.value {
        LessTransitive(key, next.value, k);
      }
      LessTotal(key, k);
    }
    forall k | k in now - {key} ensures k in later {
      assert k in db;
    }
  }

  lemma CursorEnd(h: History, prefix: string, cursor: Option<string>)
    requires cursor.Some? ==> AtMost(prefix, cursor.value) && !(prefix <= cursor.value)
    ensures Remaining(h, prefix, cursor) == {}
  {
    forall key | key in Remaining(h, prefix, cursor) ensures false {
      PrefixContiguous(prefix, cursor.value, key);
    }
  }

  ghost function After(db: Db, key: string): set<string> {
    set k | k in db && AtMost(key, k)
  }

  lemma AfterShrinks(db: Db, key: string, next: Option<string>)
    requires key in db && (next.Some? ==> Less(key, next.value))
    ensures (if next.Some? then After(db, next.value) else {}) < After(db, key)
  {
    assert key in After(db, key);
    if next.Some? {
      LessTotal(key, next.value);
      forall k | k in After(db, next.value) ensures k in After(db, key) {
        if k != next.value {
          LessTransitive(key, next.value, k);
        }
      }
    }
  }
}
