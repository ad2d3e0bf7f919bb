/** What the listing by ISP shows, compared with a filter over the records. */
module Listings {
  import opened KeyOrder
  import opened ConfigHistory

  // ---- The listing and the filter ------------------------------------------

  /** The records of a type that index keys lead to, in the order of the keys. */
  ghost function Fetched(h: History, kind: ConfigType, keys: seq<string>): seq<Config> {
    if keys == [] then []
    else if Leads(h, kind, keys[0]) then [h.records[(kind, h.indexed[keys[0]])]] + Fetched(h, kind, keys[1..])
    else Fetched(h, kind, keys[1..])
  }

  /** The index entry of a key holds the id of a stored record. */
  ghost predicate Leads(h: History, kind: ConfigType, key: string) {
    key in h.indexed && (kind, h.indexed[key]) in h.records
  }

  ghost function IndexKeys(h: History, prefix: string): set<string> {
    set key | key in h.indexed && prefix <= key
  }

  ghost function Listing(h: History, isp: string, kind: ConfigType): seq<Config> {
    Fetched(h, kind, Sorted(IndexKeys(h, IspPrefix(isp, kind))))
  }

  ghost function Records(h: History, kind: ConfigType, ids: seq<string>): seq<Config> {
    if ids == [] then []
    else if (kind, ids[0]) in h.records then [h.records[(kind, ids[0])]] + Records(h, kind, ids[1..])
    else Records(h, kind, ids[1..])
  }

  ghost function Owned(h: History, isp: string, kind: ConfigType): set<string> {
    set key | key in h.records && key.0 == kind && h.records[key].isp == isp :: key.1
  }

  /** The plain filter: the stored records of the type that carry the ISP, in the order of ids. */
  ghost function Filter(h: History, isp: string, kind: ConfigType): seq<Config> {
    Records(h, kind, Sorted(Owned(h, isp, kind)))
  }

  lemma OwnedMember(h: History, isp: string, kind: ConfigType, id: string)
    ensures id in Owned(h, isp, kind) <==> (kind, id) in h.records && h.records[(kind, id)].isp == isp
  {
    if (kind, id) in h.records && h.records[(kind, id)].isp == isp {
      assert (kind, id).0 == kind && (kind, id).1 == id;
    }
  }

  // ---- What index entries lead to ------------------------------------------

  /** An index entry under the prefix leads to the stored record of the id. */
  ghost predicate Reaches(h: History, isp: string, kind: ConfigType, key: string, id: string) {
    IspPrefix(isp, kind) <= key && Leads(h, kind, key) && h.indexed[key] == id
  }

  /** Every entry that leads to a record leads to one of the ISP. */
  ghost predicate NoStranger(h: History, isp: string, kind: ConfigType) {
    forall key, id :: Reaches(h, isp, kind, key, id) ==> h.records[(kind, id)].isp == isp
  }

  ghost predicate AllReached(h: History, isp: string, kind: ConfigType) {
    forall id :: (kind, id) in h.records && h.records[(kind, id)].isp == isp ==> exists key :: Reaches(h, isp, kind, key, id)
  }

  ghost predicate NoneTwice(h: History, isp: string, kind: ConfigType) {
    forall key, key', id :: Reaches(h, isp, kind, key, id) && Reaches(h, isp, kind, key', id) ==> key == key'
  }

  /** Entries in key order lead to records in id order. */
  ghost predicate InOrder(h: History, isp: string, kind: ConfigType) {
    forall key, key', id, id' :: Reaches(h, isp, kind, key, id) && Reaches(h, isp, kind, key', id') && Less(key, key') ==> Less(id, id')
  }

  /** The ids of the records that keys lead to. */
  ghost function Refs(h: History, kind: ConfigType, keys: seq<string>): seq<string> {
    if keys == [] then []
    else if Leads(h, kind, keys[0]) then [h.indexed[keys[0]]] + Refs(h, kind, keys[1..])
    else Refs(h, kind, keys[1..])
  }

  ghost predicate AllStored(h: History, kind: ConfigType, ids: seq<string>) {
    forall i :: 0 <= i < |ids| ==> (kind, ids[i]) in h.records
  }

  /** Records carry their ids. */
  ghost predicate Named(h: History) {
    forall key :: key in h.records ==> h.records[key].id == key.1
  }

  lemma {:induction false} FetchedIsRecords(h: History, kind: ConfigType, keys: seq<string>)
    ensures AllStored(h, kind, Refs(h, kind, keys)) && Fetched(h, kind, keys) == Records(h, kind, Refs(h, kind, keys))
  {
    if keys != [] {
      FetchedIsRecords(h, kind, keys[1..]);
      var rest := Refs(h, kind, keys[1..]);
      if Leads(h, kind, keys[0]) {
        assert ([h.indexed[keys[0]]] + rest)[1..] == rest;
      }
    }
  }

  lemma {:induction false} RecordsAt(h: History, kind: ConfigType, ids: seq<string>)
    requires AllStored(h, kind, ids)
    ensures |Records(h, kind, ids)| == |ids|
    ensures forall i :: 0 <= i < |ids| ==> Records(h, kind, ids)[i] == h.records[(kind, ids[i])]
  {
    if ids != [] {
      RecordsAt(h, kind, ids[1..]);
    }
  }

  /** Lists of records are equal exactly when the lists of their ids are. */
  lemma SameRecordsIffSameIds(h: History, kind: ConfigType, a: seq<string>, b: seq<string>)
    requires Named(h) && AllStored(h, kind, a) && AllStored(h, kind, b)
    ensures Records(h, kind, a) == Records(h, kind, b) <==> a == b
  {
    RecordsAt(h, kind, a);
    RecordsAt(h, kind, b);
    if Records(h, kind, a) == Records(h, kind, b) {
      forall i | 0 <= i < |a| ensures a[i] == b[i] {
        assert Records(h, kind, a)[i].id == a[i] && Records(h, kind, b)[i].id == b[i];
      }
    }
  }

  lemma {:induction false} RecordCount(h: History, kind: ConfigType, ids: seq<string>, c: Config)
    requires Named(h) && AllStored(h, kind, ids)
    ensures multiset(Records(h, kind, ids))[c] ==
            if (kind, c.id) in h.records && h.records[(kind, c.id)] == c then multiset(ids)[c.id] else 0
  {
    if ids != [] {
      RecordCount(h, kind, ids[1..], c);
      assert ids == [ids[0]] + ids[1..];
      assert h.records[(kind, ids[0])].id == (kind, ids[0]).1;
    }
  }

  /** And the same as bags. */
  lemma SameBagIffSameIds(h: History, kind: ConfigType, a: seq<string>, b: seq<string>)
    requires Named(h) && AllStored(h, kind, a) && AllStored(h, kind, b)
    ensures multiset(Records(h, kind, a)) == multiset(Records(h, kind, b)) <==> multiset(a) == multiset(b)
  {
    if multiset(a) == multiset(b) {
      forall c ensures multiset(Records(h, kind, a))[c] == multiset(Records(h, kind, b))[c] {
        RecordCount(h, kind, a, c);
        RecordCount(h, kind, b, c);
      }
    }
    if multiset(Records(h, kind, a)) == multiset(Records(h, kind, b)) {
      forall id ensures multiset(a)[id] == multiset(b)[id] {
        if (kind, id) in h.records {
          var c := h.records[(kind, id)];
          assert c.id == (kind, id).1;
          RecordCount(h, kind, a, c);
          RecordCount(h, kind, b, c);
        }
      }
    }
  }

  // ---- Ordered and distinct lists of ids -----------------------------------

  ghost predicate Increasing(s: seq<string>) {
    forall i, j :: 0 <= i < j < |s| ==> Less(s[i], s[j])
  }

  ghost predicate Distinct(s: seq<string>) {
    forall i, j :: 0 <= i < j < |s| ==> s[i] != s[j]
  }

  ghost predicate Lists(s: seq<string>, ids: set<string>) {
    forall id :: id in s <==> id in ids
  }

  /** There is one increasing list of a set. */
  lemma {:induction false} IncreasingIsSorted(s: seq<string>, ids: set<string>)
    requires Increasing(s) && Lists(s, ids)
    ensures s == Sorted(ids)
    decreases |s|
  {
    if s == [] {
      assert ids == {};
    } else {
      var m, rest := s[0], s[1..];
      assert s == [m] + rest;
      forall id | id in ids ensures AtMost(m, id) {
        assert id in s;
      }
      assert m in ids;
      SortedCons(m, ids);
      forall id ensures id in rest <==> id in ids - {m} {
        if id in rest {
          LessTotal(m, id);
        }
      }
      IncreasingIsSorted(rest, ids - {m});
    }
  }

  lemma SortedIff(s: seq<string>, ids: set<string>)
    ensures s == Sorted(ids) <==> Increasing(s) && Lists(s, ids)
  {
    SortedIsOrder(ids);
    if Increasing(s) && Lists(s, ids) {
      IncreasingIsSorted(s, ids);
    }
  }

  lemma {:induction false} DistinctBag(s: seq<string>, ids: set<string>)
    requires Distinct(s) && Lists(s, ids)
    ensures multiset(s) == multiset(ids)
    decreases |s|
  {
    if s == [] {
      assert ids == {};
    } else {
      var m, rest := s[0], s[1..];
      assert s == [m] + rest;
      forall id ensures id in rest <==> id in ids - {m} {
        if id in rest {
          var j :| 0 <= j < |rest| && rest[j] == id;
          assert s[j + 1] == id;
        }
        if id in ids - {m} {
          assert id in s;
        }
      }
      DistinctBag(rest, ids - {m});
      assert m in s && m in ids;
    }
  }

  lemma BagIff(s: seq<string>, ids: set<string>)
    ensures multiset(s) == multiset(ids) <==> Distinct(s) && Lists(s, ids)
  {
    if Distinct(s) && Lists(s, ids) {
      DistinctBag(s, ids);
    }
    if multiset(s) == multiset(ids) {
      forall id ensures id in s <==> id in ids {
        assert id in multiset(s) <==> id in multiset(ids);
      }
      forall i, j | 0 <= i < j < |s| ensures s[i] != s[j] {
        TwiceInBag(s, i, j);
        assert multiset(ids)[s[i]] <= 1;
      }
    }
  }

  lemma TwiceInBag(s: seq<string>, i: nat, j: nat)
    requires i < j < |s|
    ensures s[i] == s[j] ==> multiset(s)[s[i]] >= 2
  {
    assert s == s[..i] + [s[i]] + s[i + 1..j] + [s[j]] + s[j + 1..];
  }

  // ---- From keys to ids ----------------------------------------------------

  lemma {:induction false} RefsMember(h: History, kind: ConfigType, keys: seq<string>, id: string)
    ensures id in Refs(h, kind, keys) <==> exists i :: 0 <= i < |keys| && Leads(h, kind, keys[i]) && h.indexed[keys[i]] == id
  {
    if keys != [] {
      RefsMember(h, kind, keys[1..], id);
      if i :| 0 <= i < |keys[1..]| && Leads(h, kind, keys[1..][i]) && h.indexed[keys[1..][i]] == id {
        assert keys[i + 1] == keys[1..][i];
      }
      if i :| 0 <= i < |keys| && Leads(h, kind, keys[i]) && h.indexed[keys[i]] == id {
        if i > 0 {
          assert keys[1..][i - 1] == keys[i];
        }
      }
    }
  }

  ghost predicate KeysInOrder(h: History, kind: ConfigType, keys: seq<string>) {
    forall i, j :: 0 <= i < j < |keys| && Leads(h, kind, keys[i]) && Leads(h, kind, keys[j]) ==>
      Less(h.indexed[keys[i]], h.indexed[keys[j]])
  }

  ghost predicate KeysApart(h: History, kind: ConfigType, keys: seq<string>) {
    forall i, j :: 0 <= i < j < |keys| && Leads(h, kind, keys[i]) && Leads(h, kind, keys[j]) ==>
      h.indexed[keys[i]] != h.indexed[keys[j]]
  }

  ghost predicate Below(a: string, s: seq<string>) {
    forall i :: 0 <= i < |s| ==> Less(a, s[i])
  }

  lemma ConsIncreasing(a: string, s: seq<string>)
    ensures Increasing([a] + s) <==> Increasing(s) && Below(a, s)
  {
    var t := [a] + s;
    if Increasing(t) {
      forall j | 0 <= j < |s| ensures Less(a, s[j]) {
        assert t[0] == a && t[j + 1] == s[j];
      }
      forall i, j | 0 <= i < j < |s| ensures Less(s[i], s[j]) {
        assert t[i + 1] == s[i] && t[j + 1] == s[j];
      }
    }
    if Increasing(s) && Below(a, s) {
      forall i, j | 0 <= i < j < |t| ensures Less(t[i], t[j]) {
        assert t[j] == s[j - 1];
      }
    }
  }

  lemma ConsDistinct(a: string, s: seq<string>)
    ensures Distinct([a] + s) <==> Distinct(s) && a !in s
  {
    var t := [a] + s;
    if Distinct(t) {
      forall j | 0 <= j < |s| ensures s[j] != a {
        assert t[0] == a && t[j + 1] == s[j];
      }
      forall i, j | 0 <= i < j < |s| ensures s[i] != s[j] {
        assert t[i + 1] == s[i] && t[j + 1] == s[j];
      }
    }
    if Distinct(s) && a !in s {
      forall i, j | 0 <= i < j < |t| ensures t[i] != t[j] {
        assert t[j] == s[j - 1] && s[j - 1] in s;
      }
    }
  }

  /** The first key, if it leads anywhere, leads below all that the others lead to. */
  ghost predicate FirstBelow(h: History, kind: ConfigType, keys: seq<string>)
    requires keys != []
  {
    Leads(h, kind, keys[0]) ==>
      forall j :: 0 < j < |keys| && Leads(h, kind, keys[j]) ==> Less(h.indexed[keys[0]], h.indexed[keys[j]])
  }

  ghost predicate FirstApart(h: History, kind: ConfigType, keys: seq<string>)
    requires keys != []
  {
    Leads(h, kind, keys[0]) ==>
      forall j :: 0 < j < |keys| && Leads(h, kind, keys[j]) ==> h.indexed[keys[0]] != h.indexed[keys[j]]
  }

  lemma ConsKeysInOrder(h: History, kind: ConfigType, keys: seq<string>)
    requires keys != []
    ensures KeysInOrder(h, kind, keys) <==> KeysInOrder(h, kind, keys[1..]) && FirstBelow(h, kind, keys)
  {
    var rest := keys[1..];
    if KeysInOrder(h, kind, keys) {
      forall i, j | 0 <= i < j < |rest| && Leads(h, kind, rest[i]) && Leads(h, kind, rest[j])
        ensures Less(h.indexed[rest[i]], h.indexed[rest[j]])
      {
        assert keys[i + 1] == rest[i] && keys[j + 1] == rest[j];
      }
    }
    if KeysInOrder(h, kind, rest) && FirstBelow(h, kind, keys) {
      forall i, j | 0 <= i < j < |keys| && Leads(h, kind, keys[i]) && Leads(h, kind, keys[j])
        ensures Less(h.indexed[keys[i]], h.indexed[keys[j]])
      {
        assert i > 0 ==> keys[i] == rest[i - 1] && keys[j] == rest[j - 1];
      }
    }
  }

  lemma ConsKeysApart(h: History, kind: ConfigType, keys: seq<string>)
    requires keys != []
    ensures KeysApart(h, kind, keys) <==> KeysApart(h, kind, keys[1..]) && FirstApart(h, kind, keys)
  {
    var rest := keys[1..];
    if KeysApart(h, kind, keys) {
      forall i, j | 0 <= i < j < |rest| && Leads(h, kind, rest[i]) && Leads(h, kind, rest[j])
        ensures h.indexed[rest[i]] != h.indexed[rest[j]]
      {
        assert keys[i + 1] == rest[i] && keys[j + 1] == rest[j];
      }
    }
    if KeysApart(h, kind, rest) && FirstApart(h, kind, keys) {
      forall i, j | 0 <= i < j < |keys| && Leads(h, kind, keys[i]) && Leads(h, kind, keys[j])
        ensures h.indexed[keys[i]] != h.indexed[keys[j]]
      {
        assert i > 0 ==> keys[i] == rest[i - 1] && keys[j] == rest[j - 1];
      }
    }
  }

  /** What the other keys lead to is what the ids after the first are. */
  lemma RestRefs(h: History, kind: ConfigType, keys: seq<string>, x: string)
    requires keys != []
    ensures x in Refs(h, kind, keys[1..]) <==> exists j :: 0 < j < |keys| && Leads(h, kind, keys[j]) && h.indexed[keys[j]] == x
  {
    var rest := keys[1..];
    RefsMember(h, kind, rest, x);
    if i :| 0 <= i < |rest| && Leads(h, kind, rest[i]) && h.indexed[rest[i]] == x {
      assert keys[i + 1] == rest[i];
    }
    if j :| 0 < j < |keys| && Leads(h, kind, keys[j]) && h.indexed[keys[j]] == x {
      assert rest[j - 1] == keys[j];
    }
  }

  lemma FirstBelowRefs(h: History, kind: ConfigType, keys: seq<string>)
    requires keys != [] && Leads(h, kind, keys[0])
    ensures FirstBelow(h, kind, keys) <==> Below(h.indexed[keys[0]], Refs(h, kind, keys[1..]))
    ensures FirstApart(h, kind, keys) <==> h.indexed[keys[0]] !in Refs(h, kind, keys[1..])
  {
    var refs := Refs(h, kind, keys[1..]);
    forall i | 0 <= i < |refs|
      ensures FirstBelow(h, kind, keys) ==> Less(h.indexed[keys[0]], refs[i])
      ensures FirstApart(h, kind, keys) ==> h.indexed[keys[0]] != refs[i]
    {
      RestRefs(h, kind, keys, refs[i]);
      var j :| 0 < j < |keys| && Leads(h, kind, keys[j]) && h.indexed[keys[j]] == refs[i];
    }
    forall j | 0 < j < |keys| && Leads(h, kind, keys[j])
      ensures h.indexed[keys[j]] in refs
      ensures Below(h.indexed[keys[0]], refs) ==> Less(h.indexed[keys[0]], h.indexed[keys[j]])
    {
      RestRefs(h, kind, keys, h.indexed[keys[j]]);
      var i :| 0 <= i < |refs| && refs[i] == h.indexed[keys[j]];
    }
  }

  lemma {:induction false} RefsIncreasing(h: History, kind: ConfigType, keys: seq<string>)
    ensures Increasing(Refs(h, kind, keys)) <==> KeysInOrder(h, kind, keys)
  {
    if keys != [] {
      RefsIncreasing(h, kind, keys[1..]);
      ConsKeysInOrder(h, kind, keys);
      if Leads(h, kind, keys[0]) {
        FirstBelowRefs(h, kind, keys);
        ConsIncreasing(h.indexed[keys[0]], Refs(h, kind, keys[1..]));
      }
    }
  }

  lemma {:induction false} RefsDistinct(h: History, kind: ConfigType, keys: seq<string>)
    ensures Distinct(Refs(h, kind, keys)) <==> KeysApart(h, kind, keys)
  {
    if keys != [] {
      RefsDistinct(h, kind, keys[1..]);
      ConsKeysApart(h, kind, keys);
      if Leads(h, kind, keys[0]) {
        FirstBelowRefs(h, kind, keys);
        ConsDistinct(h.indexed[keys[0]], Refs(h, kind, keys[1..]));
      }
    }
  }

  // The conditions on the sorted keys are those on the entries.

  lemma KeysOfPrefix(h: History, isp: string, kind: ConfigType)
    ensures var keys := Sorted(IndexKeys(h, IspPrefix(isp, kind)));
            && Increasing(keys)
            && (forall key :: key in keys && Leads(h, kind, key) <==> Reaches(h, isp, kind, key, if key in h.indexed then h.indexed[key] else ""))
  {
    SortedIsOrder(IndexKeys(h, IspPrefix(isp, kind)));
  }

  lemma OrderOfEntries(h: History, isp: string, kind: ConfigType)
    ensures KeysInOrder(h, kind, Sorted(IndexKeys(h, IspPrefix(isp, kind)))) <==> InOrder(h, isp, kind)
  {
    var keys := Sorted(IndexKeys(h, IspPrefix(isp, kind)));
    KeysOfPrefix(h, isp, kind);
    if KeysInOrder(h, kind, keys) {
      forall key, key', id, id' | Reaches(h, isp, kind, key, id) && Reaches(h, isp, kind, key', id') && Less(key, key')
        ensures Less(id, id')
      {
        assert key in keys && key' in keys;
        var i :| 0 <= i < |keys| && keys[i] == key;
        var j :| 0 <= j < |keys| && keys[j] == key';
        LessTotal(key, key');
        assert i < j;
      }
    }
    if InOrder(h, isp, kind) {
      forall i, j | 0 <= i < j < |keys| && Leads(h, kind, keys[i]) && Leads(h, kind, keys[j])
        ensures Less(h.indexed[keys[i]], h.indexed[keys[j]])
      {
        assert keys[i] in keys && keys[j] in keys;
        assert Reaches(h, isp, kind, keys[i], h.indexed[keys[i]]) && Reaches(h, isp, kind, keys[j], h.indexed[keys[j]]);
      }
    }
  }

  lemma EntriesApart(h: History, isp: string, kind: ConfigType)
    ensures KeysApart(h, kind, Sorted(IndexKeys(h, IspPrefix(isp, kind)))) <==> NoneTwice(h, isp, kind)
  {
    var keys := Sorted(IndexKeys(h, IspPrefix(isp, kind)));
    KeysOfPrefix(h, isp, kind);
    if KeysApart(h, kind, keys) {
      forall key, key', id | Reaches(h, isp, kind, key, id) && Reaches(h, isp, kind, key', id) ensures key == key' {
        assert key in keys && key' in keys;
        var i :| 0 <= i < |keys| && keys[i] == key;
        var j :| 0 <= j < |keys| && keys[j] == key';
        assert !(i < j) && !(j < i);
      }
    }
    if NoneTwice(h, isp, kind) {
      forall i, j | 0 <= i < j < |keys| && Leads(h, kind, keys[i]) && Leads(h, kind, keys[j])
        ensures h.indexed[keys[i]] != h.indexed[keys[j]]
      {
        assert keys[i] in keys && keys[j] in keys;
        assert Reaches(h, isp, kind, keys[i], h.indexed[keys[i]]) && Reaches(h, isp, kind, keys[j], h.indexed[keys[j]]);
        LessTotal(keys[i], keys[j]);
      }
    }
  }

  lemma ReachedIds(h: History, isp: string, kind: ConfigType, id: string)
    ensures id in Refs(h, kind, Sorted(IndexKeys(h, IspPrefix(isp, kind)))) <==> exists key :: Reaches(h, isp, kind, key, id)
  {
    var keys := Sorted(IndexKeys(h, IspPrefix(isp, kind)));
    KeysOfPrefix(h, isp, kind);
    RefsMember(h, kind, keys, id);
    if i :| 0 <= i < |keys| && Leads(h, kind, keys[i]) && h.indexed[keys[i]] == id {
      assert keys[i] in keys;
      assert Reaches(h, isp, kind, keys[i], id);
    }
    if key :| Reaches(h, isp, kind, key, id) {
      assert key in keys;
      var i :| 0 <= i < |keys| && keys[i] == key;
      assert Leads(h, kind, keys[i]);
    }
  }

  lemma ListedIds(h: History, isp: string, kind: ConfigType)
    ensures Lists(Refs(h, kind, Sorted(IndexKeys(h, IspPrefix(isp, kind)))), Owned(h, isp, kind)) <==>
            NoStranger(h, isp, kind) && AllReached(h, isp, kind)
  {
    var refs := Refs(h, kind, Sorted(IndexKeys(h, IspPrefix(isp, kind))));
    forall id
      ensures id in refs <==> exists key :: Reaches(h, isp, kind, key, id)
      ensures id in Owned(h, isp, kind) <==> (kind, id) in h.records && h.records[(kind, id)].isp == isp
    {
      ReachedIds(h, isp, kind, id);
      OwnedMember(h, isp, kind, id);
    }
    if Lists(refs, Owned(h, isp, kind)) {
      forall key, id | Reaches(h, isp, kind, key, id) ensures h.records[(kind, id)].isp == isp {
        assert id in refs;
      }
    }
  }

  lemma OwnedAreStored(h: History, isp: string, kind: ConfigType)
    ensures AllStored(h, kind, Sorted(Owned(h, isp, kind)))
    ensures multiset(Sorted(Owned(h, isp, kind))) == multiset(Owned(h, isp, kind))
  {
    var owned := Owned(h, isp, kind);
    SortedIsOrder(owned);
    forall i | 0 <= i < |Sorted(owned)| ensures (kind, Sorted(owned)[i]) in h.records {
      assert Sorted(owned)[i] in Sorted(owned);
      OwnedMember(h, isp, kind, Sorted(owned)[i]);
    }
    forall i, j | 0 <= i < j < |Sorted(owned)| ensures Sorted(owned)[i] != Sorted(owned)[j] {
      LessTotal(Sorted(owned)[i], Sorted(owned)[j]);
    }
    BagIff(Sorted(owned), owned);
  }

  lemma HistoriesAreNamed(events: seq<Event>)
    ensures Named(HistoryOf(events))
  {
    RunDescribed(events);
    var h := HistoryOf(events);
    forall key | key in h.records ensures h.records[key].id == key.1 {
      var (kind, id) := key;
      assert (kind, id) in h.records;
    }
  }

  // ---- Every run -----------------------------------------------------------

  /**
   Over every run, whichever writes fail and whatever colons ISP ids have: the listing is
   the plain filter in the order of ids exactly when the entries under the prefix lead to
   records of the ISP only, to all of them, and in their order.
   */
  lemma ListingExactly(events: seq<Event>, isp: string, kind: ConfigType)
    ensures var h := HistoryOf(events);
            Listing(h, isp, kind) == Filter(h, isp, kind) <==> NoStranger(h, isp, kind) && AllReached(h, isp, kind) && InOrder(h, isp, kind)
  {
    var h := HistoryOf(events);
    var keys := Sorted(IndexKeys(h, IspPrefix(isp, kind)));
    HistoriesAreNamed(events);
    FetchedIsRecords(h, kind, keys);
    OwnedAreStored(h, isp, kind);
    SameRecordsIffSameIds(h, kind, Refs(h, kind, keys), Sorted(Owned(h, isp, kind)));
    SortedIff(Refs(h, kind, keys), Owned(h, isp, kind));
    RefsIncreasing(h, kind, keys);
    OrderOfEntries(h, isp, kind);
    ListedIds(h, isp, kind);
  }

  /** And it holds the same records as often exactly when they lead to records of the ISP only, to all, and to none twice. */
  lemma ListingAsBag(events: seq<Event>, isp: string, kind: ConfigType)
    ensures var h := HistoryOf(events);
            multiset(Listing(h, isp, kind)) == multiset(Filter(h, isp, kind)) <==>
            NoStranger(h, isp, kind) && AllReached(h, isp, kind) && NoneTwice(h, isp, kind)
  {
    var h := HistoryOf(events);
    var keys := Sorted(IndexKeys(h, IspPrefix(isp, kind)));
    HistoriesAreNamed(events);
    FetchedIsRecords(h, kind, keys);
    OwnedAreStored(h, isp, kind);
    SameBagIffSameIds(h, kind, Refs(h, kind, keys), Sorted(Owned(h, isp, kind)));
    BagIff(Refs(h, kind, keys), Owned(h, isp, kind));
    RefsDistinct(h, kind, keys);
    EntriesApart(h, isp, kind);
    ListedIds(h, isp, kind);
  }

  // ---- Runs without foreign entries ----------------------------------------

  /** A save of the type and id under the ISP of which both writes succeeded. */
  ghost predicate IndexedBy(e: Event, isp: string, kind: ConfigType, id: string) {
    e.Save? && e.first && e.second && e.config.isp == isp && e.config.kind == kind && e.config.id == id
  }

  ghost predicate WasIndexed(events: seq<Event>, isp: string, kind: ConfigType, id: string) {
    exists i :: 0 <= i < |events| && IndexedBy(events[i], isp, kind, id)
  }

  /** A stored record that once was indexed under isp and no longer carries it. */
  ghost predicate MovedAway(events: seq<Event>, isp: string, kind: ConfigType) {
    exists id ::
      && (kind, id) in HistoryOf(events).records && HistoryOf(events).records[(kind, id)].isp != isp
      && WasIndexed(events, isp, kind, id)
  }

  /** A stored record that carries isp, although its index entry was never written. */
  ghost predicate Unindexed(events: seq<Event>, isp: string, kind: ConfigType) {
    exists id ::
      && (kind, id) in HistoryOf(events).records && HistoryOf(events).records[(kind, id)].isp == isp
      && !WasIndexed(events, isp, kind, id)
  }

  /** An index entry of another ISP or type under the prefix, which takes a colon in an ISP. */
  ghost predicate Foreign(e: Event, isp: string, kind: ConfigType) {
    && e.Save? && e.first && e.second && e.config.isp != "" && (e.config.isp != isp || e.config.kind != kind)
    && IspPrefix(isp, kind) <= IspKey(e.config.isp, e.config.kind, e.config.id)
  }

  ghost predicate NoForeign(events: seq<Event>, isp: string, kind: ConfigType) {
    forall i :: 0 <= i < |events| ==> !Foreign(events[i], isp, kind)
  }

  lemma ColonFreeMeansNoForeign(events: seq<Event>, isp: string, kind: ConfigType)
    requires NoColon(isp) && forall i :: 0 <= i < |events| && events[i].Save? ==> NoColon(events[i].config.isp)
    ensures NoForeign(events, isp, kind)
  {
    forall i | 0 <= i < |events| ensures !Foreign(events[i], isp, kind) {
      if Foreign(events[i], isp, kind) {
        var c := events[i].config;
        IspKeyParts(isp, kind, c.isp, c.kind, c.id);
      }
    }
  }

  lemma WasIndexedSnoc(events: seq<Event>, e: Event, isp: string, kind: ConfigType, id: string)
    ensures WasIndexed(events + [e], isp, kind, id) <==> WasIndexed(events, isp, kind, id) || IndexedBy(e, isp, kind, id)
  {
    var all := events + [e];
    if WasIndexed(events, isp, kind, id) {
      var i :| 0 <= i < |events| && IndexedBy(events[i], isp, kind, id);
      assert all[i] == events[i];
    }
    if IndexedBy(e, isp, kind, id) {
      assert all[|events|] == e;
    }
  }

  /** What the index holds under a key of the prefix. */
  ghost predicate Entry(h: History, events: seq<Event>, isp: string, kind: ConfigType, id: string) {
    var key := IspKey(isp, kind, id);
    && (key in h.indexed <==> WasIndexed(events, isp, kind, id))
    && (key in h.indexed ==> h.indexed[key] == id)
  }

  lemma EntryStep(h: History, events: seq<Event>, e: Event, isp: string, kind: ConfigType, id: string)
    requires Entry(h, events, isp, kind, id) && isp != "" && !Foreign(e, isp, kind)
    ensures Entry(Extended(h, e), events + [e], isp, kind, id)
  {
    WasIndexedSnoc(events, e, isp, kind, id);
    var key, p := IspKey(isp, kind, id), IspPrefix(isp, kind);
    if e.Save? && e.first && e.second && e.config.isp != "" {
      var c := e.config;
      if IspKey(c.isp, c.kind, c.id) == key {
        assert p <= key;
        assert c.isp == isp && c.kind == kind;
        assert key[|p|..] == id && IspKey(isp, kind, c.id)[|p|..] == c.id;
      }
    }
  }

  lemma {:induction false} EntriesFromSaves(events: seq<Event>, isp: string, kind: ConfigType, id: string)
    requires isp != "" && NoForeign(events, isp, kind)
    ensures Entry(HistoryOf(events), events, isp, kind, id)
  {
    if events != [] {
      var init, e := events[..|events| - 1], events[|events| - 1];
      assert events == init + [e];
      EntriesFromSaves(init, isp, kind, id);
      EntryStep(HistoryOf(init), init, e, isp, kind, id);
    }
  }

  /** Without foreign entries, an entry under the prefix leads to the id in its key. */
  lemma OwnEntries(events: seq<Event>, isp: string, kind: ConfigType, key: string, id: string)
    requires isp != "" && NoForeign(events, isp, kind)
    ensures Reaches(HistoryOf(events), isp, kind, key, id) <==>
            key == IspKey(isp, kind, id) && (kind, id) in HistoryOf(events).records && WasIndexed(events, isp, kind, id)
  {
    var h, p := HistoryOf(events), IspPrefix(isp, kind);
    EntriesFromSaves(events, isp, kind, id);
    if Reaches(h, isp, kind, key, id) {
      var own := key[|p|..];
      assert key == p + own;
      EntriesFromSaves(events, isp, kind, own);
    }
  }

  lemma OwnEntriesInOrder(events: seq<Event>, isp: string, kind: ConfigType)
    requires isp != "" && NoForeign(events, isp, kind)
    ensures InOrder(HistoryOf(events), isp, kind)
  {
    var h := HistoryOf(events);
    forall key, key', id, id' | Reaches(h, isp, kind, key, id) && Reaches(h, isp, kind, key', id') && Less(key, key')
      ensures Less(id, id')
    {
      OwnEntries(events, isp, kind, key, id);
      OwnEntries(events, isp, kind, key', id');
      LessAfterPrefix(IspPrefix(isp, kind), id, id');
    }
  }

  lemma OwnStrangers(events: seq<Event>, isp: string, kind: ConfigType)
    requires isp != "" && NoForeign(events, isp, kind)
    ensures NoStranger(HistoryOf(events), isp, kind) <==> !MovedAway(events, isp, kind)
    ensures AllReached(HistoryOf(events), isp, kind) <==> !Unindexed(events, isp, kind)
  {
    var h := HistoryOf(events);
    forall key, id
      ensures Reaches(h, isp, kind, key, id) <==>
              key == IspKey(isp, kind, id) && (kind, id) in h.records && WasIndexed(events, isp, kind, id)
    {
      OwnEntries(events, isp, kind, key, id);
    }
    if NoStranger(h, isp, kind) {
      forall id | (kind, id) in h.records && WasIndexed(events, isp, kind, id) ensures h.records[(kind, id)].isp == isp {
        assert Reaches(h, isp, kind, IspKey(isp, kind, id), id);
      }
    }
    if !Unindexed(events, isp, kind) {
      forall id | (kind, id) in h.records && h.records[(kind, id)].isp == isp ensures exists key :: Reaches(h, isp, kind, key, id) {
        assert Reaches(h, isp, kind, IspKey(isp, kind, id), id);
      }
    }
  }

  /**
   Over every run, whichever writes fail, in which no other ISP's entries share the
   prefix: the listing is the plain filter exactly when no stored record has moved away
   from the ISP and none that carries it was saved without its index entry.
   */
  lemma IndexAgreesWithFilter(events: seq<Event>, isp: string, kind: ConfigType)
    requires isp != "" && NoForeign(events, isp, kind)
    ensures Listing(HistoryOf(events), isp, kind) == Filter(HistoryOf(events), isp, kind) <==>
            !MovedAway(events, isp, kind) && !Unindexed(events, isp, kind)
  {
    ListingExactly(events, isp, kind);
    OwnEntriesInOrder(events, isp, kind);
    OwnStrangers(events, isp, kind);
  }

  /** How the list that a call appends to out compares with the filter. */
  ghost predicate ComparesWithFilter(events: seq<Event>, isp: string, kind: ConfigType, out: seq<Config>, result: seq<Config>) {
    var h := HistoryOf(events);
    && (result == out + Filter(h, isp, kind) <==> NoStranger(h, isp, kind) && AllReached(h, isp, kind) && InOrder(h, isp, kind))
    && (isp != "" && NoForeign(events, isp, kind) ==>
          (result == out + Filter(h, isp, kind) <==> !MovedAway(events, isp, kind) && !Unindexed(events, isp, kind)))
  }

  lemma ListingCompares(events: seq<Event>, isp: string, kind: ConfigType, out: seq<Config>, result: seq<Config>)
    requires result == out + Listing(HistoryOf(events), isp, kind)
    ensures ComparesWithFilter(events, isp, kind, out, result)
  {
    var listing, filter := Listing(HistoryOf(events), isp, kind), Filter(HistoryOf(events), isp, kind);
    assert (out + listing)[|out|..] == listing && (out + filter)[|out|..] == filter;
    ListingExactly(events, isp, kind);
    if isp != "" && NoForeign(events, isp, kind) {
      IndexAgreesWithFilter(events, isp, kind);
    }
  }

  ghost predicate Succeeded(e: Event) {
    e.Save? ==> e.first && e.second
  }

  lemma {:induction false} StoredWasSaved(events: seq<Event>, kind: ConfigType, id: string) returns (i: nat)
    requires (kind, id) in HistoryOf(events).records
    ensures i < |events| && events[i].Save? && events[i].config.kind == kind && events[i].config.id == id
    ensures events[i].config == HistoryOf(events).records[(kind, id)]
  {
    i := |events| - 1;
    if events != [] && !(events[i].Save? && events[i].first && events[i].config.kind == kind && events[i].config.id == id) {
      i := StoredWasSaved(events[..i], kind, id);
    }
  }

  /** In particular when all writes succeed, no ISP has a colon, and every type and id always carries the same ISP. */
  lemma FixedOwnersAgree(events: seq<Event>, owner: map<(ConfigType, string), string>, isp: string, kind: ConfigType)
    requires forall i :: 0 <= i < |events| ==> Succeeded(events[i])
    requires forall i :: 0 <= i < |events| && events[i].Save? ==>
               var c := events[i].config; NoColon(c.isp) && (c.kind, c.id) in owner && owner[(c.kind, c.id)] == c.isp
    requires isp != "" && NoColon(isp)
    ensures Listing(HistoryOf(events), isp, kind) == Filter(HistoryOf(events), isp, kind)
  {
    ColonFreeMeansNoForeign(events, isp, kind);
    IndexAgreesWithFilter(events, isp, kind);
    forall id | (kind, id) in HistoryOf(events).records
      ensures HistoryOf(events).records[(kind, id)].isp == isp <==> WasIndexed(events, isp, kind, id)
    {
      var now := HistoryOf(events).records[(kind, id)].isp;
      var j := StoredWasSaved(events, kind, id);
      assert Succeeded(events[j]);
      assert IndexedBy(events[j], now, kind, id);
      if WasIndexed(events, isp, kind, id) {
        var i :| 0 <= i < |events| && IndexedBy(events[i], isp, kind, id);
        assert events[i].Save? && events[j].Save?;
      }
    }
  }

  lemma TwoSaves(c: Config, c': Config)
    ensures HistoryOf([Save(c, true, true), Save(c', true, true)]) ==
            Extended(Extended(NOTHING, Save(c, true, true)), Save(c', true, true))
  {
    Snoc([], Save(c, true, true));
    Snoc([Save(c, true, true)], Save(c', true, true));
    assert [] + [Save(c, true, true)] == [Save(c, true, true)];
    assert [Save(c, true, true)] + [Save(c', true, true)] == [Save(c, true, true), Save(c', true, true)];
  }

  /** A record that changes its ISP is still listed under the old one. */
  lemma MovedRecordStaysListed(c: Config, isp: string)
    requires NoColon(c.isp) && NoColon(isp) && c.isp != "" && isp != "" && c.isp != isp
    ensures var h := HistoryOf([Save(c, true, true), Save(c.(isp := isp), true, true)]);
            Listing(h, c.isp, c.kind) == [c.(isp := isp)] && Filter(h, c.isp, c.kind) == []
  {
    TwoSaves(c, c.(isp := isp));
    var h := HistoryOf([Save(c, true, true), Save(c.(isp := isp), true, true)]);
    var p, key := IspPrefix(c.isp, c.kind), IspKey(c.isp, c.kind, c.id);
    if p <= IspKey(isp, c.kind, c.id) {
      IspKeyParts(c.isp, c.kind, isp, c.kind, c.id);
    }
    OneEntry(h, c.kind, p, key);
    assert Owned(h, c.isp, c.kind) == {};
  }

  lemma OneEntry(h: History, kind: ConfigType, p: string, key: string)
    requires IndexKeys(h, p) == {key} && key in h.indexed && (kind, h.indexed[key]) in h.records
    ensures Fetched(h, kind, Sorted(IndexKeys(h, p))) == [h.records[(kind, h.indexed[key])]]
  {
    SortedCons(key, {key});
    assert {key} - {key} == {};
  }

  /** With a colon in an ISP, the listing of one ISP shows the record of another that was never indexed under it. */
  lemma ColonLeadsAstray()
    ensures var payment, device := Config(Mpesa, "5", "a:device:x", ""), Config(Device, "5", "b", "");
            var h := HistoryOf([Save(payment, true, true), Save(device, true, true)]);
            Listing(h, "a", Device) == [device] && Filter(h, "a", Device) == []
  {
    var payment, device := Config(Mpesa, "5", "a:device:x", ""), Config(Device, "5", "b", "");
    TwoSaves(payment, device);
    var h := HistoryOf([Save(payment, true, true), Save(device, true, true)]);
    var p, key := IspPrefix("a", Device), IspKey("a:device:x", Mpesa, "5");
    assert p == "isp:a:device:" && key == "isp:a:device:x:mpesa:5" && IspKey("b", Device, "5") == "isp:b:device:5";
    assert "isp:b:device:5"[4] == 'b';
    assert IndexKeys(h, p) == {key};
    OneEntry(h, Device, p, key);
    assert Owned(h, "a", Device) == {};
  }

  /** A record whose second write failed is not listed, though the filter shows it. */
  lemma UnindexedIsNotListed(c: Config)
    requires c.isp != ""
    ensures var h := HistoryOf([Save(c, true, false)]);
            Listing(h, c.isp, c.kind) == [] && Filter(h, c.isp, c.kind) == [c]
  {
    Snoc([], Save(c, true, false));
    assert [] + [Save(c, true, false)] == [Save(c, true, false)];
    var h := HistoryOf([Save(c, true, false)]);
    assert h == NOTHING.(records := map[(c.kind, c.id) := c]);
    assert IndexKeys(h, IspPrefix(c.isp, c.kind)) == {};
    forall id ensures id in Owned(h, c.isp, c.kind) <==> id == c.id {
      OwnedMember(h, c.isp, c.kind, id);
    }
    assert Owned(h, c.isp, c.kind) == {c.id};
    SortedCons(c.id, {c.id});
    assert {c.id} - {c.id} == {};
    assert Sorted({c.id}) == [c.id];
    RecordsAt(h, c.kind, [c.id]);
    assert h.records[(c.kind, c.id)] == c;
  }
}
