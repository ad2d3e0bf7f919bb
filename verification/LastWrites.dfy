/** The history of a run, read off the last event that touched a key. */
module LastWrites {
  import opened ConfigHistory

  // ---- Records -------------------------------------------------------------

  ghost predicate SavesRecord(e: Event, kind: ConfigType, id: string) {
    e.Save? && e.first && e.config.kind == kind && e.config.id == id
  }

  ghost predicate DeletesRecord(e: Event, kind: ConfigType, id: string) {
    e.Delete? && e.ok && e.kind == kind && e.id == id
  }

  /** Event i saved the record, and no later one saved or deleted it. */
  ghost predicate LastSave(events: seq<Event>, kind: ConfigType, id: string, i: nat) {
    && i < |events| && SavesRecord(events[i], kind, id)
    && forall j :: i < j < |events| ==> !SavesRecord(events[j], kind, id) && !DeletesRecord(events[j], kind, id)
  }

  lemma LastSaveSnoc(events: seq<Event>, kind: ConfigType, id: string, i: nat)
    requires events != []
    ensures var n := |events| - 1;
            LastSave(events, kind, id, i) <==>
            if SavesRecord(events[n], kind, id) then i == n
            else LastSave(events[..n], kind, id, i) && !DeletesRecord(events[n], kind, id)
  {
    var n := |events| - 1;
    assert forall j :: 0 <= j < n ==> events[..n][j] == events[j];
    if LastSave(events[..n], kind, id, i) && !SavesRecord(events[n], kind, id) && !DeletesRecord(events[n], kind, id) {
      forall j | i < j < |events| ensures !SavesRecord(events[j], kind, id) && !DeletesRecord(events[j], kind, id) {
        assert j < n ==> events[..n][j] == events[j];
      }
    }
    if LastSave(events, kind, id, i) && i < n {
      forall j | i < j < n ensures !SavesRecord(events[..n][j], kind, id) && !DeletesRecord(events[..n][j], kind, id) {
        assert events[..n][j] == events[j];
      }
    }
  }

  /** A record is stored exactly when some save of it was not followed by a save or a deletion, and it is that one. */
  lemma {:induction false} RecordIsLastSaved(events: seq<Event>, kind: ConfigType, id: string)
    ensures (kind, id) in HistoryOf(events).records <==> exists i: nat :: LastSave(events, kind, id, i)
    ensures forall i: nat :: LastSave(events, kind, id, i) ==>
              (kind, id) in HistoryOf(events).records && HistoryOf(events).records[(kind, id)] == events[i].config
  {
    if events != [] {
      var n := |events| - 1;
      RecordIsLastSaved(events[..n], kind, id);
      forall i: nat ensures LastSave(events, kind, id, i) <==>
          if SavesRecord(events[n], kind, id) then i == n else LastSave(events[..n], kind, id, i) && !DeletesRecord(events[n], kind, id)
      {
        LastSaveSnoc(events, kind, id, i);
      }
      if SavesRecord(events[n], kind, id) {
        assert LastSave(events, kind, id, n);
      } else if (kind, id) in HistoryOf(events).records {
        var i: nat :| LastSave(events[..n], kind, id, i);
        assert LastSave(events, kind, id, i);
      }
    }
  }

  // ---- Index entries -------------------------------------------------------

  ghost predicate WritesEntry(e: Event, key: string) {
    e.Save? && e.first && e.second && e.config.isp != "" && IspKey(e.config.isp, e.config.kind, e.config.id) == key
  }

  ghost predicate LastEntry(events: seq<Event>, key: string, i: nat) {
    i < |events| && WritesEntry(events[i], key) && forall j :: i < j < |events| ==> !WritesEntry(events[j], key)
  }

  lemma LastEntrySnoc(events: seq<Event>, key: string, i: nat)
    requires events != []
    ensures var n := |events| - 1;
            LastEntry(events, key, i) <==> if WritesEntry(events[n], key) then i == n else LastEntry(events[..n], key, i)
  {
    var n := |events| - 1;
    assert forall j :: 0 <= j < n ==> events[..n][j] == events[j];
    if LastEntry(events[..n], key, i) && !WritesEntry(events[n], key) {
      forall j | i < j < |events| ensures !WritesEntry(events[j], key) {
        assert j < n ==> events[..n][j] == events[j];
      }
    }
    if LastEntry(events, key, i) && i < n {
      forall j | i < j < n ensures !WritesEntry(events[..n][j], key) {
        assert events[..n][j] == events[j];
      }
    }
  }

  lemma EntryAfter(h: History, e: Event, key: string)
    ensures var h' := Extended(h, e);
            && (key in h'.indexed <==> WritesEntry(e, key) || key in h.indexed)
            && (WritesEntry(e, key) ==> h'.indexed[key] == e.config.id)
            && (!WritesEntry(e, key) && key in h.indexed ==> h'.indexed[key] == h.indexed[key])
  {
  }

  /** An index entry exists exactly when a save wrote it, deletions notwithstanding, and it holds the id of the last one. */
  lemma {:induction false} EntryIsLastWritten(events: seq<Event>, key: string)
    ensures key in HistoryOf(events).indexed <==> exists i: nat :: LastEntry(events, key, i)
    ensures forall i: nat :: LastEntry(events, key, i) ==>
              key in HistoryOf(events).indexed && HistoryOf(events).indexed[key] == events[i].config.id
  {
    if events != [] {
      var n := |events| - 1;
      EntryIsLastWritten(events[..n], key);
      EntryAfter(HistoryOf(events[..n]), events[n], key);
      EntrySnoc(events, HistoryOf(events[..n]).indexed, HistoryOf(events).indexed, key);
    }
  }

  lemma EntrySnoc(events: seq<Event>, before: map<string, string>, after: map<string, string>, key: string)
    requires events != []
    requires var n := |events| - 1;
             && (key in before <==> exists i: nat :: LastEntry(events[..n], key, i))
             && (forall i: nat :: LastEntry(events[..n], key, i) ==> key in before && before[key] == events[..n][i].config.id)
             && (key in after <==> WritesEntry(events[n], key) || key in before)
             && (WritesEntry(events[n], key) ==> after[key] == events[n].config.id)
             && (!WritesEntry(events[n], key) && key in before ==> after[key] == before[key])
    ensures key in after <==> exists i: nat :: LastEntry(events, key, i)
    ensures forall i: nat :: LastEntry(events, key, i) ==> key in after && after[key] == events[i].config.id
  {
    var n := |events| - 1;
    forall i: nat ensures LastEntry(events, key, i) <==>
        if WritesEntry(events[n], key) then i == n else LastEntry(events[..n], key, i)
    {
      LastEntrySnoc(events, key, i);
    }
    if WritesEntry(events[n], key) {
      assert LastEntry(events, key, n);
    } else if key in after {
      var i: nat :| LastEntry(events[..n], key, i);
      assert LastEntry(events, key, i);
    }
  }

  // ---- Session values ------------------------------------------------------

  ghost predicate SavesSession(e: Event, key: string) {
    e.SaveSession? && e.ok && SessionKey(e.session, e.key) == key
  }

  ghost predicate LastSessionSave(events: seq<Event>, key: string, i: nat) {
    i < |events| && SavesSession(events[i], key) && forall j :: i < j < |events| ==> !Touches(events[j], key)
  }

  lemma LastSessionSnoc(events: seq<Event>, key: string, i: nat)
    requires events != []
    ensures var n := |events| - 1;
            LastSessionSave(events, key, i) <==>
            if SavesSession(events[n], key) then i == n else LastSessionSave(events[..n], key, i) && !Touches(events[n], key)
  {
    var n := |events| - 1;
    assert forall j :: 0 <= j < n ==> events[..n][j] == events[j];
    if LastSessionSave(events[..n], key, i) && !Touches(events[n], key) {
      forall j | i < j < |events| ensures !Touches(events[j], key) {
        assert j < n ==> events[..n][j] == events[j];
      }
    }
    if LastSessionSave(events, key, i) && i < n {
      forall j | i < j < n ensures !Touches(events[..n][j], key) {
        assert events[..n][j] == events[j];
      }
    }
  }

  /** A session value is stored exactly when some save of it was not followed by a save or a deletion, and it is that one. */
  lemma {:induction false} SessionIsLastSaved(events: seq<Event>, key: string)
    ensures key in HistoryOf(events).sessions <==> exists i: nat :: LastSessionSave(events, key, i)
    ensures forall i: nat :: LastSessionSave(events, key, i) ==>
              && key in HistoryOf(events).sessions
              && HistoryOf(events).sessions[key] == Timed(events[i].data, ExpiryOf(events[i].now, events[i].ttl))
  {
    if events != [] {
      var n := |events| - 1;
      SessionIsLastSaved(events[..n], key);
      forall i: nat ensures LastSessionSave(events, key, i) <==>
          if SavesSession(events[n], key) then i == n else LastSessionSave(events[..n], key, i) && !Touches(events[n], key)
      {
        LastSessionSnoc(events, key, i);
      }
      if SavesSession(events[n], key) {
        assert LastSessionSave(events, key, n);
      } else if key in HistoryOf(events).sessions {
        var i: nat :| LastSessionSave(events[..n], key, i);
        assert LastSessionSave(events, key, i);
      }
    }
  }
}
