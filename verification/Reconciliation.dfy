/**
 The update/insert/delete loops with which UpdateHotspotUser brings one table to
 the state asked for. The three sections of the handler are the same loops: the check
 section skips Cleartext-Password when it reads the current rows and keeps Auth-Type
 rows when it has just added one, and the reply and group sections skip and keep nothing.
 */
module Reconciliation {
  import opened Table
  import opened Connections

  datatype Entry<V> = Entry(name: string, val: V)

  function Names<V>(input: seq<Entry<V>>): set<string> {
    set i | 0 <= i < |input| :: input[i].name
  }

  /** The values the input gives for name k, in order. */
  function InputVals<V>(input: seq<Entry<V>>, k: string): seq<V> {
    if input == [] then [] else
      var e := input[|input| - 1];
      var rest := InputVals(input[..|input| - 1], k);
      if e.name == k then rest + [e.val] else rest
  }

  function InputRows<V>(u: string, input: seq<Entry<V>>): seq<Row<V>> {
    if input == [] then [] else
      var e := input[|input| - 1];
      InputRows(u, input[..|input| - 1]) + [Row(u, e.name, e.val)]
  }

  function Last<V>(s: seq<V>): V
    requires s != []
  {
    s[|s| - 1]
  }

  // ---- What the loops compute ----------------------------------------------

  /** The handler's lookup map: of several rows with one name the last one read stays. */
  function Current<V>(rows: seq<Row<V>>, u: string, skip: set<string>): map<string, V> {
    map k | k in NamesOf(rows, u) && k !in skip && Vals(rows, u, k) != [] :: Last(Vals(rows, u, k))
  }

  /** The first loop: the lookup map is not refreshed while it runs. */
  function Applied<V(==)>(rows: seq<Row<V>>, u: string, current: map<string, V>, input: seq<Entry<V>>): seq<Row<V>> {
    if input == [] then rows else
      var e := input[|input| - 1];
      var rest := Applied(rows, u, current, input[..|input| - 1]);
      if e.name !in current then Insert(rest, u, e.name, e.val)
      else if current[e.name] != e.val then Update(rest, u, e.name, e.val)
      else rest
  }

  /** Both loops. */
  function Diff<V(==)>(rows: seq<Row<V>>, u: string, input: seq<Entry<V>>, skip: set<string>, keep: set<string>): seq<Row<V>> {
    var current := Current(rows, u, skip);
    Without(Applied(rows, u, current, input), u, current.Keys - keep - Names(input))
  }

  /** The reference: delete the user's rows, except skipped and kept names, and insert the input. */
  function Replace<V>(rows: seq<Row<V>>, u: string, input: seq<Entry<V>>, skip: set<string>, keep: set<string>): seq<Row<V>> {
    Without(rows, u, NamesOf(rows, u) - skip - keep) + InputRows(u, input)
  }

  // ---- The handler ---------------------------------------------------------

  method ReadCurrent<V>(selected: seq<Row<V>>, ghost rows: seq<Row<V>>, u: string, skip: set<string>)
    returns (current: map<string, V>)
    requires selected == Select(rows, u)
    ensures current == Current(rows, u, skip)
  {
    current := map[];
    for i := 0 to |selected|
      invariant HoldsLast(current, selected[..i], u, skip)
    {
      ValsSelect(rows, u, "");
      var row := selected[i];
      assert selected[..i + 1] == selected[..i] + [row];
      HoldsLastSnoc(current, selected[..i], row, u, skip);
      if row.name !in skip {
        current := current[row.name := row.val];
      }
    }
    assert selected[..|selected|] == selected;
    HoldsLastIsCurrent(current, rows, u, skip);
  }

  /** The map holds the last value of every name that is not skipped. */
  ghost predicate HoldsLast<V>(current: map<string, V>, rows: seq<Row<V>>, u: string, skip: set<string>) {
    && (forall k :: k in current <==> k !in skip && Vals(rows, u, k) != [])
    && (forall k :: k in current ==> current[k] == Last(Vals(rows, u, k)))
  }

  lemma HoldsLastSnoc<V>(current: map<string, V>, rows: seq<Row<V>>, row: Row<V>, u: string, skip: set<string>)
    requires HoldsLast(current, rows, u, skip) && row.user == u
    ensures HoldsLast(if row.name in skip then current else current[row.name := row.val], rows + [row], u, skip)
  {
    forall k ensures Vals(rows + [row], u, k) == if row.name == k then Vals(rows, u, k) + [row.val] else Vals(rows, u, k) {
      ValsInsert(rows, row, u, k);
    }
  }

  lemma HoldsLastIsCurrent<V>(current: map<string, V>, rows: seq<Row<V>>, u: string, skip: set<string>)
    requires HoldsLast(current, Select(rows, u), u, skip)
    ensures current == Current(rows, u, skip)
  {
    forall k ensures Vals(Select(rows, u), u, k) == Vals(rows, u, k) && (Vals(rows, u, k) != [] <==> k in NamesOf(rows, u)) {
      ValsSelect(rows, u, k);
      ValsNonempty(rows, u, k);
    }
  }

  /** The first loop, with the set of names it has dealt with. */
  method ApplyInput<V(==)>(conn: Connection, rows: seq<Row<V>>, u: string, current: map<string, V>, input: seq<Entry<V>>)
    returns (ok: bool, result: seq<Row<V>>, processed: set<string>)
    modifies conn
    ensures conn.failures >= old(conn.failures) && conn.unanswered == old(conn.unanswered)
    ensures ok <==> conn.failures == old(conn.failures)
    ensures ok ==> result == Applied(rows, u, current, input) && processed == Names(input)
  {
    result, processed := rows, {};
    for i := 0 to |input|
      invariant conn.failures == old(conn.failures) && conn.unanswered == old(conn.unanswered)
      invariant result == Applied(rows, u, current, input[..i])
      invariant processed == Names(input[..i])
    {
      var e := input[i];
      assert input[..i + 1][..i] == input[..i];
      NamesSnoc(input[..i], e);
      assert input[..i + 1] == input[..i] + [e];
      if e.name in current {
        processed := processed + {e.name};
        if current[e.name] != e.val {
          ok := conn.Send();
          if !ok { return; }
          result := Update(result, u, e.name, e.val);
        }
      } else {
        ok := conn.Send();
        if !ok { return; }
        result := Insert(result, u, e.name, e.val);
        processed := processed + {e.name};
      }
    }
    assert input[..|input|] == input;
    ok := true;
  }

  /** The second loop: the names of a map come in any order. */
  method DeleteStale<V>(conn: Connection, rows: seq<Row<V>>, u: string, names: set<string>, keep: set<string>, processed: set<string>)
    returns (ok: bool, result: seq<Row<V>>)
    modifies conn
    ensures conn.failures >= old(conn.failures) && conn.unanswered == old(conn.unanswered)
    ensures ok <==> conn.failures == old(conn.failures)
    ensures ok ==> result == Without(rows, u, names - keep - processed)
  {
    result := rows;
    WithoutNothing(rows, u);
    var remaining := names;
    ghost var doomed := names - keep - processed;
    assert doomed - remaining == {};
    while remaining != {}
      invariant conn.failures == old(conn.failures) && conn.unanswered == old(conn.unanswered)
      invariant remaining <= names
      invariant result == Without(rows, u, doomed - remaining)
      decreases remaining
    {
      var name :| name in remaining;
      if name !in keep && name !in processed {
        ok := conn.Send();
        if !ok { return; }
        WithoutTwice(rows, u, doomed - remaining, {name});
        assert doomed - (remaining - {name}) == doomed - remaining + {name};
        result := Without(result, u, {name});
      } else {
        assert doomed - (remaining - {name}) == doomed - remaining;
      }
      remaining := remaining - {name};
    }
    assert doomed - {} == doomed;
    ok := true;
  }

  method Reconcile<V(==)>(conn: Connection, rows: seq<Row<V>>, u: string, input: seq<Entry<V>>,
                          skip: set<string>, keep: set<string>)
    returns (ok: bool, result: seq<Row<V>>)
    modifies conn
    ensures conn.failures >= old(conn.failures) && conn.unanswered == old(conn.unanswered)
    ensures ok <==> conn.failures == old(conn.failures)
    ensures ok ==> result == Diff(rows, u, input, skip, keep)
  {
    result := rows;
    ok := conn.Send();
    if !ok { return; }
    var current := ReadCurrent(Select(rows, u), rows, u, skip);
    var processed;
    ok, result, processed := ApplyInput(conn, rows, u, current, input);
    if !ok { return; }
    ok, result := DeleteStale(conn, result, u, current.Keys, keep, processed);
  }

  lemma NamesSnoc<V>(input: seq<Entry<V>>, e: Entry<V>)
    ensures Names(input + [e]) == Names(input) + {e.name}
  {
    forall k | k in Names(input) + {e.name} ensures k in Names(input + [e]) {
      if k in Names(input) {
        var i :| 0 <= i < |input| && input[i].name == k;
        assert (input + [e])[i].name == k;
      } else {
        assert (input + [e])[|input|].name == k;
      }
    }
  }
}
