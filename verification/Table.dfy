/**
 A SQL table of (username, name, value) rows and the four statements the RADIUS
 handlers issue against it. radcheck and radreply name their rows by attribute
 and store an operator with a value; radusergroup names them by group and stores
 a priority. Row identifiers are never read by the handlers and are left out, so
 a table is the sequence of its rows in insertion order.
 */
module Table {
  datatype Row<V> = Row(user: string, name: string, val: V)

  // ---- Statements ----------------------------------------------------------

  /** INSERT. */
  function Insert<V>(rows: seq<Row<V>>, u: string, k: string, v: V): seq<Row<V>> {
    rows + [Row(u, k, v)]
  }

  /** UPDATE ... SET v WHERE username = u AND name = k. */
  function Update<V>(rows: seq<Row<V>>, u: string, k: string, v: V): seq<Row<V>> {
    if rows == [] then [] else
      var r := rows[|rows| - 1];
      Update(rows[..|rows| - 1], u, k, v) + [if r.user == u && r.name == k then r.(val := v) else r]
  }

  /** DELETE ... WHERE username = u AND name IN ks. */
  function Without<V>(rows: seq<Row<V>>, u: string, ks: set<string>): seq<Row<V>> {
    if rows == [] then [] else
      var r := rows[|rows| - 1];
      var rest := Without(rows[..|rows| - 1], u, ks);
      if r.user == u && r.name in ks then rest else rest + [r]
  }

  /** DELETE ... WHERE username = u. */
  function WithoutUser<V>(rows: seq<Row<V>>, u: string): seq<Row<V>> {
    if rows == [] then [] else
      var r := rows[|rows| - 1];
      var rest := WithoutUser(rows[..|rows| - 1], u);
      if r.user == u then rest else rest + [r]
  }

  /** SELECT ... WHERE username = u. */
  function Select<V>(rows: seq<Row<V>>, u: string): seq<Row<V>> {
    if rows == [] then [] else
      var r := rows[|rows| - 1];
      var rest := Select(rows[..|rows| - 1], u);
      if r.user == u then rest + [r] else rest
  }

  // ---- The contents of a table, cell by cell -------------------------------

  /** The values stored under (u, k), in row order. */
  function Vals<V>(rows: seq<Row<V>>, u: string, k: string): seq<V> {
    if rows == [] then [] else
      var r := rows[|rows| - 1];
      var rest := Vals(rows[..|rows| - 1], u, k);
      if r.user == u && r.name == k then rest + [r.val] else rest
  }

  /** The names under which u has rows. */
  function NamesOf<V>(rows: seq<Row<V>>, u: string): set<string> {
    set i | 0 <= i < |rows| && rows[i].user == u :: rows[i].name
  }

  function Fill<V>(n: nat, v: V): (s: seq<V>)
    ensures |s| == n && forall i :: 0 <= i < n ==> s[i] == v
  {
    seq(n, _ => v)
  }

  /** At most one row per user and name, except for the exempt names. */
  ghost predicate Unique<V>(rows: seq<Row<V>>, exempt: set<string>) {
    forall u, k :: k !in exempt ==> |Vals(rows, u, k)| <= 1
  }

  ghost predicate SameFor<V>(a: seq<Row<V>>, b: seq<Row<V>>, u: string) {
    forall k :: Vals(a, u, k) == Vals(b, u, k)
  }

  lemma ValsInsert<V>(rows: seq<Row<V>>, r: Row<V>, u: string, k: string)
    ensures Vals(rows + [r], u, k) ==
            if r.user == u && r.name == k then Vals(rows, u, k) + [r.val] else Vals(rows, u, k)
  {
    assert (rows + [r])[..|rows|] == rows;
  }

  lemma {:induction false} ValsUpdate<V>(rows: seq<Row<V>>, u: string, k: string, v: V, u': string, k': string)
    ensures Vals(Update(rows, u, k, v), u', k') ==
            if u' == u && k' == k then Fill(|Vals(rows, u, k)|, v) else Vals(rows, u', k')
  {
    if rows != [] {
      var init, r := rows[..|rows| - 1], rows[|rows| - 1];
      ValsUpdate(init, u, k, v, u', k');
      ValsInsert(Update(init, u, k, v), if r.user == u && r.name == k then r.(val := v) else r, u', k');
    }
  }

  lemma {:induction false} ValsWithout<V>(rows: seq<Row<V>>, u: string, ks: set<string>, u': string, k': string)
    ensures Vals(Without(rows, u, ks), u', k') == if u' == u && k' in ks then [] else Vals(rows, u', k')
  {
    if rows != [] {
      var init, r := rows[..|rows| - 1], rows[|rows| - 1];
      ValsWithout(init, u, ks, u', k');
      ValsInsert(Without(init, u, ks), r, u', k');
    }
  }

  lemma {:induction false} ValsWithoutUser<V>(rows: seq<Row<V>>, u: string, u': string, k': string)
    ensures Vals(WithoutUser(rows, u), u', k') == if u' == u then [] else Vals(rows, u', k')
  {
    if rows != [] {
      var init, r := rows[..|rows| - 1], rows[|rows| - 1];
      ValsWithoutUser(init, u, u', k');
      ValsInsert(WithoutUser(init, u), r, u', k');
    }
  }

  lemma {:induction false} ValsSelect<V>(rows: seq<Row<V>>, u: string, k: string)
    ensures Vals(Select(rows, u), u, k) == Vals(rows, u, k)
    ensures forall r :: r in Select(rows, u) ==> r.user == u
  {
    if rows != [] {
      var init, r := rows[..|rows| - 1], rows[|rows| - 1];
      ValsSelect(init, u, k);
      ValsInsert(Select(init, u), r, u, k);
    }
  }

  lemma {:induction false} ValsConcat<V>(a: seq<Row<V>>, b: seq<Row<V>>, u: string, k: string)
    ensures Vals(a + b, u, k) == Vals(a, u, k) + Vals(b, u, k)
  {
    if b == [] {
      assert a + b == a;
    } else {
      var init, r := b[..|b| - 1], b[|b| - 1];
      ValsConcat(a, init, u, k);
      assert a + b == (a + init) + [r];
      ValsInsert(a + init, r, u, k);
    }
  }

  lemma {:induction false} ValsNonempty<V>(rows: seq<Row<V>>, u: string, k: string)
    ensures Vals(rows, u, k) != [] <==> k in NamesOf(rows, u)
  {
    if rows != [] {
      var init, r := rows[..|rows| - 1], rows[|rows| - 1];
      ValsNonempty(init, u, k);
      assert rows == init + [r];
      if k in NamesOf(rows, u) && !(r.user == u && r.name == k) {
        var i :| 0 <= i < |rows| && rows[i].user == u && rows[i].name == k;
        assert init[i].user == u && init[i].name == k;
      }
      if k in NamesOf(init, u) {
        var i :| 0 <= i < |init| && init[i].user == u && init[i].name == k;
        assert rows[i].user == u && rows[i].name == k;
      }
      if r.user == u && r.name == k {
        assert rows[|rows| - 1].user == u && rows[|rows| - 1].name == k;
      }
    }
  }

  /** Deleting name sets one after the other deletes their union, so the order is immaterial. */
  lemma {:induction false} WithoutTwice<V>(rows: seq<Row<V>>, u: string, a: set<string>, b: set<string>)
    ensures Without(Without(rows, u, a), u, b) == Without(rows, u, a + b)
  {
    if rows != [] {
      var init, r := rows[..|rows| - 1], rows[|rows| - 1];
      WithoutTwice(init, u, a, b);
      var w := Without(init, u, a);
      assert (w + [r])[..|w|] == w;
    }
  }

  lemma {:induction false} WithoutNothing<V>(rows: seq<Row<V>>, u: string)
    ensures Without(rows, u, {}) == rows
  {
    if rows != [] {
      WithoutNothing(rows[..|rows| - 1], u);
    }
  }

  // ---- Cells determine the table up to row order ---------------------------

  lemma {:induction false} RowCount<V>(rows: seq<Row<V>>, u: string, k: string, v: V)
    ensures multiset(rows)[Row(u, k, v)] == multiset(Vals(rows, u, k))[v]
  {
    if rows != [] {
      var init, r := rows[..|rows| - 1], rows[|rows| - 1];
      RowCount(init, u, k, v);
      assert rows == init + [r];
      MultisetSnoc(init, r, Row(u, k, v));
      if r.user == u && r.name == k {
        MultisetSnoc(Vals(init, u, k), r.val, v);
      }
    }
  }

  lemma MultisetSnoc<T>(s: seq<T>, x: T, y: T)
    ensures multiset(s + [x])[y] == multiset(s)[y] + if x == y then 1 else 0
  {
    assert multiset(s + [x]) == multiset(s) + multiset{x};
  }

  ghost predicate SameCells<V>(a: seq<Row<V>>, b: seq<Row<V>>) {
    forall u, k :: multiset(Vals(a, u, k)) == multiset(Vals(b, u, k))
  }

  /** Two tables hold the same rows, counted with multiplicity, iff every cell holds the same values. */
  lemma SameRowsIffSameCells<V(!new)>(a: seq<Row<V>>, b: seq<Row<V>>)
    ensures multiset(a) == multiset(b) <==> SameCells(a, b)
  {
    forall u, k, v
      ensures multiset(a)[Row(u, k, v)] == multiset(Vals(a, u, k))[v]
      ensures multiset(b)[Row(u, k, v)] == multiset(Vals(b, u, k))[v]
    {
      RowCount(a, u, k, v);
      RowCount(b, u, k, v);
    }
    if SameCells(a, b) {
      forall r: Row<V> ensures multiset(a)[r] == multiset(b)[r] {
        assert r == Row(r.user, r.name, r.val);
        assert multiset(Vals(a, r.user, r.name))[r.val] == multiset(Vals(b, r.user, r.name))[r.val];
      }
      assert multiset(a) == multiset(b);
    }
    if multiset(a) == multiset(b) {
      forall u, k ensures multiset(Vals(a, u, k)) == multiset(Vals(b, u, k)) {
        forall v ensures multiset(Vals(a, u, k))[v] == multiset(Vals(b, u, k))[v] {
          assert multiset(a)[Row(u, k, v)] == multiset(b)[Row(u, k, v)];
        }
      }
    }
  }
}
