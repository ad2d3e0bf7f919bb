/** How the loops compare with deleting the user's rows and inserting the input afresh. */
module Replacement {
  import opened Table
  import opened Reconciliation

  // ---- Cell by cell --------------------------------------------------------

  /** The fate of the values s already stored under a name for which the input gives ins. */
  function Merge<V(==)>(s: seq<V>, shown: V, ins: seq<V>): seq<V> {
    if ins == [] then s
    else if Last(ins) != shown then Fill(|s|, Last(ins))
    else Merge(s, shown, ins[..|ins| - 1])
  }

  function DiffCell<V(==)>(s: seq<V>, ins: seq<V>, skipped: bool, kept: bool): seq<V> {
    if skipped || s == [] then s + ins
    else if ins == [] then if kept then s else []
    else Merge(s, Last(s), ins)
  }

  function ReplaceCell<V>(s: seq<V>, ins: seq<V>, skipped: bool, kept: bool): seq<V> {
    (if skipped || kept then s else []) + ins
  }

  lemma {:induction false} InputValsNames<V>(input: seq<Entry<V>>, k: string)
    ensures InputVals(input, k) != [] <==> k in Names(input)
  {
    if input != [] {
      var init, e := input[..|input| - 1], input[|input| - 1];
      assert input == init + [e];
      InputValsNames(init, k);
      NamesSnoc(init, e);
    }
  }

  lemma {:induction false} ValsInputRows<V>(u: string, input: seq<Entry<V>>, u': string, k: string)
    ensures Vals(InputRows(u, input), u', k) == if u' == u then InputVals(input, k) else []
  {
    if input != [] {
      var init, e := input[..|input| - 1], input[|input| - 1];
      ValsInputRows(u, init, u', k);
      ValsInsert(InputRows(u, init), Row(u, e.name, e.val), u', k);
    }
  }

  lemma {:induction false} ValsApplied<V>(rows: seq<Row<V>>, u: string, current: map<string, V>,
                                          input: seq<Entry<V>>, u': string, k: string)
    ensures Vals(Applied(rows, u, current, input), u', k) ==
            if u' != u then Vals(rows, u', k)
            else if k in current then Merge(Vals(rows, u, k), current[k], InputVals(input, k))
            else Vals(rows, u, k) + InputVals(input, k)
  {
    if input != [] {
      var init, e := input[..|input| - 1], input[|input| - 1];
      var rest := Applied(rows, u, current, init);
      ValsApplied(rows, u, current, init, u', k);
      if e.name !in current {
        ValsInsert(rest, Row(u, e.name, e.val), u', k);
      } else if current[e.name] != e.val {
        ValsUpdate(rest, u, e.name, e.val, u', k);
        if u' == u && k == e.name {
          MergeLength(Vals(rows, u, k), current[k], InputVals(init, k));
        }
      } else if e.name == k {
        assert (InputVals(init, k) + [e.val])[..|InputVals(init, k)|] == InputVals(init, k);
      }
    }
  }

  lemma {:induction false} MergeLength<V>(s: seq<V>, shown: V, ins: seq<V>)
    ensures |Merge(s, shown, ins)| == |s|
  {
    if ins != [] && Last(ins) == shown {
      MergeLength(s, shown, ins[..|ins| - 1]);
    }
  }

  /** Every cell after the loops, for any input and any table. */
  lemma DiffCells<V>(rows: seq<Row<V>>, u: string, input: seq<Entry<V>>, skip: set<string>, keep: set<string>,
                     u': string, k: string)
    ensures Vals(Diff(rows, u, input, skip, keep), u', k) ==
            if u' != u then Vals(rows, u', k)
            else DiffCell(Vals(rows, u, k), InputVals(input, k), k in skip, k in keep)
  {
    var current := Current(rows, u, skip);
    ValsApplied(rows, u, current, input, u', k);
    ValsWithout(Applied(rows, u, current, input), u, current.Keys - keep - Names(input), u', k);
    ValsNonempty(rows, u, k);
    InputValsNames(input, k);
  }

  lemma ReplaceCells<V>(rows: seq<Row<V>>, u: string, input: seq<Entry<V>>, skip: set<string>, keep: set<string>,
                        u': string, k: string)
    ensures Vals(Replace(rows, u, input, skip, keep), u', k) ==
            if u' != u then Vals(rows, u', k)
            else ReplaceCell(Vals(rows, u, k), InputVals(input, k), k in skip, k in keep)
  {
    var gone := NamesOf(rows, u) - skip - keep;
    ValsConcat(Without(rows, u, gone), InputRows(u, input), u', k);
    ValsWithout(rows, u, gone, u', k);
    ValsInputRows(u, input, u', k);
    ValsNonempty(rows, u, k);
  }

  // ---- When the diff is the replacement ------------------------------------

  ghost predicate Constant<V>(s: seq<V>) {
    forall i :: 0 <= i < |s| ==> s[i] == s[0]
  }

  /**
   The input can be merged into the stored values s without loss: the name is
   new, skipped or absent from the input; or it is not a kept name, the input
   repeats it as often as it is stored, always with one value, and if that value
   is the one the lookup map shows then all stored values already have it.
   */
  ghost predicate Mergeable<V>(s: seq<V>, ins: seq<V>, skipped: bool, kept: bool) {
    skipped || s == [] || ins == [] ||
    (!kept && |s| == |ins| && Constant(ins) && (ins[0] == Last(s) ==> Constant(s)))
  }

  lemma {:induction false} MergeShape<V>(s: seq<V>, shown: V, ins: seq<V>)
    ensures (forall i :: 0 <= i < |ins| ==> ins[i] == shown) ==> Merge(s, shown, ins) == s
    ensures (exists i :: 0 <= i < |ins| && ins[i] != shown) ==>
              exists i :: 0 <= i < |ins| && ins[i] != shown && Merge(s, shown, ins) == Fill(|s|, ins[i])
  {
    if ins != [] {
      if Last(ins) != shown {
        assert Merge(s, shown, ins) == Fill(|s|, ins[|ins| - 1]);
      } else {
        var init := ins[..|ins| - 1];
        MergeShape(s, shown, init);
        if exists i :: 0 <= i < |ins| && ins[i] != shown {
          var i :| 0 <= i < |ins| && ins[i] != shown;
          assert init[i] != shown;
          var j :| 0 <= j < |init| && init[j] != shown && Merge(s, shown, init) == Fill(|s|, init[j]);
          assert ins[j] == init[j];
        }
      }
    }
  }

  lemma SameBagAsFill<V>(n: nat, v: V, t: seq<V>)
    ensures multiset(Fill(n, v)) == multiset(t) <==> |t| == n && forall i :: 0 <= i < |t| ==> t[i] == v
  {
    if multiset(Fill(n, v)) == multiset(t) {
      assert |multiset(Fill(n, v))| == n && |multiset(t)| == |t|;
      forall i | 0 <= i < |t| ensures t[i] == v {
        assert t[i] in multiset(Fill(n, v));
      }
    }
    if |t| == n && forall i :: 0 <= i < |t| ==> t[i] == v {
      assert t == Fill(n, v);
    }
  }

  lemma CellsAgree<V>(s: seq<V>, ins: seq<V>, skipped: bool, kept: bool)
    ensures multiset(DiffCell(s, ins, skipped, kept)) == multiset(ReplaceCell(s, ins, skipped, kept))
            <==> Mergeable(s, ins, skipped, kept)
  {
    if skipped || s == [] {
      assert [] + ins == ins;
    } else if ins == [] {
      assert s + [] == s;
    } else if kept {
      MergeLength(s, Last(s), ins);
      assert |multiset(Merge(s, Last(s), ins))| == |s|;
      assert |multiset(s + ins)| == |s| + |ins|;
    } else {
      MergeAgrees(s, ins);
      assert [] + ins == ins;
    }
  }

  lemma MergeAgrees<V>(s: seq<V>, ins: seq<V>)
    requires s != [] && ins != []
    ensures multiset(Merge(s, Last(s), ins)) == multiset(ins) <==> Mergeable(s, ins, false, false)
  {
    var shown := Last(s);
    MergeShape(s, shown, ins);
    if exists i :: 0 <= i < |ins| && ins[i] != shown {
      var i :| 0 <= i < |ins| && ins[i] != shown && Merge(s, shown, ins) == Fill(|s|, ins[i]);
      SameBagAsFill(|s|, ins[i], ins);
    } else {
      assert ins == Fill(|ins|, shown);
      SameBagAsFill(|ins|, shown, s);
    }
  }

  ghost predicate InputMergeable<V>(rows: seq<Row<V>>, u: string, input: seq<Entry<V>>,
                                    skip: set<string>, keep: set<string>) {
    forall k :: k in Names(input) ==>
      Mergeable(Vals(rows, u, k), InputVals(input, k), k in skip, k in keep)
  }

  /**
   The loops leave exactly the rows of the replacement, for every table and every
   input, if and only if every name in the input is mergeable.
   */
  lemma DiffIsReplacement<V(!new)>(rows: seq<Row<V>>, u: string, input: seq<Entry<V>>,
                                   skip: set<string>, keep: set<string>)
    ensures multiset(Diff(rows, u, input, skip, keep)) == multiset(Replace(rows, u, input, skip, keep))
            <==> InputMergeable(rows, u, input, skip, keep)
  {
    var a, b := Diff(rows, u, input, skip, keep), Replace(rows, u, input, skip, keep);
    SameRowsIffSameCells(a, b);
    forall u', k
      ensures multiset(Vals(a, u', k)) == multiset(Vals(b, u', k)) <==>
              u' != u || Mergeable(Vals(rows, u, k), InputVals(input, k), k in skip, k in keep)
    {
      DiffCells(rows, u, input, skip, keep, u', k);
      ReplaceCells(rows, u, input, skip, keep, u', k);
      CellsAgree(Vals(rows, u, k), InputVals(input, k), k in skip, k in keep);
    }
    forall k | k !in Names(input) ensures InputVals(input, k) == [] {
      InputValsNames(input, k);
    }
    if SameCells(a, b) {
      forall k | k in Names(input) ensures Mergeable(Vals(rows, u, k), InputVals(input, k), k in skip, k in keep) {
        assert multiset(Vals(a, u, k)) == multiset(Vals(b, u, k));
      }
    }
  }

  /**
   A name that is stored and then given twice: the second value is compared with
   the stored one, not with the first, so the first stays and one row is left
   where the replacement has two.
   */
  lemma RepeatedNameDiverges<V(!new)>(rows: seq<Row<V>>, u: string, k: string, one: V, two: V)
    requires Vals(rows, u, k) == [one] && one != two
    ensures var input := [Entry(k, two), Entry(k, one)];
            && Vals(Diff(rows, u, input, {}, {}), u, k) == [two]
            && Vals(Replace(rows, u, input, {}, {}), u, k) == [two, one]
            && multiset(Diff(rows, u, input, {}, {})) != multiset(Replace(rows, u, input, {}, {}))
  {
    var input := [Entry(k, two), Entry(k, one)];
    assert input[..1][..0] == [] && InputVals(input[..1], k) == [two];
    assert InputVals(input, k) == [two, one];
    MergeTwo(one, two);
    DiffCells(rows, u, input, {}, {}, u, k);
    ReplaceCells(rows, u, input, {}, {}, u, k);
    assert [] + [two, one] == [two, one];
    SameRowsIffSameCells(Diff(rows, u, input, {}, {}), Replace(rows, u, input, {}, {}));
    assert |multiset([two])| == 1 && |multiset([two, one])| == 2;
    assert multiset([two]) != multiset([two, one]);
  }

  lemma MergeTwo<V>(one: V, two: V)
    requires one != two
    ensures Merge([one], one, [two, one]) == [two]
  {
    assert [two, one][..1] == [two];
    assert Merge([one], one, [two]) == Fill(1, two) == [two];
  }

  ghost predicate Distinct<V>(input: seq<Entry<V>>) {
    forall i, j :: 0 <= i < j < |input| ==> input[i].name != input[j].name
  }

  lemma {:induction false} DistinctVals<V>(input: seq<Entry<V>>, k: string)
    requires Distinct(input)
    ensures |InputVals(input, k)| <= 1
  {
    if input != [] {
      var init, e := input[..|input| - 1], input[|input| - 1];
      DistinctVals(init, k);
      InputValsNames(init, k);
    }
  }

  lemma ReplacesOne<V>(s: seq<V>, v: V)
    requires |s| <= 1
    ensures DiffCell(s, [v], false, false) == [v]
  {
    if s != [] {
      assert [v][..0] == [];
      if v == s[0] {
        assert Merge(s, s[0], [v]) == Merge(s, s[0], []);
      } else {
        assert Fill(1, v) == [v];
      }
    }
  }

  /** Each entry of a distinct input is all that the input gives for its name. */
  lemma {:induction false} DistinctGiven<V>(input: seq<Entry<V>>, i: nat)
    requires Distinct(input) && i < |input|
    ensures InputVals(input, input[i].name) == [input[i].val]
  {
    var n := |input| - 1;
    var init := input[..n];
    InputValsNames(init, input[n].name);
    if i < n {
      DistinctGiven(init, i);
    }
  }

  /** In particular: distinct names, none of them kept, over a table with one row per name. */
  lemma DistinctInputsMerge<V(!new)>(rows: seq<Row<V>>, u: string, input: seq<Entry<V>>,
                                     skip: set<string>, keep: set<string>)
    requires Distinct(input) && Names(input) !! keep
    requires forall k :: k in Names(input) && k !in skip ==> |Vals(rows, u, k)| <= 1
    ensures multiset(Diff(rows, u, input, skip, keep)) == multiset(Replace(rows, u, input, skip, keep))
  {
    forall k | k in Names(input)
      ensures Mergeable(Vals(rows, u, k), InputVals(input, k), k in skip, k in keep)
    {
      DistinctVals(input, k);
    }
    DiffIsReplacement(rows, u, input, skip, keep);
  }

  /** Another user's rows keep their cells, whatever the input. */
  lemma DiffFrame<V>(rows: seq<Row<V>>, u: string, input: seq<Entry<V>>, skip: set<string>, keep: set<string>, other: string)
    requires other != u
    ensures SameFor(Diff(rows, u, input, skip, keep), rows, other)
  {
    forall k ensures Vals(Diff(rows, u, input, skip, keep), other, k) == Vals(rows, other, k) {
      DiffCells(rows, u, input, skip, keep, other, k);
    }
  }

  /** Distinct inputs keep a table free of duplicate names. */
  lemma DiffUnique<V>(rows: seq<Row<V>>, u: string, input: seq<Entry<V>>, skip: set<string>, keep: set<string>,
                      exempt: set<string>)
    requires Unique(rows, exempt) && Distinct(input)
    requires Names(input) * skip <= exempt
    ensures Unique(Diff(rows, u, input, skip, keep), exempt)
  {
    forall u', k | k !in exempt ensures |Vals(Diff(rows, u, input, skip, keep), u', k)| <= 1 {
      DiffCells(rows, u, input, skip, keep, u', k);
      DistinctVals(input, k);
      InputValsNames(input, k);
      if u' == u && Vals(rows, u, k) != [] {
        MergeLength(Vals(rows, u, k), Last(Vals(rows, u, k)), InputVals(input, k));
      }
    }
  }
}
