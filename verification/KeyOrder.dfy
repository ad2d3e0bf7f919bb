/** The order in which the key-value store iterates its keys. */
module KeyOrder {
  /**
   Lexicographic order. Keys are UTF-8 in the store, and the byte order of UTF-8
   is the order of code points.
   */
  predicate Less(a: string, b: string) {
    b != "" && (a == "" || a[0] < b[0] || (a[0] == b[0] && Less(a[1..], b[1..])))
  }

  predicate AtMost(a: string, b: string) {
    a == b || Less(a, b)
  }

  lemma {:induction false} LessTotal(a: string, b: string)
    ensures Less(a, b) || a == b || Less(b, a)
    ensures !(Less(a, b) && Less(b, a)) && !Less(a, a)
  {
    if a != "" {
      LessTotal(a[1..], if b != "" then b[1..] else "");
      LessTotal(a[1..], a[1..]);
      if b != "" && a[0] == b[0] && a[1..] == b[1..] {
        assert a == [a[0]] + a[1..] == b;
      }
    }
  }

  lemma {:induction false} LessTransitive(a: string, b: string, c: string)
    requires Less(a, b) && Less(b, c)
    ensures Less(a, c)
  {
    if a != "" && a[0] == b[0] == c[0] {
      LessTransitive(a[1..], b[1..], c[1..]);
    }
  }

  lemma {:induction false} LessAfterPrefix(p: string, a: string, b: string)
    ensures Less(p + a, p + b) <==> Less(a, b)
  {
    if p == "" {
      assert p + a == a && p + b == b;
    } else {
      assert (p + a)[1..] == p[1..] + a && (p + b)[1..] == p[1..] + b;
      LessAfterPrefix(p[1..], a, b);
    }
  }

  /** The keys with one prefix are contiguous. */
  lemma {:induction false} PrefixContiguous(p: string, k: string, k': string)
    requires AtMost(p, k) && AtMost(k, k') && p <= k'
    ensures p <= k
  {
    if p != "" && k != k' && p != k {
      assert p[0] == k'[0];
      assert p[1..] <= k'[1..];
      if k[0] == p[0] {
        PrefixContiguous(p[1..], k[1..], k'[1..]);
        assert k == [k[0]] + k[1..];
      }
    }
  }

  lemma PrefixIsLeast(p: string, k: string)
    requires p <= k
    ensures AtMost(p, k)
    decreases |p|
  {
    if p != "" {
      PrefixIsLeast(p[1..], k[1..]);
    }
  }

  method Least(keys: set<string>) returns (m: string)
    requires keys != {}
    ensures m in keys && forall k :: k in keys ==> AtMost(m, k)
  {
    m :| m in keys;
    var rest := keys - {m};
    while rest != {}
      invariant rest <= keys && m in keys
      invariant forall k :: k in keys && k !in rest ==> AtMost(m, k)
      decreases rest
    {
      var k :| k in rest;
      rest := rest - {k};
      if Less(k, m) {
        forall k' | k' in keys && k' !in rest ensures AtMost(k, k') {
          if k' != k && k' != m {
            LessTransitive(k, m, k');
          }
        }
        m := k;
      } else {
        LessTotal(k, m);
      }
    }
  }

  // ---- Keys in order -------------------------------------------------------

  ghost predicate IsLeast(m: string, keys: set<string>) {
    m in keys && forall k :: k in keys ==> AtMost(m, k)
  }

  lemma {:induction false} LeastExists(keys: set<string>)
    requires keys != {}
    ensures exists m :: IsLeast(m, keys)
    decreases |keys|
  {
    var k :| k in keys;
    var rest := keys - {k};
    assert forall other :: other in keys ==> other == k || other in rest;
    if rest == {} {
      assert IsLeast(k, keys);
    } else {
      LeastExists(rest);
      var m :| IsLeast(m, rest);
      LessTotal(k, m);
      if Less(k, m) {
        forall other | other in rest ensures AtMost(k, other) {
          if other != m {
            LessTransitive(k, m, other);
          }
        }
        assert IsLeast(k, keys);
      } else {
        assert IsLeast(m, keys);
      }
    }
  }

  lemma LeastUnique(m: string, m': string, keys: set<string>)
    requires IsLeast(m, keys) && IsLeast(m', keys)
    ensures m == m'
  {
    LessTotal(m, m');
  }

  /** The elements of a finite set in the order of iteration. */
  ghost function Sorted(keys: set<string>): (s: seq<string>)
    decreases |keys|
  {
    if keys == {} then []
    else
      LeastExists(keys);
      var m :| IsLeast(m, keys);
      [m] + Sorted(keys - {m})
  }

  lemma SortedCons(m: string, keys: set<string>)
    requires IsLeast(m, keys)
    ensures Sorted(keys) == [m] + Sorted(keys - {m})
  {
    var s := Sorted(keys);
    LeastUnique(m, s[0], keys);
  }

  /** Sorting keeps every element, once, and puts them in strictly increasing order. */
  lemma {:induction false} SortedIsOrder(keys: set<string>)
    ensures forall k :: k in Sorted(keys) <==> k in keys
    ensures forall i, j :: 0 <= i < j < |Sorted(keys)| ==> Less(Sorted(keys)[i], Sorted(keys)[j])
    decreases |keys|
  {
    if keys != {} {
      LeastExists(keys);
      var m :| IsLeast(m, keys);
      SortedCons(m, keys);
      SortedIsOrder(keys - {m});
      var rest := Sorted(keys - {m});
      forall j | 0 <= j < |rest| ensures Less(m, rest[j]) {
        assert rest[j] in keys - {m};
      }
    }
  }
}
