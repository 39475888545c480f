/** `_sorted_query`: query parameters in key order, repeated keys in their given order. */
module Query {
  import opened Strings

  // ---------- Python's order on strings: by code point, a prefix before its extensions ----------

  predicate LessEq(a: string, b: string) {
    a == "" || (b != "" && (a[0] < b[0] || (a[0] == b[0] && LessEq(a[1..], b[1..]))))
  }

  lemma {:induction false} LessEqTotal(a: string, b: string)
    ensures LessEq(a, b) || LessEq(b, a)
    ensures LessEq(a, b) && LessEq(b, a) ==> a == b
    ensures LessEq(a, a)
  {
    if a != "" { LessEqTotal(a[1..], a[1..]); }
    if a != "" && b != "" {
      LessEqTotal(a[1..], b[1..]);
      assert a == [a[0]] + a[1..] && b == [b[0]] + b[1..];
    }
  }

  lemma {:induction false} LessEqTransitive(a: string, b: string, c: string)
    requires LessEq(a, b) && LessEq(b, c)
    ensures LessEq(a, c)
  {
    if a != "" && a[0] == b[0] == c[0] { LessEqTransitive(a[1..], b[1..], c[1..]); }
  }

  /** The order of Python's strings: a prefix comes first, else the first difference decides. */
  lemma {:induction false} LessEqIff(a: string, b: string)
    ensures LessEq(a, b) <==> a <= b || exists k :: 0 <= k < |a| && k < |b| && a[..k] == b[..k] && a[k] < b[k]
  {
    if a != "" && b != "" {
      LessEqIff(a[1..], b[1..]);
      var x, y := a[1..], b[1..];
      if a[0] == b[0] {
        assert a == [a[0]] + x && b == [a[0]] + y;
        if k :| 0 <= k < |x| && k < |y| && x[..k] == y[..k] && x[k] < y[k] {
          assert a[..k + 1] == [a[0]] + x[..k] && b[..k + 1] == [a[0]] + y[..k] && a[k + 1] < b[k + 1];
        }
        if k :| 0 <= k < |a| && k < |b| && a[..k] == b[..k] && a[k] < b[k] {
          assert k > 0 && x[..k - 1] == a[..k][1..] && y[..k - 1] == b[..k][1..] && x[k - 1] < y[k - 1];
        }
      } else {
        assert a[..0] == b[..0];
        if k :| 0 <= k < |a| && k < |b| && a[..k] == b[..k] && a[k] < b[k] {
          assert k > 0 ==> a[..k][0] == b[..k][0];
        }
      }
    }
  }

  // ---------- The stable sort ----------

  /** The key of `key=value`: everything before the first `=`. */
  function Key(parameter: string): string {
    Split(parameter, '=')[0]
  }

  /** The key is what comes before the first `=`, or everything. */
  lemma KeyEndsAtEquals(p: string)
    ensures '=' !in Key(p)
    ensures p == Key(p) || exists value :: p == Key(p) + ['='] + value
  {
    var parts := Split(p, '=');
    SplitPiecesAreFree(p, '=');
    JoinOfSplit(p, '=');
    if |parts| > 1 {
      assert p == Key(p) + ['='] + Join(parts[1..], '=');
    }
  }

  /** Puts `p` before the first parameter whose key is not smaller. */
  function Insert(p: string, sorted: seq<string>): seq<string> {
    if |sorted| == 0 || LessEq(Key(p), Key(sorted[0])) then [p] + sorted
    else [sorted[0]] + Insert(p, sorted[1..])
  }

  function StableSort(parameters: seq<string>): seq<string> {
    if |parameters| == 0 then [] else Insert(parameters[0], StableSort(parameters[1..]))
  }

  function SortedQuery(query: string): string {
    Join(StableSort(Split(query, '&')), '&')
  }

  predicate Sorted(parameters: seq<string>) {
    forall i, j | 0 <= i < j < |parameters| :: LessEq(Key(parameters[i]), Key(parameters[j]))
  }

  /** The parameters with one key, in order. */
  function WithKey(parameters: seq<string>, key: string): seq<string> {
    if |parameters| == 0 then []
    else (if Key(parameters[0]) == key then [parameters[0]] else []) + WithKey(parameters[1..], key)
  }

  ghost predicate SameByKey(a: seq<string>, b: seq<string>) {
    forall key :: WithKey(a, key) == WithKey(b, key)
  }

  lemma {:induction false} InsertIsSorted(p: string, sorted: seq<string>)
    requires Sorted(sorted)
    ensures Sorted(Insert(p, sorted))
    ensures multiset(Insert(p, sorted)) == multiset{p} + multiset(sorted)
  {
    if |sorted| == 0 {
    } else if LessEq(Key(p), Key(sorted[0])) {
      forall j | 0 <= j < |sorted| ensures LessEq(Key(p), Key(sorted[j])) {
        if j > 0 { LessEqTransitive(Key(p), Key(sorted[0]), Key(sorted[j])); }
      }
    } else {
      InsertIsSorted(p, sorted[1..]);
      LessEqTotal(Key(p), Key(sorted[0]));
      assert sorted == [sorted[0]] + sorted[1..];
      var rest := Insert(p, sorted[1..]);
      forall j | 0 <= j < |rest| ensures LessEq(Key(sorted[0]), Key(rest[j])) {
        assert rest[j] in multiset(rest);
        assert rest[j] == p || rest[j] in sorted[1..];
      }
    }
  }

  lemma {:induction false} InsertKeepsGroups(p: string, sorted: seq<string>, key: string)
    ensures WithKey(Insert(p, sorted), key) == (if Key(p) == key then [p] else []) + WithKey(sorted, key)
  {
    if |sorted| == 0 || LessEq(Key(p), Key(sorted[0])) {
      assert ([p] + sorted)[1..] == sorted;
    } else {
      LessEqTotal(Key(p), Key(sorted[0]));
      InsertKeepsGroups(p, sorted[1..], key);
      assert Insert(p, sorted)[1..] == Insert(p, sorted[1..]);
    }
  }

  /** The sort is a stable sort by key: ordered, a permutation, each key's parameters in their given order. */
  lemma {:induction false} StableSortIsStable(parameters: seq<string>)
    ensures Sorted(StableSort(parameters))
    ensures multiset(StableSort(parameters)) == multiset(parameters)
    ensures SameByKey(StableSort(parameters), parameters)
  {
    if |parameters| > 0 {
      StableSortIsStable(parameters[1..]);
      InsertIsSorted(parameters[0], StableSort(parameters[1..]));
      assert parameters == [parameters[0]] + parameters[1..];
      forall key ensures WithKey(StableSort(parameters), key) == WithKey(parameters, key) {
        InsertKeepsGroups(parameters[0], StableSort(parameters[1..]), key);
      }
    }
  }

  lemma {:induction false} SortOfSorted(parameters: seq<string>)
    requires Sorted(parameters)
    ensures StableSort(parameters) == parameters
  {
    if |parameters| > 0 { SortOfSorted(parameters[1..]); }
  }

  // ---------- Sound and complete ----------

  lemma {:induction false} HeadIsLeast(sorted: seq<string>, key: string)
    requires Sorted(sorted) && WithKey(sorted, key) != []
    ensures LessEq(Key(sorted[0]), key)
  {
    LessEqTotal(key, key);
    if Key(sorted[0]) != key {
      HeadIsLeast(sorted[1..], key);
      LessEqTransitive(Key(sorted[0]), Key(sorted[1]), key);
    }
  }

  /** An ordered list is determined by its per-key sublists. */
  lemma {:induction false} SortedIsUnique(a: seq<string>, b: seq<string>)
    requires Sorted(a) && Sorted(b) && SameByKey(a, b)
    ensures a == b
  {
    assert |a| > 0 ==> WithKey(a, Key(a[0])) == WithKey(b, Key(a[0]));
    assert |b| > 0 ==> WithKey(a, Key(b[0])) == WithKey(b, Key(b[0]));
    if |a| > 0 && |b| > 0 {
      HeadIsLeast(b, Key(a[0]));
      HeadIsLeast(a, Key(b[0]));
      LessEqTotal(Key(a[0]), Key(b[0]));
      assert a[0] == WithKey(a, Key(a[0]))[0] == b[0];
      forall key ensures WithKey(a[1..], key) == WithKey(b[1..], key) {
        assert WithKey(a, key) == WithKey(b, key);
        var head := if Key(a[0]) == key then [a[0]] else [];
        assert WithKey(a[1..], key) == WithKey(a, key)[|head|..];
        assert WithKey(b[1..], key) == WithKey(b, key)[|head|..];
      }
      SortedIsUnique(a[1..], b[1..]);
      assert a == [a[0]] + a[1..] && b == [b[0]] + b[1..];
    }
  }

  /** The sorted pieces are exactly the pieces of the sorted query. */
  lemma SplitOfSortedQuery(query: string)
    ensures Split(SortedQuery(query), '&') == StableSort(Split(query, '&'))
  {
    var parameters := Split(query, '&');
    var sorted := StableSort(parameters);
    StableSortIsStable(parameters);
    SplitPiecesAreFree(query, '&');
    forall i | 0 <= i < |sorted| ensures '&' !in sorted[i] {
      assert sorted[i] in multiset(parameters);
    }
    assert |sorted| == |multiset(sorted)| == |parameters|;
    SplitOfJoin(sorted, '&');
  }

  /** Two queries share a canonical form exactly when every key has the same parameters in the same order. */
  lemma CanonicalQueryIffSameByKey(q1: string, q2: string)
    ensures SortedQuery(q1) == SortedQuery(q2) <==> SameByKey(Split(q1, '&'), Split(q2, '&'))
  {
    var p1, p2 := Split(q1, '&'), Split(q2, '&');
    var s1, s2 := StableSort(p1), StableSort(p2);
    StableSortIsStable(p1);
    StableSortIsStable(p2);
    SplitOfSortedQuery(q1);
    SplitOfSortedQuery(q2);
    if SortedQuery(q1) == SortedQuery(q2) {
      forall key ensures WithKey(p1, key) == WithKey(p2, key) {
        assert WithKey(s1, key) == WithKey(p1, key) && WithKey(s2, key) == WithKey(p2, key);
      }
    }
    if SameByKey(p1, p2) {
      forall key ensures WithKey(s1, key) == WithKey(s2, key) {
        assert WithKey(s1, key) == WithKey(p1, key) && WithKey(s2, key) == WithKey(p2, key);
      }
      SortedIsUnique(s1, s2);
    }
  }
}
