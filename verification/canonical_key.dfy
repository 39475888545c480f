/** `canonical_key`: how folding meets splitting and sorting, and exactly when a key is its own key. */
module CanonicalKeys {
  import opened Strings
  import opened Query
  import opened Escapes

  /** A url as `urlsplit` returns it, without its fragment. */
  datatype Url = Url(scheme: string, netloc: string, path: string, query: string)

  function CanonicalKey(url: Url): Url {
    url.(path := CanonicalEscapes(url.path, PATH_SAFE),
         query := CanonicalEscapes(SortedQuery(url.query), QUERY_SAFE))
  }

  /** A delimiter that neither folding nor quoting can make or remove. */
  predicate Separator(sep: char, safe: set<char>) {
    sep in safe && !Unreserved(sep) && sep != '%'
  }

  function CanonicalAll(parts: seq<string>, safe: set<char>): (folded: seq<string>)
    ensures |folded| == |parts|
  {
    seq(|parts|, i requires 0 <= i < |parts| => CanonicalEscapes(parts[i], safe))
  }

  // ---------- Folding commutes with splitting ----------

  lemma {:induction false} FoldAround(a: string, sep: char, b: string)
    requires !Unreserved(sep) && sep != '%'
    ensures Fold(a + [sep] + b) == Fold(a) + [sep] + Fold(b)
    decreases |a|
  {
    var whole := a + [sep] + b;
    if a == "" {
      assert whole == [sep] + b;
      FoldOfChar(sep, b);
      assert Fold(a) + [sep] == [sep];
    } else if IsEscape(a) {
      FoldAround(a[3..], sep, b);
      assert whole[3..] == a[3..] + [sep] + b && IsEscape(whole);
      assert whole[1] == a[1] && whole[2] == a[2];
    } else {
      FoldAround(a[1..], sep, b);
      assert whole[1..] == a[1..] + [sep] + b && whole[0] == a[0];
      assert !IsEscape(whole);
    }
  }

  lemma CanonicalAround(a: string, sep: char, b: string, safe: set<char>)
    requires Separator(sep, safe)
    ensures CanonicalEscapes(a + [sep] + b, safe) == CanonicalEscapes(a, safe) + [sep] + CanonicalEscapes(b, safe)
  {
    FoldAround(a, sep, b);
    QuoteConcat(Fold(a) + [sep], Fold(b), safe);
    QuoteConcat(Fold(a), [sep], safe);
    QuoteOne(sep, safe);
  }

  lemma {:induction false} FoldStaysFree(s: string, sep: char)
    requires !Unreserved(sep) && sep != '%' && sep !in s
    ensures sep !in Fold(s)
    decreases |s|
  {
    if IsEscape(s) {
      FoldStaysFree(s[3..], sep);
    } else if s != "" {
      FoldStaysFree(s[1..], sep);
    }
  }

  lemma {:induction false} EscapesAreFree(octets: seq<Octet>, sep: char)
    requires !Unreserved(sep) && sep != '%'
    ensures sep !in EscapeAll(octets)
  {
    if |octets| > 0 { EscapesAreFree(octets[1..], sep); }
  }

  lemma {:induction false} QuoteStaysFree(s: string, sep: char, safe: set<char>)
    requires !Unreserved(sep) && sep != '%' && sep !in s
    ensures sep !in Quote(s, safe)
  {
    if s != "" {
      QuoteStaysFree(s[1..], sep, safe);
      EscapesAreFree(Utf8(s[0]), sep);
    }
  }

  lemma CanonicalStaysFree(parts: seq<string>, sep: char, safe: set<char>)
    requires Separator(sep, safe) && AllFree(parts, sep)
    ensures AllFree(CanonicalAll(parts, safe), sep)
  {
    forall i | 0 <= i < |parts| ensures sep !in CanonicalAll(parts, safe)[i] {
      FoldStaysFree(parts[i], sep);
      QuoteStaysFree(Fold(parts[i]), sep, safe);
    }
  }

  lemma {:induction false} CanonicalOfJoin(parts: seq<string>, sep: char, safe: set<char>)
    requires |parts| >= 1 && Separator(sep, safe)
    ensures CanonicalEscapes(Join(parts, sep), safe) == Join(CanonicalAll(parts, safe), sep)
  {
    if |parts| > 1 {
      CanonicalOfJoin(parts[1..], sep, safe);
      CanonicalAround(parts[0], sep, Join(parts[1..], sep), safe);
      assert CanonicalAll(parts, safe)[1..] == CanonicalAll(parts[1..], safe);
    }
  }

  /** Folding a text piece by piece is folding it whole, for every separator the code splits at. */
  lemma CanonicalCommutesWithSplit(s: string, sep: char, safe: set<char>)
    requires Separator(sep, safe)
    ensures Split(CanonicalEscapes(s, safe), sep) == CanonicalAll(Split(s, sep), safe)
  {
    var parts := Split(s, sep);
    JoinOfSplit(s, sep);
    SplitPiecesAreFree(s, sep);
    CanonicalOfJoin(parts, sep, safe);
    CanonicalStaysFree(parts, sep, safe);
    SplitOfJoin(CanonicalAll(parts, safe), sep);
  }

  lemma SeparatorsOfUrls()
    ensures Separator('/', PATH_SAFE) && Separator('&', QUERY_SAFE) && Separator('=', QUERY_SAFE)
  {
  }

  // ---------- What the second pass does to the query ----------

  /** The parameters of the key's query. */
  function FoldedParameters(query: string): seq<string> {
    CanonicalAll(StableSort(Split(query, '&')), QUERY_SAFE)
  }

  lemma KeyQuery(query: string)
    ensures CanonicalEscapes(SortedQuery(query), QUERY_SAFE) == Join(FoldedParameters(query), '&')
    ensures Split(Join(FoldedParameters(query), '&'), '&') == FoldedParameters(query)
  {
    var sorted := StableSort(Split(query, '&'));
    SplitOfSortedQuery(query);
    CanonicalCommutesWithSplit(SortedQuery(query), '&', QUERY_SAFE);
    JoinOfSplit(CanonicalEscapes(SortedQuery(query), QUERY_SAFE), '&');
  }

  predicate FoldedOnce(parts: seq<string>) {
    CanonicalAll(parts, QUERY_SAFE) == parts
  }

  /** A second pass over the parameters changes nothing exactly when it changes nothing on the query. */
  lemma ParametersFoldedIff(query: string)
    ensures FoldedOnce(FoldedParameters(query)) <==> NoNewEscape(query)
  {
    var parts := Split(query, '&');
    var sorted, once := StableSort(parts), CanonicalEscapes(query, QUERY_SAFE);
    StableSortIsStable(parts);
    CanonicalEscapesIdempotentIff(query, QUERY_SAFE);
    CanonicalCommutesWithSplit(query, '&', QUERY_SAFE);
    CanonicalCommutesWithSplit(once, '&', QUERY_SAFE);
    JoinOfSplit(once, '&');
    JoinOfSplit(CanonicalEscapes(once, QUERY_SAFE), '&');
    assert NoNewEscape(query) <==> FoldedOnce(CanonicalAll(parts, QUERY_SAFE));
    SameElementsFoldAlike(parts, sorted);
    SameElementsFoldAlike(sorted, parts);
  }

  lemma SameElementsFoldAlike(a: seq<string>, b: seq<string>)
    requires multiset(a) == multiset(b)
    ensures FoldedOnce(CanonicalAll(a, QUERY_SAFE)) ==> FoldedOnce(CanonicalAll(b, QUERY_SAFE))
  {
    var fa, fb := CanonicalAll(a, QUERY_SAFE), CanonicalAll(b, QUERY_SAFE);
    if FoldedOnce(fa) {
      forall i | 0 <= i < |b| ensures CanonicalEscapes(fb[i], QUERY_SAFE) == fb[i] {
        assert b[i] in multiset(a);
        var j :| 0 <= j < |a| && a[j] == b[i];
        assert CanonicalAll(fa, QUERY_SAFE)[j] == fa[j];
      }
    }
  }

  // ---------- A weight that folding lowers ----------

  function Lowercase(s: string): nat {
    if s == "" then 0 else (if 'a' <= s[0] <= 'z' then 1 else 0) + Lowercase(s[1..])
  }

  function Weight(s: string): nat {
    2 * |s| + Lowercase(s)
  }

  lemma {:induction false} LowercaseConcat(a: string, b: string)
    ensures Lowercase(a + b) == Lowercase(a) + Lowercase(b)
  {
    if a == "" {
      assert a + b == b;
    } else {
      LowercaseConcat(a[1..], b);
      assert (a + b)[1..] == a[1..] + b;
    }
  }

  lemma FoldEscapeLowers(high: char, low: char)
    requires IsHex(high) && IsHex(low)
    ensures Weight(FoldEscape(high, low)) <= Weight(['%', high, low])
    ensures Weight(FoldEscape(high, low)) == Weight(['%', high, low]) ==> FoldEscape(high, low) == ['%', high, low]
  {
    LowercaseOfThree('%', high, low);
    LowercaseOfThree('%', Upper(high), Upper(low));
    var c := EscapeValue(high, low) as char;
    assert Lowercase([c]) <= 1;
  }

  lemma LowercaseOfThree(a: char, b: char, c: char)
    ensures Lowercase([a, b, c]) == Lowercase([a]) + Lowercase([b]) + Lowercase([c])
  {
    LowercaseConcat([a, b], [c]);
    LowercaseConcat([a], [b]);
    assert [a, b, c] == [a, b] + [c] && [a, b] == [a] + [b];
  }

  lemma {:induction false} FoldLowers(s: string)
    ensures Weight(Fold(s)) <= Weight(s)
    ensures Weight(Fold(s)) == Weight(s) ==> Fold(s) == s
    decreases |s|
  {
    if IsEscape(s) {
      FoldLowers(s[3..]);
      FoldEscapeLowers(s[1], s[2]);
      LowercaseConcat(FoldEscape(s[1], s[2]), Fold(s[3..]));
      assert s[..3] == ['%', s[1], s[2]];
      assert s == s[..3] + s[3..];
      LowercaseConcat(s[..3], s[3..]);
    } else if s != "" {
      FoldLowers(s[1..]);
      LowercaseConcat([s[0]], Fold(s[1..]));
      LowercaseConcat([s[0]], s[1..]);
      assert s == [s[0]] + s[1..];
    }
  }

  function TotalWeight(parts: seq<string>): nat {
    if |parts| == 0 then 0 else Weight(parts[0]) + TotalWeight(parts[1..])
  }

  lemma {:induction false} InsertAddsWeight(p: string, sorted: seq<string>)
    ensures TotalWeight(Insert(p, sorted)) == Weight(p) + TotalWeight(sorted)
  {
    if |sorted| == 0 || LessEq(Key(p), Key(sorted[0])) {
      assert ([p] + sorted)[1..] == sorted;
    } else {
      InsertAddsWeight(p, sorted[1..]);
      assert Insert(p, sorted)[1..] == Insert(p, sorted[1..]);
    }
  }

  lemma {:induction false} SortKeepsWeight(parts: seq<string>)
    ensures TotalWeight(StableSort(parts)) == TotalWeight(parts)
  {
    if |parts| > 0 {
      SortKeepsWeight(parts[1..]);
      InsertAddsWeight(parts[0], StableSort(parts[1..]));
    }
  }

  /** No character is left that quoting would escape. */
  predicate Quoted(parts: seq<string>) {
    forall i | 0 <= i < |parts| :: AllSafe(parts[i], QUERY_SAFE)
  }

  lemma CanonicalLowers(part: string)
    requires AllSafe(part, QUERY_SAFE)
    ensures Weight(CanonicalEscapes(part, QUERY_SAFE)) <= Weight(part)
    ensures Weight(CanonicalEscapes(part, QUERY_SAFE)) == Weight(part) ==> Fold(part) == part
    ensures CanonicalEscapes(part, QUERY_SAFE) == Fold(part)
  {
    FoldIsSafe(part, QUERY_SAFE);
    QuoteOfSafe(Fold(part), QUERY_SAFE);
    FoldLowers(part);
  }

  lemma WeightOfHeadAndTail(parts: seq<string>)
    requires |parts| > 0
    ensures TotalWeight(CanonicalAll(parts, QUERY_SAFE))
         == Weight(CanonicalEscapes(parts[0], QUERY_SAFE)) + TotalWeight(CanonicalAll(parts[1..], QUERY_SAFE))
  {
    assert CanonicalAll(parts, QUERY_SAFE)[1..] == CanonicalAll(parts[1..], QUERY_SAFE);
  }

  lemma FoldedHeadAndTail(parts: seq<string>)
    requires |parts| > 0 && CanonicalEscapes(parts[0], QUERY_SAFE) == parts[0] && FoldedOnce(parts[1..])
    ensures FoldedOnce(parts)
  {
    forall i | 0 <= i < |parts| ensures CanonicalAll(parts, QUERY_SAFE)[i] == parts[i] {
      assert i > 0 ==> CanonicalAll(parts[1..], QUERY_SAFE)[i - 1] == parts[1..][i - 1];
    }
  }

  /** Folding quoted texts again lowers their weight unless it leaves all of them alone. */
  lemma {:induction false} CanonicalAllLowers(parts: seq<string>)
    requires Quoted(parts)
    ensures TotalWeight(CanonicalAll(parts, QUERY_SAFE)) <= TotalWeight(parts)
    ensures TotalWeight(CanonicalAll(parts, QUERY_SAFE)) == TotalWeight(parts) ==> FoldedOnce(parts)
  {
    if |parts| > 0 {
      CanonicalLowers(parts[0]);
      CanonicalAllLowers(parts[1..]);
      WeightOfHeadAndTail(parts);
      if TotalWeight(CanonicalAll(parts, QUERY_SAFE)) == TotalWeight(parts) {
        FoldedHeadAndTail(parts);
      }
    }
  }

  // ---------- Exactly when a key is its own key ----------

  /** Sorting and folding once more gives back `parts` only when they are folded and in key order. */
  lemma SecondSortIff(parts: seq<string>)
    requires Quoted(parts)
    ensures CanonicalAll(StableSort(parts), QUERY_SAFE) == parts <==> FoldedOnce(parts) && Sorted(parts)
  {
    var sorted := StableSort(parts);
    StableSortIsStable(parts);
    if FoldedOnce(parts) && Sorted(parts) {
      SortOfSorted(parts);
    }
    if CanonicalAll(sorted, QUERY_SAFE) == parts {
      forall i | 0 <= i < |sorted| ensures AllSafe(sorted[i], QUERY_SAFE) {
        assert sorted[i] in multiset(parts);
      }
      CanonicalAllLowers(sorted);
      SortKeepsWeight(parts);
    }
  }

  /** Folding a parameter folds its key. */
  lemma KeyOfFolded(parameter: string)
    ensures Key(CanonicalEscapes(parameter, QUERY_SAFE)) == CanonicalEscapes(Key(parameter), QUERY_SAFE)
  {
    CanonicalCommutesWithSplit(parameter, '=', QUERY_SAFE);
  }

  /** Folding does not turn the order of two keys around. */
  ghost predicate FoldKeepsKeyOrder(query: string) {
    forall p, q | p in Split(query, '&') && q in Split(query, '&') && LessEq(Key(p), Key(q)) ::
      LessEq(CanonicalEscapes(Key(p), QUERY_SAFE), CanonicalEscapes(Key(q), QUERY_SAFE))
  }

  lemma FoldedAreSortedIff(query: string)
    ensures Sorted(FoldedParameters(query)) <==> FoldKeepsKeyOrder(query)
  {
    var parts, sorted, folded := Split(query, '&'), StableSort(Split(query, '&')), FoldedParameters(query);
    StableSortIsStable(parts);
    forall i | 0 <= i < |sorted|
      ensures sorted[i] in parts && Key(folded[i]) == CanonicalEscapes(Key(sorted[i]), QUERY_SAFE)
    {
      assert sorted[i] in multiset(parts);
      KeyOfFolded(sorted[i]);
    }
    if Sorted(folded) {
      forall p, q | p in parts && q in parts && LessEq(Key(p), Key(q))
        ensures LessEq(CanonicalEscapes(Key(p), QUERY_SAFE), CanonicalEscapes(Key(q), QUERY_SAFE))
      {
        PlacesOf(parts, p, q);
      }
    }
  }

  lemma PlacesOf(parts: seq<string>, p: string, q: string)
    requires p in parts && q in parts && LessEq(Key(p), Key(q))
    requires Sorted(CanonicalAll(StableSort(parts), QUERY_SAFE))
    ensures LessEq(CanonicalEscapes(Key(p), QUERY_SAFE), CanonicalEscapes(Key(q), QUERY_SAFE))
  {
    var sorted := StableSort(parts);
    StableSortIsStable(parts);
    assert p in multiset(sorted) && q in multiset(sorted);
    var i :| 0 <= i < |sorted| && sorted[i] == p;
    var j :| 0 <= j < |sorted| && sorted[j] == q;
    SameOrderOrKey(sorted, i, j);
    SameOrderAfterFold(CanonicalAll(sorted, QUERY_SAFE), i, j);
    KeyOfFolded(p);
    KeyOfFolded(q);
    LessEqTotal(CanonicalEscapes(Key(p), QUERY_SAFE), CanonicalEscapes(Key(p), QUERY_SAFE));
  }

  lemma SameOrderOrKey(sorted: seq<string>, i: nat, j: nat)
    requires Sorted(sorted) && i < |sorted| && j < |sorted| && LessEq(Key(sorted[i]), Key(sorted[j]))
    ensures i <= j || Key(sorted[i]) == Key(sorted[j])
  {
    LessEqTotal(Key(sorted[i]), Key(sorted[j]));
  }

  lemma SameOrderAfterFold(folded: seq<string>, i: nat, j: nat)
    requires Sorted(folded) && i < |folded| && j < |folded|
    ensures i <= j ==> LessEq(Key(folded[i]), Key(folded[j]))
  {
    LessEqTotal(Key(folded[i]), Key(folded[i]));
  }

  /** Exactly when a key is its own key: no escape appears by folding, and folding turns no two query keys around. */
  lemma CanonicalKeyIdempotentIff(url: Url)
    ensures CanonicalKey(CanonicalKey(url)) == CanonicalKey(url)
       <==> NoNewEscape(url.path) && NoNewEscape(url.query) && FoldKeepsKeyOrder(url.query)
  {
    var query := CanonicalKey(url).query;
    var once := FoldedParameters(url.query);
    CanonicalEscapesIdempotentIff(url.path, PATH_SAFE);
    KeyQuery(url.query);
    KeyQuery(query);
    forall i | 0 <= i < |once| ensures AllSafe(once[i], QUERY_SAFE) {
      QuoteIsSafe(Fold(StableSort(Split(url.query, '&'))[i]), QUERY_SAFE);
    }
    assert FoldedParameters(query) == CanonicalAll(StableSort(once), QUERY_SAFE);
    SecondSortIff(once);
    ParametersFoldedIff(url.query);
    FoldedAreSortedIff(url.query);
  }

  /** Well-formed escapes, and keys that folding leaves alone, are enough. */
  lemma CanonicalKeyIdempotentOnPlainKeys(url: Url)
    requires WellFormed(url.path) && WellFormed(url.query)
    requires forall p | p in Split(url.query, '&') :: CanonicalEscapes(Key(p), QUERY_SAFE) == Key(p)
    ensures CanonicalKey(CanonicalKey(url)) == CanonicalKey(url)
  {
    WellFormedHasNoNewEscape(url.path);
    WellFormedHasNoNewEscape(url.query);
    CanonicalKeyIdempotentIff(url);
  }

  /** The order test cannot be dropped: the key of `?%62=1&a=2` is `?b=1&a=2`, whose key is `?a=2&b=1`. */
  lemma CanonicalKeyNotIdempotent(query: string, key: string)
    requires query == "%62=1" + ['&'] + "a=2" && key == "b=1" + ['&'] + "a=2"
    ensures CanonicalEscapes(SortedQuery(query), QUERY_SAFE) == key
    ensures CanonicalEscapes(SortedQuery(key), QUERY_SAFE) == "a=2" + ['&'] + "b=1"
  {
    KeysOfTheExample();
    FoldsOfTheExample();
    SwappedParameters("%62=1", "a=2", "b=1", query, key);
  }

  lemma SwappedParameters(p: string, q: string, folded: string, query: string, key: string)
    requires '&' !in p && '&' !in q && '&' !in folded
    requires LessEq(Key(p), Key(q)) && !LessEq(Key(folded), Key(q))
    requires CanonicalEscapes(p, QUERY_SAFE) == CanonicalEscapes(folded, QUERY_SAFE) == folded
    requires CanonicalEscapes(q, QUERY_SAFE) == q
    requires query == p + ['&'] + q && key == folded + ['&'] + q
    ensures CanonicalEscapes(SortedQuery(query), QUERY_SAFE) == key
    ensures CanonicalEscapes(SortedQuery(key), QUERY_SAFE) == q + ['&'] + folded
  {
    TwoParameters(p, q);
    TwoParameters(folded, q);
    KeyQuery(query);
    KeyQuery(key);
    JoinTwo(folded, q);
    JoinTwo(q, folded);
  }

  lemma JoinTwo(p: string, q: string)
    ensures Join([p, q], '&') == p + ['&'] + q
  {
    assert [p, q][1..] == [q];
  }

  lemma SplitAndSortTwo(p: string, q: string)
    requires '&' !in p && '&' !in q
    ensures Split(p + ['&'] + q, '&') == [p, q]
    ensures StableSort([p, q]) == if LessEq(Key(p), Key(q)) then [p, q] else [q, p]
  {
    SplitAtFirst(p, q, '&');
    SplitAtFirst(q, "", '&');
    assert [p, q][1..] == [q] && [q][1..] == [];
    assert StableSort([q]) == Insert(q, []) == [q];
    assert Insert(p, [q]) == if LessEq(Key(p), Key(q)) then [p, q] else [q, p];
    assert StableSort([p, q]) == Insert(p, [q]);
  }

  lemma TwoParameters(p: string, q: string)
    requires '&' !in p && '&' !in q
    ensures var fp, fq := CanonicalEscapes(p, QUERY_SAFE), CanonicalEscapes(q, QUERY_SAFE);
            FoldedParameters(p + ['&'] + q) == if LessEq(Key(p), Key(q)) then [fp, fq] else [fq, fp]
  {
    SplitAndSortTwo(p, q);
  }

  lemma KeysOfTheExample()
    ensures Key("%62=1") == "%62" && Key("b=1") == "b" && Key("a=2") == "a"
    ensures LessEq("%62", "a") && !LessEq("b", "a")
  {
    SplitAtFirst("%62", "1", '=');
    SplitAtFirst("b", "1", '=');
    SplitAtFirst("a", "2", '=');
    assert "%62" + ['='] + "1" == "%62=1" && "b" + ['='] + "1" == "b=1" && "a" + ['='] + "2" == "a=2";
  }

  lemma FoldsOfTheExample()
    ensures CanonicalEscapes("%62=1", QUERY_SAFE) == "b=1"
    ensures CanonicalEscapes("b=1", QUERY_SAFE) == "b=1"
    ensures CanonicalEscapes("a=2", QUERY_SAFE) == "a=2"
  {
    FoldOfEscape("%62", "=1");
    FoldPlain("=1");
    assert "%62" + "=1" == "%62=1";
    FoldPlain("b=1");
    FoldPlain("a=2");
    QuoteOfSafe("b=1", QUERY_SAFE);
    QuoteOfSafe("a=2", QUERY_SAFE);
  }

  lemma {:induction false} FoldPlain(s: string)
    requires '%' !in s
    ensures Fold(s) == s
  {
    if s != "" {
      FoldPlain(s[1..]);
      assert s == [s[0]] + s[1..];
    }
  }
}
