/**
 * What two urls with the same canonical key have in common once their escapes are read: the server, the segments of the
 * path, and the parameters in key order; and exactly when each key keeps its parameters in their given order.
 */
module KeySoundness {
  import opened Strings
  import opened Query
  import opened Escapes
  import opened StrayEscapes
  import opened MarkedReadings
  import opened CanonicalKeys
  import opened KeyOrder

  /** Text by text, the same octets after percent-decoding. */
  ghost predicate SameUpToEscapes(a: seq<string>, b: seq<string>) {
    |a| == |b| && forall i | 0 <= i < |a| :: Octets(a[i]) == Octets(b[i])
  }

  ghost predicate NoneStray(parts: seq<string>) {
    forall i | 0 <= i < |parts| :: NoStrayEscape(parts[i])
  }

  lemma StillNoEscape(a: string, rest: string)
    requires a != "" && !IsEscape(a) && rest != "" && !IsHex(rest[0])
    ensures !IsEscape(a + rest)
  {
  }

  /** What follows a delimiter is not part of an escape before it. */
  lemma HexBefore(folded: string, sep: char, rest: string)
    requires !IsHex(sep)
    ensures IsEscape("%" + (folded + [sep] + rest)) <==> IsEscape("%" + folded)
  {
  }

  /** A text has no stray escape exactly when its parts before and after a delimiter have none. */
  lemma {:induction false} NoStrayAround(a: string, sep: char, b: string)
    requires !Unreserved(sep) && sep != '%'
    ensures NoStrayEscape(a + [sep] + b) <==> NoStrayEscape(a) && NoStrayEscape(b)
    decreases |a|
  {
    var whole := a + [sep] + b;
    if a == "" {
      assert whole == [sep] + b && whole[1..] == b;
    } else if IsEscape(a) {
      NoStrayAround(a[3..], sep, b);
      assert whole[3..] == a[3..] + [sep] + b && IsEscape(whole);
    } else {
      NoStrayAround(a[1..], sep, b);
      assert whole[1..] == a[1..] + [sep] + b && whole[0] == a[0];
      assert whole == a + ([sep] + b);
      StillNoEscape(a, [sep] + b);
      FoldAround(a[1..], sep, b);
      HexBefore(Fold(a[1..]), sep, Fold(b));
    }
  }

  lemma {:induction false} PartsHaveNoStray(parts: seq<string>, sep: char)
    requires !Unreserved(sep) && sep != '%' && |parts| >= 1
    ensures NoStrayEscape(Join(parts, sep)) <==> NoneStray(parts)
  {
    if |parts| > 1 {
      NoStrayAround(parts[0], sep, Join(parts[1..], sep));
      PartsHaveNoStray(parts[1..], sep);
    }
  }

  lemma PiecesHaveNoStray(s: string, sep: char)
    requires NoStrayEscape(s) && !Unreserved(sep) && sep != '%'
    ensures NoneStray(Split(s, sep))
  {
    JoinOfSplit(s, sep);
    PartsHaveNoStray(Split(s, sep), sep);
  }

  lemma AlikeFoldsAgree(a: seq<string>, b: seq<string>, safe: set<char>)
    requires NoneStray(a) && NoneStray(b) && CanonicalAll(a, safe) == CanonicalAll(b, safe)
    requires '%' in safe && forall c | c in safe :: c as int < 128
    ensures SameUpToEscapes(a, b)
  {
    assert |CanonicalAll(a, safe)| == |a| && |CanonicalAll(b, safe)| == |b|;
    forall i | 0 <= i < |a| ensures Octets(a[i]) == Octets(b[i]) {
      assert CanonicalAll(a, safe)[i] == CanonicalAll(b, safe)[i];
      CanonicalEscapesKeepsOctetsIff(a[i], safe);
      CanonicalEscapesKeepsOctetsIff(b[i], safe);
    }
  }

  lemma SafeIsAscii()
    ensures '%' in PATH_SAFE && forall c | c in PATH_SAFE :: c as int < 128
    ensures '%' in QUERY_SAFE && forall c | c in QUERY_SAFE :: c as int < 128
  {
  }

  lemma PathsAgree(p: string, q: string)
    requires NoStrayEscape(p) && NoStrayEscape(q) && CanonicalEscapes(p, PATH_SAFE) == CanonicalEscapes(q, PATH_SAFE)
    ensures SameUpToEscapes(Split(p, '/'), Split(q, '/'))
  {
    SafeIsAscii();
    SeparatorsOfUrls();
    PiecesHaveNoStray(p, '/');
    PiecesHaveNoStray(q, '/');
    CanonicalCommutesWithSplit(p, '/', PATH_SAFE);
    CanonicalCommutesWithSplit(q, '/', PATH_SAFE);
    AlikeFoldsAgree(Split(p, '/'), Split(q, '/'), PATH_SAFE);
  }

  /** The parameters in the order the key puts them. */
  function Parameters(query: string): seq<string> {
    StableSort(Split(query, '&'))
  }

  lemma ParametersHaveNoStray(query: string)
    requires NoStrayEscape(query)
    ensures NoneStray(Parameters(query))
    ensures forall i | 0 <= i < |Parameters(query)| :: NoStrayEscape(Key(Parameters(query)[i]))
  {
    var parts, sorted := Split(query, '&'), Parameters(query);
    PiecesHaveNoStray(query, '&');
    StableSortIsStable(parts);
    forall i | 0 <= i < |sorted| ensures NoStrayEscape(sorted[i]) && NoStrayEscape(Key(sorted[i])) {
      assert sorted[i] in multiset(parts);
      PiecesHaveNoStray(sorted[i], '=');
    }
  }

  function Keys(parameters: seq<string>): (keys: seq<string>)
    ensures |keys| == |parameters|
  {
    seq(|parameters|, i requires 0 <= i < |parameters| => Key(parameters[i]))
  }

  /** Folding the parameters folds their keys. */
  lemma KeysFold(parameters: seq<string>)
    ensures Keys(CanonicalAll(parameters, QUERY_SAFE)) == CanonicalAll(Keys(parameters), QUERY_SAFE)
  {
    forall i | 0 <= i < |parameters|
      ensures Key(CanonicalEscapes(parameters[i], QUERY_SAFE)) == CanonicalEscapes(Key(parameters[i]), QUERY_SAFE)
    {
      KeyOfFolded(parameters[i]);
    }
  }

  lemma QueriesAgree(p: string, q: string)
    requires NoStrayEscape(p) && NoStrayEscape(q)
    requires CanonicalEscapes(SortedQuery(p), QUERY_SAFE) == CanonicalEscapes(SortedQuery(q), QUERY_SAFE)
    ensures CanonicalAll(Parameters(p), QUERY_SAFE) == CanonicalAll(Parameters(q), QUERY_SAFE)
    ensures SameUpToEscapes(Parameters(p), Parameters(q))
    ensures SameUpToEscapes(Keys(Parameters(p)), Keys(Parameters(q)))
  {
    SafeIsAscii();
    KeyQuery(p);
    KeyQuery(q);
    ParametersHaveNoStray(p);
    ParametersHaveNoStray(q);
    AlikeFoldsAgree(Parameters(p), Parameters(q), QUERY_SAFE);
    KeysFold(Parameters(p));
    KeysFold(Parameters(q));
    AlikeFoldsAgree(Keys(Parameters(p)), Keys(Parameters(q)), QUERY_SAFE);
  }

  /**
   * Deduplication is sound: two urls without stray escapes and with the same key name the same server and, after
   * percent-decoding, the same path segments and, in key order, the same parameters with the same keys.
   */
  lemma EqualKeysAgree(u: Url, v: Url)
    requires NoStrayEscape(u.path) && NoStrayEscape(u.query) && NoStrayEscape(v.path) && NoStrayEscape(v.query)
    requires CanonicalKey(u) == CanonicalKey(v)
    ensures u.scheme == v.scheme && u.netloc == v.netloc
    ensures SameUpToEscapes(Split(u.path, '/'), Split(v.path, '/'))
    ensures SameUpToEscapes(Parameters(u.query), Parameters(v.query))
    ensures SameUpToEscapes(Keys(Parameters(u.query)), Keys(Parameters(v.query)))
  {
    PathsAgree(u.path, v.path);
    QueriesAgree(u.query, v.query);
  }

  // Reserved characters.

  /** Text by text, the same reading, every reserved character apart from its escape. */
  ghost predicate ReadAlike(a: seq<string>, b: seq<string>) {
    |a| == |b| && forall i | 0 <= i < |a| :: Marked(a[i], InQuery) == Marked(b[i], InQuery)
  }

  lemma AlikeFoldsIff(a: seq<string>, b: seq<string>)
    requires NoneStray(a) && NoneStray(b)
    ensures CanonicalAll(a, QUERY_SAFE) == CanonicalAll(b, QUERY_SAFE) <==> ReadAlike(a, b)
  {
    UrlsAdmit();
    var fa, fb := CanonicalAll(a, QUERY_SAFE), CanonicalAll(b, QUERY_SAFE);
    assert fa == fb ==> |a| == |b|;
    if |a| == |b| {
      forall i | 0 <= i < |a| ensures fa[i] == fb[i] <==> Marked(a[i], InQuery) == Marked(b[i], InQuery) {
        SameFormIff(a[i], b[i], QUERY_SAFE, InQuery);
      }
    }
  }

  lemma QueriesAlikeIff(p: string, q: string)
    requires NoStrayEscape(p) && NoStrayEscape(q)
    ensures CanonicalEscapes(SortedQuery(p), QUERY_SAFE) == CanonicalEscapes(SortedQuery(q), QUERY_SAFE)
       <==> ReadAlike(Parameters(p), Parameters(q))
  {
    KeyQuery(p);
    KeyQuery(q);
    ParametersHaveNoStray(p);
    ParametersHaveNoStray(q);
    AlikeFoldsIff(Parameters(p), Parameters(q));
  }

  /**
   * Exactly which urls are taken for one another, stray escapes aside: those of one server whose paths read alike and
   * whose parameters, in key order, read alike. Spellings that mean the same are merged, and a reserved character is
   * never taken for its escape.
   */
  lemma EqualKeysIff(u: Url, v: Url)
    requires NoStrayEscape(u.path) && NoStrayEscape(u.query) && NoStrayEscape(v.path) && NoStrayEscape(v.query)
    ensures CanonicalKey(u) == CanonicalKey(v)
       <==> && u.scheme == v.scheme && u.netloc == v.netloc && Marked(u.path, InPath) == Marked(v.path, InPath)
            && ReadAlike(Parameters(u.query), Parameters(v.query))
  {
    UrlsAdmit();
    SameFormIff(u.path, v.path, PATH_SAFE, InPath);
    QueriesAlikeIff(u.query, v.query);
  }

  // Order within a key.

  /** A parameter's key after folding its escapes, and after percent-decoding it. */
  function FoldedKey(p: string): string {
    CanonicalEscapes(Key(p), QUERY_SAFE)
  }

  function DecodedKey(p: string): seq<Octet> {
    Octets(Key(p))
  }

  lemma {:induction false} ReadingAligned<K>(a: seq<string>, b: seq<string>, reading: string -> K, value: K)
    requires SameUpToEscapes(a, b) && forall i | 0 <= i < |a| :: reading(a[i]) == reading(b[i])
    ensures SameUpToEscapes(Reading(a, reading, value), Reading(b, reading, value))
    decreases |a|
  {
    if |a| > 0 {
      ReadingAligned(a[1..], b[1..], reading, value);
    }
  }

  lemma AgreeByReading<K(!new)>(p: string, q: string, reading: string -> K, value: K)
    requires InKeyOrder(Split(p, '&'), reading) && InKeyOrder(Split(q, '&'), reading)
    requires SameUpToEscapes(Parameters(p), Parameters(q))
    requires forall i | 0 <= i < |Parameters(p)| :: reading(Parameters(p)[i]) == reading(Parameters(q)[i])
    ensures SameUpToEscapes(Reading(Split(p, '&'), reading, value), Reading(Split(q, '&'), reading, value))
  {
    OrderIsKeptIff(Split(p, '&'), reading);
    OrderIsKeptIff(Split(q, '&'), reading);
    ReadingAligned(Parameters(p), Parameters(q), reading, value);
  }

  /** Where the order is kept, urls with one key have, for each folded key, the same parameters in the same order. */
  lemma EqualKeysAgreeByKey(u: Url, v: Url, key: string)
    requires NoStrayEscape(u.query) && NoStrayEscape(v.query) && CanonicalKey(u) == CanonicalKey(v)
    requires InKeyOrder(Split(u.query, '&'), FoldedKey) && InKeyOrder(Split(v.query, '&'), FoldedKey)
    ensures SameUpToEscapes(Reading(Split(u.query, '&'), FoldedKey, key), Reading(Split(v.query, '&'), FoldedKey, key))
  {
    QueriesAgree(u.query, v.query);
    FoldedKeysAgree(Parameters(u.query), Parameters(v.query));
    AgreeByReading(u.query, v.query, FoldedKey, key);
  }

  lemma FoldedKeysAgree(a: seq<string>, b: seq<string>)
    requires CanonicalAll(a, QUERY_SAFE) == CanonicalAll(b, QUERY_SAFE)
    ensures |a| == |b| && forall i | 0 <= i < |a| :: FoldedKey(a[i]) == FoldedKey(b[i])
  {
    assert |CanonicalAll(a, QUERY_SAFE)| == |a| && |CanonicalAll(b, QUERY_SAFE)| == |b|;
    forall i | 0 <= i < |a| ensures FoldedKey(a[i]) == FoldedKey(b[i]) {
      assert CanonicalAll(a, QUERY_SAFE)[i] == CanonicalAll(b, QUERY_SAFE)[i];
      KeyOfFolded(a[i]);
      KeyOfFolded(b[i]);
    }
  }

  /** The same for each key as a reader decodes it. */
  lemma EqualKeysAgreeByDecodedKey(u: Url, v: Url, key: seq<Octet>)
    requires NoStrayEscape(u.query) && NoStrayEscape(v.query) && CanonicalKey(u) == CanonicalKey(v)
    requires InKeyOrder(Split(u.query, '&'), DecodedKey) && InKeyOrder(Split(v.query, '&'), DecodedKey)
    ensures SameUpToEscapes(Reading(Split(u.query, '&'), DecodedKey, key),
                            Reading(Split(v.query, '&'), DecodedKey, key))
  {
    QueriesAgree(u.query, v.query);
    var a, b := Parameters(u.query), Parameters(v.query);
    forall i | 0 <= i < |a| ensures DecodedKey(a[i]) == DecodedKey(b[i]) {
      assert Octets(Keys(a)[i]) == Octets(Keys(b)[i]);
    }
    AgreeByReading(u.query, v.query, DecodedKey, key);
  }

  /** Keys that folding leaves alone are one such case. */
  lemma PlainKeysAreInOrder(query: string)
    requires forall p | p in Split(query, '&') :: CanonicalEscapes(Key(p), QUERY_SAFE) == Key(p)
    ensures InKeyOrder(Split(query, '&'), FoldedKey)
  {
    var parts := Split(query, '&');
    forall i, j | 0 <= i < j < |parts| && FoldedKey(parts[i]) == FoldedKey(parts[j])
      ensures LessEq(Key(parts[i]), Key(parts[j]))
    {
      assert parts[i] in parts && parts[j] in parts;
      LessEqTotal(Key(parts[i]), Key(parts[i]));
    }
  }

  /** Where it is not kept, the sorted query is another url with the same key and another order for some key. */
  lemma OrderIsLost<K(!new)>(u: Url, reading: string -> K) returns (v: Url, value: K)
    requires !InKeyOrder(Split(u.query, '&'), reading)
    ensures CanonicalKey(u) == CanonicalKey(v)
    ensures Reading(Split(u.query, '&'), reading, value) != Reading(Split(v.query, '&'), reading, value)
  {
    var parts := Split(u.query, '&');
    v := u.(query := SortedQuery(u.query));
    OrderIsKeptIff(parts, reading);
    value :| Reading(StableSort(parts), reading, value) != Reading(parts, reading, value);
    SplitOfSortedQuery(u.query);
    StableSortIsStable(parts);
    SortOfSorted(StableSort(parts));
  }

  lemma OrderOfUnlikeKeys(p: string, q: string)
    requires '&' !in p && '&' !in q && LessEq(Key(p), Key(q)) && !LessEq(Key(q), Key(p))
    ensures SortedQuery(q + ['&'] + p) == SortedQuery(p + ['&'] + q)
    ensures Split(q + ['&'] + p, '&') == [q, p] && Split(p + ['&'] + q, '&') == [p, q]
  {
    SplitAndSortTwo(p, q);
    SplitAndSortTwo(q, p);
  }

  /** Two spellings of `b` are sorted apart, so `?b=2&%62=1` and `?%62=1&b=2` have one key. */
  lemma SpellingsLoseOrder(u: Url, v: Url)
    requires u.query == "b=2" + ['&'] + "%62=1" && v == u.(query := "%62=1" + ['&'] + "b=2")
    ensures CanonicalKey(u) == CanonicalKey(v)
    ensures Split(u.query, '&') == ["b=2", "%62=1"] && Split(v.query, '&') == ["%62=1", "b=2"]
    ensures FoldedKey("%62=1") == FoldedKey("b=2") == "b"
  {
    TwoSpellings();
    OrderOfUnlikeKeys("%62=1", "b=2");
    TwoSpellingsOfOne();
  }

  lemma TwoSpellingsOfOne()
    ensures CanonicalEscapes("%62", QUERY_SAFE) == CanonicalEscapes("b", QUERY_SAFE) == "b"
  {
    assert "%62"[3..] == "" && Fold("%62") == "b";
    FoldPlain("b");
    QuoteOfSafe("b", QUERY_SAFE);
  }

  lemma TwoSpellings()
    ensures Key("%62=1") == "%62" && Key("b=2") == "b"
    ensures LessEq("%62", "b") && !LessEq("b", "%62")
  {
    SplitAtFirst("%62", "1", '=');
    SplitAtFirst("b", "2", '=');
    assert "%62" + ['='] + "1" == "%62=1" && "b" + ['='] + "2" == "b=2";
  }
}
