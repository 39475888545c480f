/** What a text says once its escapes are read, with every reserved character kept apart from its escape. */
module MarkedReadings {
  import opened Strings
  import opened Escapes
  import opened StrayEscapes

  // ---------- The characters of RFC 3986, written out ----------

  /** One octet of a text, and whether an escape hides it from the syntax of the url. */
  datatype Symbol = Plain(octet: Octet) | Escaped(octet: Octet)

  /** Section 2.3: letters, digits, hyphen, period, underscore, tilde. */
  predicate UnreservedOctet(n: Octet) {
    65 <= n <= 90 || 97 <= n <= 122 || 48 <= n <= 57 || n == 45 || n == 46 || n == 95 || n == 126
  }

  /** Section 2.2. */
  predicate Reserved(c: char) {
    c in {':', '/', '?', '#', '[', ']', '@', '!', '$', '&', '\'', '(', ')', '*', '+', ',', ';', '='}
  }

  /** The reserved characters a path may hold (section 3.3). */
  predicate InPath(c: char) {
    Reserved(c) && c != '?' && c != '#' && c != '[' && c != ']'
  }

  /** The reserved characters a query may hold (section 3.4). */
  predicate InQuery(c: char) {
    Reserved(c) && c != '#' && c != '[' && c != ']'
  }

  // ---------- Readings ----------

  function Hidden(octets: seq<Octet>): (symbols: seq<Symbol>)
    ensures |symbols| == |octets|
  {
    seq(|octets|, i requires 0 <= i < |octets| => Escaped(octets[i]))
  }

  /** A character speaks for itself if it is unreserved, a percent sign or allowed there; any other is as if escaped. */
  function OfChar(c: char, allowed: char -> bool): seq<Symbol> {
    if c as int < 128 && (UnreservedOctet(c as int) || c == '%' || allowed(c)) then [Plain(c as int)]
    else Hidden(Utf8(c))
  }

  /** Escaping an unreserved character changes nothing (section 2.3). */
  function OfEscape(n: Octet): Symbol {
    if UnreservedOctet(n) then Plain(n) else Escaped(n)
  }

  function Marked(s: string, allowed: char -> bool): seq<Symbol> {
    if s == "" then []
    else if IsEscape(s) then [OfEscape(EscapeValue(s[1], s[2]))] + Marked(s[3..], allowed)
    else OfChar(s[0], allowed) + Marked(s[1..], allowed)
  }

  // ---------- The canonical form writes the reading ----------

  function Spelled(symbol: Symbol): string {
    match symbol
    case Plain(n) => [n as char]
    case Escaped(n) => EscapeOf(n)
  }

  function Spelling(symbols: seq<Symbol>): string {
    FlatMap(Spelled, symbols)
  }

  /** `safe` holds the percent sign and the characters `allowed` admits, all of them ASCII. */
  ghost predicate Admits(safe: set<char>, allowed: char -> bool) {
    '%' in safe && forall c :: (c in safe ==> c as int < 128) && (c in safe <==> c == '%' || allowed(c))
  }

  lemma UrlsAdmit()
    ensures Admits(PATH_SAFE, InPath) && Admits(QUERY_SAFE, InQuery)
  {
  }

  lemma UpperIsDigit(c: char)
    requires IsHex(c)
    ensures Upper(c) == HexDigit(HexValue(c))
  {
  }

  lemma DigitsOf(a: nat, b: nat)
    requires b < 16
    ensures (16 * a + b) / 16 == a && (16 * a + b) % 16 == b
  {
  }

  lemma FoldedIsSpelled(high: char, low: char)
    requires IsHex(high) && IsHex(low)
    ensures FoldEscape(high, low) == Spelled(OfEscape(EscapeValue(high, low)))
  {
    var n := EscapeValue(high, low);
    DigitsOf(HexValue(high), HexValue(low));
    UpperIsDigit(high);
    UpperIsDigit(low);
    assert EscapeOf(n) == ['%', Upper(high), Upper(low)];
    assert Unreserved(n as char) <==> UnreservedOctet(n);
  }

  lemma {:induction false} HiddenIsSpelled(octets: seq<Octet>)
    ensures Spelling(Hidden(octets)) == EscapeAll(octets)
  {
    if |octets| > 0 {
      HiddenIsSpelled(octets[1..]);
      assert Hidden(octets)[1..] == Hidden(octets[1..]);
    }
  }

  lemma QuotedIsSpelled(c: char, safe: set<char>, allowed: char -> bool)
    requires Admits(safe, allowed)
    ensures QuoteChar(c, safe) == Spelling(OfChar(c, allowed))
  {
    HiddenIsSpelled(Utf8(c));
    assert c as int < 128 ==> (Unreserved(c) <==> UnreservedOctet(c as int));
    if Unreserved(c) || c in safe {
      assert [Plain(c as int)][1..] == [];
      assert Spelling([Plain(c as int)]) == Spelled(Plain(c as int)) + Spelling([]);
    }
  }

  /** For every text, stray percent signs or not. */
  lemma {:induction false} CanonicalIsSpelled(s: string, safe: set<char>, allowed: char -> bool)
    requires Admits(safe, allowed)
    ensures CanonicalEscapes(s, safe) == Spelling(Marked(s, allowed))
    decreases |s|
  {
    if IsEscape(s) {
      var folded, symbol := FoldEscape(s[1], s[2]), OfEscape(EscapeValue(s[1], s[2]));
      CanonicalIsSpelled(s[3..], safe, allowed);
      FoldedIsSpelled(s[1], s[2]);
      QuoteAfterSafe(folded, Fold(s[3..]), safe);
      assert ([symbol] + Marked(s[3..], allowed))[1..] == Marked(s[3..], allowed);
    } else if s != "" {
      CanonicalIsSpelled(s[1..], safe, allowed);
      QuoteConcat([s[0]], Fold(s[1..]), safe);
      QuoteOne(s[0], safe);
      QuotedIsSpelled(s[0], safe, allowed);
      FlatMapConcat(Spelled, OfChar(s[0], allowed), Marked(s[1..], allowed));
    }
  }

  // ---------- And the reading is read off the canonical form ----------

  lemma MarkedOfChar(c: char, rest: string, allowed: char -> bool)
    requires !IsEscape([c] + rest)
    ensures Marked([c] + rest, allowed) == OfChar(c, allowed) + Marked(rest, allowed)
  {
    assert ([c] + rest)[1..] == rest;
  }

  lemma MarkedOfEscape(e: string, rest: string, allowed: char -> bool)
    requires |e| == 3 && IsEscape(e)
    ensures Marked(e + rest, allowed) == [OfEscape(EscapeValue(e[1], e[2]))] + Marked(rest, allowed)
  {
    var s := e + rest;
    assert s[3..] == rest && s[1] == e[1] && s[2] == e[2];
  }

  lemma FirstEscape(octets: seq<Octet>, rest: string)
    requires |octets| > 0
    ensures EscapeAll(octets) + rest == EscapeOf(octets[0]) + (EscapeAll(octets[1..]) + rest)
    ensures Hidden(octets) == [Escaped(octets[0])] + Hidden(octets[1..])
  {
  }

  lemma {:induction false} MarkedOfEscapes(octets: seq<Octet>, rest: string, allowed: char -> bool)
    requires forall i | 0 <= i < |octets| :: !UnreservedOctet(octets[i])
    ensures Marked(EscapeAll(octets) + rest, allowed) == Hidden(octets) + Marked(rest, allowed)
  {
    if |octets| == 0 {
      assert EscapeAll(octets) + rest == rest;
    } else {
      MarkedOfEscapes(octets[1..], rest, allowed);
      MarkedOfEscape(EscapeOf(octets[0]), EscapeAll(octets[1..]) + rest, allowed);
      FirstEscape(octets, rest);
    }
  }

  lemma MarkedOfQuotedChar(c: char, safe: set<char>, allowed: char -> bool, rest: string)
    requires Admits(safe, allowed) && !IsEscape([c] + rest)
    ensures Marked(QuoteChar(c, safe) + rest, allowed) == OfChar(c, allowed) + Marked(rest, allowed)
  {
    if Unreserved(c) || c in safe {
      MarkedOfChar(c, rest, allowed);
    } else {
      MarkedOfEscapes(Utf8(c), rest, allowed);
    }
  }

  lemma {:induction false} MarkedOfQuoted(s: string, safe: set<char>, allowed: char -> bool)
    requires Admits(safe, allowed)
    ensures Marked(Quote(s, safe), allowed) == Marked(s, allowed)
    decreases |s|
  {
    if IsEscape(s) {
      MarkedOfQuoted(s[3..], safe, allowed);
      QuotedEscape(s, safe);
      MarkedOfEscape(s[..3], Quote(s[3..], safe), allowed);
    } else if s != "" {
      MarkedOfQuoted(s[1..], safe, allowed);
      QuotedPlain(s, safe);
      MarkedOfQuotedChar(s[0], safe, allowed, Quote(s[1..], safe));
    }
  }

  lemma {:induction false} MarkedOfFolded(s: string, allowed: char -> bool)
    requires NoStrayEscape(s)
    ensures Marked(Fold(s), allowed) == Marked(s, allowed)
    decreases |s|
  {
    if IsEscape(s) {
      MarkedOfFolded(s[3..], allowed);
      MarkedOfFoldedEscape(s[1], s[2], Fold(s[3..]), allowed);
    } else if s != "" {
      MarkedOfFolded(s[1..], allowed);
      assert s[0] == '%' ==> [s[0]] + Fold(s[1..]) == "%" + Fold(s[1..]);
      MarkedOfChar(s[0], Fold(s[1..]), allowed);
    }
  }

  lemma MarkedOfFoldedEscape(high: char, low: char, rest: string, allowed: char -> bool)
    requires IsHex(high) && IsHex(low)
    ensures Marked(FoldEscape(high, low) + rest, allowed) == [OfEscape(EscapeValue(high, low))] + Marked(rest, allowed)
  {
    var folded := FoldEscape(high, low);
    if |folded| == 1 {
      MarkedOfChar(folded[0], rest, allowed);
    } else {
      MarkedOfEscape(folded, rest, allowed);
    }
  }

  /** Without its marks a reading is the sequence of octets. */
  lemma {:induction false} MarkedAreOctets(s: string, allowed: char -> bool)
    ensures |Marked(s, allowed)| == |Octets(s)|
    ensures forall i | 0 <= i < |Octets(s)| :: Marked(s, allowed)[i].octet == Octets(s)[i]
    decreases |s|
  {
    if s != "" {
      MarkedAreOctets(if IsEscape(s) then s[3..] else s[1..], allowed);
    }
  }

  /** The canonical form keeps the reading exactly when no stray percent sign turns into an escape. */
  lemma CanonicalKeepsMarkedIff(s: string, safe: set<char>, allowed: char -> bool)
    requires Admits(safe, allowed)
    ensures Marked(CanonicalEscapes(s, safe), allowed) == Marked(s, allowed) <==> NoStrayEscape(s)
  {
    MarkedOfQuoted(Fold(s), safe, allowed);
    OctetsOfFolded(s);
    MarkedAreOctets(s, allowed);
    MarkedAreOctets(Fold(s), allowed);
    if NoStrayEscape(s) {
      MarkedOfFolded(s, allowed);
    }
  }

  /** Texts without stray escapes have one canonical form exactly when they read alike. */
  lemma SameFormIff(s: string, t: string, safe: set<char>, allowed: char -> bool)
    requires Admits(safe, allowed) && NoStrayEscape(s) && NoStrayEscape(t)
    ensures CanonicalEscapes(s, safe) == CanonicalEscapes(t, safe) <==> Marked(s, allowed) == Marked(t, allowed)
  {
    CanonicalIsSpelled(s, safe, allowed);
    CanonicalIsSpelled(t, safe, allowed);
    CanonicalKeepsMarkedIff(s, safe, allowed);
    CanonicalKeepsMarkedIff(t, safe, allowed);
  }

  /** Exactly which characters stay apart from their escape: the percent sign and the reserved ones allowed there. */
  lemma ApartIff(c: char, safe: set<char>, allowed: char -> bool)
    requires Admits(safe, allowed) && c as int < 128 && (allowed(c) ==> Reserved(c))
    ensures CanonicalEscapes([c], safe) != CanonicalEscapes(EscapeOf(c as int), safe) <==> c == '%' || allowed(c)
  {
    var e := EscapeOf(c as int);
    assert [c][1..] == "" && e[3..] == "" && e + "" == e && [c] + "" == [c];
    MarkedOfChar(c, "", allowed);
    MarkedOfEscape(e, "", allowed);
    assert Marked([c], allowed) == OfChar(c, allowed) && Marked(e, allowed) == [OfEscape(c as int)];
    assert Hidden([c as int]) == [Escaped(c as int)];
    assert NoStrayEscape([c]) && NoStrayEscape(e);
    SameFormIff([c], e, safe, allowed);
  }
}
