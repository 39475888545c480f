/** Exactly when `_canonical_escapes` keeps the octets of a text, well-formed or not. */
module StrayEscapes {
  import opened Strings
  import opened Escapes

  /** No stray percent sign turns into an escape once the text behind it is folded. */
  predicate NoStrayEscape(s: string) {
    s == ""
    || if IsEscape(s) then NoStrayEscape(s[3..])
       else (s[0] == '%' ==> !IsEscape("%" + Fold(s[1..]))) && NoStrayEscape(s[1..])
  }

  lemma {:induction false} WellFormedHasNoStrayEscape(s: string)
    requires WellFormed(s)
    ensures NoStrayEscape(s)
    decreases |s|
  {
    if s != "" {
      WellFormedHasNoStrayEscape(if IsEscape(s) then s[3..] else s[1..]);
    }
  }

  /** Quoting never changes octets. */
  lemma {:induction false} OctetsOfQuoted(s: string, safe: set<char>)
    requires '%' in safe && forall c | c in safe :: c as int < 128
    ensures Octets(Quote(s, safe)) == Octets(s)
    decreases |s|
  {
    if IsEscape(s) {
      OctetsOfQuoted(s[3..], safe);
      QuotedEscape(s, safe);
      assert (s[..3] + Quote(s[3..], safe))[3..] == Quote(s[3..], safe);
    } else if s != "" {
      OctetsOfQuoted(s[1..], safe);
      QuotedPlain(s, safe);
      if s[0] == '%' {
        assert ([s[0]] + Quote(s[1..], safe))[1..] == Quote(s[1..], safe);
      } else {
        OctetsOfQuotedChar(s[0], safe, Quote(s[1..], safe));
      }
    }
  }

  lemma OctetsOfChar(c: char, rest: string)
    requires !IsEscape([c] + rest)
    ensures Octets([c] + rest) == Utf8(c) + Octets(rest)
  {
    assert ([c] + rest)[1..] == rest;
  }

  /** A percent sign that completes an escape hides its two digits: three octets become one. */
  lemma StrayLosesTwo(folded: string)
    requires IsEscape("%" + folded)
    ensures |Octets("%" + folded)| == |Octets(folded)| - 1
  {
    var high, low, rest := folded[0], folded[1], folded[2..];
    assert folded == [high] + ([low] + rest) && ("%" + folded)[3..] == rest;
    OctetsOfChar(high, [low] + rest);
    OctetsOfChar(low, rest);
  }

  /** Folding shortens the octets by two for every stray escape, and changes nothing else. */
  lemma {:induction false} OctetsOfFolded(s: string)
    ensures |Octets(Fold(s))| <= |Octets(s)|
    ensures |Octets(Fold(s))| == |Octets(s)| <==> NoStrayEscape(s)
    ensures NoStrayEscape(s) ==> Octets(Fold(s)) == Octets(s)
    decreases |s|
  {
    if IsEscape(s) {
      OctetsOfFolded(s[3..]);
      FoldedEscapeOctets(s[1], s[2], Fold(s[3..]));
    } else if s != "" {
      var folded := Fold(s[1..]);
      OctetsOfFolded(s[1..]);
      if s[0] == '%' && IsEscape("%" + folded) {
        StrayLosesTwo(folded);
        assert [s[0]] + folded == "%" + folded;
      } else {
        assert s[0] == '%' ==> [s[0]] + folded == "%" + folded;
        OctetsOfChar(s[0], folded);
      }
    }
  }

  lemma FoldedEscapeOctets(high: char, low: char, rest: string)
    requires IsHex(high) && IsHex(low)
    ensures Octets(FoldEscape(high, low) + rest) == [EscapeValue(high, low)] + Octets(rest)
  {
    var folded := FoldEscape(high, low);
    assert (folded + rest)[|folded|..] == rest;
  }

  /** The octets are kept exactly when no stray percent sign turns into an escape. */
  lemma CanonicalEscapesKeepsOctetsIff(s: string, safe: set<char>)
    requires '%' in safe && forall c | c in safe :: c as int < 128
    ensures Octets(CanonicalEscapes(s, safe)) == Octets(s) <==> NoStrayEscape(s)
  {
    OctetsOfQuoted(Fold(s), safe);
    OctetsOfFolded(s);
  }

  /** Without it two paths that differ have one form: `/%%33D` and `/%3D`. */
  lemma StrayEscapesCollide()
    ensures CanonicalEscapes("/%%33D", PATH_SAFE) == CanonicalEscapes("/%3D", PATH_SAFE) == "/%3D"
    ensures Octets("/%%33D") != Octets("/%3D")
  {
    FoldOfStray();
    QuoteOfSafe("/%3D", PATH_SAFE);
    OctetsOfFolded("/%%33D");
  }

  lemma FoldOfStray()
    ensures Fold("/%%33D") == Fold("/%3D") == "/%3D" && !NoStrayEscape("/%%33D")
  {
    FoldOfEscape("%33", "D");
    FoldOfChar('D', "");
    FoldOfChar('%', "%33D");
    FoldOfChar('/', "%%33D");
    assert "%33" + "D" == "%33D" && ['%'] + "%33D" == "%%33D" && ['/'] + "%%33D" == "/%%33D";
    FoldOfEscape("%3D", "");
    FoldOfChar('/', "%3D");
    assert "%3D" + "" == "%3D" && ['/'] + "%3D" == "/%3D";
    assert "%%33D"[1..] == "%33D" && "/%%33D"[1..] == "%%33D";
  }
}
