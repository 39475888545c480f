/** Percent-escape folding: `_canonical_escapes` and `_fold_escape`. */
module Escapes {
  import opened Options
  import opened Strings

  // ---------- Characters, octets and escapes (RFC 3986, sections 2.1 and 2.3) ----------

  type Octet = n: int | 0 <= n < 256

  const SUB_DELIMITERS: set<char> := {'!', '$', '&', '\'', '(', ')', '*', '+', ',', ';', '='}
  const PATH_SAFE: set<char> := {'/', '%', ':', '@'} + SUB_DELIMITERS
  const QUERY_SAFE: set<char> := PATH_SAFE + {'?'}

  predicate Unreserved(c: char) {
    'a' <= c <= 'z' || 'A' <= c <= 'Z' || '0' <= c <= '9'
    || c == '-' || c == '.' || c == '_' || c == '~'
  }

  predicate IsHex(c: char) {
    '0' <= c <= '9' || 'a' <= c <= 'f' || 'A' <= c <= 'F'
  }

  function HexValue(c: char): (n: nat)
    requires IsHex(c)
    ensures n < 16
  {
    if c <= '9' then (c - '0') as int else if c <= 'F' then 10 + (c - 'A') as int else 10 + (c - 'a') as int
  }

  function Upper(c: char): (u: char)
    requires IsHex(c)
    ensures IsHex(u) && HexValue(u) == HexValue(c) && !('a' <= u <= 'z')
  {
    if 'a' <= c <= 'f' then c - 'a' + 'A' else c
  }

  function HexDigit(n: nat): (c: char)
    requires n < 16
    ensures IsHex(c) && HexValue(c) == n && Upper(c) == c
  {
    if n < 10 then '0' + n as char else 'A' + (n - 10) as char
  }

  /** The UTF-8 octets of one character. */
  function Utf8(c: char): (octets: seq<Octet>)
    ensures c as int < 128 ==> octets == [c as int]
    ensures c as int >= 128 ==> forall i | 0 <= i < |octets| :: octets[i] >= 128
  {
    var n := c as int;
    if n < 0x80 then [n]
    else if n < 0x800 then [0xC0 + n / 64, 0x80 + n % 64]
    else if n < 0x1_0000 then [0xE0 + n / 4096, 0x80 + n / 64 % 64, 0x80 + n % 64]
    else [0xF0 + n / 262144, 0x80 + n / 4096 % 64, 0x80 + n / 64 % 64, 0x80 + n % 64]
  }

  lemma HexadecimalDigits(c: char)
    ensures IsHex(c) <==> c in "0123456789ABCDEF" || c in "0123456789abcdef"
    ensures forall n | 0 <= n < 16 && (c == "0123456789ABCDEF"[n] || c == "0123456789abcdef"[n]) ::
              IsHex(c) && HexValue(c) == n
  {
    if '0' <= c <= '9' {
      assert c == "0123456789ABCDEF"[c as int - 48];
    } else if 'A' <= c <= 'F' {
      assert c == "0123456789ABCDEF"[c as int - 55];
    } else if 'a' <= c <= 'f' {
      assert c == "0123456789abcdef"[c as int - 87];
    }
  }

  predicate Continuation(octet: Octet) {
    0x80 <= octet < 0xC0
  }

  /** The six bits of a continuation octet go behind the bits read before it. */
  function Then(bits: int, octet: Octet): int {
    64 * bits + (octet as int - 0x80)
  }

  /** Reading the octets of a character (RFC 3629, section 3). */
  function FromUtf8(octets: seq<Octet>): Option<int> {
    if |octets| == 1 && octets[0] < 0x80 then Some(octets[0])
    else if |octets| == 2 && 0xC0 <= octets[0] < 0xE0 && Continuation(octets[1]) then
      Some(Then(octets[0] as int - 0xC0, octets[1]))
    else if |octets| == 3 && 0xE0 <= octets[0] < 0xF0 && Continuation(octets[1]) && Continuation(octets[2]) then
      Some(Then(Then(octets[0] as int - 0xE0, octets[1]), octets[2]))
    else if |octets| == 4 && 0xF0 <= octets[0] < 0xF8
            && Continuation(octets[1]) && Continuation(octets[2]) && Continuation(octets[3]) then
      Some(Then(Then(Then(octets[0] as int - 0xF0, octets[1]), octets[2]), octets[3]))
    else None
  }

  lemma SixBitsAtATime(n: nat)
    ensures n == 64 * (n / 64) + n % 64 && n / 64 == 64 * (n / 4096) + n / 64 % 64
    ensures n / 4096 == 64 * (n / 262144) + n / 4096 % 64
  {
  }

  /** Every character is read back from its octets. */
  lemma Utf8ReadsBack(c: char)
    ensures FromUtf8(Utf8(c)) == Some(c as int)
  {
    SixBitsAtATime(c as int);
  }

  /** `s` starts with a percent sign and two hexadecimal digits. */
  predicate IsEscape(s: string) {
    |s| >= 3 && s[0] == '%' && IsHex(s[1]) && IsHex(s[2])
  }

  function EscapeValue(high: char, low: char): Octet
    requires IsHex(high) && IsHex(low)
  {
    16 * HexValue(high) + HexValue(low)
  }

  function EscapeOf(n: Octet): (e: string)
    ensures |e| == 3 && IsEscape(e) && EscapeValue(e[1], e[2]) == n
  {
    ['%', HexDigit(n / 16), HexDigit(n % 16)]
  }

  // ---------- The code ----------

  /** `_fold_escape`: an unreserved character is written out, any other escape gets upper-case digits. */
  function FoldEscape(high: char, low: char): (folded: string)
    requires IsHex(high) && IsHex(low)
  {
    var character := EscapeValue(high, low) as char;
    if Unreserved(character) then [character] else ['%', Upper(high), Upper(low)]
  }

  /** The left-to-right substitution of every escape. */
  function Fold(s: string): string {
    if s == "" then ""
    else if IsEscape(s) then FoldEscape(s[1], s[2]) + Fold(s[3..])
    else [s[0]] + Fold(s[1..])
  }

  function EscapeAll(octets: seq<Octet>): string {
    FlatMap(EscapeOf, octets)
  }

  function QuoteChar(c: char, safe: set<char>): string {
    if Unreserved(c) || c in safe then [c] else EscapeAll(Utf8(c))
  }

  function Quoter(safe: set<char>): char -> string {
    c => QuoteChar(c, safe)
  }

  /** `urllib.parse.quote`: every octet of an unsafe character becomes an escape. */
  function Quote(s: string, safe: set<char>): string {
    FlatMap(Quoter(safe), s)
  }

  function CanonicalEscapes(s: string, safe: set<char>): string {
    Quote(Fold(s), safe)
  }

  // ---------- What folding is judged by ----------

  /** Every percent sign starts an escape. */
  predicate WellFormed(s: string) {
    s == "" || if IsEscape(s) then WellFormed(s[3..]) else s[0] != '%' && WellFormed(s[1..])
  }

  /** The octets a url reader sees after percent-decoding. */
  function Octets(s: string): seq<Octet> {
    if s == "" then []
    else if IsEscape(s) then [EscapeValue(s[1], s[2])] + Octets(s[3..])
    else Utf8(s[0]) + Octets(s[1..])
  }

  /** `s` starts with an escape that folding would rewrite. */
  predicate Rewritable(s: string) {
    IsEscape(s) && FoldEscape(s[1], s[2]) != s[..3]
  }

  /** No stray percent sign turns into a rewritable escape once the text behind it is folded. */
  predicate NoNewEscape(s: string) {
    s == ""
    || if IsEscape(s) then NoNewEscape(s[3..])
       else (s[0] == '%' ==> !Rewritable("%" + Fold(s[1..]))) && NoNewEscape(s[1..])
  }

  lemma {:induction false} WellFormedHasNoNewEscape(s: string)
    requires WellFormed(s)
    ensures NoNewEscape(s)
    decreases |s|
  {
    if s != "" { WellFormedHasNoNewEscape(if IsEscape(s) then s[3..] else s[1..]); }
  }

  // ---------- Quoting ----------

  predicate AllSafe(s: string, safe: set<char>) {
    forall i | 0 <= i < |s| :: Unreserved(s[i]) || s[i] in safe
  }

  lemma QuoteConcat(a: string, b: string, safe: set<char>)
    ensures Quote(a + b, safe) == Quote(a, safe) + Quote(b, safe)
  {
    FlatMapConcat(Quoter(safe), a, b);
  }

  lemma {:induction false} QuoteOfSafe(s: string, safe: set<char>)
    requires AllSafe(s, safe)
    ensures Quote(s, safe) == s
  {
    if s != "" {
      QuoteOfSafe(s[1..], safe);
      assert [s[0]] + s[1..] == s;
    }
  }

  lemma {:induction false} EscapeAllIsSafe(octets: seq<Octet>, safe: set<char>)
    requires '%' in safe
    ensures AllSafe(EscapeAll(octets), safe)
  {
    if |octets| > 0 { EscapeAllIsSafe(octets[1..], safe); }
  }

  lemma {:induction false} QuoteIsSafe(s: string, safe: set<char>)
    requires '%' in safe
    ensures AllSafe(Quote(s, safe), safe)
  {
    if s != "" {
      QuoteIsSafe(s[1..], safe);
      EscapeAllIsSafe(Utf8(s[0]), safe);
    }
  }

  lemma {:induction false} FoldIsSafe(s: string, safe: set<char>)
    requires '%' in safe && AllSafe(s, safe)
    ensures AllSafe(Fold(s), safe)
    decreases |s|
  {
    if IsEscape(s) {
      FoldIsSafe(s[3..], safe);
    } else if s != "" {
      FoldIsSafe(s[1..], safe);
    }
  }

  // ---------- Octets ----------

  lemma {:induction false} OctetsOfEscapes(octets: seq<Octet>, rest: string)
    ensures Octets(EscapeAll(octets) + rest) == octets + Octets(rest)
  {
    if |octets| == 0 {
      assert EscapeAll(octets) + rest == rest;
    } else {
      var e, tail := EscapeOf(octets[0]), EscapeAll(octets[1..]);
      calc {
        Octets(EscapeAll(octets) + rest);
        { assert e + tail + rest == e + (tail + rest); }
        Octets(e + (tail + rest));
        { OctetsOfEscape(octets[0], tail + rest); }
        [octets[0]] + Octets(tail + rest);
        { OctetsOfEscapes(octets[1..], rest); }
        [octets[0]] + (octets[1..] + Octets(rest));
        { assert octets == [octets[0]] + octets[1..]; }
        octets + Octets(rest);
      }
    }
  }

  lemma OctetsOfEscape(octet: Octet, rest: string)
    ensures Octets(EscapeOf(octet) + rest) == [octet] + Octets(rest)
  {
    var s := EscapeOf(octet) + rest;
    assert s[3..] == rest && s[1] == EscapeOf(octet)[1] && s[2] == EscapeOf(octet)[2];
  }

  lemma OctetsOfQuotedChar(c: char, safe: set<char>, rest: string)
    requires c != '%'
    requires forall c | c in safe :: c as int < 128
    ensures Octets(QuoteChar(c, safe) + rest) == Utf8(c) + Octets(rest)
  {
    if Unreserved(c) || c in safe {
      assert ([c] + rest)[1..] == rest;
    } else {
      OctetsOfEscapes(Utf8(c), rest);
    }
  }

  // ---------- Idempotence, exactly ----------

  lemma {:induction false} FoldShrinks(s: string)
    ensures |Fold(s)| <= |s|
    decreases |s|
  {
    if s != "" { FoldShrinks(if IsEscape(s) then s[3..] else s[1..]); }
  }

  lemma FoldOfEscape(e: string, rest: string)
    requires |e| == 3 && IsEscape(e)
    ensures Fold(e + rest) == FoldEscape(e[1], e[2]) + Fold(rest)
    ensures Fold(e + rest) == e + rest <==> FoldEscape(e[1], e[2]) == e && Fold(rest) == rest
  {
    assert (e + rest)[3..] == rest;
    FoldShrinks(rest);
    var folded := FoldEscape(e[1], e[2]);
    if folded + Fold(rest) == e + rest {
      assert |folded| == 3;
      assert (folded + Fold(rest))[..3] == folded && (e + rest)[..3] == e;
      assert (folded + Fold(rest))[3..] == Fold(rest);
    }
  }

  lemma FoldOfChar(c: char, rest: string)
    requires !IsEscape([c] + rest)
    ensures Fold([c] + rest) == [c] + Fold(rest)
    ensures Fold([c] + rest) == [c] + rest <==> Fold(rest) == rest
  {
    assert ([c] + rest)[1..] == rest;
    if [c] + Fold(rest) == [c] + rest {
      assert ([c] + Fold(rest))[1..] == Fold(rest);
    }
  }

  lemma FoldAfterEscape(high: char, low: char, folded: string)
    requires IsHex(high) && IsHex(low)
    ensures Fold(FoldEscape(high, low) + folded) == FoldEscape(high, low) + folded <==> Fold(folded) == folded
  {
    var e := FoldEscape(high, low);
    if |e| == 1 { FoldOfChar(e[0], folded); } else { FoldOfEscape(e, folded); }
  }

  lemma FoldAfterStray(folded: string)
    requires IsEscape("%" + folded)
    ensures Fold("%" + folded) == "%" + folded <==> !Rewritable("%" + folded) && Fold(folded) == folded
  {
    var high, low, rest := folded[0], folded[1], folded[2..];
    assert folded == [high] + ([low] + rest);
    FoldOfChar(high, [low] + rest);
    FoldOfChar(low, rest);
    var e := ['%', high, low];
    assert "%" + folded == e + rest && (e + rest)[..3] == e;
    FoldOfEscape(e, rest);
  }

  /** A second fold changes nothing exactly when no stray percent sign becomes a rewritable escape. */
  lemma {:induction false} FoldTwice(s: string)
    ensures Fold(Fold(s)) == Fold(s) <==> NoNewEscape(s)
    decreases |s|
  {
    if IsEscape(s) {
      FoldTwice(s[3..]);
      FoldAfterEscape(s[1], s[2], Fold(s[3..]));
    } else if s != "" {
      FoldTwice(s[1..]);
      var folded := Fold(s[1..]);
      if s[0] == '%' && IsEscape("%" + folded) {
        FoldAfterStray(folded);
        assert [s[0]] + folded == "%" + folded;
      } else {
        assert s[0] == '%' ==> [s[0]] + folded == "%" + folded;
        FoldOfChar(s[0], folded);
      }
    }
  }

  /** The escapes quoting writes are already in folded form. */
  lemma {:induction false} FoldOfQuoted(octets: seq<Octet>, rest: string)
    requires forall i | 0 <= i < |octets| :: !Unreserved(octets[i] as char)
    ensures Fold(EscapeAll(octets) + rest) == EscapeAll(octets) + Fold(rest)
  {
    if |octets| == 0 {
      assert EscapeAll(octets) + rest == rest && EscapeAll(octets) + Fold(rest) == Fold(rest);
    } else {
      var e, tail := EscapeOf(octets[0]), EscapeAll(octets[1..]);
      calc {
        Fold(EscapeAll(octets) + rest);
        { assert e + tail + rest == e + (tail + rest); }
        Fold(e + (tail + rest));
        { FoldOfEscape(e, tail + rest); assert FoldEscape(e[1], e[2]) == e; }
        e + Fold(tail + rest);
        { FoldOfQuoted(octets[1..], rest); }
        e + (tail + Fold(rest));
        { assert e + (tail + Fold(rest)) == e + tail + Fold(rest); }
        EscapeAll(octets) + Fold(rest);
      }
    }
  }

  lemma FoldOfQuotedChar(c: char, safe: set<char>, rest: string)
    requires '%' in safe && !IsEscape([c] + rest)
    ensures Fold(QuoteChar(c, safe) + rest) == QuoteChar(c, safe) + Fold(rest)
  {
    if Unreserved(c) || c in safe {
      FoldOfChar(c, rest);
    } else {
      FoldOfQuoted(Utf8(c), rest);
    }
  }

  /** Quoting changes neither whether a text starts with two hexadecimal digits nor which they are. */
  lemma QuoteKeepsHex(s: string, safe: set<char>)
    requires '%' in safe
    ensures IsEscape("%" + Quote(s, safe)) <==> IsEscape("%" + s)
    ensures IsEscape("%" + s) ==> Quote(s, safe) == s[..2] + Quote(s[2..], safe)
  {
    if s != "" {
      var tail := s[1..];
      QuotedHead(s[0], safe);
      assert Quote(s, safe) == QuoteChar(s[0], safe) + Quote(tail, safe);
      if tail != "" {
        QuotedHead(tail[0], safe);
        assert Quote(tail, safe) == QuoteChar(tail[0], safe) + Quote(tail[1..], safe);
        assert tail[1..] == s[2..];
        assert s[..2] == [s[0]] + [tail[0]];
      }
    }
  }

  lemma QuotedHead(c: char, safe: set<char>)
    requires '%' in safe
    ensures QuoteChar(c, safe) == [c] || (|QuoteChar(c, safe)| > 1 && QuoteChar(c, safe)[0] == '%')
    ensures IsHex(c) ==> QuoteChar(c, safe) == [c]
  {
    if !(Unreserved(c) || c in safe) {
      var octets := Utf8(c);
      assert EscapeAll(octets) == EscapeOf(octets[0]) + EscapeAll(octets[1..]);
    }
  }

  /** Folding and quoting commute. */
  lemma {:induction false} FoldQuoteCommute(s: string, safe: set<char>)
    requires '%' in safe
    ensures Fold(Quote(s, safe)) == Quote(Fold(s), safe)
    decreases |s|
  {
    if IsEscape(s) {
      var e, rest := s[..3], s[3..];
      FoldQuoteCommute(rest, safe);
      QuotedEscape(s, safe);
      FoldOfEscape(e, Quote(rest, safe));
      QuoteAfterSafe(FoldEscape(s[1], s[2]), Fold(rest), safe);
    } else if s != "" {
      FoldQuoteCommute(s[1..], safe);
      QuotedPlain(s, safe);
      FoldOfQuotedChar(s[0], safe, Quote(s[1..], safe));
      QuoteConcat([s[0]], Fold(s[1..]), safe);
      QuoteOne(s[0], safe);
    }
  }

  /** Quoting hides nothing from the fold. */
  lemma {:induction false} FoldFixesQuoted(s: string, safe: set<char>)
    requires '%' in safe
    ensures Fold(Quote(s, safe)) == Quote(s, safe) <==> Fold(s) == s
    decreases |s|
  {
    if IsEscape(s) {
      var e, rest := s[..3], s[3..];
      FoldFixesQuoted(rest, safe);
      QuotedEscape(s, safe);
      FoldOfEscape(e, Quote(rest, safe));
      FoldOfEscape(e, rest);
      assert s == e + rest;
    } else if s != "" {
      FoldFixesQuoted(s[1..], safe);
      QuotedPlain(s, safe);
      FoldOfQuotedChar(s[0], safe, Quote(s[1..], safe));
      SamePrefixCancels(QuoteChar(s[0], safe), Fold(Quote(s[1..], safe)), Quote(s[1..], safe));
      FoldOfChar(s[0], s[1..]);
      assert s == [s[0]] + s[1..];
    }
  }

  lemma QuotedEscape(s: string, safe: set<char>)
    requires '%' in safe && IsEscape(s)
    ensures Quote(s, safe) == s[..3] + Quote(s[3..], safe)
  {
    QuoteAfterSafe(s[..3], s[3..], safe);
    assert s == s[..3] + s[3..];
  }

  lemma QuotedPlain(s: string, safe: set<char>)
    requires '%' in safe && s != "" && !IsEscape(s)
    ensures Quote(s, safe) == QuoteChar(s[0], safe) + Quote(s[1..], safe)
    ensures !IsEscape([s[0]] + Quote(s[1..], safe)) && !IsEscape([s[0]] + s[1..])
  {
    QuoteKeepsHex(s[1..], safe);
    assert s == [s[0]] + s[1..];
    assert s[0] == '%' ==> [s[0]] == "%";
  }

  lemma QuoteAfterSafe(s: string, rest: string, safe: set<char>)
    requires AllSafe(s, safe)
    ensures Quote(s + rest, safe) == s + Quote(rest, safe)
  {
    QuoteConcat(s, rest, safe);
    QuoteOfSafe(s, safe);
  }

  lemma QuoteOne(c: char, safe: set<char>)
    ensures Quote([c], safe) == QuoteChar(c, safe)
  {
    assert [c][1..] == [];
    assert QuoteChar(c, safe) + FlatMap(Quoter(safe), []) == QuoteChar(c, safe);
  }

  lemma SamePrefixCancels(p: string, a: string, b: string)
    ensures p + a == p + b <==> a == b
  {
    assert (p + a)[|p|..] == a && (p + b)[|p|..] == b;
  }

  /** `_canonical_escapes` repeated changes nothing exactly when no stray percent sign reveals a new escape. */
  lemma CanonicalEscapesIdempotentIff(s: string, safe: set<char>)
    requires '%' in safe
    ensures CanonicalEscapes(CanonicalEscapes(s, safe), safe) == CanonicalEscapes(s, safe) <==> NoNewEscape(s)
  {
    SecondPassIsFold(s, safe);
    FoldFixesQuoted(Fold(s), safe);
    FoldTwice(s);
  }

  /** On its own output the code only folds. */
  lemma SecondPassIsFold(s: string, safe: set<char>)
    requires '%' in safe
    ensures CanonicalEscapes(CanonicalEscapes(s, safe), safe) == Fold(CanonicalEscapes(s, safe))
  {
    QuoteIsSafe(Fold(s), safe);
    FoldIsSafe(CanonicalEscapes(s, safe), safe);
    QuoteOfSafe(Fold(CanonicalEscapes(s, safe)), safe);
  }

  /** Without that condition it fails: `%%341` gives `%41`, which gives `A`. */
  lemma CanonicalEscapesNotIdempotent()
    ensures CanonicalEscapes("%%341", PATH_SAFE) == "%41"
    ensures CanonicalEscapes("%41", PATH_SAFE) == "A"
  {
    assert "%%341"[1..] == "%341" && "%341"[3..] == "1" && "1"[1..] == "";
    assert Fold("1") == "1";
    assert Fold("%341") == "41";
    assert Fold("%%341") == "%41";
    assert "%41"[3..] == "";
    assert Fold("%41") == "A";
    QuoteOfSafe("%41", PATH_SAFE);
    QuoteOfSafe("A", PATH_SAFE);
  }
}
