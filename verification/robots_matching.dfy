/** Which rule decides (`RobotsTxt.allows`) and what a rule matches (`_rule_pattern`); RFC 9309, section 2.2. */
module RobotsMatching {
  import opened Strings

  // ---------- The pattern the code compiles ----------

  /** One piece of the regular expression: an escaped literal character, or `.*`. */
  datatype Piece = Literal(c: char) | DotStar

  datatype Pattern = Pattern(pieces: seq<Piece>, anchored: bool)

  function Literals(text: string): seq<Piece> {
    seq(|text|, i requires 0 <= i < |text| => Literal(text[i]))
  }

  /** `".*".join(...)` of the escaped parts. */
  function JoinDotStar(parts: seq<string>): seq<Piece> {
    if |parts| == 0 then []
    else if |parts| == 1 then Literals(parts[0])
    else Literals(parts[0]) + [DotStar] + JoinDotStar(parts[1..])
  }

  predicate IsAnchored(path: string) {
    path != "" && path[|path| - 1] == '$'
  }

  function RulePattern(path: string): Pattern {
    var anchored := IsAnchored(path);
    var literal := if anchored then path[..|path| - 1] else path;
    Pattern(JoinDotStar(Split(literal, '*')), anchored)
  }

  /**
   * `re.match`: the pieces consume a prefix of the target. A dot takes anything but a newline, and `$` accepts the end
   * of the target or a newline that ends it.
   */
  ghost predicate Matches(pieces: seq<Piece>, anchored: bool, target: string)
    decreases |pieces|
  {
    if |pieces| == 0 then
      !anchored || target == "" || target == "\n"
    else if pieces[0].Literal? then
      target != "" && target[0] == pieces[0].c && Matches(pieces[1..], anchored, target[1..])
    else
      exists n | 0 <= n <= |target| :: '\n' !in target[..n] && Matches(pieces[1..], anchored, target[n..])
  }

  ghost predicate RuleMatches(path: string, target: string) {
    var pattern := RulePattern(path);
    Matches(pattern.pieces, pattern.anchored, target)
  }

  // ---------- Section 2.2.3 of RFC 9309, character by character ----------

  /** `*` stands for any run of characters, a final `$` for the end, anything else for itself. */
  predicate Wildcard(path: string, target: string)
    decreases |path| + |target|
  {
    if path == "" then true
    else if path == "$" then target == ""
    else if path[0] == '*' then Wildcard(path[1..], target) || (target != "" && Wildcard(path, target[1..]))
    else target != "" && target[0] == path[0] && Wildcard(path[1..], target[1..])
  }

  /** The pieces of a path, read off it one character at a time. */
  function Pieces(literal: string): seq<Piece> {
    seq(|literal|, i requires 0 <= i < |literal| => if literal[i] == '*' then DotStar else Literal(literal[i]))
  }

  lemma {:induction false} JoinDotStarOfSplit(literal: string)
    ensures JoinDotStar(Split(literal, '*')) == Pieces(literal)
  {
    if literal != "" {
      var tail := literal[1..];
      var parts := Split(tail, '*');
      JoinDotStarOfSplit(tail);
      assert Pieces(literal) == Pieces(literal)[..1] + Pieces(tail);
      if literal[0] == '*' {
        assert Split(literal, '*')[1..] == parts;
        assert Literals("") == [];
      } else {
        var first := [literal[0]] + parts[0];
        assert Literals(first) == [Literal(literal[0])] + Literals(parts[0]);
        assert Split(literal, '*') == [first] + parts[1..];
        assert |parts| > 1 ==> Split(literal, '*')[1..] == parts[1..];
      }
    }
  }

  lemma {:induction false} StarMatches(pieces: seq<Piece>, anchored: bool, target: string)
    requires |pieces| > 0 && pieces[0].DotStar? && '\n' !in target
    ensures Matches(pieces, anchored, target)
       <==> Matches(pieces[1..], anchored, target) || (target != "" && Matches(pieces, anchored, target[1..]))
  {
    assert target[0..] == target;
    if target != "" {
      if n :| 0 < n <= |target| && '\n' !in target[..n] && Matches(pieces[1..], anchored, target[n..]) {
        assert target[1..][n - 1..] == target[n..];
      }
      if n :| 0 <= n <= |target[1..]| && '\n' !in target[1..][..n] && Matches(pieces[1..], anchored, target[1..][n..]) {
        assert target[1..][n..] == target[n + 1..];
      }
    }
  }

  lemma {:induction false} PiecesMatchAsWildcard(literal: string, anchored: bool, target: string)
    requires '\n' !in target
    requires !anchored ==> !IsAnchored(literal)
    ensures Matches(Pieces(literal), anchored, target)
       <==> Wildcard(if anchored then literal + "$" else literal, target)
    decreases |literal| + |target|
  {
    var path := if anchored then literal + "$" else literal;
    if literal != "" {
      assert path[1..] == (if anchored then literal[1..] + "$" else literal[1..]);
      assert Pieces(literal)[1..] == Pieces(literal[1..]);
      assert path != "$";
      PiecesMatchAsWildcard(literal[1..], anchored, target);
      if target != "" {
        PiecesMatchAsWildcard(literal[1..], anchored, target[1..]);
        PiecesMatchAsWildcard(literal, anchored, target[1..]);
      }
      if literal[0] == '*' { StarMatches(Pieces(literal), anchored, target); }
    }
  }

  /** The compiled pattern accepts exactly what the standard's wildcards accept, on targets without a newline. */
  lemma RuleMatchesIsWildcard(path: string, target: string)
    requires '\n' !in target
    ensures RuleMatches(path, target) <==> Wildcard(path, target)
  {
    var anchored := IsAnchored(path);
    var literal := if anchored then path[..|path| - 1] else path;
    JoinDotStarOfSplit(literal);
    PiecesMatchAsWildcard(literal, anchored, target);
    assert anchored ==> literal + "$" == path;
  }

  // ---------- Targets with a newline ----------

  /** One step of `.*` over a first character that is not a newline. */
  lemma DotStarStep(pieces: seq<Piece>, anchored: bool, target: string)
    requires |pieces| > 0 && pieces[0].DotStar? && target != "" && target[0] != '\n'
    ensures Matches(pieces, anchored, target)
       <==> Matches(pieces[1..], anchored, target) || Matches(pieces, anchored, target[1..])
  {
    assert target[0..] == target;
    if n :| 0 < n <= |target| && '\n' !in target[..n] && Matches(pieces[1..], anchored, target[n..]) {
      assert target[1..][..n - 1] == target[..n][1..] && target[1..][n - 1..] == target[n..];
    }
    if n :| 0 <= n <= |target[1..]| && '\n' !in target[1..][..n] && Matches(pieces[1..], anchored, target[1..][n..]) {
      assert target[..n + 1] == [target[0]] + target[1..][..n] && target[1..][n..] == target[n + 1..];
    }
  }

  /** `.*` does not step over a newline. */
  lemma DotStarStops(pieces: seq<Piece>, anchored: bool, target: string)
    requires |pieces| > 0 && pieces[0].DotStar? && target != "" && target[0] == '\n'
    ensures Matches(pieces, anchored, target) <==> Matches(pieces[1..], anchored, target)
  {
    assert target[0..] == target;
    assert forall n | 0 < n <= |target| :: target[..n][0] == '\n';
  }

  /** Without an anchor, a pattern that accepts the empty target accepts every target. */
  lemma {:induction false} StarsAcceptAll(literal: string, target: string)
    requires Wildcard(literal, "") && !IsAnchored(literal)
    ensures Wildcard(literal, target)
  {
    if literal != "" {
      assert literal != "$";
      StarsAcceptAll(literal[1..], target);
    }
  }

  /** On a target that ends in its only newline, `$` also accepts the end before that newline. */
  lemma {:induction false} PiecesBeforeNewline(literal: string, anchored: bool, text: string)
    requires '\n' !in text && (!anchored ==> !IsAnchored(literal))
    ensures var path := if anchored then literal + "$" else literal;
            Matches(Pieces(literal), anchored, text + "\n")
            <==> Wildcard(path, text + "\n") || (anchored && Wildcard(path, text))
    decreases |literal| + |text|
  {
    var path, target := if anchored then literal + "$" else literal, text + "\n";
    if literal == "" {
      assert text != "" ==> target != "\n" by {
        assert |target| > 1 || text == "";
      }
    } else {
      assert path[1..] == (if anchored then literal[1..] + "$" else literal[1..]);
      assert Pieces(literal)[1..] == Pieces(literal[1..]) && path != "$";
      PiecesBeforeNewline(literal[1..], anchored, text);
      if text == "" {
        assert target == "\n" && target[1..] == "";
        PiecesMatchAsWildcard(literal[1..], anchored, "");
        if literal[0] == '*' {
          DotStarStops(Pieces(literal), anchored, target);
          if !anchored && Wildcard(literal[1..], "") {
            StarsAcceptAll(literal[1..], "\n");
          }
        }
      } else {
        assert target[1..] == text[1..] + "\n";
        PiecesBeforeNewline(literal[1..], anchored, text[1..]);
        PiecesBeforeNewline(literal, anchored, text[1..]);
        if literal[0] == '*' {
          DotStarStep(Pieces(literal), anchored, target);
        }
      }
    }
  }

  /** Rule by rule: an anchored rule also matches the text before a final newline, and that is the only difference. */
  lemma RuleBeforeNewline(path: string, text: string)
    requires '\n' !in text
    ensures RuleMatches(path, text + "\n")
       <==> Wildcard(path, text + "\n") || (IsAnchored(path) && Wildcard(path, text))
  {
    var literal := if IsAnchored(path) then path[..|path| - 1] else path;
    JoinDotStarOfSplit(literal);
    PiecesBeforeNewline(literal, IsAnchored(path), text);
    assert IsAnchored(path) ==> literal + "$" == path;
  }

  /**
   * A star written in the target can only have been matched by a star of the rule, which then takes a newline as well.
   */
  lemma {:induction false} StarTakesNewline(literal: string, text: string)
    requires text != "" && text[|text| - 1] == '*' && Wildcard(literal + "$", text)
    ensures Wildcard(literal + "$", text + "\n")
    decreases |literal| + |text|
  {
    var path, target := literal + "$", text + "\n";
    assert target[1..] == text[1..] + "\n";
    if literal != "" {
      assert path[1..] == literal[1..] + "$" && path != "$";
      if literal[0] == '*' && Wildcard(path[1..], text) {
        StarTakesNewline(literal[1..], text);
      } else if literal[0] == '*' && |text| == 1 {
        assert text[1..] == "" && target[1..] == "\n" && "\n"[1..] == "";
        assert Wildcard(path, "") && Wildcard(path, "\n");
      } else if literal[0] == '*' {
        StarTakesNewline(literal, text[1..]);
      } else {
        StarTakesNewline(literal[1..], text[1..]);
      }
    }
  }

  /**
   * A star and an anchor accept every target, but the pattern accepts none with a newline before its last character.
   */
  lemma {:induction false} AnyEnd(target: string)
    ensures Wildcard("*$", target)
  {
    assert "*$"[1..] == "$";
    if target != "" {
      AnyEnd(target[1..]);
    }
  }

  lemma PatternsOfStars()
    ensures RulePattern("*$") == Pattern([DotStar], true)
    ensures RulePattern("$") == Pattern([], true)
  {
    JoinDotStarOfSplit("*");
    JoinDotStarOfSplit("");
    assert "*$"[..1] == "*" && "$"[..0] == "";
  }

  lemma InnerNewlineBlocks(target: string, k: nat)
    requires k < |target| - 1 && target[k] == '\n'
    ensures !RuleMatches("*$", target)
  {
    PatternsOfStars();
    forall n | 0 <= n <= |target| ensures '\n' in target[..n] || !Matches([], true, target[n..]) {
      if n > k {
        assert target[..n][k] == '\n';
      } else {
        assert |target[n..]| > 1;
      }
    }
    assert [DotStar][1..] == [];
  }

  /** A star, `c` and an anchor accept exactly the targets that end in `c`, for any `c` that is not itself a star. */
  lemma {:induction false} EndsIn(c: char, target: string)
    requires c != '*'
    ensures Wildcard(['*', c, '$'], target) <==> target != "" && target[|target| - 1] == c
  {
    var path := ['*', c, '$'];
    var end := [c, '$'];
    assert path[1..] == end && end[1..] == "$" && |path| == 3 && |end| == 2 && path[0] == '*' && end[0] == c;
    if target != "" {
      EndsIn(c, target[1..]);
      assert Wildcard(end, target) <==> target[0] == c && target[1..] == "";
      assert Wildcard(path, target) <==> Wildcard(end, target) || Wildcard(path, target[1..]);
    }
  }

  /** The targets on which the pattern and the standard agree, whatever the rule. */
  predicate Agreeable(target: string) {
    '\n' !in target
    || (|target| >= 2 && target[|target| - 1] == '\n' && target[|target| - 2] == '*' && '\n' !in target[..|target| - 1])
  }

  lemma AgreeOn(target: string, path: string)
    requires Agreeable(target)
    ensures RuleMatches(path, target) <==> Wildcard(path, target)
  {
    if '\n' !in target {
      RuleMatchesIsWildcard(path, target);
    } else {
      var text := target[..|target| - 1];
      assert target == text + "\n";
      RuleBeforeNewline(path, text);
      if IsAnchored(path) && Wildcard(path, text) {
        assert path == path[..|path| - 1] + "$";
        StarTakesNewline(path[..|path| - 1], text);
      }
    }
  }

  /** A rule that tells the two apart on a target they do not agree on. */
  lemma DisagreeOn(target: string) returns (path: string)
    requires !Agreeable(target)
    ensures RuleMatches(path, target) != Wildcard(path, target)
  {
    var k :| 0 <= k < |target| && target[k] == '\n';
    var text := target[..|target| - 1];
    if '\n' in text {
      var j :| 0 <= j < |text| && text[j] == '\n';
      path := "*$";
      AnyEnd(target);
      InnerNewlineBlocks(target, j);
    } else {
      assert k == |text| && target == text + "\n";
      path := if text == "" then "$" else ['*', text[|text| - 1], '$'];
      RuleBeforeNewline(path, text);
      if text != "" {
        EndsIn(text[|text| - 1], text);
        EndsIn(text[|text| - 1], target);
      }
    }
  }

  /**
   * Exactly when the code follows section 2.2.3: the pattern and the standard agree on all rules if and only if the
   * target has no newline, or only a final one right after a star.
   */
  lemma AgreesIffAgreeable(target: string)
    ensures (forall path :: RuleMatches(path, target) <==> Wildcard(path, target)) <==> Agreeable(target)
  {
    if Agreeable(target) {
      forall path ensures RuleMatches(path, target) <==> Wildcard(path, target) {
        AgreeOn(target, path);
      }
    } else {
      var path := DisagreeOn(target);
    }
  }

  // Too little: the dot of a star in the rule stops at the newline.
  lemma NewlineStopsTheDot()
    ensures Wildcard("/*b", "/\nb") && !RuleMatches("/*b", "/\nb")
  {
    var target := "/\nb";
    assert target[1..] == "\nb" && "\nb"[1..] == "b" && "b"[1..] == "";
    assert "/*b"[1..] == "*b" && "*b"[1..] == "b";
    assert Wildcard("b", "b") && Wildcard("*b", "b") && Wildcard("*b", "\nb");
    JoinDotStarOfSplit("/*b");
    var pieces := Pieces("/*b");
    assert pieces[1..] == [DotStar, Literal('b')] && pieces[1..][1..] == [Literal('b')];
    DotStarStops(pieces[1..], false, "\nb");
    assert !Matches([Literal('b')], false, "\nb");
  }

  // Too much: `$` also accepts the place before a final newline.
  lemma DollarSkipsNewline()
    ensures !Wildcard("/a$", "/a\n") && RuleMatches("/a$", "/a\n")
  {
    assert "/a$"[1..] == "a$" && "a$"[1..] == "$" && "/a"[1..] == "a" && "a"[1..] == "";
    assert "/a\n"[1..] == "a\n" && "a\n"[1..] == "\n";
    assert "/a" + "\n" == "/a\n";
    RuleBeforeNewline("/a$", "/a");
  }

  // ---------- The decision ----------

  datatype Rule = Rule(path: string, length: nat, allowance: bool)

  /** `_rule`, for a path already percent-decoded. */
  function MakeRule(name: string, path: string): Rule {
    Rule(path, |path|, name == "allow" || path == "")
  }

  ghost predicate FromRule(rule: Rule) {
    exists name, path :: rule == MakeRule(name, path)
  }

  ghost function Matched(rules: seq<Rule>, target: string): seq<Rule> {
    if |rules| == 0 then []
    else (if RuleMatches(rules[0].path, target) then [rules[0]] else []) + Matched(rules[1..], target)
  }

  function Longest(rules: seq<Rule>): nat {
    if |rules| == 0 then 0
    else if rules[0].length > Longest(rules[1..]) then rules[0].length else Longest(rules[1..])
  }

  /** `RobotsTxt.allows`, on the target its url is turned into. */
  ghost predicate Allows(rules: seq<Rule>, target: string) {
    var matched := Matched(rules, target);
    matched == [] || exists i :: 0 <= i < |matched| && matched[i].length == Longest(matched) && matched[i].allowance
  }

  lemma {:induction false} MatchedMembers(rules: seq<Rule>, target: string, rule: Rule)
    ensures rule in Matched(rules, target) <==> rule in rules && RuleMatches(rule.path, target)
  {
    if |rules| > 0 {
      MatchedMembers(rules[1..], target, rule);
      assert rules == [rules[0]] + rules[1..];
    }
  }

  lemma {:induction false} LongestIsMaximum(rules: seq<Rule>)
    requires |rules| > 0
    ensures forall r | r in rules :: r.length <= Longest(rules)
    ensures exists r :: r in rules && r.length == Longest(rules)
  {
    assert rules == [rules[0]] + rules[1..];
    if |rules| == 1 {
      assert Longest(rules[1..]) == 0;
      assert rules[0] in rules;
    } else {
      LongestIsMaximum(rules[1..]);
      if rules[0].length > Longest(rules[1..]) {
        assert rules[0] in rules;
      } else {
        var r :| r in rules[1..] && r.length == Longest(rules[1..]);
        assert r in rules;
      }
    }
  }

  /** The target is refused by a matching rule longer than every rule that matches and allows it. */
  ghost predicate Refused(rules: set<Rule>, target: string) {
    exists d | d in rules :: RuleMatches(d.path, target) && !d.allowance
                             && forall a | a in rules ::
                                  RuleMatches(a.path, target) && a.allowance ==> a.length < d.length
  }

  ghost function RuleSet(rules: seq<Rule>): set<Rule> {
    set r | r in rules
  }

  /**
   * Section 2.2.2: the longest match decides and Allow wins a tie. Only the set of rules is mentioned, so neither their
   * order nor repetitions can change the answer.
   */
  lemma AllowsIffNotRefused(rules: seq<Rule>, target: string)
    ensures Allows(rules, target) <==> !Refused(RuleSet(rules), target)
  {
    var matched := Matched(rules, target);
    forall r ensures r in matched <==> r in RuleSet(rules) && RuleMatches(r.path, target) {
      MatchedMembers(rules, target, r);
    }
    if matched != [] {
      LongestIsMaximum(matched);
      var top :| top in matched && top.length == Longest(matched);
      if Allows(rules, target) {
        var i :| 0 <= i < |matched| && matched[i].length == Longest(matched) && matched[i].allowance;
        assert matched[i] in matched;
      } else {
        assert !top.allowance;
        forall a | a in RuleSet(rules) && RuleMatches(a.path, target) && a.allowance ensures a.length < top.length {
          assert a in matched;
          var i :| 0 <= i < |matched| && matched[i] == a;
        }
      }
    }
  }

  lemma OrderAndRepetitionAreIrrelevant(rules1: seq<Rule>, rules2: seq<Rule>, target: string)
    requires RuleSet(rules1) == RuleSet(rules2)
    ensures Allows(rules1, target) <==> Allows(rules2, target)
  {
    AllowsIffNotRefused(rules1, target);
    AllowsIffNotRefused(rules2, target);
  }

  /** `Disallow:` without a path, wherever it is added, changes no decision. */
  lemma EmptyRuleChangesNothing(before: seq<Rule>, name: string, after: seq<Rule>, target: string)
    requires forall r | r in before + after :: FromRule(r)
    ensures Allows(before + [MakeRule(name, "")] + after, target) <==> Allows(before + after, target)
  {
    var empty := MakeRule(name, "");
    var with, without := before + [empty] + after, before + after;
    AllowsIffNotRefused(with, target);
    AllowsIffNotRefused(without, target);
    assert RuleSet(with) == RuleSet(without) + {empty};
    if Refused(RuleSet(without), target) {
      var d :| d in RuleSet(without) && RuleMatches(d.path, target) && !d.allowance
               && forall a | a in RuleSet(without) ::
                    RuleMatches(a.path, target) && a.allowance ==> a.length < d.length;
      var n, p :| d == MakeRule(n, p);
      assert d in RuleSet(with);
    }
  }
}
