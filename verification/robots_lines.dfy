/** What single lines of robots.txt say, and what the lines of a group come to for a target; RFC 9309, section 2.2. */
module RobotsLines {
  import opened Options
  import opened Strings
  import opened RobotsMatching
  import opened RobotsGroups

  predicate Blank(s: string) {
    forall i | 0 <= i < |s| :: IsSpace(s[i])
  }

  /** No white space at either end. */
  predicate Trimmed(s: string) {
    s != "" ==> !IsSpace(s[0]) && !IsSpace(s[|s| - 1])
  }

  /** Nothing follows, or something that begins with `sep`. */
  predicate EndsAt(tail: string, sep: char) {
    tail == "" || tail[0] == sep
  }

  lemma LettersLower()
    ensures Lower("ABCDEFGHIJKLMNOPQRSTUVWXYZ") == "abcdefghijklmnopqrstuvwxyz"
    ensures forall c | c !in "ABCDEFGHIJKLMNOPQRSTUVWXYZ" :: LowerChar(c) == c
  {
    var upper := "ABCDEFGHIJKLMNOPQRSTUVWXYZ";
    forall c | 'A' <= c <= 'Z' ensures c in upper {
      assert upper[c as int - 65] == c;
    }
  }

  lemma {:induction false} StripLeftOf(left: string, s: string)
    requires Blank(left) && (s != "" ==> !IsSpace(s[0]))
    ensures StripLeft(left + s) == s
  {
    if left == "" {
      assert left + s == s;
    } else {
      StripLeftOf(left[1..], s);
      assert (left + s)[1..] == left[1..] + s;
    }
  }

  lemma {:induction false} StripRightOf(s: string, right: string)
    requires Blank(right) && (s != "" ==> !IsSpace(s[|s| - 1]))
    ensures StripRight(s + right) == s
  {
    if right == "" {
      assert s + right == s;
    } else {
      var n := |right| - 1;
      StripRightOf(s, right[..n]);
      assert (s + right)[..|s + right| - 1] == s + right[..n];
    }
  }

  /** Stripping takes the blanks off both ends and nothing else. */
  lemma StripOf(left: string, s: string, right: string)
    requires Blank(left) && Blank(right) && Trimmed(s)
    ensures Strip(left + s + right) == s
  {
    if s == "" {
      StripLeftOf(left + right, "");
      assert left + s + right == left + right && left + right + "" == left + right;
    } else {
      assert left + s + right == left + (s + right);
      StripLeftOf(left, s + right);
      StripRightOf(s, right);
    }
  }

  lemma FirstPart(p: string, tail: string, sep: char)
    requires sep !in p && EndsAt(tail, sep)
    ensures Split(p + tail, sep)[0] == p
  {
    if tail == "" {
      assert p + tail == p;
      SplitAtFirst(p, "", sep);
    } else {
      assert p + tail == p + [sep] + tail[1..];
      SplitAtFirst(p, tail[1..], sep);
    }
  }

  lemma BlanksAreFree(blank: string)
    requires Blank(blank)
    ensures ':' !in blank && '#' !in blank && '/' !in blank
  {
  }

  /** A line of a field, however it is spaced, cased and commented. */
  lemma LineSays(left: string, name: string, middle: string, gap: string, value: string, right: string, tail: string)
    requires Blank(left) && Blank(middle) && Blank(gap) && Blank(right) && EndsAt(tail, '#')
    requires Trimmed(name) && Trimmed(value) && ':' !in name && '#' !in name && '#' !in value
    ensures ParseLine(left + name + middle + [':'] + (gap + value + right) + tail) == Some(Field(Lower(name), value))
  {
    var padded, rest := left + name + middle, gap + value + right;
    var text := padded + [':'] + rest;
    BlanksAreFree(left);
    BlanksAreFree(middle);
    BlanksAreFree(gap);
    BlanksAreFree(right);
    FirstPart(text, tail, '#');
    SplitAtFirst(padded, rest, ':');
    assert text[|padded| + 1..] == rest;
    StripOf(left, name, middle);
    StripOf(gap, value, right);
  }

  /** Every line with a colon before any comment carries a field, and no other line does. */
  lemma LineIsEmptyIff(line: string)
    ensures ParseLine(line).None? <==> forall i | 0 <= i < |line| && line[i] == ':' :: '#' in line[..i]
  {
    var text := Split(line, '#')[0];
    var name := Split(text, ':')[0];
    Before(line, '#');
    Before(text, ':');
    if |name| < |text| {
      assert line[|name|] == ':' && '#' !in line[..|name|];
    } else {
      forall i | 0 <= i < |line| && line[i] == ':' ensures '#' in line[..i] {
        NotWithin(text, line, ':', i);
        assert line[..i][|text|] == '#';
      }
    }
  }

  lemma NotWithin(part: string, whole: string, c: char, i: nat)
    requires part <= whole && c !in part && i < |whole| && whole[i] == c
    ensures i >= |part|
  {
    assert part == whole[..|part|];
  }

  /** The first piece runs up to the first separator. */
  lemma Before(s: string, sep: char)
    ensures var p := Split(s, sep)[0]; p <= s && sep !in p && (|p| < |s| ==> s[|p|] == sep)
  {
    var parts := Split(s, sep);
    SplitPiecesAreFree(s, sep);
    JoinOfSplit(s, sep);
    if |parts| > 1 {
      assert s == parts[0] + [sep] + Join(parts[1..], sep);
    }
  }

  /** The agent's own token: what its name says before any slash, without blanks and in lower case. */
  lemma TokenSays(left: string, name: string, right: string, tail: string)
    requires Blank(left) && Blank(right) && Trimmed(name) && '/' !in name && EndsAt(tail, '/')
    ensures Token(left + name + right + tail) == Lower(name)
  {
    BlanksAreFree(left);
    BlanksAreFree(right);
    FirstPart(left + name + right, tail, '/');
    StripOf(left, name, right);
  }

  /** A delay counts if it is a positive number. */
  lemma DelayIff(value: string, library: Library, delay: real)
    ensures Delay(value, library) == Some(delay) <==> library.parseFloat(value) == Some(delay) && delay > 0.0
  {
  }

  // ---------- The lines of a group, for one target ----------

  /** Line `i` is a rule of group `g` with that name, whose decoded path matches the target. */
  ghost predicate Hits(fields: seq<Option<Field>>, g: nat, name: string, library: Library, target: string, i: nat) {
    i < |fields| && BelongsTo(fields, i, g) && IsField(fields[i], name)
    && RuleMatches(library.unquote(fields[i].value.value), target)
  }

  /** How many characters the decoded path of line `i` has. */
  function LengthAt(fields: seq<Option<Field>>, library: Library, i: nat): nat
    requires i < |fields| && fields[i].Some?
  {
    |library.unquote(fields[i].value.value)|
  }

  /** A matching Disallow line that is not empty is longer than every matching Allow line. */
  ghost predicate Forbidden(fields: seq<Option<Field>>, g: nat, library: Library, target: string) {
    exists i: nat ::
      && Hits(fields, g, "disallow", library, target, i) && LengthAt(fields, library, i) > 0
      && forall j: nat | Hits(fields, g, "allow", library, target, j) ::
           LengthAt(fields, library, j) < LengthAt(fields, library, i)
  }

  lemma {:induction false} RuleIsALine(fields: seq<Option<Field>>, n: nat, g: nat, library: Library, rule: Rule)
    returns (i: nat)
    requires n <= |fields| && rule in RulesOf(fields, n, g, library)
    ensures i < n && BelongsTo(fields, i, g) && IsRule(fields[i])
    ensures rule == Rule(library.unquote(fields[i].value.value), LengthAt(fields, library, i),
                         fields[i].value.name == "allow" || LengthAt(fields, library, i) == 0)
  {
    if rule in RulesOf(fields, n - 1, g, library) {
      i := RuleIsALine(fields, n - 1, g, library, rule);
    } else {
      i := n - 1;
    }
  }

  lemma {:induction false} LineIsARule(fields: seq<Option<Field>>, n: nat, g: nat, library: Library, i: nat)
    requires i < n <= |fields| && BelongsTo(fields, i, g) && IsRule(fields[i])
    ensures Rule(library.unquote(fields[i].value.value), LengthAt(fields, library, i),
                 fields[i].value.name == "allow" || LengthAt(fields, library, i) == 0) in RulesOf(fields, n, g, library)
  {
    if i < n - 1 {
      LineIsARule(fields, n - 1, g, library, i);
    }
  }

  lemma ForbiddenIsRefused(fields: seq<Option<Field>>, g: nat, library: Library, target: string)
    requires Forbidden(fields, g, library, target)
    ensures Refused(RuleSet(RulesOf(fields, |fields|, g, library)), target)
  {
    var rules := RuleSet(RulesOf(fields, |fields|, g, library));
    var i: nat :| Hits(fields, g, "disallow", library, target, i) && LengthAt(fields, library, i) > 0
                  && forall j: nat | Hits(fields, g, "allow", library, target, j) ::
                       LengthAt(fields, library, j) < LengthAt(fields, library, i);
    LineIsARule(fields, |fields|, g, library, i);
    var d := Rule(library.unquote(fields[i].value.value), LengthAt(fields, library, i), false);
    forall a | a in rules && RuleMatches(a.path, target) && a.allowance ensures a.length < d.length {
      var j := RuleIsALine(fields, |fields|, g, library, a);
      if fields[j].value.name == "allow" {
        assert Hits(fields, g, "allow", library, target, j);
      }
    }
    assert d in rules;
  }

  lemma RefusedIsForbidden(fields: seq<Option<Field>>, g: nat, library: Library, target: string)
    requires Refused(RuleSet(RulesOf(fields, |fields|, g, library)), target)
    ensures Forbidden(fields, g, library, target)
  {
    var rules := RuleSet(RulesOf(fields, |fields|, g, library));
    var d :| d in rules && RuleMatches(d.path, target) && !d.allowance
             && forall a | a in rules :: RuleMatches(a.path, target) && a.allowance ==> a.length < d.length;
    var i := RuleIsALine(fields, |fields|, g, library, d);
    assert Hits(fields, g, "disallow", library, target, i);
    forall j: nat | Hits(fields, g, "allow", library, target, j)
      ensures LengthAt(fields, library, j) < LengthAt(fields, library, i)
    {
      LineIsARule(fields, |fields|, g, library, j);
      var a := Rule(library.unquote(fields[j].value.value), LengthAt(fields, library, j), true);
      assert a in rules;
    }
  }

  /** Section 2.2.2: what the lines of a group come to, told by the lines themselves. */
  lemma LinesDecide(fields: seq<Option<Field>>, g: nat, library: Library, target: string)
    ensures Allows(RulesOf(fields, |fields|, g, library), target) <==> !Forbidden(fields, g, library, target)
  {
    AllowsIffNotRefused(RulesOf(fields, |fields|, g, library), target);
    if Forbidden(fields, g, library, target) {
      ForbiddenIsRefused(fields, g, library, target);
    }
    if Refused(RuleSet(RulesOf(fields, |fields|, g, library)), target) {
      RefusedIsForbidden(fields, g, library, target);
    }
  }
}
