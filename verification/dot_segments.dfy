/** `_remove_dot_segments` against the buffer-rewriting loop of RFC 3986, section 5.2.4. */
module DotSegments {
  import opened Strings

  // ---------- The reference: section 5.2.4 of RFC 3986, rule by rule ----------

  /** Where the first path segment ends, its own leading slash included. */
  function SegmentEnd(input: string): (n: nat)
    requires input != ""
    ensures 1 <= n <= |input|
  {
    if |input| == 1 || input[1] == '/' then 1 else 1 + SegmentEnd(input[1..])
  }

  /** The output buffer without its last segment and the slash before it. */
  function DropLastSegment(output: string): string {
    if output == "" then ""
    else if output[|output| - 1] == '/' then output[..|output| - 1]
    else DropLastSegment(output[..|output| - 1])
  }

  /** The one of rules 2A to 2E that applies: the input and output buffers after it. */
  function ApplyRule(input: string, output: string): (buffers: (string, string))
    requires input != ""
    ensures |buffers.0| < |input|
  {
    if StartsWith(input, "../") then (input[3..], output)
    else if StartsWith(input, "./") then (input[2..], output)
    else if StartsWith(input, "/./") then ("/" + input[3..], output)
    else if input == "/." then ("/", output)
    else if StartsWith(input, "/../") then ("/" + input[4..], DropLastSegment(output))
    else if input == "/.." then ("/", DropLastSegment(output))
    else if input == "." || input == ".." then ("", output)
    else (input[SegmentEnd(input)..], output + input[..SegmentEnd(input)])
  }

  /** The loop: rules are applied until the input buffer is empty. */
  function Rewrite(input: string, output: string): string
    decreases |input|
  {
    if input == "" then output
    else
      var (input', output') := ApplyRule(input, output);
      Rewrite(input', output')
  }

  // ---------- The stack of segments ----------

  predicate IsDot(segment: string) {
    segment == "." || segment == ".."
  }

  ghost predicate NoDots(segments: seq<string>) {
    forall i | 0 <= i < |segments| :: !IsDot(segments[i])
  }

  /** What one segment does to the stack. */
  function Push(output: seq<string>, segment: string, last: bool): seq<string> {
    if !IsDot(segment) then output + [segment]
    else
      var popped := if segment == ".." && |output| > 1 then output[..|output| - 1] else output;
      if last then popped + [""] else popped
  }

  function ResolveFrom(segments: seq<string>, i: nat, output: seq<string>): seq<string>
    requires i <= |segments|
    decreases |segments| - i
  {
    if i == |segments| then output
    else ResolveFrom(segments, i + 1, Push(output, segments[i], i == |segments| - 1))
  }

  /** The path the stack spells out; a path that resolves to nothing is the root. */
  function Resolved(path: string): string {
    var joined := Join(ResolveFrom(Split(path, '/'), 0, []), '/');
    if joined == "" then "/" else joined
  }

  method RemoveDotSegments(path: string) returns (resolved: string)
    ensures resolved == Resolved(path)
    ensures StartsWith(path, "/") ==> resolved == Rewrite(path, "")
  {
    var segments := Split(path, '/');
    var output: seq<string> := [];
    for index := 0 to |segments|
      invariant ResolveFrom(segments, index, output) == ResolveFrom(segments, 0, [])
    {
      var segment := segments[index];
      if segment != "." && segment != ".." {
        output := output + [segment];
        continue;
      }
      if segment == ".." && |output| > 1 {
        output := output[..|output| - 1];
      }
      if index == |segments| - 1 {
        output := output + [""];
      }
    }
    resolved := Join(output, '/');
    if resolved == "" {
      resolved := "/";
    }
    if StartsWith(path, "/") {
      ResolvedIsRewrite(path);
    }
  }

  // ---------- The stack spells what the rewriting loop has written so far ----------

  /** Every segment with a slash in front. */
  function Flat(segments: seq<string>): string {
    if |segments| == 0 then "" else "/" + segments[0] + Flat(segments[1..])
  }

  lemma {:induction false} FlatAppend(segments: seq<string>, last: string)
    ensures Flat(segments + [last]) == Flat(segments) + "/" + last
  {
    if |segments| == 0 {
      assert Flat([]) == "";
      assert (segments + [last])[1..] == [];
    } else {
      FlatAppend(segments[1..], last);
      assert (segments + [last])[1..] == segments[1..] + [last];
    }
  }

  lemma {:induction false} JoinIsFlat(segments: seq<string>)
    requires |segments| >= 1 && segments[0] == ""
    ensures Join(segments, '/') == Flat(segments[1..])
  {
    if |segments| > 1 {
      JoinHeadIsFlat(segments[1..]);
      assert segments[0] + ['/'] == "/";
    }
  }

  lemma {:induction false} JoinHeadIsFlat(segments: seq<string>)
    requires |segments| >= 1
    ensures "/" + Join(segments, '/') == Flat(segments)
  {
    if |segments| > 1 {
      JoinHeadIsFlat(segments[1..]);
      assert segments[0] + ['/'] + Join(segments[1..], '/') == segments[0] + ("/" + Join(segments[1..], '/'));
    } else {
      assert Flat(segments[1..]) == "";
    }
  }

  lemma {:induction false} SegmentEndAt(slash: char, segment: string, rest: string)
    requires '/' !in segment && (rest == "" || rest[0] == '/')
    ensures SegmentEnd([slash] + segment + rest) == 1 + |segment|
    decreases segment
  {
    var input := [slash] + segment + rest;
    if segment != "" {
      SegmentEndAt(segment[0], segment[1..], rest);
      assert input[1..] == [segment[0]] + segment[1..] + rest;
    }
  }

  lemma {:induction false} DropLastAt(output: string, segment: string)
    requires '/' !in segment
    ensures DropLastSegment(output + "/" + segment) == output
  {
    var whole := output + "/" + segment;
    if segment == "" {
      assert whole[..|whole| - 1] == output;
    } else {
      var shorter := segment[..|segment| - 1];
      DropLastAt(output, shorter);
      assert whole[..|whole| - 1] == output + "/" + shorter;
    }
  }

  /** Popping the stack is dropping the last segment; the root stays when there is nothing to pop. */
  lemma {:induction false} PopIsDropLast(output: seq<string>)
    requires |output| >= 1 && AllFree(output, '/')
    ensures |output| > 1 ==> DropLastSegment(Flat(output[1..])) == Flat(output[1..|output| - 1])
    ensures |output| == 1 ==> DropLastSegment(Flat(output[1..])) == Flat(output[1..])
  {
    if |output| > 1 {
      var tail := output[1..|output| - 1];
      assert output[1..] == tail + [output[|output| - 1]];
      FlatAppend(tail, output[|output| - 1]);
      DropLastAt(Flat(tail), output[|output| - 1]);
    }
  }

  /** The rule that applies to an input starting with `/segment`. */
  lemma RuleAt(segment: string, rest: string, output: string)
    requires '/' !in segment && (rest == "" || rest[0] == '/')
    ensures ApplyRule("/" + segment + rest, output)
         == if segment == "." then (if rest == "" then "/" else rest, output)
            else if segment == ".." then (if rest == "" then "/" else rest, DropLastSegment(output))
            else (rest, output + "/" + segment)
  {
    var input := "/" + segment + rest;
    Absolute(input);
    OneSegment(segment, rest, ".");
    OneSegment(segment, rest, "..");
    if segment == "." {
      assert rest != "" ==> "/" + input[3..] == rest;
    } else if segment == ".." {
      assert rest != "" ==> "/" + input[4..] == rest;
    } else {
      SegmentEndAt('/', segment, rest);
      assert input[1 + |segment|..] == rest;
      assert output + input[..1 + |segment|] == output + "/" + segment;
    }
  }

  lemma RewriteRoot(output: string)
    ensures Rewrite("/", output) == output + "/"
  {
    RuleAt("", "", output);
    assert "/" + "" + "" == "/" && output + "/" + "" == output + "/";
  }

  /** Rules 2A and 2D never apply to an absolute input. */
  lemma Absolute(input: string)
    requires input != "" && input[0] == '/'
    ensures !StartsWith(input, "../") && !StartsWith(input, "./") && input != "." && input != ".."
  {
    assert |input| >= 3 ==> input[..3][0] == '/';
    assert |input| >= 2 ==> input[..2][0] == '/';
  }

  /** The rules for `/.` and `/..` test exactly whether the first segment is that one. */
  lemma OneSegment(segment: string, rest: string, dots: string)
    requires '/' !in segment && (rest == "" || rest[0] == '/')
    requires '/' !in dots
    ensures StartsWith("/" + segment + rest, "/" + dots + "/") <==> segment == dots && rest != ""
    ensures "/" + segment + rest == "/" + dots <==> segment == dots && rest == ""
  {
    var input := "/" + segment + rest;
    assert input[1..] == segment + rest;
    if segment == dots {
      assert rest != "" ==> input[..|dots| + 2] == "/" + dots + "/";
    }
    if StartsWith(input, "/" + dots + "/") {
      var after := input[|dots| + 2..];
      assert input == "/" + dots + "/" + after;
      assert input[1..] == dots + ("/" + after);
      SamePrefix(segment, rest, dots, "/" + after);
    }
    if input == "/" + dots {
      assert input[1..] == dots + "";
      SamePrefix(segment, rest, dots, "");
    }
  }

  lemma SamePrefix(segment: string, rest: string, other: string, rest': string)
    requires '/' !in segment && (rest == "" || rest[0] == '/')
    requires '/' !in other && (rest' == "" || rest'[0] == '/')
    requires segment + rest == other + rest'
    ensures segment == other && rest == rest'
  {
    var whole := segment + rest;
    assert rest != "" ==> whole[|segment|] == '/';
    assert rest' != "" ==> whole[|other|] == '/';
    assert forall i | 0 <= i < |segment| :: whole[i] == segment[i];
    assert forall i | 0 <= i < |other| :: whole[i] == other[i];
    assert |segment| == |other|;
    assert rest == whole[|segment|..];
  }

  /** What a segment does to the path the stack spells. */
  lemma PushSpells(output: seq<string>, segment: string, last: bool)
    requires |output| >= 1 && AllFree(output, '/') && '/' !in segment
    ensures var pushed, spelled := Push(output, segment, last), Flat(output[1..]);
            var popped := if segment == ".." then DropLastSegment(spelled) else spelled;
            && |pushed| >= 1 && pushed[0] == output[0] && AllFree(pushed, '/')
            && Flat(pushed[1..]) == if !IsDot(segment) then spelled + "/" + segment
                                    else if last then popped + "/" else popped
  {
    var pushed := Push(output, segment, last);
    PopIsDropLast(output);
    if !IsDot(segment) {
      FlatAppend(output[1..], segment);
      assert pushed[1..] == output[1..] + [segment];
    } else if last {
      var popped := if segment == ".." && |output| > 1 then output[..|output| - 1] else output;
      FlatAppend(popped[1..], "");
      assert pushed[1..] == popped[1..] + [""];
    }
  }

  lemma {:induction false} ResolveIsRewrite(segments: seq<string>, i: nat, output: seq<string>)
    requires i <= |segments| && AllFree(segments, '/')
    requires |output| >= 1 && AllFree(output, '/')
    ensures var stack := ResolveFrom(segments, i, output);
            && |stack| >= 1 && stack[0] == output[0]
            && Flat(stack[1..]) == Rewrite(Flat(segments[i..]), Flat(output[1..]))
    decreases |segments| - i
  {
    if i < |segments| {
      var segment, rest := segments[i], Flat(segments[i + 1..]);
      var pushed := Push(output, segment, i == |segments| - 1);
      assert segments[i..][1..] == segments[i + 1..];
      ResolveIsRewrite(segments, i + 1, pushed);
      RuleAt(segment, rest, Flat(output[1..]));
      PushSpells(output, segment, i == |segments| - 1);
      if IsDot(segment) && i == |segments| - 1 {
        RewriteRoot(if segment == "." then Flat(output[1..]) else DropLastSegment(Flat(output[1..])));
      }
    }
  }

  /** On every absolute path the code computes what the standard's loop computes. */
  lemma ResolvedIsRewrite(path: string)
    requires StartsWith(path, "/")
    ensures Resolved(path) == Rewrite(path, "")
  {
    var segments := Split(path, '/');
    SplitPiecesAreFree(path, '/');
    JoinOfSplit(path, '/');
    AbsoluteSplit(path);
    assert Push([], segments[0], false) == [""];
    ResolveIsRewrite(segments, 1, [""]);
    JoinIsFlat(segments);
    var stack := ResolveFrom(segments, 0, []);
    JoinIsFlat(stack);
    StackHasTail(segments, 1, [""]);
    assert stack[1..] != [];
  }

  lemma AbsoluteSplit(path: string)
    requires StartsWith(path, "/")
    ensures |Split(path, '/')| >= 2 && Split(path, '/')[0] == ""
  {
    assert path[0] == path[..1][0] == '/';
  }

  lemma {:induction false} StackHasTail(segments: seq<string>, i: nat, output: seq<string>)
    requires i < |segments| && |output| >= 1
    ensures |ResolveFrom(segments, i, output)| >= 2
    decreases |segments| - i
  {
    if i < |segments| - 1 {
      StackHasTail(segments, i + 1, Push(output, segments[i], false));
    } else {
      assert ResolveFrom(segments, |segments|, Push(output, segments[i], true)) == Push(output, segments[i], true);
    }
  }

  // ---------- No dot segment is left, and a second pass changes nothing ----------

  lemma {:induction false} StackHasNoDots(segments: seq<string>, i: nat, output: seq<string>)
    requires i <= |segments| && NoDots(output) && AllFree(output, '/') && AllFree(segments, '/')
    ensures NoDots(ResolveFrom(segments, i, output)) && AllFree(ResolveFrom(segments, i, output), '/')
    decreases |segments| - i
  {
    if i < |segments| {
      StackHasNoDots(segments, i + 1, Push(output, segments[i], i == |segments| - 1));
    }
  }

  lemma {:induction false} ResolveOfDotFree(segments: seq<string>, i: nat)
    requires i <= |segments| && NoDots(segments)
    ensures ResolveFrom(segments, i, segments[..i]) == segments
    decreases |segments| - i
  {
    if i < |segments| {
      ResolveOfDotFree(segments, i + 1);
      assert segments[..i] + [segments[i]] == segments[..i + 1];
    } else {
      assert segments[..i] == segments;
    }
  }

  /** The result is absolute, has no `.` or `..` segment, and resolving it again returns it. */
  lemma ResolvedIsClean(path: string)
    requires StartsWith(path, "/")
    ensures StartsWith(Resolved(path), "/")
    ensures NoDots(Split(Resolved(path), '/'))
    ensures Resolved(Resolved(path)) == Resolved(path)
  {
    var segments := Split(path, '/');
    var stack := ResolveFrom(segments, 0, []);
    SplitPiecesAreFree(path, '/');
    AbsoluteSplit(path);
    StackHasNoDots(segments, 0, []);
    assert Push([], segments[0], false) == [""];
    StackHasTail(segments, 1, [""]);
    ResolveIsRewrite(segments, 1, [""]);
    JoinIsFlat(stack);
    SplitOfJoin(stack, '/');
    ResolveOfDotFree(stack, 0);
    assert stack[..0] == [];
  }
}
