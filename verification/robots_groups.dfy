/** Reading robots.txt into groups (`_parse_groups`) and choosing one (`_select_group`); RFC 9309, section 2.2.1. */
module RobotsGroups {
  import opened Options
  import opened Strings
  import opened RobotsMatching

  datatype Group = Group(agents: seq<string>, rules: seq<Rule>, crawlDelay: Option<real>)

  /** Library calls on values: percent-decoding and `float()`. */
  datatype Library = Library(unquote: string -> string, parseFloat: string -> Option<real>)

  // ---------- One line ----------

  predicate IsSpace(c: char) {
    var n := c as int;
    9 <= n <= 13 || 28 <= n <= 32 || n == 133 || n == 160 || n == 5760 || 8192 <= n <= 8202
    || n == 8232 || n == 8233 || n == 8239 || n == 8287 || n == 12288
  }

  function StripLeft(s: string): string {
    if s != "" && IsSpace(s[0]) then StripLeft(s[1..]) else s
  }

  function StripRight(s: string): string {
    if s != "" && IsSpace(s[|s| - 1]) then StripRight(s[..|s| - 1]) else s
  }

  function Strip(s: string): string {
    StripRight(StripLeft(s))
  }

  function LowerChar(c: char): char {
    if 'A' <= c <= 'Z' then c - 'A' + 'a' else c
  }

  function Lower(s: string): string {
    seq(|s|, i requires 0 <= i < |s| => LowerChar(s[i]))
  }

  datatype Field = Field(name: string, value: string)

  /** `_parse_line`: the field name and value, or nothing without a colon before any comment. */
  function ParseLine(line: string): Option<Field> {
    var text := Split(line, '#')[0];
    var name := Split(text, ':')[0];
    if |name| < |text| then Some(Field(Lower(Strip(name)), Strip(text[|name| + 1..]))) else None
  }

  /** What the lines carry, line by line. */
  function Fields(lines: seq<string>): (fields: seq<Option<Field>>)
    ensures |fields| == |lines|
  {
    seq(|lines|, i requires 0 <= i < |lines| => ParseLine(lines[i]))
  }

  function Delay(value: string, library: Library): Option<real> {
    match library.parseFloat(value)
    case None => None
    case Some(delay) => if delay > 0.0 then Some(delay) else None
  }

  // ---------- The grouping, stated by counting runs of user-agent lines ----------

  predicate IsField(field: Option<Field>, name: string) {
    field.Some? && field.value.name == name
  }

  predicate IsRule(field: Option<Field>) {
    IsField(field, "allow") || IsField(field, "disallow")
  }

  /** The last field among the first `n` lines is a user-agent line. */
  predicate Naming(fields: seq<Option<Field>>, n: nat)
    requires n <= |fields|
  {
    n > 0 && if fields[n - 1].None? then Naming(fields, n - 1) else IsField(fields[n - 1], "user-agent")
  }

  /** A user-agent line opens a run unless the field before it is one too. */
  predicate OpensRun(fields: seq<Option<Field>>, i: nat)
    requires i < |fields|
  {
    IsField(fields[i], "user-agent") && !Naming(fields, i)
  }

  /** How many runs of user-agent lines begin among the first `n` lines. */
  function Runs(fields: seq<Option<Field>>, n: nat): nat
    requires n <= |fields|
  {
    if n == 0 then 0 else Runs(fields, n - 1) + if OpensRun(fields, n - 1) then 1 else 0
  }

  /** Line `i` belongs to group `g`: the latest run begun by then is the one numbered `g`. */
  predicate BelongsTo(fields: seq<Option<Field>>, i: nat, g: nat)
    requires i < |fields|
  {
    Runs(fields, i + 1) == g + 1
  }

  function AgentsOf(fields: seq<Option<Field>>, n: nat, g: nat): seq<string>
    requires n <= |fields|
  {
    if n == 0 then []
    else AgentsOf(fields, n - 1, g)
         + if BelongsTo(fields, n - 1, g) && IsField(fields[n - 1], "user-agent")
           then [Lower(fields[n - 1].value.value)] else []
  }

  function RulesOf(fields: seq<Option<Field>>, n: nat, g: nat, library: Library): seq<Rule>
    requires n <= |fields|
  {
    if n == 0 then []
    else RulesOf(fields, n - 1, g, library)
         + if BelongsTo(fields, n - 1, g) && IsRule(fields[n - 1])
           then [MakeRule(fields[n - 1].value.name, library.unquote(fields[n - 1].value.value))] else []
  }

  function DelayOf(fields: seq<Option<Field>>, n: nat, g: nat, library: Library): Option<real>
    requires n <= |fields|
  {
    if n == 0 then None
    else if BelongsTo(fields, n - 1, g) && IsField(fields[n - 1], "crawl-delay")
            && Delay(fields[n - 1].value.value, library).Some?
    then Delay(fields[n - 1].value.value, library)
    else DelayOf(fields, n - 1, g, library)
  }

  function GroupOf(fields: seq<Option<Field>>, n: nat, g: nat, library: Library): Group
    requires n <= |fields|
  {
    Group(AgentsOf(fields, n, g), RulesOf(fields, n, g, library), DelayOf(fields, n, g, library))
  }

  /** The groups of a whole file. */
  function GroupsOf(fields: seq<Option<Field>>, library: Library): seq<Group> {
    seq(Runs(fields, |fields|), g requires 0 <= g => GroupOf(fields, |fields|, g, library))
  }

  /** A line's group is the one opened by the nearest run of user-agent lines before it. */
  lemma {:induction false} NearestRun(fields: seq<Option<Field>>, i: nat, g: nat) returns (start: nat)
    requires i < |fields| && BelongsTo(fields, i, g)
    ensures start <= i && OpensRun(fields, start) && BelongsTo(fields, start, g)
    ensures forall j | start < j <= i :: !OpensRun(fields, j)
    decreases i
  {
    if OpensRun(fields, i) {
      start := i;
    } else {
      assert Runs(fields, i) > 0 && i > 0;
      start := NearestRun(fields, i - 1, g);
    }
  }

  // ---------- The loop over the lines ----------

  datatype Reading = Reading(groups: seq<Group>, namingAgents: bool)

  const START := Reading([], false)

  predicate Sound(r: Reading) {
    r.namingAgents ==> |r.groups| > 0
  }

  /** What one line does to the groups read so far. */
  function Read(r: Reading, field: Option<Field>, library: Library): (next: Reading)
    requires Sound(r)
    ensures Sound(next)
  {
    if field.None? then r
    else if field.value.name == "user-agent" then
      var groups := if r.namingAgents then r.groups else r.groups + [Group([], [], None)];
      var last := groups[|groups| - 1];
      Reading(groups[|groups| - 1 := last.(agents := last.agents + [Lower(field.value.value)])], true)
    else if |r.groups| == 0 then Reading([], false)
    else Reading(r.groups[|r.groups| - 1 := AddField(r.groups[|r.groups| - 1], field.value, library)], false)
  }

  function AddField(group: Group, field: Field, library: Library): Group {
    if field.name == "allow" || field.name == "disallow" then
      group.(rules := group.rules + [MakeRule(field.name, library.unquote(field.value))])
    else if field.name == "crawl-delay" && Delay(field.value, library).Some? then
      group.(crawlDelay := Delay(field.value, library))
    else group
  }

  ghost predicate SplitsByRuns(r: Reading, fields: seq<Option<Field>>, n: nat, library: Library)
    requires n <= |fields|
  {
    && |r.groups| == Runs(fields, n) && r.namingAgents == Naming(fields, n)
    && forall g | 0 <= g < |r.groups| :: r.groups[g] == GroupOf(fields, n, g, library)
  }

  lemma {:induction false} FutureGroupsAreEmpty(fields: seq<Option<Field>>, n: nat, g: nat, library: Library)
    requires n <= |fields| && Runs(fields, n) <= g
    ensures GroupOf(fields, n, g, library) == Group([], [], None)
  {
    if n > 0 { FutureGroupsAreEmpty(fields, n - 1, g, library); }
  }

  lemma OneMoreLine(r: Reading, fields: seq<Option<Field>>, n: nat, library: Library)
    requires n < |fields| && Sound(r) && SplitsByRuns(r, fields, n, library)
    ensures SplitsByRuns(Read(r, fields[n], library), fields, n + 1, library)
  {
    var next := Read(r, fields[n], library);
    FutureGroupsAreEmpty(fields, n, Runs(fields, n), library);
    forall g | 0 <= g < |next.groups| ensures next.groups[g] == GroupOf(fields, n + 1, g, library) {
      if g < |next.groups| - 1 || fields[n].None? {
        assert next.groups[g] == r.groups[g];
      }
    }
  }

  /** The loop body: a user-agent line names an agent, any other field ends the run and joins the last group. */
  method AddLine(groups: seq<Group>, namingAgents: bool, parsed: Option<Field>, library: Library)
    returns (groups': seq<Group>, namingAgents': bool)
    requires Sound(Reading(groups, namingAgents))
    ensures Reading(groups', namingAgents') == Read(Reading(groups, namingAgents), parsed, library)
  {
    groups', namingAgents' := groups, namingAgents;
    if parsed.None? {
      return;
    }
    var Field(name, value) := parsed.value;
    if name == "user-agent" {
      if !namingAgents {
        groups' := groups' + [Group([], [], None)];
      }
      var last := groups'[|groups'| - 1];
      groups' := groups'[|groups'| - 1 := last.(agents := last.agents + [Lower(value)])];
      namingAgents' := true;
      return;
    }
    namingAgents' := false;
    if |groups| == 0 {
      return;
    }
    var last := groups[|groups| - 1];
    if name == "allow" || name == "disallow" {
      last := last.(rules := last.rules + [MakeRule(name, library.unquote(value))]);
    } else if name == "crawl-delay" {
      var delay := Delay(value, library);
      if delay.Some? {
        last := last.(crawlDelay := delay);
      }
    }
    groups' := groups[|groups| - 1 := last];
  }

  method ParseGroups(lines: seq<string>, library: Library) returns (groups: seq<Group>)
    ensures groups == GroupsOf(Fields(lines), library)
  {
    ghost var fields := Fields(lines);
    groups := [];
    var namingAgents := false;
    for i := 0 to |lines|
      invariant Sound(Reading(groups, namingAgents))
      invariant SplitsByRuns(Reading(groups, namingAgents), fields, i, library)
    {
      var parsed := ParseLine(lines[i]);
      assert parsed == fields[i];
      OneMoreLine(Reading(groups, namingAgents), fields, i, library);
      groups, namingAgents := AddLine(groups, namingAgents, parsed, library);
    }
  }

  // ---------- Printing and reading back ----------

  datatype Record = Record(agents: seq<string>, entries: seq<Field>)

  /** A value that survives being written after a colon. */
  predicate Clean(s: string) {
    '#' !in s && (s != "" ==> !IsSpace(s[0]) && !IsSpace(s[|s| - 1]))
  }

  predicate CleanName(name: string) {
    Clean(name) && ':' !in name && Lower(name) == name
  }

  predicate IsEntry(entry: Field) {
    entry.name == "allow" || entry.name == "disallow" || entry.name == "crawl-delay"
  }

  predicate Printable(record: Record) {
    && |record.agents| > 0 && |record.entries| > 0
    && (forall a | a in record.agents :: Clean(a) && Lower(a) == a)
    && (forall e | e in record.entries :: Clean(e.value) && IsEntry(e))
  }

  function Line(field: Field): string {
    field.name + ": " + field.value
  }

  /** A record's fields in the order they are written: its agents, then its entries. */
  function RecordFields(record: Record): seq<Field> {
    seq(|record.agents|, i requires 0 <= i < |record.agents| => Field("user-agent", record.agents[i])) + record.entries
  }

  function AllFields(records: seq<Record>): seq<Field> {
    if |records| == 0 then [] else RecordFields(records[0]) + AllFields(records[1..])
  }

  function Print(records: seq<Record>): seq<string> {
    var fields := AllFields(records);
    seq(|fields|, i requires 0 <= i < |fields| => Line(fields[i]))
  }

  function AddFields(group: Group, fields: seq<Field>, library: Library): Group
    decreases |fields|
  {
    if |fields| == 0 then group else AddFields(AddField(group, fields[0], library), fields[1..], library)
  }

  /** The group a record stands for. */
  function Meaning(record: Record, library: Library): Group {
    AddFields(Group(record.agents, [], None), record.entries, library)
  }

  function Meanings(records: seq<Record>, library: Library): seq<Group> {
    seq(|records|, i requires 0 <= i < |records| => Meaning(records[i], library))
  }

  lemma StripOfClean(s: string)
    requires Clean(s)
    ensures Strip(s) == s && Strip(" " + s) == s
  {
    assert (" " + s)[1..] == s;
    assert StripLeft(" " + s) == StripLeft(s) == s;
  }

  lemma FirstPiece(p: string, rest: string, sep: char)
    requires sep !in p
    ensures Split(p, sep)[0] == p && Split(p + [sep] + rest, sep)[0] == p
  {
    SplitAtFirst(p, rest, sep);
  }

  lemma LineParts(field: Field)
    requires CleanName(field.name) && Clean(field.value)
    ensures Line(field) == field.name + [':'] + (" " + field.value)
    ensures '#' !in Line(field)
  {
  }

  lemma LineParses(field: Field)
    requires CleanName(field.name) && Clean(field.value)
    ensures ParseLine(Line(field)) == Some(field)
  {
    var line, after := Line(field), " " + field.value;
    LineParts(field);
    FirstPiece(line, "", '#');
    FirstPiece(field.name, after, ':');
    assert line[|field.name| + 1..] == after;
    StripOfClean(field.name);
    StripOfClean(field.value);
  }

  lemma NameIsClean(name: string)
    requires name != "" && forall i | 0 <= i < |name| :: 'a' <= name[i] <= 'z' || name[i] == '-'
    ensures CleanName(name)
  {
  }

  lemma NamesAreClean()
    ensures CleanName("user-agent") && CleanName("allow") && CleanName("disallow") && CleanName("crawl-delay")
  {
    NameIsClean("user-agent");
    NameIsClean("allow");
    NameIsClean("disallow");
    NameIsClean("crawl-delay");
  }

  function Present(fields: seq<Field>): seq<Option<Field>> {
    seq(|fields|, i requires 0 <= i < |fields| => Some(fields[i]))
  }

  lemma {:induction false} AllFieldsAreClean(records: seq<Record>)
    requires forall i | 0 <= i < |records| :: Printable(records[i])
    ensures forall f | f in AllFields(records) :: CleanName(f.name) && Clean(f.value)
  {
    if |records| > 0 {
      AllFieldsAreClean(records[1..]);
      NamesAreClean();
    }
  }

  lemma LinesParse(fields: seq<Field>, lines: seq<string>)
    requires |lines| == |fields| && forall i | 0 <= i < |lines| :: lines[i] == Line(fields[i])
    requires forall f | f in fields :: CleanName(f.name) && Clean(f.value)
    ensures Fields(lines) == Present(fields)
  {
    forall i | 0 <= i < |fields| ensures Fields(lines)[i] == Some(fields[i]) {
      assert fields[i] in fields;
      LineParses(fields[i]);
    }
  }

  function ReadAll(r: Reading, fields: seq<Field>, library: Library): (next: Reading)
    requires Sound(r)
    ensures Sound(next)
    decreases |fields|
  {
    if |fields| == 0 then r else ReadAll(Read(r, Some(fields[0]), library), fields[1..], library)
  }

  lemma {:induction false} ReadAppend(r: Reading, a: seq<Field>, b: seq<Field>, library: Library)
    requires Sound(r)
    ensures ReadAll(r, a + b, library) == ReadAll(ReadAll(r, a, library), b, library)
    decreases |a|
  {
    if |a| == 0 {
      assert a + b == b;
    } else {
      ReadAppend(Read(r, Some(a[0]), library), a[1..], b, library);
      assert (a + b)[1..] == a[1..] + b;
    }
  }

  /** Reading one line after another is the grouping by runs. */
  lemma {:induction false} ReadAllIsGroupsOf(fields: seq<Field>, n: nat, r: Reading, library: Library)
    requires n <= |fields| && Sound(r) && SplitsByRuns(r, Present(fields), n, library)
    ensures ReadAll(r, fields[n..], library).groups == GroupsOf(Present(fields), library)
    decreases |fields| - n
  {
    if n < |fields| {
      OneMoreLine(r, Present(fields), n, library);
      ReadAllIsGroupsOf(fields, n + 1, Read(r, Some(fields[n]), library), library);
      assert fields[n..][1..] == fields[n + 1..];
    }
  }

  function AgentFields(agents: seq<string>): seq<Field> {
    seq(|agents|, i requires 0 <= i < |agents| => Field("user-agent", agents[i]))
  }

  lemma {:induction false} ReadAgents(done: seq<Group>, group: Group, agents: seq<string>, library: Library)
    requires forall a | a in agents :: Lower(a) == a
    ensures ReadAll(Reading(done + [group], true), AgentFields(agents), library)
         == Reading(done + [group.(agents := group.agents + agents)], true)
    decreases |agents|
  {
    if |agents| == 0 {
      assert group.agents + agents == group.agents;
    } else {
      var next := group.(agents := group.agents + [agents[0]]);
      assert Lower(agents[0]) == agents[0];
      assert (done + [group])[|done| := next] == done + [next];
      assert AgentFields(agents)[1..] == AgentFields(agents[1..]);
      ReadAgents(done, next, agents[1..], library);
      assert next.agents + agents[1..] == group.agents + agents;
    }
  }

  lemma {:induction false} ReadEntries(done: seq<Group>, group: Group, naming: bool, entries: seq<Field>,
                                       library: Library)
    requires forall e | e in entries :: IsEntry(e)
    ensures ReadAll(Reading(done + [group], naming), entries, library)
         == Reading(done + [AddFields(group, entries, library)], naming && |entries| == 0)
    decreases |entries|
  {
    if |entries| > 0 {
      var next := AddField(group, entries[0], library);
      assert (done + [group])[|done| := next] == done + [next];
      assert IsEntry(entries[0]);
      ReadEntries(done, next, false, entries[1..], library);
    }
  }

  lemma ReadRecord(done: seq<Group>, record: Record, library: Library)
    requires Printable(record)
    ensures ReadAll(Reading(done, false), RecordFields(record), library)
         == Reading(done + [Meaning(record, library)], false)
  {
    var agents := AgentFields(record.agents);
    OpenGroup(done, record.agents, library);
    ReadAppend(Reading(done, false), agents, record.entries, library);
    assert RecordFields(record) == agents + record.entries;
    ReadEntries(done, Group(record.agents, [], None), true, record.entries, library);
  }

  /** A run of agents after anything else opens one group. */
  lemma OpenGroup(done: seq<Group>, agents: seq<string>, library: Library)
    requires |agents| > 0 && forall a | a in agents :: Lower(a) == a
    ensures ReadAll(Reading(done, false), AgentFields(agents), library)
         == Reading(done + [Group(agents, [], None)], true)
  {
    var first := Group([agents[0]], [], None);
    assert Lower(agents[0]) == agents[0];
    assert (done + [Group([], [], None)])[|done| := first] == done + [first];
    assert AgentFields(agents)[1..] == AgentFields(agents[1..]);
    assert [] + [agents[0]] == [agents[0]];
    assert Read(Reading(done, false), Some(AgentFields(agents)[0]), library) == Reading(done + [first], true);
    ReadAgents(done, first, agents[1..], library);
    assert first.agents + agents[1..] == agents;
  }

  lemma {:induction false} ReadRecords(done: seq<Group>, records: seq<Record>, library: Library)
    requires forall i | 0 <= i < |records| :: Printable(records[i])
    ensures ReadAll(Reading(done, false), AllFields(records), library)
         == Reading(done + Meanings(records, library), false)
    decreases |records|
  {
    if |records| == 0 {
      assert done + Meanings(records, library) == done;
    } else {
      var next := done + [Meaning(records[0], library)];
      ReadAppend(Reading(done, false), RecordFields(records[0]), AllFields(records[1..]), library);
      ReadRecord(done, records[0], library);
      ReadRecords(next, records[1..], library);
      assert next + Meanings(records[1..], library) == done + Meanings(records, library);
    }
  }

  /** Reading what was printed gives the groups that were meant. */
  lemma PrintThenRead(records: seq<Record>, library: Library)
    requires forall i | 0 <= i < |records| :: Printable(records[i])
    ensures GroupsOf(Fields(Print(records)), library) == Meanings(records, library)
  {
    var fields := AllFields(records);
    AllFieldsAreClean(records);
    LinesParse(fields, Print(records));
    ReadAllIsGroupsOf(fields, 0, START, library);
    ReadRecords([], records, library);
    assert fields[0..] == fields && [] + Meanings(records, library) == Meanings(records, library);
  }

  // ---------- Choosing a group ----------

  predicate TokenMatch(agent: string, token: string) {
    agent != "*" && agent != "" && agent <= token
  }

  function Token(userAgent: string): string {
    Lower(Strip(Split(userAgent, '/')[0]))
  }

  ghost predicate Covers(group: Group, token: string, n: nat) {
    exists i :: 0 <= i < |group.agents| && TokenMatch(group.agents[i], token) && |group.agents[i]| == n
  }

  /** No agent of `group` matches with more than `n` characters. */
  ghost predicate AtMost(group: Group, token: string, n: nat) {
    forall i | 0 <= i < |group.agents| :: TokenMatch(group.agents[i], token) ==> |group.agents[i]| <= n
  }

  /** Group `b` has the longest matching agent, of `n` characters, and no earlier group has one as long. */
  ghost predicate IsBest(groups: seq<Group>, token: string, b: nat, n: nat) {
    IsLongest(groups, token, b, n) && forall g | 0 <= g < |groups| :: AtMost(groups[g], token, n)
  }

  ghost predicate IsLongest(groups: seq<Group>, token: string, b: nat, n: nat) {
    b < |groups| && n > 0 && Covers(groups[b], token, n) && forall g | 0 <= g < b :: AtMost(groups[g], token, n - 1)
  }

  ghost predicate IsFirstWildcard(groups: seq<Group>, w: nat) {
    w < |groups| && "*" in groups[w].agents && forall g | 0 <= g < w :: "*" !in groups[g].agents
  }

  /** The earliest group with the longest matching agent, else the first `*` group, else none. */
  ghost predicate Chosen(groups: seq<Group>, token: string, choice: Option<Group>) {
    if exists b: nat, n: nat :: IsBest(groups, token, b, n) then
      exists b: nat, n: nat :: IsBest(groups, token, b, n) && choice == Some(groups[b])
    else if exists w: nat :: IsFirstWildcard(groups, w) then
      exists w: nat :: IsFirstWildcard(groups, w) && choice == Some(groups[w])
    else choice == None
  }

  method SelectGroup(groups: seq<Group>, userAgent: string) returns (choice: Option<Group>)
    ensures Chosen(groups, Token(userAgent), choice)
  {
    var token := Token(userAgent);
    var best: Option<Group>, bestLength: nat, wildcard: Option<Group> := None, 0, None;
    ghost var b, w := 0, 0;
    for g := 0 to |groups|
      invariant best.None? ==> bestLength == 0
      invariant best.Some? ==> b < g && best.value == groups[b] && IsLongest(groups, token, b, bestLength)
      invariant forall h | 0 <= h < g :: AtMost(groups[h], token, bestLength)
      invariant wildcard.Some? ==> IsFirstWildcard(groups, w) && wildcard.value == groups[w]
      invariant wildcard.None? ==> forall h | 0 <= h < g :: "*" !in groups[h].agents
    {
      var group := groups[g];
      ghost var previous := bestLength;
      for i := 0 to |group.agents|
        invariant bestLength == previous
                  || (bestLength > previous && best == Some(group) && Covers(group, token, bestLength))
        invariant bestLength == previous ==> best.None? || (b < g && best.value == groups[b])
        invariant best.None? ==> bestLength == 0
        invariant bestLength == previous && best.Some? ==> IsLongest(groups, token, b, bestLength)
        invariant forall j | 0 <= j < i :: TokenMatch(group.agents[j], token) ==> |group.agents[j]| <= bestLength
        invariant wildcard.Some? ==> IsFirstWildcard(groups, w) && wildcard.value == groups[w]
        invariant wildcard.None? ==> (forall h | 0 <= h < g :: "*" !in groups[h].agents)
                                     && forall j | 0 <= j < i :: group.agents[j] != "*"
      {
        var agent := group.agents[i];
        if agent == "*" {
          if wildcard.None? {
            wildcard := Some(group);
            w := g;
          }
        } else if agent != "" && StartsWith(token, agent) && |agent| > bestLength {
          best, bestLength := Some(group), |agent|;
        }
      }
      if bestLength > previous {
        b := g;
      }
    }
    choice := if best.Some? then best else wildcard;
    assert best.Some? ==> IsBest(groups, token, b, bestLength);
    assert best.None? ==> forall g | 0 <= g < |groups| :: AtMost(groups[g], token, 0);
  }

  /** The choice is determined: there is one best group, and one first `*` group. */
  lemma ChoiceIsUnique(groups: seq<Group>, token: string, c1: Option<Group>, c2: Option<Group>)
    requires Chosen(groups, token, c1) && Chosen(groups, token, c2)
    ensures c1 == c2
  {
  }
}
