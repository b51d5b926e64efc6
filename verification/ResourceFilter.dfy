/** The rules that say which kinds of resources the cluster cache includes. */
module ResourceFilter {
  import opened Text

  datatype ResourceType = ResourceType(group: string, kind: string)

  /** Panicked is the index out of range on a half rule that has no value. */
  datatype Parsed = Rules(list: seq<ResourceType>) | Malformed | Panicked

  /** Simple case folding, as far as the letters of "group" and "kind" go; the last case is
      the Kelvin sign. */
  function Fold(c: char): char {
    if 'A' <= c <= 'Z' then ((c as int) + 32) as char
    else if c == '\U{212A}' then 'k'
    else c
  }

  predicate EqualFold(a: string, b: string) {
    |a| == |b| && forall i :: 0 <= i < |a| ==> Fold(a[i]) == Fold(b[i])
  }

  /** What becomes of one rule. */
  datatype Verdict = Good(resource: ResourceType) | Bad | Crash

  function Judge(rule: string): Verdict {
    var halves := Split(rule, ',');
    if |halves| != 2 then Bad
    else
      var groupArr, kindArr := Split(halves[0], '='), Split(halves[1], '=');
      if !EqualFold(groupArr[0], "group") || !EqualFold(kindArr[0], "kind") then Bad
      else if |groupArr| < 2 || |kindArr| < 2 then Crash
      else Good(ResourceType(groupArr[1], kindArr[1]))
  }

  function ParseRules(rules: seq<string>): Parsed {
    if rules == [] then Rules([])
    else match Judge(rules[0])
      case Bad => Malformed
      case Crash => Panicked
      case Good(r) => Prepend([r], ParseRules(rules[1..]))
  }

  function Prepend(front: seq<ResourceType>, p: Parsed): Parsed {
    match p
    case Rules(list) => Rules(front + list)
    case _ => p
  }

  function Parse(rules: string): Parsed {
    if rules == "" then Rules([]) else ParseRules(Split(rules, ';'))
  }

  /** The parser's loop: it stops at the first rule that is not good. */
  method ParseResourceFilter(rules: string) returns (parsed: Parsed)
    ensures parsed == Parse(rules)
  {
    if rules == "" {
      return Rules([]);
    }
    var rulesArr, filteredResources := Split(rules, ';'), [];
    for i := 0 to |rulesArr|
      invariant Parse(rules) == Prepend(filteredResources, ParseRules(rulesArr[i..]))
    {
      var halves := Split(rulesArr[i], ',');
      if |halves| != 2 {
        return Malformed;
      }
      var groupArr, kindArr := Split(halves[0], '='), Split(halves[1], '=');
      if !EqualFold(groupArr[0], "group") || !EqualFold(kindArr[0], "kind") {
        return Malformed;
      }
      if |groupArr| < 2 || |kindArr| < 2 {
        return Panicked;
      }
      var r := ResourceType(groupArr[1], kindArr[1]);
      PrependTwice(filteredResources, [r], ParseRules(rulesArr[i + 1..]));
      filteredResources := filteredResources + [r];
    }
    parsed := Rules(filteredResources);
  }

  lemma PrependTwice(front: seq<ResourceType>, back: seq<ResourceType>, p: Parsed)
    ensures Prepend(front, Prepend(back, p)) == Prepend(front + back, p)
  {
    if p.Rules? {
      assert front + (back + p.list) == (front + back) + p.list;
    }
  }

  // ----- When it fails -----

  /** The first rule that is not good meets p. */
  ghost predicate FirstFailure(rules: seq<string>, p: Verdict -> bool) {
    exists i :: 0 <= i < |rules| && p(Judge(rules[i])) && forall j :: 0 <= j < i ==> Judge(rules[j]).Good?
  }

  predicate IsBad(v: Verdict) {
    v.Bad?
  }

  predicate IsCrash(v: Verdict) {
    v.Crash?
  }

  /** Exactly when parsing succeeds, when it reports an error, and when it panics: the first
      rule that is not good decides. */
  lemma {:induction false} ParseRulesOutcome(rules: seq<string>)
    ensures ParseRules(rules).Rules? <==> forall i :: 0 <= i < |rules| ==> Judge(rules[i]).Good?
    ensures ParseRules(rules).Malformed? <==> FirstFailure(rules, IsBad)
    ensures ParseRules(rules).Panicked? <==> FirstFailure(rules, IsCrash)
  {
    if rules != [] {
      var rest := rules[1..];
      ParseRulesOutcome(rest);
      assert rules == [rules[0]] + rest;
      if Judge(rules[0]).Good? {
        FirstShifts(rules, IsBad);
        FirstShifts(rules, IsCrash);
      }
    }
  }

  lemma FirstShifts(rules: seq<string>, p: Verdict -> bool)
    requires rules != [] && Judge(rules[0]).Good? && !p(Judge(rules[0]))
    ensures FirstFailure(rules, p) <==> FirstFailure(rules[1..], p)
  {
    var rest := rules[1..];
    if FirstFailure(rest, p) {
      var i :| 0 <= i < |rest| && p(Judge(rest[i])) && forall j :: 0 <= j < i ==> Judge(rest[j]).Good?;
      forall j | 0 <= j < i + 1 ensures Judge(rules[j]).Good? {
        if j > 0 {
          assert rules[j] == rest[j - 1];
        }
      }
      assert p(Judge(rules[i + 1]));
    }
    if FirstFailure(rules, p) {
      var i :| 0 <= i < |rules| && p(Judge(rules[i])) && forall j :: 0 <= j < i ==> Judge(rules[j]).Good?;
      assert p(Judge(rest[i - 1]));
      forall j | 0 <= j < i - 1 ensures Judge(rest[j]).Good? {
        assert rest[j] == rules[j + 1];
      }
    }
  }

  // ----- Round trip -----

  /** Free of the three separators. */
  predicate CleanText(t: string) {
    ';' !in t && ',' !in t && '=' !in t
  }

  predicate Clean(r: ResourceType) {
    CleanText(r.group) && CleanText(r.kind)
  }

  function Print(r: ResourceType): string {
    "group=" + r.group + ",kind=" + r.kind
  }

  function PrintEach(list: seq<ResourceType>): (ts: seq<string>)
    ensures |ts| == |list|
  {
    if list == [] then [] else [Print(list[0])] + PrintEach(list[1..])
  }

  function PrintAll(list: seq<ResourceType>): string {
    if list == [] then "" else Join(PrintEach(list), ';')
  }

  lemma SplitPair(name: string, value: string, sep: char)
    requires sep !in name && sep !in value
    ensures Split(name + [sep] + value, sep) == [name, value]
  {
    SplitAppend(name, value, sep);
    SplitClean(name, sep);
    SplitClean(value, sep);
  }

  lemma JudgePrint(r: ResourceType)
    requires Clean(r)
    ensures Judge(Print(r)) == Good(r) && ';' !in Print(r)
  {
    SplitRule("group", r.group, "kind", r.kind);
    assert Print(r) == ("group" + ['='] + r.group) + [','] + ("kind" + ['='] + r.kind);
  }

  lemma SplitRule(name: string, value: string, name': string, value': string)
    requires CleanText(name) && CleanText(value) && CleanText(name') && CleanText(value')
    ensures var half, half' := name + ['='] + value, name' + ['='] + value';
      && Split(half + [','] + half', ',') == [half, half'] && ';' !in half + [','] + half'
      && Split(half, '=') == [name, value] && Split(half', '=') == [name', value']
  {
    SplitPair(name + ['='] + value, name' + ['='] + value', ',');
    SplitPair(name, value, '=');
    SplitPair(name', value', '=');
  }

  lemma {:induction false} ParsePrintEach(list: seq<ResourceType>)
    requires forall r | r in list :: Clean(r)
    ensures ParseRules(PrintEach(list)) == Rules(list)
    ensures forall t | t in PrintEach(list) :: ';' !in t
  {
    if list != [] {
      JudgePrint(list[0]);
      ParsePrintEach(list[1..]);
      assert PrintEach(list)[1..] == PrintEach(list[1..]);
      assert [list[0]] + list[1..] == list;
    }
  }

  /** Parsing printed rules gives the rules back, for groups and kinds free of separators. */
  lemma ParsePrint(list: seq<ResourceType>)
    requires forall r | r in list :: Clean(r)
    ensures Parse(PrintAll(list)) == Rules(list)
  {
    if list != [] {
      ParsePrintEach(list);
      SplitJoin(PrintEach(list), ';');
      JudgePrint(list[0]);
      assert PrintAll(list) != "";
    }
  }

  // ----- What counts as a rule -----

  /** The letter, small or capital; the Kelvin sign is a capital k too. */
  predicate Letter(c: char, small: char) {
    c == small || c as int + 32 == small as int || (small == 'k' && c == '\U{212A}')
  }

  predicate Variant(s: string, word: string) {
    |s| == |word| && forall i :: 0 <= i < |s| ==> Letter(s[i], word[i])
  }

  lemma EqualFoldIff(s: string, word: string)
    requires forall c | c in word :: 'a' <= c <= 'z'
    ensures EqualFold(s, word) <==> Variant(s, word)
  {
    forall i | 0 <= i < |word| ensures 'a' <= word[i] <= 'z' {
      assert word[i] in word;
    }
  }

  /** A rule of two halves is good exactly when the names are "group" and "kind", in capitals
      or not; then it means what its halves say. */
  lemma JudgeTwoHalves(name: string, value: string, name': string, value': string)
    requires CleanText(name) && CleanText(value) && CleanText(name') && CleanText(value')
    ensures Judge((name + ['='] + value) + [','] + (name' + ['='] + value'))
            == if Variant(name, "group") && Variant(name', "kind") then Good(ResourceType(value, value')) else Bad
  {
    SplitRule(name, value, name', value');
    EqualFoldIff(name, "group");
    EqualFoldIff(name', "kind");
  }

  lemma SplitHalf(name: string, value: Option<string>)
    requires CleanText(name) && (value.Some? ==> CleanText(value.value))
    ensures var half := HalfOf(name, value);
      && ',' !in half
      && Split(half, '=') == if value.Some? then [name, value.value] else [name]
  {
    if value.Some? {
      SplitPair(name, value.value, '=');
    } else {
      SplitClean(name, '=');
    }
  }

  /** A half rule, with or without a value. */
  function HalfOf(name: string, value: Option<string>): string {
    if value.Some? then name + ['='] + value.value else name
  }

  /** Without a value in either half it panics, unless a name is wrong. */
  lemma JudgeMissingValue(name: string, value: Option<string>, name': string, value': Option<string>)
    requires CleanText(name) && (value.Some? ==> CleanText(value.value))
    requires CleanText(name') && (value'.Some? ==> CleanText(value'.value))
    requires value.None? || value'.None?
    ensures Judge(HalfOf(name, value) + [','] + HalfOf(name', value'))
            == if Variant(name, "group") && Variant(name', "kind") then Crash else Bad
  {
    SplitHalf(name, value);
    SplitHalf(name', value');
    SplitPair(HalfOf(name, value), HalfOf(name', value'), ',');
    EqualFoldIff(name, "group");
    EqualFoldIff(name', "kind");
  }

  /** One part, or more than two, is never a rule. */
  lemma JudgeOtherParts(parts: seq<string>)
    requires parts != [] && |parts| != 2 && forall p | p in parts :: ',' !in p
    ensures Judge(Join(parts, ',')).Bad?
  {
    SplitJoin(parts, ',');
  }

  // ----- What a filter excludes -----

  predicate Includes(r: ResourceType, group: string, kind: string) {
    group == r.group && (r.kind == "" || kind == r.kind)
  }

  ghost predicate Excluded(rules: seq<ResourceType>, group: string, kind: string) {
    forall r :: r in rules ==> !Includes(r, group, kind)
  }

  /** A resource is excluded unless some rule includes it. */
  method IsExcludedResource(rules: seq<ResourceType>, group: string, kind: string) returns (excluded: bool)
    ensures excluded <==> Excluded(rules, group, kind)
    ensures excluded <==> ResourceType(group, kind) !in rules && ResourceType(group, "") !in rules
  {
    for i := 0 to |rules|
      invariant forall j :: 0 <= j < i ==> !Includes(rules[j], group, kind)
    {
      var resource := rules[i];
      assert resource in rules;
      if resource.kind == "" {
        if group == resource.group {
          assert resource == ResourceType(group, "");
          return false;
        }
      } else if group == resource.group && kind == resource.kind {
        assert resource == ResourceType(group, kind);
        return false;
      }
    }
    excluded := true;
    ExcludedIff(rules, group, kind);
  }

  /** Nothing but a rule for the resource itself, or for its group and no kind, includes it. */
  lemma ExcludedIff(rules: seq<ResourceType>, group: string, kind: string)
    ensures Excluded(rules, group, kind)
            <==> ResourceType(group, kind) !in rules && ResourceType(group, "") !in rules
  {
    if !Excluded(rules, group, kind) {
      var r :| r in rules && Includes(r, group, kind);
      assert r == ResourceType(group, kind) || r == ResourceType(group, "");
    }
    assert Includes(ResourceType(group, kind), group, kind) && Includes(ResourceType(group, ""), group, kind);
  }

  /** From the printed rules to the verdict on a resource. */
  lemma PrintedExcludesIff(list: seq<ResourceType>, group: string, kind: string)
    requires forall r | r in list :: Clean(r)
    ensures Parse(PrintAll(list)).Rules?
    ensures Excluded(Parse(PrintAll(list)).list, group, kind)
            <==> ResourceType(group, kind) !in list && ResourceType(group, "") !in list
  {
    ParsePrint(list);
    ExcludedIff(list, group, kind);
  }

  lemma {:induction false} ParseRulesAppend(a: seq<string>, b: seq<string>)
    requires ParseRules(a).Rules?
    ensures ParseRules(a + b) == Prepend(ParseRules(a).list, ParseRules(b))
  {
    if a == [] {
      assert a + b == b;
      assert ParseRules(b).Rules? ==> [] + ParseRules(b).list == ParseRules(b).list;
    } else {
      ParseRulesAppend(a[1..], b);
      AppendTail(a, b);
      PrependTwice([Judge(a[0]).resource], ParseRules(a[1..]).list, ParseRules(b));
    }
  }

  /** Joining two non-empty rule strings that parse excludes exactly what both exclude. */
  lemma JoinExcludesBoth(a: string, b: string, group: string, kind: string)
    requires a != "" && b != "" && Parse(a).Rules? && Parse(b).Rules?
    ensures Parse(a + ";" + b).Rules?
    ensures Excluded(Parse(a + ";" + b).list, group, kind)
            <==> Excluded(Parse(a).list, group, kind) && Excluded(Parse(b).list, group, kind)
  {
    SplitAppend(a, b, ';');
    assert a + ";" + b == a + [';'] + b;
    ParseRulesAppend(Split(a, ';'), Split(b, ';'));
    var l, m := Parse(a).list, Parse(b).list;
    assert Parse(a + ";" + b).list == l + m;
    assert forall r :: r in l + m <==> r in l || r in m;
  }

  lemma {:induction false} ParsedMembers(rules: seq<string>, r: ResourceType)
    requires ParseRules(rules).Rules?
    ensures r in ParseRules(rules).list <==> exists t :: t in rules && Judge(t) == Good(r)
  {
    if rules != [] {
      ParsedMembers(rules[1..], r);
      assert rules == [rules[0]] + rules[1..];
    }
  }

  /** Neither the order nor the repetition of rules changes what is excluded. */
  lemma RulesFormASet(a: string, b: string, group: string, kind: string)
    requires a != "" && b != "" && Parse(a).Rules? && Parse(b).Rules?
    requires forall t :: t in Split(a, ';') <==> t in Split(b, ';')
    ensures Excluded(Parse(a).list, group, kind) <==> Excluded(Parse(b).list, group, kind)
  {
    forall r ensures r in Parse(a).list <==> r in Parse(b).list {
      ParsedMembers(Split(a, ';'), r);
      ParsedMembers(Split(b, ';'), r);
    }
  }
}
