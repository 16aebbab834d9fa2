/** The include rules of buildtools/checkdeps/rules.py: lists pruned on every addition, most recent rule first. */
module DepsRules {
  import opened Options

  const ALLOW := '+'
  const DISALLOW := '-'
  const TEMP_ALLOW := '!'

  datatype Rule = Rule(allow: char, dir: string, dependentDir: string, source: string) | MessageRule(reason: string)

  datatype Error = EmptyRuleString | BadPrefix(ruleString: string) | TrailingSlash(ruleString: string)

  datatype Result<+T> = Ok(value: T) | Err(error: Error)

  // ---------------------------------------------------------------- directories

  /** The path is the directory or lies below it. */
  predicate Under(dir: string, path: string) {
    dir == path || dir + "/" <= path
  }

  lemma UnderIsTransitive(a: string, b: string, c: string)
    requires Under(a, b) && Under(b, c)
    ensures Under(a, c)
  {
    if a != b && b != c {
      assert a + "/" <= b <= b + "/" <= c;
    }
  }

  /** The directory of a rule; a message has none, and as an empty one it covers only absolute paths. */
  function DirOf(rule: Rule): string {
    if rule.Rule? then rule.dir else ""
  }

  predicate ParentOrMatch(rule: Rule, other: string) {
    DirOf(rule) == other || other + "/" <= DirOf(rule)
  }

  predicate ChildOrMatch(rule: Rule, other: string) {
    DirOf(rule) == other || DirOf(rule) + "/" <= other
  }

  /** The kind of a rule and the path it is about. */
  datatype Parsed = Parsed(allow: char, dir: string)

  function ParseRuleString(ruleString: string): (r: Result<Parsed>)
    ensures r.Ok? ==> [r.value.allow] + r.value.dir == ruleString && r.value.allow in [ALLOW, DISALLOW, TEMP_ALLOW]
    ensures r.Err? <==> ruleString == "" || ruleString[0] !in [ALLOW, DISALLOW, TEMP_ALLOW] || ruleString[|ruleString| - 1] == '/'
  {
    if ruleString == "" then Err(EmptyRuleString)
    else if ruleString[0] !in [ALLOW, DISALLOW, TEMP_ALLOW] then Err(BadPrefix(ruleString))
    else if ruleString[|ruleString| - 1] == '/' then Err(TrailingSlash(ruleString))
    else Ok(Parsed(ruleString[0], ruleString[1..]))
  }

  // ---------------------------------------------------------------- one list of rules

  function Filter(rules: seq<Rule>, dir: string): seq<Rule> {
    if rules == [] then []
    else (if ParentOrMatch(rules[0], dir) then [] else [rules[0]]) + Filter(rules[1..], dir)
  }

  /** A list after adding a rule: the new rule first, without the old rules that it covers. */
  function Pruned(rules: seq<Rule>, rule: Rule): seq<Rule>
    requires rule.Rule?
  {
    [rule] + Filter(rules, rule.dir)
  }

  /** The first rule of a list that covers the path. */
  function FirstCovering(rules: seq<Rule>, path: string): Option<Rule> {
    if rules == [] then None
    else if ChildOrMatch(rules[0], path) then Some(rules[0])
    else FirstCovering(rules[1..], path)
  }

  /** Dropping the rules that a directory covers changes no answer for paths outside the directory. */
  lemma {:induction false} FilterKeepsAnswers(rules: seq<Rule>, dir: string, path: string)
    requires !Under(dir, path)
    ensures FirstCovering(Filter(rules, dir), path) == FirstCovering(rules, path)
  {
    if rules != [] {
      FilterKeepsAnswers(rules[1..], dir, path);
      if ParentOrMatch(rules[0], dir) {
        if ChildOrMatch(rules[0], path) {
          UnderIsTransitive(dir, DirOf(rules[0]), path);
        }
        assert [] + Filter(rules[1..], dir) == Filter(rules[1..], dir);
      } else {
        assert ([rules[0]] + Filter(rules[1..], dir))[1..] == Filter(rules[1..], dir);
      }
    }
  }

  // ---------------------------------------------------------------- sets of rules

  /** The rules of a directory: general ones, and lists for the files whose name matches a regular expression. */
  datatype RuleSet = RuleSet(general: seq<Rule>, specific: map<string, seq<Rule>>)
  {
    /** The list for a regular expression; the empty one stands for the general rules. */
    function ListFor(regexp: string): seq<Rule> {
      if regexp == "" then general else if regexp in specific then specific[regexp] else []
    }
  }

  const NO_RULES := RuleSet([], map[])

  /** One addition: the rule, and the regular expression of the files it is for. */
  datatype Entry = Entry(rule: Rule, regexp: string)

  function Added(ruleSet: RuleSet, e: Entry): RuleSet
    requires e.rule.Rule?
  {
    var list := Pruned(ruleSet.ListFor(e.regexp), e.rule);
    if e.regexp == "" then ruleSet.(general := list) else ruleSet.(specific := ruleSet.specific[e.regexp := list])
  }

  predicate IsLog(log: seq<Entry>) {
    forall i | 0 <= i < |log| :: log[i].rule.Rule?
  }

  /** The rule set after a log of additions, in their order. */
  function AfterLog(ruleSet: RuleSet, log: seq<Entry>): RuleSet
    requires IsLog(log)
    decreases |log|
  {
    if log == [] then ruleSet else Added(AfterLog(ruleSet, log[..|log| - 1]), log[|log| - 1])
  }

  /** The unpruned answer: the most recent addition for this regular expression that covers the path. */
  function MostRecent(log: seq<Entry>, regexp: string, path: string): Option<Rule> {
    if log == [] then None
    else
      var e := log[|log| - 1];
      if e.regexp == regexp && ChildOrMatch(e.rule, path) then Some(e.rule)
      else MostRecent(log[..|log| - 1], regexp, path)
  }

  /** The answer of the log, by position: an addition for this regular expression that covers the path, with none of this
      kind after it; there is no answer only if there is no such addition. */
  lemma {:induction false} MostRecentExactly(log: seq<Entry>, regexp: string, path: string)
    ensures match MostRecent(log, regexp, path)
      case None => forall i | 0 <= i < |log| :: !Answers(log[i], regexp, path)
      case Some(rule) =>
        exists i | 0 <= i < |log| :: Answers(log[i], regexp, path) && log[i].rule == rule && forall j | i < j < |log| :: !Answers(log[j], regexp, path)
    decreases |log|
  {
    if log != [] {
      var last := |log| - 1;
      if Answers(log[last], regexp, path) {
        assert log[last].rule == MostRecent(log, regexp, path).value;
      } else {
        MostRecentExactly(log[..last], regexp, path);
        if MostRecent(log, regexp, path).Some? {
          var i :| 0 <= i < last && Answers(log[..last][i], regexp, path) && log[..last][i].rule == MostRecent(log, regexp, path).value
            && forall j | i < j < last :: !Answers(log[..last][j], regexp, path);
          forall j | i < j < |log| ensures !Answers(log[j], regexp, path) {
            if j < last {
              assert log[..last][j] == log[j];
            }
          }
          assert log[i] == log[..last][i];
        } else {
          forall i | 0 <= i < |log| ensures !Answers(log[i], regexp, path) {
            if i < last {
              assert log[..last][i] == log[i];
            }
          }
        }
      }
    }
  }

  /** The addition is for this regular expression, and its rule is about the path or a directory above it. */
  predicate Answers(e: Entry, regexp: string, path: string) {
    e.regexp == regexp && (path == DirOf(e.rule) || DirOf(e.rule) + "/" <= path)
  }

  lemma AddedList(ruleSet: RuleSet, e: Entry, regexp: string)
    requires e.rule.Rule?
    ensures Added(ruleSet, e).ListFor(regexp) == if regexp == e.regexp then Pruned(ruleSet.ListFor(regexp), e.rule) else ruleSet.ListFor(regexp)
  {
  }

  /** Pruning loses nothing: every list answers like the whole log. */
  lemma {:induction false} PrunedAnswersLikeLog(log: seq<Entry>, regexp: string, path: string)
    requires IsLog(log)
    ensures FirstCovering(AfterLog(NO_RULES, log).ListFor(regexp), path) == MostRecent(log, regexp, path)
    decreases |log|
  {
    if log != [] {
      var before, e := log[..|log| - 1], log[|log| - 1];
      PrunedAnswersLikeLog(before, regexp, path);
      AddedList(AfterLog(NO_RULES, before), e, regexp);
      if e.regexp == regexp {
        var listed := AfterLog(NO_RULES, before).ListFor(regexp);
        assert Pruned(listed, e.rule)[1..] == Filter(listed, e.rule.dir);
        if !Under(e.rule.dir, path) {
          FilterKeepsAnswers(listed, e.rule.dir, path);
        }
      }
    }
  }

  /** No rule of the list is covered by one before it. */
  predicate NoneShadowed(rules: seq<Rule>) {
    forall i, j | 0 <= i < j < |rules| :: !Under(DirOf(rules[i]), DirOf(rules[j]))
  }

  lemma {:induction false} FilterKeepsUnshadowed(rules: seq<Rule>, dir: string)
    requires NoneShadowed(rules)
    ensures NoneShadowed(Filter(rules, dir))
    ensures forall r | r in Filter(rules, dir) :: r in rules && !Under(dir, DirOf(r))
  {
    if rules != [] {
      FilterKeepsUnshadowed(rules[1..], dir);
      var rest := Filter(rules[1..], dir);
      forall j | 0 <= j < |rest| ensures !Under(DirOf(rules[0]), DirOf(rest[j])) {
        assert rest[j] in rest && rest[j] in rules[1..];
      }
    }
  }

  /** And pruning keeps nothing useless: every rule of a list answers for its own directory. */
  lemma {:induction false} EveryRuleAnswers(log: seq<Entry>, regexp: string, i: nat)
    requires IsLog(log) && i < |AfterLog(NO_RULES, log).ListFor(regexp)|
    ensures var rules := AfterLog(NO_RULES, log).ListFor(regexp);
      FirstCovering(rules, DirOf(rules[i])) == Some(rules[i])
  {
    LogLeavesUnshadowed(log, regexp);
    UnshadowedAnswers(AfterLog(NO_RULES, log).ListFor(regexp), i);
  }

  lemma {:induction false} LogLeavesUnshadowed(log: seq<Entry>, regexp: string)
    requires IsLog(log)
    ensures NoneShadowed(AfterLog(NO_RULES, log).ListFor(regexp))
    decreases |log|
  {
    if log != [] {
      var before, e := log[..|log| - 1], log[|log| - 1];
      LogLeavesUnshadowed(before, regexp);
      AddedList(AfterLog(NO_RULES, before), e, regexp);
      FilterKeepsUnshadowed(AfterLog(NO_RULES, before).ListFor(regexp), e.rule.dir);
    }
  }

  lemma {:induction false} UnshadowedAnswers(rules: seq<Rule>, i: nat)
    requires NoneShadowed(rules) && i < |rules|
    ensures FirstCovering(rules, DirOf(rules[i])) == Some(rules[i])
  {
    if i > 0 {
      assert !Under(DirOf(rules[0]), DirOf(rules[i]));
      UnshadowedAnswers(rules[1..], i - 1);
    }
  }

  // ---------------------------------------------------------------- the class

  /** os.path.basename: what follows the last slash. */
  function BaseName(path: string): (name: string)
    ensures '/' !in name && |name| <= |path| && path[|path| - |name|..] == name
    ensures name == path || path[|path| - |name| - 1] == '/'
  {
    if '/' !in path then path else BaseName(path[1..])
  }

  /** A specific list that a file of this name uses and that has a rule covering the path. */
  predicate Decides(specific: map<string, seq<Rule>>, matches: (string, string) -> bool, regexp: string, name: string, path: string) {
    regexp in specific && matches(regexp, name) && FirstCovering(specific[regexp], path).Some?
  }

  class Rules {
    var generalRules: seq<Rule>
    var specificRules: map<string, seq<Rule>>

    constructor ()
      ensures Value() == NO_RULES
    {
      generalRules, specificRules := [], map[];
    }

    function Value(): RuleSet
      reads this
    {
      RuleSet(generalRules, specificRules)
    }

    /** copy.deepcopy: another object with the same rules. */
    method DeepCopy() returns (copy: Rules)
      ensures fresh(copy) && copy.Value() == Value()
    {
      copy := new Rules();
      copy.generalRules, copy.specificRules := generalRules, specificRules;
    }

    /** Adds a rule to the general rules or to those for a regular expression; a bad rule string changes nothing. */
    method AddRule(ruleString: string, dependentDir: string, source: string, dependeeRegexp: string) returns (error: Option<Error>)
      modifies this
      ensures match ParseRuleString(ruleString)
        case Err(e) => error == Some(e) && Value() == old(Value())
        case Ok(parsed) =>
          error == None && Value() == Added(old(Value()), Entry(Rule(parsed.allow, parsed.dir, dependentDir, source), dependeeRegexp))
    {
      var parsed := ParseRuleString(ruleString);
      if parsed.Err? {
        return Some(parsed.error);
      }
      var ruleType, ruleDir := parsed.value.allow, parsed.value.dir;
      var rulesToUpdate: seq<Rule>;
      if dependeeRegexp == "" {
        rulesToUpdate := generalRules;
      } else if dependeeRegexp in specificRules {
        rulesToUpdate := specificRules[dependeeRegexp];
      } else {
        rulesToUpdate := [];
      }
      rulesToUpdate := Filter(rulesToUpdate, ruleDir);
      rulesToUpdate := [Rule(ruleType, ruleDir, dependentDir, source)] + rulesToUpdate;
      if dependeeRegexp == "" {
        generalRules := rulesToUpdate;
      } else {
        specificRules := specificRules[dependeeRegexp := rulesToUpdate];
      }
      error := None;
    }

    /** The rule for a path included by a file: one for a regular expression that the file's name matches, if it has
        a rule covering the path, whatever the general rules say; else the general one; else a message. */
    method RuleApplyingTo(includePath: string, dependeePath: string, matches: (string, string) -> bool) returns (rule: Rule)
      ensures (exists regexp :: Decides(specificRules, matches, regexp, BaseName(dependeePath), includePath)) ==>
        exists regexp :: Decides(specificRules, matches, regexp, BaseName(dependeePath), includePath)
                         && FirstCovering(specificRules[regexp], includePath) == Some(rule)
      ensures (forall regexp :: !Decides(specificRules, matches, regexp, BaseName(dependeePath), includePath)) ==>
        rule == FirstCovering(generalRules, includePath).UnwrapOr(MessageRule("no rule applying."))
    {
      var dependeeFilename := BaseName(dependeePath);
      var todo := specificRules.Keys;
      while todo != {}
        invariant todo <= specificRules.Keys
        invariant forall regexp | regexp !in todo :: !Decides(specificRules, matches, regexp, dependeeFilename, includePath)
        decreases |todo|
      {
        var regexp :| regexp in todo;
        todo := todo - {regexp};
        if matches(regexp, dependeeFilename) {
          var found := FindCovering(specificRules[regexp], includePath);
          if found.Some? {
            assert Decides(specificRules, matches, regexp, dependeeFilename, includePath);
            return found.value;
          }
        }
      }
      var found := FindCovering(generalRules, includePath);
      if found.Some? {
        return found.value;
      }
      return MessageRule("no rule applying.");
    }
  }

  /** The loops of RuleApplyingTo. */
  method FindCovering(rules: seq<Rule>, path: string) returns (rule: Option<Rule>)
    ensures rule == FirstCovering(rules, path)
  {
    var i := 0;
    while i < |rules|
      invariant i <= |rules| && FirstCovering(rules, path) == FirstCovering(rules[i..], path)
    {
      assert rules[i..][1..] == rules[i + 1..];
      if ChildOrMatch(rules[i], path) {
        return Some(rules[i]);
      }
      i := i + 1;
    }
    return None;
  }
}
