/** The memoised walk of buildtools/checkdeps/builddeps.py from a directory up to the base directory. */
module DepsBuilder {
  import opened DepsRules
  import opened Options

  /** The name of a directory in its parent directory: a single word of a path. */
  type DirName = name: string | name != "" && '/' !in name witness "src"

  /** A directory of the checkout, as its path from the base directory, which is empty for the base directory itself. */
  type Dir = seq<DirName>

  /** What a directory's DEPS file says; a directory without the file has NO_DEPS. */
  datatype DepsFile = DepsFile(includeRules: seq<string>, specificIncludeRules: seq<(string, seq<string>)>,
                               skipSubdirs: seq<DirName>, noparent: bool)

  const NO_DEPS := DepsFile([], [], [], false)

  /** The DEPS files of the checkout and the builder's two switches. */
  datatype Config = Config(deps: Dir -> DepsFile, ignoreTempRules: bool, ignoreSpecificRules: bool)

  /** os.path.dirname; the base directory is its own parent here, since the walk never goes beyond it. */
  function Parent(dir: Dir): Dir {
    if dir == [] then [] else dir[..|dir| - 1]
  }

  function Name(dir: Dir): DirName
    requires dir != []
  {
    dir[|dir| - 1]
  }

  function Joined(dir: Dir): (path: string)
    requires dir != []
    ensures path != "" && path[|path| - 1] != '/'
  {
    if |dir| == 1 then dir[0] else Joined(Parent(dir)) + "/" + Name(dir)
  }

  /** posixpath.relpath from the base directory. */
  function RelativeDir(dir: Dir): (path: string)
    ensures path != "" && path[|path| - 1] != '/'
  {
    if dir == [] then "." else Joined(dir)
  }

  /** The names of a path, each followed by a slash. */
  function Slashed(dir: Dir): string {
    if dir == [] then "" else dir[0] + "/" + Slashed(dir[1..])
  }

  lemma {:induction false} JoinedIsSlashed(dir: Dir)
    requires dir != []
    ensures Joined(dir) + "/" == Slashed(dir)
    decreases |dir|
  {
    if |dir| > 1 {
      JoinedIsSlashed(Parent(dir));
      SlashedAppend(Parent(dir), Name(dir));
      assert dir == Parent(dir) + [Name(dir)];
    } else {
      assert Slashed(dir) == dir[0] + "/" + "";
    }
  }

  lemma {:induction false} SlashedAppend(dir: Dir, name: DirName)
    ensures Slashed(dir + [name]) == Slashed(dir) + name + "/"
    decreases |dir|
  {
    if dir == [] {
      assert Slashed([name]) == name + "/" + "";
    } else {
      SlashedAppend(dir[1..], name);
      assert (dir + [name])[1..] == dir[1..] + [name];
    }
  }

  /** What follows the first slash is told apart from what comes before it. */
  lemma FirstNames(a: DirName, restA: string, b: DirName, restB: string)
    ensures a + "/" + restA <= b + "/" + restB <==> a == b && restA <= restB
  {
    var left, right := a + "/" + restA, b + "/" + restB;
    assert forall i | 0 <= i < |a| :: left[i] == a[i] && a[i] != '/';
    assert forall i | 0 <= i < |b| :: right[i] == b[i] && b[i] != '/';
    assert left[|a|] == '/' && right[|b|] == '/';
    if left <= right {
      assert right[|a|] == '/';
      assert |b| <= |a|;
      assert left[|b|] == '/';
      assert a == left[..|a|] == right[..|a|] == b;
      assert restA == left[|a| + 1..] && restB == right[|a| + 1..];
    }
  }

  lemma {:induction false} SlashedPrefix(a: Dir, b: Dir)
    ensures Slashed(a) <= Slashed(b) <==> a <= b
    decreases |a|
  {
    if a != [] && b != [] {
      FirstNames(a[0], Slashed(a[1..]), b[0], Slashed(b[1..]));
      SlashedPrefix(a[1..], b[1..]);
      assert a == [a[0]] + a[1..] && b == [b[0]] + b[1..];
    }
  }

  /** A directory covers exactly itself and what lies below it, name by name: `foo` covers `foo/bar` and not `foobar`. */
  lemma UnderIsBelow(a: Dir, b: Dir)
    requires a != [] && b != []
    ensures Under(Joined(a), Joined(b)) <==> a <= b
  {
    JoinedIsSlashed(a);
    JoinedIsSlashed(b);
    SlashedPrefix(a, b);
    var left, right := Joined(a), Joined(b);
    if left + "/" <= right + "/" && |left| < |right| {
      assert left + "/" == (right + "/")[..|left| + 1] == right[..|left| + 1];
    } else if left + "/" <= right + "/" {
      assert left == (right + "/")[..|left|] == right;
    }
    if left + "/" <= right {
      assert left + "/" <= right <= right + "/";
    }
  }

  // ---------------------------------------------------------------- the additions that one directory makes

  /** The addition of a rule string of a DEPS file, which is about all files or about those of one regular expression. */
  function ExplicitEntry(dir: Dir, parsed: Parsed, regexp: string): Entry {
    var block := if regexp != "" then "specific_include_rules" else "include_rules";
    Entry(Rule(parsed.allow, parsed.dir, RelativeDir(dir), RelativeDir(dir) + "'s " + block), regexp)
  }

  /** One rule string of a DEPS file: an addition, nothing if it is temporary and those are ignored, or an error. */
  function OneRule(config: Config, dir: Dir, ruleString: string, regexp: string): (r: Result<seq<Entry>>)
    ensures r.Ok? ==> IsLog(r.value)
  {
    if config.ignoreTempRules && [TEMP_ALLOW] <= ruleString then Ok([])
    else
      match ParseRuleString(ruleString)
      case Err(e) => Err(e)
      case Ok(parsed) => Ok([ExplicitEntry(dir, parsed, regexp)])
  }

  /** The additions of rule strings one after the other, up to the first error. */
  function RuleList(config: Config, dir: Dir, ruleStrings: seq<string>, regexp: string): (r: Result<seq<Entry>>)
    ensures r.Ok? ==> IsLog(r.value)
    decreases |ruleStrings|
  {
    if ruleStrings == [] then Ok([])
    else
      match RuleList(config, dir, ruleStrings[..|ruleStrings| - 1], regexp)
      case Err(e) => Err(e)
      case Ok(before) =>
        match OneRule(config, dir, ruleStrings[|ruleStrings| - 1], regexp)
        case Err(e) => Err(e)
        case Ok(last) => Ok(before + last)
  }

  function SpecificLists(config: Config, dir: Dir, lists: seq<(string, seq<string>)>): (r: Result<seq<Entry>>)
    ensures r.Ok? ==> IsLog(r.value)
    decreases |lists|
  {
    if lists == [] then Ok([])
    else
      match SpecificLists(config, dir, lists[..|lists| - 1])
      case Err(e) => Err(e)
      case Ok(before) =>
        match RuleList(config, dir, lists[|lists| - 1].1, lists[|lists| - 1].0)
        case Err(e) => Err(e)
        case Ok(last) => Ok(before + last)
  }

  /** The implicit rule that lets a directory include from itself. */
  function ImplicitEntry(dir: Dir): Entry {
    Entry(Rule(ALLOW, RelativeDir(dir), RelativeDir(dir), "Default rule for " + RelativeDir(dir)), "")
  }

  /** Everything that a directory adds: its implicit rule, its include rules and its specific include rules. */
  function OwnLog(config: Config, dir: Dir): (r: Result<seq<Entry>>)
    ensures r.Ok? ==> IsLog(r.value)
  {
    var deps := config.deps(dir);
    match RuleList(config, dir, deps.includeRules, "")
    case Err(e) => Err(e)
    case Ok(general) =>
      match SpecificLists(config, dir, if config.ignoreSpecificRules then [] else deps.specificIncludeRules)
      case Err(e) => Err(e)
      case Ok(specific) => Ok([ImplicitEntry(dir)] + general + specific)
  }

  // ---------------------------------------------------------------- what a DEPS file adds, read off its text

  /** A rule string counts, with its regular expression, unless it is temporary and those are ignored. */
  function CountingOne(ignoreTempRules: bool, s: string, regexp: string): seq<(string, string)> {
    if ignoreTempRules && s != "" && s[0] == '!' then [] else [(regexp, s)]
  }

  function Counting(ignoreTempRules: bool, strings: seq<string>, regexp: string): seq<(string, string)> {
    if strings == [] then []
    else
      Counting(ignoreTempRules, strings[..|strings| - 1], regexp) + CountingOne(ignoreTempRules, strings[|strings| - 1], regexp)
  }

  function CountingLists(ignoreTempRules: bool, lists: seq<(string, seq<string>)>): seq<(string, string)> {
    if lists == [] then []
    else
      CountingLists(ignoreTempRules, lists[..|lists| - 1]) + Counting(ignoreTempRules, lists[|lists| - 1].1, lists[|lists| - 1].0)
  }

  /** The rule strings of a DEPS file: the include rules, for all files, and the specific ones. */
  function RuleStrings(config: Config, deps: DepsFile): seq<(string, string)> {
    Counting(config.ignoreTempRules, deps.includeRules, "")
    + if config.ignoreSpecificRules then [] else CountingLists(config.ignoreTempRules, deps.specificIncludeRules)
  }

  /** The addition says what the rule string says, for its regular expression, and names where it comes from. */
  predicate Says(e: Entry, dir: Dir, s: (string, string)) {
    && e.regexp == s.0 && e.rule.Rule? && [e.rule.allow] + e.rule.dir == s.1 && e.rule.dependentDir == RelativeDir(dir)
    && e.rule.source == RelativeDir(dir) + if s.0 == "" then "'s include_rules" else "'s specific_include_rules"
  }

  ghost predicate AllSay(log: seq<Entry>, dir: Dir, strings: seq<(string, string)>) {
    |log| == |strings| && forall i | 0 <= i < |log| :: Says(log[i], dir, strings[i])
  }

  /** A rule string that no rule can be made of. */
  predicate IsBad(s: (string, string)) {
    s.1 == "" || (s.1[0] != '+' && s.1[0] != '-' && s.1[0] != '!') || s.1[|s.1| - 1] == '/'
  }

  ghost predicate SomeBad(strings: seq<(string, string)>) {
    exists i | 0 <= i < |strings| :: IsBad(strings[i])
  }

  lemma SomeBadConcat(a: seq<(string, string)>, b: seq<(string, string)>)
    ensures SomeBad(a + b) <==> SomeBad(a) || SomeBad(b)
  {
    if SomeBad(a) {
      var i :| 0 <= i < |a| && IsBad(a[i]);
      assert IsBad((a + b)[i]);
    }
    if SomeBad(b) {
      var i :| 0 <= i < |b| && IsBad(b[i]);
      assert IsBad((a + b)[|a| + i]);
    }
  }

  lemma AllSayConcat(a: seq<Entry>, b: seq<Entry>, dir: Dir, stringsA: seq<(string, string)>, stringsB: seq<(string, string)>)
    requires AllSay(a, dir, stringsA) && AllSay(b, dir, stringsB)
    ensures AllSay(a + b, dir, stringsA + stringsB)
  {
  }

  lemma ExplicitEntrySays(dir: Dir, s: string, regexp: string)
    requires ParseRuleString(s).Ok?
    ensures Says(ExplicitEntry(dir, ParseRuleString(s).value, regexp), dir, (regexp, s))
  {
  }

  lemma BadExactly(s: string, regexp: string)
    ensures SomeBad([(regexp, s)]) <==> ParseRuleString(s).Err?
  {
    assert IsBad((regexp, s)) <==> ParseRuleString(s).Err?;
    assert [(regexp, s)][0] == (regexp, s);
  }

  lemma OneRuleSays(config: Config, dir: Dir, s: string, regexp: string)
    ensures var r, strings := OneRule(config, dir, s, regexp), CountingOne(config.ignoreTempRules, s, regexp);
      (r.Err? <==> SomeBad(strings)) && (r.Ok? ==> AllSay(r.value, dir, strings))
  {
    BadExactly(s, regexp);
    if ParseRuleString(s).Ok? {
      ExplicitEntrySays(dir, s, regexp);
    }
  }

  lemma {:induction false} RuleListSays(config: Config, dir: Dir, strings: seq<string>, regexp: string)
    ensures var r, counting := RuleList(config, dir, strings, regexp), Counting(config.ignoreTempRules, strings, regexp);
      (r.Err? <==> SomeBad(counting)) && (r.Ok? ==> AllSay(r.value, dir, counting))
    decreases |strings|
  {
    if strings != [] {
      var before, last := strings[..|strings| - 1], strings[|strings| - 1];
      RuleListSays(config, dir, before, regexp);
      OneRuleSays(config, dir, last, regexp);
      SomeBadConcat(Counting(config.ignoreTempRules, before, regexp), CountingOne(config.ignoreTempRules, last, regexp));
    }
  }

  lemma {:induction false} SpecificListsSay(config: Config, dir: Dir, lists: seq<(string, seq<string>)>)
    ensures var r, counting := SpecificLists(config, dir, lists), CountingLists(config.ignoreTempRules, lists);
      (r.Err? <==> SomeBad(counting)) && (r.Ok? ==> AllSay(r.value, dir, counting))
    decreases |lists|
  {
    if lists != [] {
      var before, last := lists[..|lists| - 1], lists[|lists| - 1];
      SpecificListsSay(config, dir, before);
      RuleListSays(config, dir, last.1, last.0);
      SomeBadConcat(CountingLists(config.ignoreTempRules, before), Counting(config.ignoreTempRules, last.1, last.0));
    }
  }

  lemma OwnLogFails(config: Config, dir: Dir)
    ensures OwnLog(config, dir).Err? <==> SomeBad(RuleStrings(config, config.deps(dir)))
  {
    var deps := config.deps(dir);
    var lists := if config.ignoreSpecificRules then [] else deps.specificIncludeRules;
    RuleListSays(config, dir, deps.includeRules, "");
    SpecificListsSay(config, dir, lists);
    SomeBadConcat(Counting(config.ignoreTempRules, deps.includeRules, ""), CountingLists(config.ignoreTempRules, lists));
  }

  lemma ExplicitRulesSay(config: Config, dir: Dir, general: seq<Entry>, specific: seq<Entry>)
    requires RuleList(config, dir, config.deps(dir).includeRules, "") == Ok(general)
    requires SpecificLists(config, dir, if config.ignoreSpecificRules then [] else config.deps(dir).specificIncludeRules) == Ok(specific)
    ensures AllSay(general + specific, dir, RuleStrings(config, config.deps(dir)))
  {
    var deps := config.deps(dir);
    var lists := if config.ignoreSpecificRules then [] else deps.specificIncludeRules;
    RuleListSays(config, dir, deps.includeRules, "");
    SpecificListsSay(config, dir, lists);
    AllSayConcat(general, specific, dir, Counting(config.ignoreTempRules, deps.includeRules, ""), CountingLists(config.ignoreTempRules, lists));
  }

  /** What a directory adds: that it may include from itself, and then what each of its rule strings says, in order and
      for its own regular expression; an error exactly if one of the strings is bad. */
  lemma OwnLogSays(config: Config, dir: Dir)
    ensures var r, strings := OwnLog(config, dir), RuleStrings(config, config.deps(dir));
      && (r.Err? <==> SomeBad(strings))
      && (r.Ok? ==>
            && r.value != [] && AllSay(r.value[1..], dir, strings)
            && var first := r.value[0];
               first.regexp == "" && first.rule.Rule? && first.rule.allow == '+' && first.rule.dir == RelativeDir(dir))
  {
    OwnLogFails(config, dir);
    if OwnLog(config, dir).Ok? {
      var general := RuleList(config, dir, config.deps(dir).includeRules, "").value;
      var specific := SpecificLists(config, dir, if config.ignoreSpecificRules then [] else config.deps(dir).specificIncludeRules).value;
      ExplicitRulesSay(config, dir, general, specific);
      assert OwnLog(config, dir).value == [ImplicitEntry(dir)] + general + specific;
      assert ([ImplicitEntry(dir)] + general + specific)[1..] == general + specific;
    }
  }

  // ---------------------------------------------------------------- the recursive specification

  /** The rules of a directory: none if its parent is skipped or skips it; else those of its parent, or none if it
      says `noparent`, extended by its own; or the first error on the way down from the base directory. */
  function DirectoryRules(config: Config, dir: Dir): Result<Option<RuleSet>>
    decreases |dir|
  {
    if dir == [] then Extended(config, dir, NO_RULES)
    else
      match DirectoryRules(config, Parent(dir))
      case Err(e) => Err(e)
      case Ok(None) => Ok(None)
      case Ok(Some(parentRules)) =>
        if Name(dir) in config.deps(Parent(dir)).skipSubdirs then Ok(None) else Extended(config, dir, parentRules)
  }

  function Extended(config: Config, dir: Dir, parentRules: RuleSet): Result<Option<RuleSet>> {
    match OwnLog(config, dir)
    case Err(e) => Err(e)
    case Ok(log) => Ok(Some(AfterLog(if config.deps(dir).noparent then NO_RULES else parentRules, log)))
  }

  lemma {:induction false} LogsAddUp(ruleSet: RuleSet, first: seq<Entry>, second: seq<Entry>)
    requires IsLog(first) && IsLog(second)
    ensures AfterLog(ruleSet, first + second) == AfterLog(AfterLog(ruleSet, first), second)
    decreases |second|
  {
    if second == [] {
      assert first + second == first;
    } else {
      assert (first + second)[..|first + second| - 1] == first + second[..|second| - 1];
      LogsAddUp(ruleSet, first, second[..|second| - 1]);
    }
  }

  /** All additions that count for a directory, unpruned: its own after those it inherits. */
  function FullLog(config: Config, dir: Dir): (log: seq<Entry>)
    ensures IsLog(log)
    decreases |dir|
  {
    var own := match OwnLog(config, dir) case Err(_) => [] case Ok(log) => log;
    if dir == [] || config.deps(dir).noparent then own else FullLog(config, Parent(dir)) + own
  }

  lemma {:induction false} RulesAreOfFullLog(config: Config, dir: Dir)
    requires DirectoryRules(config, dir).Ok? && DirectoryRules(config, dir).value.Some?
    ensures DirectoryRules(config, dir).value.value == AfterLog(NO_RULES, FullLog(config, dir))
    decreases |dir|
  {
    if dir != [] {
      RulesAreOfFullLog(config, Parent(dir));
      if !config.deps(dir).noparent {
        LogsAddUp(NO_RULES, FullLog(config, Parent(dir)), OwnLog(config, dir).value);
      }
    }
  }

  /** From DEPS files to answers: for a directory that is not skipped, the rule for a path is the most recent addition
      covering it, counting down from the base directory, or from the last directory that takes no rules from its parent;
      the general list answers for the additions without a regular expression, and each specific one for its own. */
  lemma DirectoryAnswersLikeFullLog(config: Config, dir: Dir, path: string)
    requires DirectoryRules(config, dir).Ok? && DirectoryRules(config, dir).value.Some?
    ensures var rules, log := DirectoryRules(config, dir).value.value, FullLog(config, dir);
      && FirstCovering(rules.general, path) == MostRecent(log, "", path)
      && (forall regexp | regexp in rules.specific && regexp != "" :: FirstCovering(rules.specific[regexp], path) == MostRecent(log, regexp, path))
      && (forall regexp | regexp !in rules.specific && regexp != "" :: MostRecent(log, regexp, path) == None)
  {
    RulesAreOfFullLog(config, dir);
    var log := FullLog(config, dir);
    forall regexp ensures FirstCovering(AfterLog(NO_RULES, log).ListFor(regexp), path) == MostRecent(log, regexp, path) {
      PrunedAnswersLikeLog(log, regexp, path);
    }
    var rules := AfterLog(NO_RULES, log);
    assert rules.ListFor("") == rules.general;
    forall regexp | regexp != "" ensures rules.ListFor(regexp) == if regexp in rules.specific then rules.specific[regexp] else [] {
    }
  }

  /** The additions of the directories on the way to this one, from the one `from` names deep on, in that order. */
  function OwnLogs(config: Config, dir: Dir, from: nat): seq<Entry>
    decreases |dir|
  {
    if |dir| < from then []
    else (if dir == [] then [] else OwnLogs(config, dir[..|dir| - 1], from))
         + match OwnLog(config, dir) case Err(_) => [] case Ok(log) => log
  }

  /** A directory has rules only if none on the way to it has an error or is skipped by its parent. */
  lemma {:induction false} RulesNeedAllAbove(config: Config, dir: Dir, k: nat)
    requires DirectoryRules(config, dir).Ok? && DirectoryRules(config, dir).value.Some? && k <= |dir|
    ensures OwnLog(config, dir[..k]).Ok?
    ensures k < |dir| ==> dir[k] !in config.deps(dir[..k]).skipSubdirs
    decreases |dir|
  {
    assert dir[..|dir|] == dir;
    if k < |dir| {
      var above := dir[..|dir| - 1];
      assert above == Parent(dir) && above[..k] == dir[..k];
      RulesNeedAllAbove(config, above, k);
    }
  }

  /** Which directories count: those from the last one on the way that takes no rules from its parent, or else from the
      base directory. */
  lemma {:induction false} FullLogStartsAt(config: Config, dir: Dir, from: nat)
    requires from <= |dir| && (from == 0 || config.deps(dir[..from]).noparent)
    requires forall k | from < k <= |dir| :: !config.deps(dir[..k]).noparent
    ensures FullLog(config, dir) == OwnLogs(config, dir, from)
    decreases |dir|
  {
    assert dir[..|dir|] == dir;
    if from < |dir| {
      var above := dir[..|dir| - 1];
      assert forall k | 0 <= k < |dir| :: above[..k] == dir[..k];
      assert !config.deps(dir[..|dir|]).noparent;
      FullLogStartsAt(config, above, from);
    }
  }

  /** This directory on the way is listed by its parent's DEPS file, and the rules of that parent are in order. */
  predicate SkippedAt(config: Config, dir: Dir, k: int) {
    0 <= k < |dir| && dir[k] in config.deps(dir[..k]).skipSubdirs
    && DirectoryRules(config, dir[..k]).Ok? && DirectoryRules(config, dir[..k]).value.Some?
  }

  lemma SkippedAbove(config: Config, dir: Dir, k: int)
    requires dir != [] && k < |dir| - 1
    ensures SkippedAt(config, dir, k) <==> SkippedAt(config, Parent(dir), k)
  {
    if 0 <= k {
      assert Parent(dir)[..k] == dir[..k];
    }
  }

  lemma {:induction false} SkippedIfListed(config: Config, dir: Dir, k: int)
    requires SkippedAt(config, dir, k)
    ensures DirectoryRules(config, dir) == Ok(None)
    decreases |dir|
  {
    if k < |dir| - 1 {
      SkippedAbove(config, dir, k);
      SkippedIfListed(config, Parent(dir), k);
    }
  }

  lemma {:induction false} ListedIfSkipped(config: Config, dir: Dir) returns (k: int)
    requires DirectoryRules(config, dir) == Ok(None)
    ensures SkippedAt(config, dir, k)
    decreases |dir|
  {
    if DirectoryRules(config, Parent(dir)) == Ok(None) {
      k := ListedIfSkipped(config, Parent(dir));
      SkippedAbove(config, dir, k);
    } else {
      k := |dir| - 1;
    }
  }

  /** A directory is skipped exactly if some directory on the way to it is. */
  lemma SkippedExactly(config: Config, dir: Dir)
    ensures DirectoryRules(config, dir) == Ok(None) <==> exists k :: SkippedAt(config, dir, k)
  {
    if DirectoryRules(config, dir) == Ok(None) {
      var k := ListedIfSkipped(config, dir);
    }
    if k :| SkippedAt(config, dir, k) {
      SkippedIfListed(config, dir, k);
    }
  }

  /** A directory without a DEPS file may include from itself, and for all other paths it has its parent's rules. */
  lemma PlainDirectoryInherits(config: Config, dir: Dir, parentRules: RuleSet, path: string)
    requires config.deps(dir) == NO_DEPS
    ensures Extended(config, dir, parentRules).Ok? && Extended(config, dir, parentRules).value.Some?
    ensures FirstCovering(Extended(config, dir, parentRules).value.value.general, path)
            == if Under(RelativeDir(dir), path) then Some(ImplicitEntry(dir).rule) else FirstCovering(parentRules.general, path)
  {
    var rule := ImplicitEntry(dir).rule;
    assert RuleList(config, dir, [], "") == Ok([]) && SpecificLists(config, dir, []) == Ok([]);
    assert OwnLog(config, dir) == Ok([ImplicitEntry(dir)]) by {
      assert [ImplicitEntry(dir)] + [] + [] == [ImplicitEntry(dir)];
    }
    assert AfterLog(parentRules, [ImplicitEntry(dir)]) == Added(AfterLog(parentRules, []), ImplicitEntry(dir)) by {
      assert [ImplicitEntry(dir)][..0] == [];
    }
    assert Pruned(parentRules.general, rule)[1..] == Filter(parentRules.general, rule.dir);
    if !Under(rule.dir, path) {
      FilterKeepsAnswers(parentRules.general, rule.dir, path);
    }
  }

  // ---------------------------------------------------------------- the builder

  /** The cached rules are those of the specification; `null` stands for a skipped directory. */
  ghost predicate Caches(config: Config, dir: Dir, rules: Rules?)
    reads rules
  {
    DirectoryRules(config, dir) == Ok(if rules == null then None else Some(rules.Value()))
  }

  ghost predicate EntriesRight(config: Config, cache: map<Dir, Rules?>)
    reads set dir | dir in cache && cache[dir] != null :: cache[dir]
  {
    forall dir | dir in cache :: Caches(config, dir, cache[dir])
  }

  predicate ParentsCached(cache: map<Dir, Rules?>) {
    forall dir | dir in cache && dir != [] :: Parent(dir) in cache
  }

  /** The subdirectories that a cached directory skips are cached. */
  ghost predicate SkipsCached(config: Config, cache: map<Dir, Rules?>) {
    forall dir | SkippedChild(config, Parent(dir), dir) && Parent(dir) in cache && cache[Parent(dir)] != null :: dir in cache
  }

  /** What a cache holds is right, with a directory its parent is in it, and so are the subdirectories it skips. */
  ghost predicate CacheRight(config: Config, cache: map<Dir, Rules?>)
    reads set dir | dir in cache && cache[dir] != null :: cache[dir]
  {
    EntriesRight(config, cache) && ParentsCached(cache) && SkipsCached(config, cache)
  }

  /** The directory is one of those that `dir` skips. */
  predicate SkippedChild(config: Config, dir: Dir, child: Dir) {
    child != [] && Parent(child) == dir && Name(child) in config.deps(dir).skipSubdirs
  }

  /** Entries are never replaced. */
  predicate OnlyGrows(before: map<Dir, Rules?>, after: map<Dir, Rules?>) {
    forall dir | dir in before :: dir in after && after[dir] == before[dir]
  }

  /** The cache with entries for skipped subdirectories. */
  function WithSkipped(cache: map<Dir, Rules?>, dir: Dir, names: seq<DirName>): map<Dir, Rules?>
    decreases |names|
  {
    if names == [] then cache
    else WithSkipped(cache, dir, names[..|names| - 1])[dir + [names[|names| - 1]] := null]
  }

  lemma {:induction false} SkippedEntry(cache: map<Dir, Rules?>, dir: Dir, names: seq<DirName>, d: Dir)
    ensures var after, skipped := WithSkipped(cache, dir, names), d != [] && Parent(d) == dir && Name(d) in names;
      (d in after <==> d in cache || skipped) && (d in after ==> after[d] == if skipped then null else cache[d])
    decreases |names|
  {
    if names != [] {
      var before, last := names[..|names| - 1], names[|names| - 1];
      SkippedEntry(cache, dir, before, d);
      assert names == before + [last];
      if d != [] && Parent(d) == dir && Name(d) == last {
        assert d == dir + [last];
      } else {
        assert Parent(dir + [last]) == dir && Name(dir + [last]) == last;
      }
    }
  }

  class DepsBuilder {
    const config: Config
    var directoryRules: map<Dir, Rules?>

    /** Starts with an empty cache; `ApplyBaseDirectory` completes the construction. */
    constructor (config: Config)
      ensures this.config == config && directoryRules == map[]
    {
      this.config, directoryRules := config, map[];
    }

    ghost function Cached(): set<object>
      reads this
    {
      set dir | dir in directoryRules && directoryRules[dir] != null :: directoryRules[dir]
    }

    /** The cache is right, and the base directory is in it. */
    ghost predicate Valid()
      reads this, Cached()
    {
      [] in directoryRules && CacheRight(config, directoryRules)
    }

    method ApplyOneRule(rules: Rules, dir: Dir, ruleString: string, regexp: string) returns (error: Option<Error>)
      modifies rules
      ensures match OneRule(config, dir, ruleString, regexp)
        case Err(e) => error == Some(e)
        case Ok(log) => error == None && rules.Value() == AfterLog(old(rules.Value()), log)
    {
      if config.ignoreTempRules && [TEMP_ALLOW] <= ruleString {
        return None;
      }
      var block := if regexp != "" then "specific_include_rules" else "include_rules";
      error := rules.AddRule(ruleString, RelativeDir(dir), RelativeDir(dir) + "'s " + block, regexp);
      ghost var log := OneRule(config, dir, ruleString, regexp);
      if error == None {
        assert log.value[..0] == [];
      }
    }

    method ApplyRuleList(rules: Rules, dir: Dir, ruleStrings: seq<string>, regexp: string) returns (error: Option<Error>)
      modifies rules
      ensures match RuleList(config, dir, ruleStrings, regexp)
        case Err(e) => error == Some(e)
        case Ok(log) => error == None && rules.Value() == AfterLog(old(rules.Value()), log)
    {
      for n := 0 to |ruleStrings|
        invariant RuleList(config, dir, ruleStrings[..n], regexp).Ok?
        invariant rules.Value() == AfterLog(old(rules.Value()), RuleList(config, dir, ruleStrings[..n], regexp).value)
      {
        NextRule(config, dir, ruleStrings, regexp, n, old(rules.Value()));
        error := ApplyOneRule(rules, dir, ruleStrings[n], regexp);
        if error != None {
          return;
        }
      }
      assert ruleStrings[..|ruleStrings|] == ruleStrings;
      error := None;
    }

    method ApplySpecificLists(rules: Rules, dir: Dir, lists: seq<(string, seq<string>)>) returns (error: Option<Error>)
      modifies rules
      ensures match SpecificLists(config, dir, lists)
        case Err(e) => error == Some(e)
        case Ok(log) => error == None && rules.Value() == AfterLog(old(rules.Value()), log)
    {
      for n := 0 to |lists|
        invariant SpecificLists(config, dir, lists[..n]).Ok?
        invariant rules.Value() == AfterLog(old(rules.Value()), SpecificLists(config, dir, lists[..n]).value)
      {
        NextList(config, dir, lists, n, old(rules.Value()));
        error := ApplyRuleList(rules, dir, lists[n].1, lists[n].0);
        if error != None {
          return;
        }
      }
      assert lists[..|lists|] == lists;
      error := None;
    }

    /** Extends a copy of existing rules by the implicit rule of the directory and those of its DEPS file. */
    method ApplyRules(existingRules: Rules, includes: seq<string>, specificIncludes: seq<(string, seq<string>)>, dir: Dir)
      returns (r: Result<Rules>)
      requires includes == config.deps(dir).includeRules && specificIncludes == config.deps(dir).specificIncludeRules
      ensures match OwnLog(config, dir)
        case Err(e) => r == Err(e)
        case Ok(log) => r.Ok? && fresh(r.value) && r.value.Value() == AfterLog(existingRules.Value(), log)
    {
      var rules := existingRules.DeepCopy();
      var relativeDir := RelativeDir(dir);
      var error := rules.AddRule([ALLOW] + relativeDir, relativeDir, "Default rule for " + relativeDir, "");
      ghost var first := [ImplicitEntry(dir)];
      assert rules.Value() == AfterLog(existingRules.Value(), first) by {
        assert first[..0] == [];
      }
      error := ApplyRuleList(rules, dir, includes, "");
      if error != None {
        return Err(error.value);
      }
      ghost var general := RuleList(config, dir, includes, "").value;
      LogsAddUp(existingRules.Value(), first, general);
      if config.ignoreSpecificRules {
        assert first + general + [] == first + general;
        return Ok(rules);
      }
      error := ApplySpecificLists(rules, dir, specificIncludes);
      if error != None {
        return Err(error.value);
      }
      LogsAddUp(existingRules.Value(), first + general, SpecificLists(config, dir, specificIncludes).value);
      return Ok(rules);
    }

    /** The rules of a directory, starting from its parent's or from none, and the subdirectories that it skips. */
    method ApplyDirectoryRules(existingRules: Rules, dir: Dir) returns (r: Result<(Rules, seq<DirName>)>)
      ensures match Extended(config, dir, existingRules.Value())
        case Err(e) => r == Err(e)
        case Ok(ruleSet) => r.Ok? && fresh(r.value.0) && Some(r.value.0.Value()) == ruleSet && r.value.1 == config.deps(dir).skipSubdirs
    {
      var deps := config.deps(dir);
      var parentRules := existingRules;
      if deps.noparent {
        parentRules := new Rules();
      }
      var applied := ApplyRules(parentRules, deps.includeRules, deps.specificIncludeRules, dir);
      if applied.Err? {
        return Err(applied.error);
      }
      return Ok((applied.value, deps.skipSubdirs));
    }

    /** Caches the rules of a directory, and that the subdirectories it skips are skipped. */
    method ApplyDirectoryRulesAndSkipSubdirs(parentRules: Rules, dir: Dir) returns (error: Option<Error>, ghost added: Rules?)
      modifies `directoryRules
      ensures match Extended(config, dir, parentRules.Value())
        case Err(e) => error == Some(e) && directoryRules == old(directoryRules)
        case Ok(ruleSet) =>
          error == None && added != null && fresh(added) && Some(added.Value()) == ruleSet &&
          directoryRules == WithSkipped(old(directoryRules)[dir := added], dir, config.deps(dir).skipSubdirs)
    {
      added := null;
      var applied := ApplyDirectoryRules(parentRules, dir);
      if applied.Err? {
        return Some(applied.error), added;
      }
      var (rules, excludedSubdirs) := applied.value;
      added := rules;
      directoryRules := directoryRules[dir := rules];
      ghost var withRules := directoryRules;
      for n := 0 to |excludedSubdirs|
        invariant directoryRules == WithSkipped(withRules, dir, excludedSubdirs[..n])
        invariant Extended(config, dir, parentRules.Value()) == Ok(Some(rules.Value()))
      {
        assert excludedSubdirs[..n + 1][..n] == excludedSubdirs[..n];
        directoryRules := directoryRules[dir + [excludedSubdirs[n]] := null];
      }
      assert excludedSubdirs[..|excludedSubdirs|] == excludedSubdirs;
      error := None;
    }

    /** The end of the construction: the rules of the base directory, or its error. */
    method ApplyBaseDirectory() returns (error: Option<Error>)
      requires directoryRules == map[]
      modifies `directoryRules
      ensures match DirectoryRules(config, [])
        case Err(e) => error == Some(e)
        case Ok(_) => error == None && Valid()
    {
      var noRules := new Rules();
      ghost var added: Rules?;
      error, added := ApplyDirectoryRulesAndSkipSubdirs(noRules, []);
      if error == None {
        AddedIsValid(config, map[], [], added);
      }
    }

    /** The rules of a directory, from the cache or built on the way down from the nearest cached ancestor.
        Whatever was asked before, the answer is that of the specification, and what was cached stays. */
    method GetDirectoryRules(dir: Dir) returns (r: Result<Rules?>)
      requires Valid()
      modifies `directoryRules
      ensures Valid() && OnlyGrows(old(directoryRules), directoryRules)
      ensures match DirectoryRules(config, dir)
        case Err(e) => r == Err(e)
        case Ok(ruleSet) =>
          r.Ok? && dir in directoryRules && directoryRules[dir] == r.value &&
          ruleSet == if r.value == null then None else Some(r.value.Value())
      decreases |dir|
    {
      if dir in directoryRules {
        return Ok(directoryRules[dir]);
      }
      var parent := GetDirectoryRules(Parent(dir));
      if parent.Err? {
        return Err(parent.error);
      }
      if dir in directoryRules {
        return Ok(directoryRules[dir]);
      }
      ChildOfCached(config, dir, if parent.value == null then None else Some(parent.value.Value()));
      ghost var before := directoryRules;
      if parent.value != null {
        var error;
        ghost var added: Rules?;
        error, added := ApplyDirectoryRulesAndSkipSubdirs(parent.value, dir);
        if error != None {
          return Err(error.value);
        }
        AddedIsValid(config, before, dir, added);
      } else {
        directoryRules := directoryRules[dir := null];
        SkippedIsValid(config, before, dir);
      }
      return Ok(directoryRules[dir]);
    }
  }

  /** The first error is the error of the whole list, and additions add up. */
  lemma NextRule(config: Config, dir: Dir, ruleStrings: seq<string>, regexp: string, n: nat, ruleSet: RuleSet)
    requires n < |ruleStrings| && RuleList(config, dir, ruleStrings[..n], regexp).Ok?
    ensures var before, one, next := RuleList(config, dir, ruleStrings[..n], regexp),
                                     OneRule(config, dir, ruleStrings[n], regexp),
                                     RuleList(config, dir, ruleStrings[..n + 1], regexp);
      match one
      case Err(e) => RuleList(config, dir, ruleStrings, regexp) == Err(e)
      case Ok(log) => next == Ok(before.value + log) && AfterLog(ruleSet, next.value) == AfterLog(AfterLog(ruleSet, before.value), log)
  {
    assert ruleStrings[..n + 1][..n] == ruleStrings[..n];
    match OneRule(config, dir, ruleStrings[n], regexp)
    case Err(e) => ErrorStays(config, dir, ruleStrings, regexp, n + 1);
    case Ok(log) => LogsAddUp(ruleSet, RuleList(config, dir, ruleStrings[..n], regexp).value, log);
  }

  lemma {:induction false} ErrorStays(config: Config, dir: Dir, ruleStrings: seq<string>, regexp: string, n: nat)
    requires n <= |ruleStrings| && RuleList(config, dir, ruleStrings[..n], regexp).Err?
    ensures RuleList(config, dir, ruleStrings, regexp) == RuleList(config, dir, ruleStrings[..n], regexp)
    decreases |ruleStrings| - n
  {
    if n < |ruleStrings| {
      assert ruleStrings[..n + 1][..n] == ruleStrings[..n];
      ErrorStays(config, dir, ruleStrings, regexp, n + 1);
    } else {
      assert ruleStrings[..n] == ruleStrings;
    }
  }

  lemma NextList(config: Config, dir: Dir, lists: seq<(string, seq<string>)>, n: nat, ruleSet: RuleSet)
    requires n < |lists| && SpecificLists(config, dir, lists[..n]).Ok?
    ensures var before, one, next := SpecificLists(config, dir, lists[..n]),
                                     RuleList(config, dir, lists[n].1, lists[n].0),
                                     SpecificLists(config, dir, lists[..n + 1]);
      match one
      case Err(e) => SpecificLists(config, dir, lists) == Err(e)
      case Ok(log) => next == Ok(before.value + log) && AfterLog(ruleSet, next.value) == AfterLog(AfterLog(ruleSet, before.value), log)
  {
    assert lists[..n + 1][..n] == lists[..n];
    match RuleList(config, dir, lists[n].1, lists[n].0)
    case Err(e) => ListErrorStays(config, dir, lists, n + 1);
    case Ok(log) => LogsAddUp(ruleSet, SpecificLists(config, dir, lists[..n]).value, log);
  }

  lemma {:induction false} ListErrorStays(config: Config, dir: Dir, lists: seq<(string, seq<string>)>, n: nat)
    requires n <= |lists| && SpecificLists(config, dir, lists[..n]).Err?
    ensures SpecificLists(config, dir, lists) == SpecificLists(config, dir, lists[..n])
    decreases |lists| - n
  {
    if n < |lists| {
      assert lists[..n + 1][..n] == lists[..n];
      ListErrorStays(config, dir, lists, n + 1);
    } else {
      assert lists[..n] == lists;
    }
  }

  // ---------------------------------------------------------------- what keeps the cache right

  /** The cache `after` is `cache` with the rules of `dir` and with what it skips. */
  ghost predicate Extends(config: Config, cache: map<Dir, Rules?>, dir: Dir, added: Rules?, after: map<Dir, Rules?>) {
    forall d ::
      && (d in after <==> d in cache || d == dir || SkippedChild(config, dir, d))
      && (d in after ==> after[d] == if SkippedChild(config, dir, d) then null else if d == dir then added else cache[d])
  }

  lemma AddedExtends(config: Config, cache: map<Dir, Rules?>, dir: Dir, added: Rules?)
    ensures Extends(config, cache, dir, added, WithSkipped(cache[dir := added], dir, config.deps(dir).skipSubdirs))
  {
    var names := config.deps(dir).skipSubdirs;
    var after := WithSkipped(cache[dir := added], dir, names);
    forall d
      ensures d in after <==> d in cache || d == dir || SkippedChild(config, dir, d)
      ensures d in after ==> after[d] == if SkippedChild(config, dir, d) then null else if d == dir then added else cache[d]
    {
      SkippedEntry(cache[dir := added], dir, names, d);
    }
  }

  lemma SkippedIsNone(config: Config, dir: Dir, child: Dir)
    requires DirectoryRules(config, dir).Ok? && DirectoryRules(config, dir).value.Some? && SkippedChild(config, dir, child)
    ensures DirectoryRules(config, child) == Ok(None)
  {
  }

  lemma ExtendedCaches(config: Config, cache: map<Dir, Rules?>, dir: Dir, added: Rules?, after: map<Dir, Rules?>, d: Dir)
    requires EntriesRight(config, cache) && Extends(config, cache, dir, added, after)
    requires added != null && Caches(config, dir, added) && d in after
    ensures Caches(config, d, after[d])
  {
    if SkippedChild(config, dir, d) {
      SkippedIsNone(config, dir, d);
    }
  }

  lemma ExtendedIsClosed(config: Config, cache: map<Dir, Rules?>, dir: Dir, added: Rules?, after: map<Dir, Rules?>)
    requires ParentsCached(cache) && SkipsCached(config, cache) && dir !in cache && (dir != [] ==> Parent(dir) in cache)
    requires Extends(config, cache, dir, added, after)
    ensures ParentsCached(after) && SkipsCached(config, after)
    ensures OnlyGrows(cache, after) && dir in after && after[dir] == added
  {
    forall d | d in cache || d == dir ensures !SkippedChild(config, dir, d) {
    }
  }

  /** Adding a directory and what it skips to a right cache makes a right cache, and replaces nothing. */
  lemma AddedIsValid(config: Config, cache: map<Dir, Rules?>, dir: Dir, added: Rules?)
    requires CacheRight(config, cache) && dir !in cache && added != null
    requires dir != [] ==> Parent(dir) in cache
    requires Caches(config, dir, added)
    ensures var after := WithSkipped(cache[dir := added], dir, config.deps(dir).skipSubdirs);
      CacheRight(config, after) && OnlyGrows(cache, after) && dir in after && after[dir] == added
  {
    var after := WithSkipped(cache[dir := added], dir, config.deps(dir).skipSubdirs);
    AddedExtends(config, cache, dir, added);
    forall d | d in after ensures Caches(config, d, after[d]) {
      ExtendedCaches(config, cache, dir, added, after, d);
    }
    ExtendedIsClosed(config, cache, dir, added, after);
  }

  /** The child of a cached parent that the parent does not skip has the parent's rules, extended, or is skipped with it. */
  lemma ChildOfCached(config: Config, dir: Dir, parentRules: Option<RuleSet>)
    requires dir != [] && DirectoryRules(config, Parent(dir)) == Ok(parentRules)
    requires parentRules.Some? ==> !SkippedChild(config, Parent(dir), dir)
    ensures DirectoryRules(config, dir) == if parentRules.None? then Ok(None) else Extended(config, dir, parentRules.value)
  {
  }

  /** Caching a directory as skipped because its parent is. */
  lemma SkippedIsValid(config: Config, cache: map<Dir, Rules?>, dir: Dir)
    requires CacheRight(config, cache) && dir !in cache && dir != [] && Parent(dir) in cache
    requires DirectoryRules(config, dir) == Ok(None)
    ensures CacheRight(config, cache[dir := null]) && OnlyGrows(cache, cache[dir := null])
  {
    assert EntriesRight(config, cache[dir := null]);
  }
}
