/**
 * The lenient engine of engine.js: `filter`, `buildScope`, `buildSubjectLine`, `buildIssues`,
 * the type choices, the question list (a scope list when scopes are configured, a subject
 * limited only by the 72-character header), and the composition of the commit message, which
 * normalises the breaking-change prefix and always separates body and footer by a blank line.
 * word-wrap is the parameter `wrap`, standing for `wrap(s, wrapOptions)` with width 100.
 */
module LenientEngine {
  import opened Js
  import opened Prompt

  const MaxSubjectLineLength := 72
  const BreakingPrefix := "BREAKING CHANGE: "
  const FooterSeparator := "\n\n"

  // ---------------------------------------------------------------------------------------
  // filter and join

  /** `filter`: the truthy (non-empty) strings of the list. */
  function Filter(xs: seq<string>): (r: seq<string>)
    ensures |r| <= |xs|
    ensures forall k :: 0 <= k < |r| ==> r[k] != ""
    ensures forall x :: x in r <==> x in xs && x != ""
  {
    if xs == [] then []
    else
      assert xs == [xs[0]] + xs[1..];
      (if xs[0] != "" then [xs[0]] else []) + Filter(xs[1..])
  }

  /** Filtering a concatenation filters each part: the kept strings stay in their order. */
  lemma {:induction false} FilterAppend(xs: seq<string>, ys: seq<string>)
    ensures Filter(xs + ys) == Filter(xs) + Filter(ys)
  {
    if xs == [] {
      assert xs + ys == ys;
    } else {
      assert (xs + ys)[0] == xs[0];
      assert (xs + ys)[1..] == xs[1..] + ys;
      FilterAppend(xs[1..], ys);
    }
  }

  /** `Array.prototype.join`. */
  function Join(sep: string, xs: seq<string>): string {
    if xs == [] then ""
    else if |xs| == 1 then xs[0]
    else xs[0] + sep + Join(sep, xs[1..])
  }

  /** The footer of two segments: a missing segment adds no separator. */
  lemma FooterOfTwo(breaking: string, issues: string)
    ensures Join(FooterSeparator, Filter([breaking, issues])) ==
      if breaking == "" then issues
      else if issues == "" then breaking
      else breaking + FooterSeparator + issues
  {
    assert [breaking, issues] == [breaking] + [issues];
    FilterAppend([breaking], [issues]);
    assert Filter([breaking]) == (if breaking != "" then [breaking] else []) + Filter([]);
    assert Filter([issues]) == (if issues != "" then [issues] else []) + Filter([]);
  }

  // ---------------------------------------------------------------------------------------
  // Header

  /** `buildScope`. */
  function BuildScope(scope: string): string {
    var builtScope := Trim(scope);
    if builtScope != "" then "(" + builtScope + ")" else ""
  }

  /** `buildSubjectLine(answers, subject = answers.subject)`. */
  function BuildSubjectLine(answers: Answers, subject: Option<string> := answers.subject): string
    requires answers.commitType.Some? && answers.scope.Some? && subject.Some?
  {
    answers.commitType.value + BuildScope(answers.scope.value) + ": " + Trim(subject.value)
  }

  /** The header's length is the sum of its parts: nothing is cut. */
  lemma SubjectLineLength(answers: Answers, subject: Option<string>)
    requires answers.commitType.Some? && answers.scope.Some? && subject.Some?
    ensures JsLength(BuildSubjectLine(answers, subject)) ==
      JsLength(answers.commitType.value) + JsLength(BuildScope(answers.scope.value)) + 2 + JsLength(Trim(subject.value))
  {
    JsLengthAppend4(answers.commitType.value, BuildScope(answers.scope.value), ": ", Trim(subject.value));
  }

  // ---------------------------------------------------------------------------------------
  // Issue references

  predicate IsUpper(c: char) { 'A' <= c <= 'Z' }
  predicate IsDigit(c: char) { '0' <= c <= '9' }

  /** `t` is a word of `[A-Z]+-[0-9]+`. */
  predicate IsIssueKey(t: string) {
    exists k :: 0 < k < |t| - 1 && t[k] == '-'
      && (forall m :: 0 <= m < k ==> IsUpper(t[m]))
      && (forall m :: k < m < |t| ==> IsDigit(t[m]))
  }

  /** Some part of `s` is a word of the pattern. */
  predicate HasIssueKey(s: string) {
    exists i, j :: 0 <= i <= j <= |s| && IsIssueKey(s[i..j])
  }

  /** `s[i..j]` is the match a regular expression search finds: no part of `s` that starts
      before `i` matches, and no longer part starting at `i` does. */
  predicate LeftmostLongest(s: string, i: int, j: int) {
    && 0 <= i <= j <= |s| && IsIssueKey(s[i..j])
    && (forall i', j' :: 0 <= i' < i && i' <= j' <= |s| ==> !IsIssueKey(s[i'..j']))
    && (forall j' :: j < j' <= |s| ==> !IsIssueKey(s[i..j']))
  }

  /** The end of the run of uppercase letters starting at `i`. */
  function UpperRunEnd(s: string, i: nat): (j: nat)
    requires i <= |s|
    ensures i <= j <= |s|
    ensures forall k :: i <= k < j ==> IsUpper(s[k])
    ensures j == |s| || !IsUpper(s[j])
    decreases |s| - i
  {
    if i < |s| && IsUpper(s[i]) then UpperRunEnd(s, i + 1) else i
  }

  /** The end of the run of digits starting at `i`. */
  function DigitRunEnd(s: string, i: nat): (j: nat)
    requires i <= |s|
    ensures i <= j <= |s|
    ensures forall k :: i <= k < j ==> IsDigit(s[k])
    ensures j == |s| || !IsDigit(s[j])
    decreases |s| - i
  {
    if i < |s| && IsDigit(s[i]) then DigitRunEnd(s, i + 1) else i
  }

  /** Where the greedy match of `[A-Z]+-[0-9]+` that starts at `i` ends, if one starts there:
      `[A-Z]+` takes the whole run of letters (giving some back cannot put a `-` next), then
      `-`, then `[0-9]+` the whole run of digits. */
  function MatchEnd(s: string, i: nat): Option<nat>
    requires i <= |s|
  {
    var u := UpperRunEnd(s, i);
    if u > i && u < |s| && s[u] == '-' && DigitRunEnd(s, u + 1) > u + 1 then Some(DigitRunEnd(s, u + 1))
    else None
  }

  /** A run of uppercase letters from `i` to `m` followed by something else ends at `m`. */
  lemma {:induction false} UpperRunStops(s: string, i: nat, m: nat)
    requires i <= m <= |s|
    requires forall k :: i <= k < m ==> IsUpper(s[k])
    requires m == |s| || !IsUpper(s[m])
    ensures UpperRunEnd(s, i) == m
    decreases m - i
  {
    if i < m {
      UpperRunStops(s, i + 1, m);
    }
  }

  /** A run of digits from `i` to `j` makes the digit run starting at `i` reach at least `j`. */
  lemma {:induction false} DigitRunReaches(s: string, i: nat, j: nat)
    requires i <= j <= |s|
    requires forall k :: i <= k < j ==> IsDigit(s[k])
    ensures DigitRunEnd(s, i) >= j
    decreases j - i
  {
    if i < j {
      DigitRunReaches(s, i + 1, j);
    }
  }

  /** Letters of the part `s[i..j]` are letters of `s`. */
  lemma UpperInSlice(s: string, i: nat, j: nat, k: nat)
    requires i + k <= j <= |s|
    requires forall m :: 0 <= m < k ==> IsUpper(s[i..j][m])
    ensures forall m :: i <= m < i + k ==> IsUpper(s[m])
  {
    forall m | i <= m < i + k ensures IsUpper(s[m]) {
      assert s[m] == s[i..j][m - i];
    }
  }

  /** Digits of the part `s[i..j]` are digits of `s`. */
  lemma DigitsInSlice(s: string, i: nat, j: nat, k: nat)
    requires i + k <= j <= |s|
    requires forall m :: k < m < j - i ==> IsDigit(s[i..j][m])
    ensures forall m :: i + k < m < j ==> IsDigit(s[m])
  {
    forall m | i + k < m < j ensures IsDigit(s[m]) {
      assert s[m] == s[i..j][m - i];
    }
  }

  /** Any word of the pattern starting at `i` is covered by the match MatchEnd finds there. */
  lemma KeyWithinMatch(s: string, i: nat, j: nat)
    requires i <= j <= |s| && IsIssueKey(s[i..j])
    ensures MatchEnd(s, i).Some? && j <= MatchEnd(s, i).value
  {
    var t := s[i..j];
    var k :| 0 < k < |t| - 1 && t[k] == '-'
      && (forall m :: 0 <= m < k ==> IsUpper(t[m]))
      && (forall m :: k < m < |t| ==> IsDigit(t[m]));
    UpperInSlice(s, i, j, k);
    DigitsInSlice(s, i, j, k);
    assert s[i + k] == t[k];
    UpperRunStops(s, i, i + k);
    DigitRunReaches(s, i + k + 1, j);
  }

  /** What MatchEnd finds is a word of the pattern. */
  lemma MatchIsKey(s: string, i: nat)
    requires i <= |s| && MatchEnd(s, i).Some?
    ensures i <= MatchEnd(s, i).value <= |s| && IsIssueKey(s[i..MatchEnd(s, i).value])
  {
    var j := MatchEnd(s, i).value;
    var u := UpperRunEnd(s, i);
    var t := s[i..j];
    var k := u - i;
    assert t[k] == '-';
    assert forall m :: 0 <= m < k ==> IsUpper(t[m]) by {
      forall m | 0 <= m < k ensures IsUpper(t[m]) {
        assert t[m] == s[i + m];
      }
    }
    assert forall m :: k < m < |t| ==> IsDigit(t[m]) by {
      forall m | k < m < |t| ensures IsDigit(t[m]) {
        assert t[m] == s[i + m];
      }
    }
  }

  /** MatchEnd finds exactly the longest word of the pattern starting at `i`. */
  lemma MatchEndSpec(s: string, i: nat)
    requires i <= |s|
    ensures MatchEnd(s, i).None? ==> forall j :: i <= j <= |s| ==> !IsIssueKey(s[i..j])
    ensures MatchEnd(s, i).Some? ==>
      var j := MatchEnd(s, i).value;
      && i <= j <= |s| && IsIssueKey(s[i..j])
      && forall j' :: j < j' <= |s| ==> !IsIssueKey(s[i..j'])
  {
    forall j | i <= j <= |s| && IsIssueKey(s[i..j])
      ensures MatchEnd(s, i).Some? && j <= MatchEnd(s, i).value
    {
      KeyWithinMatch(s, i, j);
    }
    if MatchEnd(s, i).Some? {
      MatchIsKey(s, i);
    }
  }

  /** The first position at or after `from` where a match starts, with the end of that match. */
  function FirstMatch(s: string, from: nat): (r: Option<(nat, nat)>)
    requires from <= |s|
    ensures r.None? ==> forall i :: from <= i <= |s| ==> MatchEnd(s, i).None?
    ensures r.Some? ==> && from <= r.value.0 <= |s| && MatchEnd(s, r.value.0) == Some(r.value.1)
                        && forall i :: from <= i < r.value.0 ==> MatchEnd(s, i).None?
    decreases |s| - from
  {
    if MatchEnd(s, from).Some? then Some((from, MatchEnd(s, from).value))
    else if from == |s| then None
    else FirstMatch(s, from + 1)
  }

  /** `buildIssues`: `issues.replace(/([A-Z]+-[0-9]+)/, "$1, #$1")`. */
  function BuildIssues(issues: string): string {
    match FirstMatch(issues, 0)
    case None => issues
    case Some((i, j)) => issues[..i] + issues[i..j] + ", #" + issues[i..j] + issues[j..]
  }

  /** FirstMatch from the start finds the leftmost-longest match, and none when no part matches. */
  lemma FirstMatchIsLeftmostLongest(s: string)
    ensures FirstMatch(s, 0).None? <==> !HasIssueKey(s)
    ensures FirstMatch(s, 0).Some? ==> LeftmostLongest(s, FirstMatch(s, 0).value.0, FirstMatch(s, 0).value.1)
  {
    var r := FirstMatch(s, 0);
    if r.None? {
      forall i, j | 0 <= i <= j <= |s| ensures !IsIssueKey(s[i..j]) {
        MatchEndSpec(s, i);
      }
    } else {
      var (i, j) := r.value;
      MatchEndSpec(s, i);
      forall i', j' | 0 <= i' < i && i' <= j' <= |s| ensures !IsIssueKey(s[i'..j']) {
        MatchEndSpec(s, i');
      }
    }
  }

  /** Two leftmost-longest matches are the same match. */
  lemma LeftmostLongestUnique(s: string, i1: int, j1: int, i2: int, j2: int)
    requires LeftmostLongest(s, i1, j1) && LeftmostLongest(s, i2, j2)
    ensures i1 == i2 && j1 == j2
  {
  }

  /** buildIssues leaves a string without an issue key alone, and otherwise rewrites only the
      leftmost match `T` into `T, #T`, keeping everything before and after it. */
  lemma BuildIssuesSpec(s: string)
    ensures !HasIssueKey(s) ==> BuildIssues(s) == s
    ensures HasIssueKey(s) ==> exists i, j :: LeftmostLongest(s, i, j)
    ensures forall i, j :: LeftmostLongest(s, i, j) ==>
      BuildIssues(s) == s[..i] + s[i..j] + ", #" + s[i..j] + s[j..]
    ensures BuildIssues(s) == s <==> !HasIssueKey(s)
  {
    FirstMatchIsLeftmostLongest(s);
    if HasIssueKey(s) {
      var (i, j) := FirstMatch(s, 0).value;
      forall i', j' | LeftmostLongest(s, i', j')
        ensures BuildIssues(s) == s[..i'] + s[i'..j'] + ", #" + s[i'..j'] + s[j'..]
      {
        LeftmostLongestUnique(s, i, j, i', j');
      }
      assert |BuildIssues(s)| > |s|;
    }
  }

  lemma BuildIssuesExamples()
    ensures BuildIssues("X-1") == "X-1, #X-1"
    ensures BuildIssues("#12") == "#12"
  {
  }

  // ---------------------------------------------------------------------------------------
  // Breaking change

  /** `replace(/^BREAKING CHANGE: /, '')`: one leading prefix removed. */
  function StripPrefix(s: string): string {
    if |BreakingPrefix| <= |s| && s[..|BreakingPrefix|] == BreakingPrefix then s[|BreakingPrefix|..] else s
  }

  /** The breaking text before wrapping, after the three rebindings of `breaking`. */
  function BreakingText(breaking: Option<string>): string {
    var b := if Truthy(breaking) then Trim(breaking.value) else "";
    if b != "" then BreakingPrefix + StripPrefix(b) else ""
  }

  /** An absent or blank description gives no breaking text. */
  lemma BlankBreakingIsEmpty(breaking: Option<string>)
    ensures BreakingText(breaking) == "" <==> breaking.None? || AllWhitespace(breaking.value)
  {
    if breaking.Some? {
      TrimEmptyIff(breaking.value);
    }
  }

  /** A non-blank description gets exactly one prefix: what follows it is the trimmed description
      with at most one leading prefix removed. */
  lemma BreakingTextHasOnePrefix(breaking: string)
    requires !AllWhitespace(breaking)
    ensures var t := Trim(breaking); var r := BreakingText(Some(breaking));
      && |BreakingPrefix| <= |r| && r[..|BreakingPrefix|] == BreakingPrefix
      && r == if |BreakingPrefix| <= |t| && t[..|BreakingPrefix|] == BreakingPrefix then t else BreakingPrefix + t
  {
    TrimEmptyIff(breaking);
  }

  /** Stripping the prefix from a text that ends in something other than whitespace leaves a
      non-empty text with the same last character (the prefix itself ends in a space). */
  lemma StripKeepsLast(t: string)
    requires t != "" && !IsWhitespace(t[|t| - 1])
    ensures var rest := StripPrefix(t); rest != "" && rest[|rest| - 1] == t[|t| - 1]
  {
    if |BreakingPrefix| <= |t| && t[..|BreakingPrefix|] == BreakingPrefix {
      assert t[|BreakingPrefix| - 1] == ' ';
      assert |t| > |BreakingPrefix|;
    }
  }

  /** A prefixed text that ends in something other than whitespace is already normal. */
  lemma PrefixedIsNormal(rest: string)
    requires rest != "" && !IsWhitespace(rest[|rest| - 1])
    ensures BreakingText(Some(BreakingPrefix + rest)) == BreakingPrefix + rest
  {
    var s := BreakingPrefix + rest;
    assert s[0] == 'B' && s[|s| - 1] == rest[|rest| - 1];
    TrimOfTrimmed(s);
    assert s[..|BreakingPrefix|] == BreakingPrefix;
    assert s[|BreakingPrefix|..] == rest;
  }

  /** Normalising twice is normalising once. */
  lemma NormaliseIdempotent(breaking: Option<string>)
    ensures BreakingText(Some(BreakingText(breaking))) == BreakingText(breaking)
  {
    var t := if Truthy(breaking) then Trim(breaking.value) else "";
    if t != "" {
      TrimSpec(breaking.value);
      StripKeepsLast(t);
      var rest := StripPrefix(t);
      PrefixedIsNormal(rest);
      assert BreakingText(breaking) == BreakingPrefix + rest;
    } else {
      assert BreakingText(breaking) == "";
    }
  }

  /** A description with or without the prefix gives the same breaking text. */
  lemma PrefixedSameAsPlain(description: string)
    requires description != "" && Trim(description) == description && StripPrefix(description) == description
    ensures BreakingText(Some(BreakingPrefix + description)) == BreakingText(Some(description))
    ensures BreakingText(Some(description)) == BreakingPrefix + description
  {
    TrimSpec(description);
    PrefixedIsNormal(description);
  }

  lemma PrefixExample()
    ensures BreakingText(Some("BREAKING CHANGE: foo")) == BreakingText(Some("foo")) == "BREAKING CHANGE: foo"
  {
    TrimOfTrimmed("foo");
    PrefixedSameAsPlain("foo");
  }

  // ---------------------------------------------------------------------------------------
  // Type choices

  /** The choices built in the engine function, aligned as in the strict engine. An empty
      catalog makes `longest` return null and the engine function throw, which is `None` here. */
  function TypeChoices(types: seq<TypeEntry>): (r: Option<seq<Choice>>)
    ensures r.None? <==> types == []
    ensures r.Some? ==> AlignedChoices(types, r.value)
  {
    match Longest(Keys(types))
    case None => None
    case Some(longestKey) =>
      var typeLength := JsLength(longestKey) + 1;
      LongestHasMaxLength(Keys(types));
      ChoicesAligned(types, typeLength);
      Some(ChoicesOfWidth(types, typeLength))
  }

  // ---------------------------------------------------------------------------------------
  // Questions

  /** The one validation rule: the subject question's length check. */
  datatype Rule = SubjectLength

  /** The subject validator: the header built from the answers so far and the candidate subject
      is at most 72 code units. `false` makes the runner ask again. */
  function ValidSubject(input: string, answers: Answers): bool
    requires answers.commitType.Some? && answers.scope.Some?
  {
    JsLength(BuildSubjectLine(answers, Some(input))) <= MaxSubjectLineLength
  }

  /** The subject rule counts code units of type, scope part, separator and trimmed subject,
      and nothing else: no emptiness or casing check. */
  lemma SubjectRuleIsLengthOnly(input: string, answers: Answers)
    requires answers.commitType.Some? && answers.scope.Some?
    ensures ValidSubject(input, answers) <==>
      JsLength(answers.commitType.value) + JsLength(BuildScope(answers.scope.value)) + 2 + JsLength(Trim(input))
        <= MaxSubjectLineLength
  {
    SubjectLineLength(answers, Some(input));
  }

  /** A blank or capitalised subject passes. */
  lemma SubjectRuleExamples()
    ensures ValidSubject("", NoAnswers.(commitType := Some("fix"), scope := Some("")))
    ensures ValidSubject("Fix", NoAnswers.(commitType := Some("fix"), scope := Some("")))
  {
    SubjectRuleIsLengthOnly("", NoAnswers.(commitType := Some("fix"), scope := Some("")));
    SubjectRuleIsLengthOnly("Fix", NoAnswers.(commitType := Some("fix"), scope := Some("")));
    TrimOfTrimmed("Fix");
  }

  function Check(rule: Rule, input: string, answers: Answers): bool
    requires answers.commitType.Some? && answers.scope.Some?
  {
    match rule
    case SubjectLength => ValidSubject(input, answers)
  }

  /** The question list handed to `cz.prompt`. */
  function Questions(opts: Options, choices: seq<Choice>): seq<Question<Rule>> {
    [ Question(List(choices), "type", TextDefault(opts.defaultType), None, Always),
      Question(if opts.scopes.Some? then TextList(opts.scopes.value) else Input, "scope",
        TextDefault(opts.defaultScope), None, Always),
      Question(Input, "subject", TextDefault(opts.defaultSubject), Some(SubjectLength), Always),
      Question(Input, "body", TextDefault(opts.defaultBody), None, Always),
      Question(Confirm, "isBreaking", Some(Flag(false)), None, Always),
      Question(Input, "breaking", None, None, WhenIsBreaking),
      Question(Confirm, "isIssueAffected", Some(Flag(Truthy(opts.defaultIssues))), None, Always),
      Question(Input, "issues",
        if Truthy(opts.defaultIssues) then TextDefault(opts.defaultIssues) else None, None, WhenIsIssueAffected)
    ]
  }

  /** The engine function: the choices are built when it is called, which throws for an empty
      catalog; the questions are what its prompter asks. */
  function Engine(opts: Options): (r: Option<seq<Question<Rule>>>)
    ensures r.None? <==> opts.types == []
    ensures r.Some? ==> |r.value| == 8 && r.value[0].kind.List?
                        && AlignedChoices(opts.types, r.value[0].kind.choices)
  {
    match TypeChoices(opts.types)
    case None => None
    case Some(choices) => Some(Questions(opts, choices))
  }

  /** The scope question is a list of the configured scopes when there are any, free text
      otherwise, and has no validator; only the subject question validates. */
  lemma ScopeQuestionRules(opts: Options, choices: seq<Choice>)
    ensures var qs := Questions(opts, choices);
      forall i :: 0 <= i < |qs| ==>
        && (qs[i].validate.Some? <==> qs[i].name == "subject")
        && (qs[i].name == "scope" ==>
              qs[i].kind == if opts.scopes.Some? then TextList(opts.scopes.value) else Input)
  {
  }

  /** Every question is asked, except `breaking`, asked exactly when `isBreaking` was answered
      yes, and `issues`, asked exactly when `isIssueAffected` was. */
  lemma VisibilityRules(opts: Options, choices: seq<Choice>, a: Answers)
    ensures var qs := Questions(opts, choices);
      forall i :: 0 <= i < |qs| ==>
        (Shown(qs[i].when, a) <==>
          && (qs[i].name == "breaking" ==> a.isBreaking == Some(true))
          && (qs[i].name == "issues" ==> a.isIssueAffected == Some(true)))
  {
  }

  /** `isBreaking` defaults to no; `isIssueAffected` defaults to yes exactly when a non-empty
      default issue reference is configured, which is then the default of `issues`. */
  lemma DefaultRules(opts: Options, choices: seq<Choice>)
    ensures var qs := Questions(opts, choices);
      forall i :: 0 <= i < |qs| ==>
        && (qs[i].name == "isBreaking" ==> qs[i].default == Some(Flag(false)))
        && (qs[i].name == "isIssueAffected" ==> qs[i].default == Some(Flag(Truthy(opts.defaultIssues))))
        && (qs[i].name == "issues" ==>
              qs[i].default == if Truthy(opts.defaultIssues) then Some(Text(opts.defaultIssues.value)) else None)
  {
  }

  // ---------------------------------------------------------------------------------------
  // Composition

  /** What the callback needs of an answer set not to throw: the text answers it trims or wraps. */
  predicate Composable(a: Answers) {
    a.commitType.Some? && a.scope.Some? && a.subject.Some? && a.body.Some?
  }

  function IssuesSegment(issues: Option<string>, wrap: string -> string): string {
    if Truthy(issues) then wrap(BuildIssues(issues.value)) else ""
  }

  /** The footer: the wrapped breaking text and issues joined by a blank line, empty ones left out. */
  function Footer(a: Answers, wrap: string -> string): string {
    Join(FooterSeparator, Filter([wrap(BreakingText(a.breaking)), IssuesSegment(a.issues, wrap)]))
  }

  /** The `.then` callback. */
  function Compose(a: Answers, wrap: string -> string): string
    requires Composable(a)
  {
    var subjectLine := BuildSubjectLine(a);
    var body := wrap(a.body.value);
    subjectLine + "\n\n" + body + "\n\n" + Footer(a, wrap)
  }

  /** The answer sets the runner can produce for these questions are the ones the callback
      accepts, and a skipped question leaves its key out. */
  lemma ConformingAnswersComposable(opts: Options, choices: seq<Choice>, a: Answers)
    requires Conforms(Questions(opts, choices), a)
    ensures Composable(a)
    ensures a.breaking.Some? <==> a.isBreaking == Some(true)
    ensures a.issues.Some? <==> a.isIssueAffected == Some(true)
  {
    var qs := Questions(opts, choices);
    assert Answered(a, qs[0].name) && Answered(a, qs[1].name) && Answered(a, qs[2].name);
    assert Answered(a, qs[3].name);
    assert Answered(a, qs[5].name) <==> Shown(qs[5].when, a);
    assert Answered(a, qs[7].name) <==> Shown(qs[7].when, a);
  }

  /** The callback reads neither `isBreaking` nor `isIssueAffected`: only whether `breaking` and
      `issues` are truthy. */
  lemma FlagsNotRead(a: Answers, wrap: string -> string, isBreaking: Option<bool>, isIssueAffected: Option<bool>)
    requires Composable(a)
    ensures Compose(a, wrap) == Compose(a.(isBreaking := isBreaking, isIssueAffected := isIssueAffected), wrap)
  {
  }

  /** The footer holds the wrapped breaking text and the wrapped issues, each only when it is
      non-empty, with a blank line between them only when both are there. */
  lemma FooterSpec(a: Answers, wrap: string -> string)
    ensures var b := wrap(BreakingText(a.breaking)); var i := IssuesSegment(a.issues, wrap);
      Footer(a, wrap) ==
        if b == "" then i else if i == "" then b else b + FooterSeparator + i
  {
    FooterOfTwo(wrap(BreakingText(a.breaking)), IssuesSegment(a.issues, wrap));
  }

  /** The header is the full subject line; the footer always follows a blank line after the body,
      so with no breaking change and no issues the message ends in a blank line. */
  lemma MessageLayout(a: Answers, wrap: string -> string)
    requires Composable(a)
    requires wrap("") == ""
    ensures var m := Compose(a, wrap); var h := BuildSubjectLine(a);
      |h| + 2 <= |m| && m[..|h| + 2] == h + "\n\n"
    ensures !Truthy(a.breaking) && !Truthy(a.issues) ==>
      Compose(a, wrap) == BuildSubjectLine(a) + "\n\n" + wrap(a.body.value) + "\n\n"
  {
    var m := Compose(a, wrap);
    var h := BuildSubjectLine(a);
    assert m == (h + "\n\n") + (wrap(a.body.value) + "\n\n" + Footer(a, wrap));
    if !Truthy(a.breaking) && !Truthy(a.issues) {
      FooterSpec(a, wrap);
      assert BreakingText(a.breaking) == "";
    }
  }

  /** When `isBreaking` was answered no, the skipped `breaking` question is absent, so the
      footer is the issues segment alone (given that wrapping nothing gives nothing). */
  lemma SkippedBreakingIsEmpty(opts: Options, choices: seq<Choice>, a: Answers, wrap: string -> string)
    requires Conforms(Questions(opts, choices), a)
    requires a.isBreaking == Some(false)
    requires wrap("") == ""
    ensures a.breaking == None
    ensures Footer(a, wrap) == IssuesSegment(a.issues, wrap)
  {
    ConformingAnswersComposable(opts, choices, a);
    FooterSpec(a, wrap);
  }

  /** With a prefixed or a plain description the message is the same. */
  lemma PrefixedMessageSameAsPlain(a: Answers, description: string, wrap: string -> string)
    requires Composable(a)
    requires description != "" && Trim(description) == description && StripPrefix(description) == description
    ensures Compose(a.(breaking := Some(BreakingPrefix + description)), wrap)
            == Compose(a.(breaking := Some(description)), wrap)
  {
    PrefixedSameAsPlain(description);
  }
}
