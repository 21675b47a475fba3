/**
 * The strict engine of src/engine.js: type choices, the question list with its `when`
 * predicates, defaults and validators (lowercase scope; non-empty, lowercase subject within
 * 72 characters of header), and the composition of the commit message from a finished answer
 * set. word-wrap is the parameter `wrap`, standing for `wrap(s, { trim: true, newline: '\n',
 * indent: '', width: 100 })`.
 */
module StrictEngine {
  import opened Js
  import opened Prompt

  const MaxSubjectLineLength := 72
  const BreakingPrefix := "BREAKING CHANGE: "

  // ---------------------------------------------------------------------------------------
  // Header

  /** `generateScope`: the trimmed scope in parentheses, or nothing for a blank scope. */
  function GenerateScope(scope: string): string {
    if Trim(scope) != "" then "(" + Trim(scope) + ")" else ""
  }

  /** `generateSubjectLine`: `type(scope): description`. */
  function GenerateSubjectLine(commitType: string, scope: string, description: string): string {
    commitType + GenerateScope(scope) + ": " + Trim(description)
  }

  /** The scope part is empty exactly for an all-whitespace scope, and otherwise parenthesises a
      scope with no surrounding whitespace; padding the scope with whitespace changes nothing. */
  lemma ScopeRule(scope: string)
    ensures GenerateScope(scope) == "" <==> AllWhitespace(scope)
    ensures !AllWhitespace(scope) ==>
      var t := Trim(scope);
      && GenerateScope(scope) == "(" + t + ")"
      && t != "" && !IsWhitespace(t[0]) && !IsWhitespace(t[|t| - 1])
    ensures GenerateScope(Trim(scope)) == GenerateScope(scope)
  {
    TrimEmptyIff(scope);
    TrimSpec(scope);
    TrimIdempotent(scope);
  }

  /** The header is never cut: it starts with the type, ends with the trimmed description, and
      its length is the sum of its parts. */
  lemma {:induction false} SubjectLineNotTruncated(commitType: string, scope: string, description: string)
    ensures var h := GenerateSubjectLine(commitType, scope, description); var d := Trim(description);
      && |commitType| + |d| <= |h|
      && h[..|commitType|] == commitType
      && h[|h| - |d|..] == d
      && JsLength(h) == JsLength(commitType) + JsLength(GenerateScope(scope)) + 2 + JsLength(d)
  {
    var d := Trim(description);
    var g := GenerateScope(scope);
    JsLengthAppend4(commitType, g, ": ", d);
    assert commitType + g + ": " + d == commitType + (g + ": " + d);
  }

  lemma SubjectLineExamples()
    ensures GenerateSubjectLine("fix", "", "x") == "fix: x"
    ensures GenerateSubjectLine("fix", "api", "x") == "fix(api): x"
    ensures GenerateSubjectLine("fix", " api ", " x ") == "fix(api): x"
  {
    assert Trim("x") == "x";
    assert Trim("api") == "api";
    assert TrimStart(" x ") == "x ";
    assert TrimStart(" api ") == "api ";
    assert TrimEnd("x ") == "x" by {
      assert "x "[..1] == "x";
    }
    assert TrimEnd("api ") == "api" by {
      assert "api "[..3] == "api";
    }
  }

  // ---------------------------------------------------------------------------------------
  // Type choices

  /** The choices built in `engine`: each key with a colon right-padded to one more than the
      longest key, a space and the description; the value is the key. An empty catalog makes
      `longest` return null and `engine` throw, which is `None` here. */
  function TypeChoices(types: seq<TypeEntry>): (r: Option<seq<Choice>>)
    ensures r.None? <==> types == []
    ensures r.Some? ==> AlignedChoices(types, r.value)
  {
    match Longest(Keys(types))
    case None => None
    case Some(l) =>
      var length := JsLength(l) + 1;
      LongestHasMaxLength(Keys(types));
      ChoicesAligned(types, length);
      Some(ChoicesOfWidth(types, length))
  }

  // ---------------------------------------------------------------------------------------
  // Validation

  /** Why a validator refuses an input; `ErrorMessage` gives the text it returns. */
  datatype Reason = ScopeCaseError | ScopeFormatError | SubjectEmptyError | SubjectCaseError | SubjectLengthError

  function ErrorMessage(r: Reason): string {
    match r
    case ScopeCaseError => "The scope must be lowercase."
    case ScopeFormatError => "You can only provide one scope."
    case SubjectEmptyError => "You must provide a description."
    case SubjectCaseError => "The description must begin with a lowercase character."
    case SubjectLengthError => "The entire subject line, \"type(scope): description\", can not exceed 72 characters."
  }

  /** What a `validate` function returns: `true`, or a refusal with its message. */
  datatype Verdict = Accepted | Rejected(reason: Reason)

  predicate IsUpper(c: char) { 'A' <= c <= 'Z' }
  predicate IsLower(c: char) { 'a' <= c <= 'z' }

  /** The character class `[a-z09]`: a lowercase letter or one of the digits 0 and 9. */
  predicate InScopeClass(c: char) { IsLower(c) || c == '0' || c == '9' }

  /** `/[A-Z]/.test(s)`. */
  function HasUpper(s: string): (r: bool)
    ensures r <==> exists i :: 0 <= i < |s| && IsUpper(s[i])
  {
    if s == "" then false
    else
      assert forall i :: 1 <= i < |s| ==> s[i] == s[1..][i - 1];
      IsUpper(s[0]) || HasUpper(s[1..])
  }

  /** `/^[a-z09]*$/.test(s)`. */
  function OnlyScopeClass(s: string): (r: bool)
    ensures r <==> forall i :: 0 <= i < |s| ==> InScopeClass(s[i])
  {
    if s == "" then true
    else
      assert forall i :: 1 <= i < |s| ==> s[i] == s[1..][i - 1];
      InScopeClass(s[0]) && OnlyScopeClass(s[1..])
  }

  /** The scope validator: on the trimmed input, any uppercase letter is the lowercase error;
      otherwise any character outside `[a-z09]` is the one-scope error; otherwise (the empty
      scope included) it accepts. */
  function ValidateScope(input: string): (v: Verdict)
    ensures var t := Trim(input);
      && (v == Accepted <==> forall i :: 0 <= i < |t| ==> InScopeClass(t[i]))
      && (v == Rejected(ScopeCaseError) <==> exists i :: 0 <= i < |t| && IsUpper(t[i]))
      && (v == Rejected(ScopeFormatError) <==>
            (forall i :: 0 <= i < |t| ==> !IsUpper(t[i])) && exists i :: 0 <= i < |t| && !InScopeClass(t[i]))
  {
    var t := Trim(input);
    if HasUpper(t) then Rejected(ScopeCaseError)
    else if !OnlyScopeClass(t) then Rejected(ScopeFormatError)
    else Accepted
  }

  /** The empty scope and a padded lowercase scope are accepted. */
  lemma ScopeAcceptedExamples()
    ensures ValidateScope("") == Accepted
    ensures ValidateScope(" api ") == Accepted
  {
    assert Trim(" api ") == "api" by {
      assert TrimStart(" api ") == "api ";
      assert "api "[..3] == "api";
    }
  }

  /** The literal class admits the digits 0 and 9 only: `v9` passes, `v2` is refused as more
      than one scope, like `a,b`; an uppercase letter is the lowercase error. */
  lemma ScopeDigitExamples()
    ensures ValidateScope("v9") == Accepted
    ensures ValidateScope("v2") == Rejected(ScopeFormatError)
    ensures ValidateScope("a,b") == Rejected(ScopeFormatError)
    ensures ValidateScope("Api") == Rejected(ScopeCaseError)
  {
    TrimOfTrimmed("v9");
    TrimOfTrimmed("v2");
    TrimOfTrimmed("a,b");
    TrimOfTrimmed("Api");
    assert !InScopeClass("v2"[1]);
    assert !InScopeClass("a,b"[1]);
    assert IsUpper("Api"[0]);
  }

  /** The subject validator: on the trimmed input, empty is refused first, then a first
      character that is not a lowercase letter, then a header (`type(scope): description`)
      that is longer than 72 code units; otherwise it accepts. */
  function ValidateSubject(input: string, commitType: string, scope: string): (v: Verdict)
    ensures v == Rejected(SubjectEmptyError) <==> AllWhitespace(input)
    ensures v == Rejected(SubjectCaseError) <==> Trim(input) != "" && !IsLower(Trim(input)[0])
    ensures v == Rejected(SubjectLengthError) <==>
      && Trim(input) != "" && IsLower(Trim(input)[0])
      && JsLength(GenerateSubjectLine(commitType, scope, input)) > MaxSubjectLineLength
    ensures v == Accepted <==>
      && Trim(input) != "" && IsLower(Trim(input)[0])
      && JsLength(GenerateSubjectLine(commitType, scope, input)) <= MaxSubjectLineLength
  {
    var t := Trim(input);
    TrimEmptyIff(input);
    TrimIdempotent(input);
    JsLengthBounds(t);
    if JsLength(t) == 0 then Rejected(SubjectEmptyError)
    else if !IsLower(t[0]) then Rejected(SubjectCaseError)
    else if JsLength(GenerateSubjectLine(commitType, scope, t)) > MaxSubjectLineLength then Rejected(SubjectLengthError)
    else Accepted
  }

  /** The validation rules the question records carry. */
  datatype Rule = ScopeCheck | SubjectCheck

  /** Running a rule on a candidate input and the answers so far. The subject rule reads the
      type and scope answers, which are given before the subject is asked. */
  function Check(rule: Rule, input: string, a: Answers): Verdict
    requires rule == SubjectCheck ==> a.commitType.Some? && a.scope.Some?
  {
    match rule
    case ScopeCheck => ValidateScope(input)
    case SubjectCheck => ValidateSubject(input, a.commitType.value, a.scope.value)
  }

  // ---------------------------------------------------------------------------------------
  // Questions

  /** The question list handed to `cz.prompt`. */
  function Questions(opts: Options, choices: seq<Choice>): seq<Question<Rule>> {
    [ Question(List(choices), "type",
        TextDefault(opts.defaultType), None, Always),
      Question(Input, "scope",
        TextDefault(opts.defaultScope), Some(ScopeCheck), Always),
      Question(Input, "subject",
        TextDefault(opts.defaultSubject), Some(SubjectCheck), Always),
      Question(Input, "body",
        TextDefault(opts.defaultBody), None, Always),
      Question(Confirm, "isBreaking",
        Some(Flag(false)), None, Always),
      Question(Input, "breaking",
        None, None, WhenIsBreaking),
      Question(Confirm, "isIssueAffected",
        Some(Flag(Truthy(opts.defaultIssues))), None, Always),
      Question(Input, "issues",
        if Truthy(opts.defaultIssues) then TextDefault(opts.defaultIssues) else None, None, WhenIsIssueAffected)
    ]
  }

  /** `engine(options)`: the choices are built when the engine is created, which throws for an
      empty catalog; the questions are what its prompter asks. */
  function Engine(opts: Options): (r: Option<seq<Question<Rule>>>)
    ensures r.None? <==> opts.types == []
    ensures r.Some? ==> |r.value| == 8 && r.value[0].kind.List?
                        && AlignedChoices(opts.types, r.value[0].kind.choices)
  {
    match TypeChoices(opts.types)
    case None => None
    case Some(choices) => Some(Questions(opts, choices))
  }

  /** Only the scope and subject questions validate, with the scope and subject rules. */
  lemma ValidatedQuestions(opts: Options, choices: seq<Choice>)
    ensures var qs := Questions(opts, choices);
      forall i :: 0 <= i < |qs| ==>
        && (qs[i].validate.Some? <==> qs[i].name == "scope" || qs[i].name == "subject")
        && (qs[i].name == "scope" ==> qs[i].validate == Some(ScopeCheck))
        && (qs[i].name == "subject" ==> qs[i].validate == Some(SubjectCheck))
  {
  }

  /** Every question is asked, except `breaking`, asked exactly when `isBreaking` was answered
      yes, and `issues`, asked exactly when `isIssueAffected` was. */
  lemma VisibilityRules(opts: Options, choices: seq<Choice>, a: Answers)
    ensures var qs := Questions(opts, choices);
      forall i :: 0 <= i < |qs| ==>
        (Shown(qs[i].when, a) <==>
          && (qs[i].name == "breaking" ==> a.isBreaking == Some(true))
          && (qs[i].name == "issues" ==> a.isIssueAffected == Some(true)))
  {
  }

  /** `isBreaking` defaults to no; `isIssueAffected` defaults to yes exactly when a non-empty
      default issue reference is configured, which is then the default of `issues`; without one,
      `issues` has no default. */
  lemma DefaultRules(opts: Options, choices: seq<Choice>)
    ensures var qs := Questions(opts, choices);
      forall i :: 0 <= i < |qs| ==>
        && (qs[i].name == "isBreaking" ==> qs[i].default == Some(Flag(false)))
        && (qs[i].name == "isIssueAffected" ==> qs[i].default == Some(Flag(Truthy(opts.defaultIssues))))
        && (qs[i].name == "issues" ==>
              qs[i].default == if Truthy(opts.defaultIssues) then Some(Text(opts.defaultIssues.value)) else None)
  {
  }

  // ---------------------------------------------------------------------------------------
  // Composition

  /** The key the composition callback destructures for the issues flag, as written
      (src/engine.js line 119); no question has this name. */
  const IssuesFlagAsWritten := "isIssues"
  /** The key of the question that asks whether issues are affected. */
  const IssuesFlag := "isIssueAffected"

  /** What the callback needs of an answer set not to throw: the text answers it trims are
      present, and so is `breaking` when `isBreaking` is yes. */
  predicate Composable(a: Answers) {
    && a.commitType.Some? && a.scope.Some? && a.subject.Some? && a.body.Some?
    && (a.isBreaking == Some(true) ==> a.breaking.Some?)
  }

  function BodySegment(body: string, wrap: string -> string): string {
    if Trim(body) != "" then wrap(Trim(body)) else ""
  }

  function BreakingSegment(isBreaking: Option<bool>, breaking: Option<string>, wrap: string -> string): string
    requires isBreaking == Some(true) ==> breaking.Some?
  {
    if isBreaking == Some(true) && Trim(breaking.value) != "" then wrap(BreakingPrefix + Trim(breaking.value))
    else ""
  }

  function IssuesSegment(isIssues: Option<bool>, issues: Option<string>, wrap: string -> string): string
    requires isIssues == Some(true) ==> issues.Some?
  {
    if isIssues == Some(true) && Trim(issues.value) != "" then wrap(Trim(issues.value)) else ""
  }

  /** The footer: the two segments, with a blank line between them only when both are there. */
  function Footer(breaking: string, issues: string): string {
    breaking + (if breaking != "" && issues != "" then "\n\n" else "") + issues
  }

  /** The message: header, blank line, body, and a blank line and the footer when there is one. */
  function Message(header: string, body: string, footer: string): string {
    header + "\n\n" + body + (if footer != "" then "\n\n" else "") + footer
  }

  /** The `.then` callback, reading the issues flag under the key `issuesFlag`. */
  function ComposeWith(issuesFlag: string, a: Answers, wrap: string -> string): string
    requires Composable(a)
    requires FlagNamed(a, issuesFlag) == Some(true) ==> a.issues.Some?
  {
    var subjectLine := GenerateSubjectLine(a.commitType.value, a.scope.value, a.subject.value);
    var body := BodySegment(a.body.value, wrap);
    var breaking := BreakingSegment(a.isBreaking, a.breaking, wrap);
    var issues := IssuesSegment(FlagNamed(a, issuesFlag), a.issues, wrap);
    Message(subjectLine, body, Footer(breaking, issues))
  }

  /** The callback as written: it reads the flag under `isIssues`. */
  function ComposeAsWritten(a: Answers, wrap: string -> string): string
    requires Composable(a)
  {
    ComposeWith(IssuesFlagAsWritten, a, wrap)
  }

  /** The callback as intended: it reads the flag of the `isIssueAffected` question. */
  function Compose(a: Answers, wrap: string -> string): string
    requires Composable(a)
    requires a.isIssueAffected == Some(true) ==> a.issues.Some?
  {
    ComposeWith(IssuesFlag, a, wrap)
  }

  /** The header of the message is the full subject line followed by a blank line. */
  lemma ComposeStartsWithHeader(issuesFlag: string, a: Answers, wrap: string -> string)
    requires Composable(a)
    requires FlagNamed(a, issuesFlag) == Some(true) ==> a.issues.Some?
    ensures var h := GenerateSubjectLine(a.commitType.value, a.scope.value, a.subject.value);
      var m := ComposeWith(issuesFlag, a, wrap);
      |h| + 2 <= |m| && m[..|h| + 2] == h + "\n\n"
  {
    var h := GenerateSubjectLine(a.commitType.value, a.scope.value, a.subject.value);
    var m := ComposeWith(issuesFlag, a, wrap);
    var rest := BodySegment(a.body.value, wrap)
      + (if Footer(BreakingSegment(a.isBreaking, a.breaking, wrap), IssuesSegment(FlagNamed(a, issuesFlag), a.issues, wrap)) != "" then "\n\n" else "")
      + Footer(BreakingSegment(a.isBreaking, a.breaking, wrap), IssuesSegment(FlagNamed(a, issuesFlag), a.issues, wrap));
    assert m == (h + "\n\n") + rest;
  }

  /** A subject the validator accepts keeps the message's header within 72 code units, so the
      header needs no truncation, and the header starts its description with a lowercase letter. */
  lemma AcceptedSubjectFitsHeader(a: Answers, wrap: string -> string)
    requires Composable(a)
    requires a.isIssueAffected == Some(true) ==> a.issues.Some?
    requires ValidateSubject(a.subject.value, a.commitType.value, a.scope.value) == Accepted
    ensures var h := GenerateSubjectLine(a.commitType.value, a.scope.value, a.subject.value);
      && JsLength(h) <= MaxSubjectLineLength
      && Compose(a, wrap)[..|h| + 2] == h + "\n\n"
      && IsLower(h[|h| - |Trim(a.subject.value)|])
  {
    ComposeStartsWithHeader(IssuesFlag, a, wrap);
    SubjectLineNotTruncated(a.commitType.value, a.scope.value, a.subject.value);
    var h := GenerateSubjectLine(a.commitType.value, a.scope.value, a.subject.value);
    var d := Trim(a.subject.value);
    assert h[|h| - |d|..][0] == d[0];
  }

  /** A blank body contributes nothing; any other body is wrapped after trimming. */
  lemma BlankBodyOmitted(body: string, wrap: string -> string)
    ensures AllWhitespace(body) ==> BodySegment(body, wrap) == ""
    ensures !AllWhitespace(body) ==> BodySegment(body, wrap) == wrap(Trim(body))
  {
    TrimEmptyIff(body);
  }

  /** Without a footer no blank line follows the body; with one, the message ends in a blank
      line and the footer. */
  lemma MessageLayout(header: string, body: string, footer: string)
    ensures footer == "" ==> Message(header, body, footer) == header + "\n\n" + body
    ensures footer != "" ==>
      var m := Message(header, body, footer);
      |footer| + 2 <= |m| && m[|m| - |footer| - 2..] == "\n\n" + footer
  {
    if footer != "" {
      var m := Message(header, body, footer);
      assert m == (header + "\n\n" + body) + ("\n\n" + footer);
    }
  }

  /** The answer sets the runner can produce for these questions are the ones the callback
      accepts, and a question that was skipped leaves its key out. */
  lemma ConformingAnswersComposable(opts: Options, choices: seq<Choice>, a: Answers)
    requires Conforms(Questions(opts, choices), a)
    ensures Composable(a)
    ensures a.isIssueAffected == Some(true) ==> a.issues.Some?
    ensures a.isBreaking.Some? && a.isIssueAffected.Some?
    ensures a.breaking.Some? <==> a.isBreaking == Some(true)
    ensures a.issues.Some? <==> a.isIssueAffected == Some(true)
  {
    var qs := Questions(opts, choices);
    assert Answered(a, qs[0].name) && Answered(a, qs[1].name) && Answered(a, qs[2].name);
    assert Answered(a, qs[3].name) && Answered(a, qs[4].name) && Answered(a, qs[6].name);
    assert Answered(a, qs[5].name) <==> Shown(qs[5].when, a);
    assert Answered(a, qs[7].name) <==> Shown(qs[7].when, a);
  }

  /** When `isBreaking` was answered no, the skipped `breaking` question is absent and the
      breaking segment is empty. */
  lemma SkippedBreakingIsEmpty(opts: Options, choices: seq<Choice>, a: Answers, wrap: string -> string)
    requires Conforms(Questions(opts, choices), a)
    requires a.isBreaking == Some(false)
    ensures a.breaking == None
    ensures BreakingSegment(a.isBreaking, a.breaking, wrap) == ""
  {
    ConformingAnswersComposable(opts, choices, a);
  }

  /** The breaking segment is the wrapped prefix and trimmed description exactly when
      `isBreaking` is yes and the description is not blank, and empty otherwise; the prefix is
      added whatever the description already starts with. */
  lemma BreakingSegmentRule(isBreaking: Option<bool>, breaking: string, wrap: string -> string)
    ensures BreakingSegment(isBreaking, Some(breaking), wrap) ==
      if isBreaking == Some(true) && !AllWhitespace(breaking) then wrap(BreakingPrefix + Trim(breaking)) else ""
  {
    TrimEmptyIff(breaking);
  }

  /** An already prefixed description gets the prefix twice. */
  lemma BreakingPrefixDoubled(description: string, wrap: string -> string)
    requires description != "" && Trim(description) == description
    ensures BreakingSegment(Some(true), Some(BreakingPrefix + description), wrap)
            == wrap(BreakingPrefix + BreakingPrefix + description)
  {
    var s := BreakingPrefix + description;
    TrimSpec(description);
    assert s[0] == 'B';
    assert s[|s| - 1] == description[|description| - 1];
    TrimOfTrimmed(s);
    assert BreakingPrefix + s == BreakingPrefix + BreakingPrefix + description;
  }

  /** No question of the list is named `isIssues`, so the key the callback reads is never set. */
  lemma NoIsIssuesQuestion(opts: Options, choices: seq<Choice>)
    ensures IssuesFlagAsWritten !in Names(Questions(opts, choices))
  {
  }

  /** As written, the issues segment is always empty, so the footer is the breaking segment
      alone; the message is the intended one for an answer set whose issues flag is no. */
  lemma AsWrittenDropsIssues(a: Answers, wrap: string -> string)
    requires Composable(a)
    ensures IssuesSegment(FlagNamed(a, IssuesFlagAsWritten), a.issues, wrap) == ""
    ensures ComposeAsWritten(a, wrap) ==
      Message(GenerateSubjectLine(a.commitType.value, a.scope.value, a.subject.value),
              BodySegment(a.body.value, wrap), BreakingSegment(a.isBreaking, a.breaking, wrap))
    ensures ComposeAsWritten(a, wrap) == Compose(a.(isIssueAffected := Some(false)), wrap)
  {
  }

  /** The issue reference the user typed is lost as written: with issues affected and `#1`
      given, the intended message ends with it and the written one does not. */
  lemma IssuesLostExample()
    ensures var a := Answers(Some("fix"), Some(""), Some("x"), Some(""), Some(false), None, Some(true), Some("#1"));
      && ComposeAsWritten(a, s => s) == "fix: x\n\n"
      && Compose(a, s => s) == "fix: x\n\n\n\n#1"
  {
    TrimOfTrimmed("x");
    TrimOfTrimmed("#1");
    assert GenerateSubjectLine("fix", "", "x") == "fix: x";
  }

  /** The intended callback keeps the issue references: a non-blank reference with issues
      affected ends the message (after the breaking segment, if any). */
  lemma ComposeKeepsIssues(a: Answers, wrap: string -> string)
    requires Composable(a)
    requires a.isIssueAffected == Some(true) && a.issues.Some? && !AllWhitespace(a.issues.value)
    requires wrap(Trim(a.issues.value)) != ""
    ensures var seg := wrap(Trim(a.issues.value)); var m := Compose(a, wrap);
      |seg| <= |m| && m[|m| - |seg|..] == seg
  {
    TrimEmptyIff(a.issues.value);
    var seg := wrap(Trim(a.issues.value));
    var b := BreakingSegment(a.isBreaking, a.breaking, wrap);
    var f := Footer(b, seg);
    assert IssuesSegment(FlagNamed(a, IssuesFlag), a.issues, wrap) == seg;
    assert f == (b + (if b != "" then "\n\n" else "")) + seg;
    MessageLayout(GenerateSubjectLine(a.commitType.value, a.scope.value, a.subject.value),
                  BodySegment(a.body.value, wrap), f);
  }

  /** An answer set with neither body nor footer gives the header and one blank line. */
  lemma EndToEndExample(wrap: string -> string)
    ensures Compose(Answers(Some("feat"), Some("api"), Some("x"), Some(""), Some(false), None, Some(false), None), wrap)
            == "feat(api): x\n\n"
  {
    TrimOfTrimmed("api");
    TrimOfTrimmed("x");
    assert GenerateSubjectLine("feat", "api", "x") == "feat(api): x";
  }
}
