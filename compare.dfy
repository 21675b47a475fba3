/**
 * How the two engines relate: they build the same header and the same footer layout, the
 * strict subject rule accepts only subjects the lenient one accepts, and the messages differ in
 * the separator before an empty footer and in the treatment of an already prefixed breaking
 * description.
 */
module Compare {
  import opened Js
  import opened Prompt
  import StrictEngine
  import LenientEngine

  /** Both engines build the same header from the same answers. */
  lemma SameSubjectLine(a: Answers)
    requires a.commitType.Some? && a.scope.Some? && a.subject.Some?
    ensures StrictEngine.GenerateSubjectLine(a.commitType.value, a.scope.value, a.subject.value)
            == LenientEngine.BuildSubjectLine(a)
  {
  }

  /** Both engines build the same type choices. */
  lemma SameChoices(types: seq<TypeEntry>)
    ensures StrictEngine.TypeChoices(types) == LenientEngine.TypeChoices(types)
  {
  }

  /** A subject the strict rule accepts passes the lenient rule. */
  lemma StrictSubjectPassesLenient(input: string, a: Answers)
    requires a.commitType.Some? && a.scope.Some?
    requires StrictEngine.ValidateSubject(input, a.commitType.value, a.scope.value) == StrictEngine.Accepted
    ensures LenientEngine.ValidSubject(input, a)
  {
    SameSubjectLine(a.(subject := Some(input)));
  }

  /** The converse fails: a capitalised subject passes the lenient rule only. */
  lemma CapitalisedSubjectSplitsEngines()
    ensures LenientEngine.ValidSubject("Fix", NoAnswers.(commitType := Some("fix"), scope := Some("")))
    ensures StrictEngine.ValidateSubject("Fix", "fix", "") == StrictEngine.Rejected(StrictEngine.SubjectCaseError)
  {
    LenientEngine.SubjectRuleExamples();
    TrimOfTrimmed("Fix");
  }

  /** The strict footer and the lenient `filter(...).join('\n\n')` lay out two segments alike. */
  lemma SameFooterLayout(breaking: string, issues: string)
    ensures StrictEngine.Footer(breaking, issues)
            == LenientEngine.Join(LenientEngine.FooterSeparator, LenientEngine.Filter([breaking, issues]))
  {
    LenientEngine.FooterOfTwo(breaking, issues);
  }

  /** With an empty body and no footer, the lenient message has one more blank line: it always
      puts a separator after the body, the strict one only before a footer. */
  lemma EmptyFooterSeparator(a: Answers, wrap: string -> string)
    requires StrictEngine.Composable(a) && a.body == Some("")
    requires a.isBreaking != Some(true) && a.isIssueAffected != Some(true)
    requires !Truthy(a.breaking) && !Truthy(a.issues)
    requires wrap("") == ""
    ensures LenientEngine.Compose(a, wrap) == StrictEngine.Compose(a, wrap) + "\n\n"
  {
    SameSubjectLine(a);
    LenientEngine.MessageLayout(a, wrap);
    assert Trim("") == "";
  }

  /** An already prefixed breaking description: the strict engine doubles the prefix, the
      lenient one keeps a single one. */
  lemma PrefixedBreakingSplitsEngines(description: string, wrap: string -> string)
    requires description != "" && Trim(description) == description
    requires LenientEngine.StripPrefix(description) == description
    ensures StrictEngine.BreakingSegment(Some(true), Some(StrictEngine.BreakingPrefix + description), wrap)
            == wrap(StrictEngine.BreakingPrefix + StrictEngine.BreakingPrefix + description)
    ensures wrap(LenientEngine.BreakingText(Some(LenientEngine.BreakingPrefix + description)))
            == wrap(LenientEngine.BreakingPrefix + description)
  {
    StrictEngine.BreakingPrefixDoubled(description, wrap);
    LenientEngine.PrefixedSameAsPlain(description);
  }
}
