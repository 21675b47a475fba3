# cz-conventional-changelog engines in Dafny

cz-conventional-changelog is a commitizen adapter. It asks the user a fixed series of questions
(type, scope, subject, body, breaking change, affected issues) and assembles a Conventional
Commits message from the answers. The repository holds two versions of the engine that behave
differently, and each is modelled separately:

- `src/engine.js` is the strict engine (module `StrictEngine`). Its scope must be lowercase and
  drawn from `[a-z09]`. Its subject must be non-empty, start lowercase, and fit a 72-character
  header. The footer separator appears only when there is a footer.
- `engine.js` is the lenient engine (module `LenientEngine`). Its scope may be picked from a
  configured list. The only subject check is the 72-character header. It normalises the
  breaking-change prefix, rewrites the leftmost issue key `ABC-12` into `ABC-12, #ABC-12`, and
  always puts a blank line between the body and the footer.

Both engines are pure, so the model is functional: datatypes, functions and lemmas.

- `Js` defines the JavaScript primitives the engines use:
  - `String.prototype.trim` with the ECMA-262 whitespace set;
  - `.length` in UTF-16 code units;
  - truthiness of an optional string;
  - the `longest` and `right-pad` packages.
- `Prompt` defines the shared records:
  - the options object;
  - the type catalog and the choices built from it;
  - the question record (kind, name, default, validator, `when` predicate);
  - the answer set, with a predicate `Conforms` saying which answer sets the prompt runner can
    hand back for a question list.
- `Compare` relates the two engines.

word-wrap is a function parameter `wrap: string -> string` of every composition function, so
nothing is assumed about it. The header is never truncated. The 72-character limit lives only
in the subject validators, and the lemmas show the header is built whole.

## Model

| member | source | states |
|---|---|---|
| Js.TrimSpec | src/engine.js:25-26 | `trim` keeps one contiguous part of its input. It removes only whitespace before and after that part, and the part neither starts nor ends with whitespace |
| Js.TrimStartSpec | src/engine.js:25 | removing leading whitespace keeps a suffix; the dropped part is whitespace and the kept part does not start with whitespace |
| Js.TrimEndSpec | src/engine.js:25 | removing trailing whitespace keeps a prefix; the dropped part is whitespace and the kept part does not end with whitespace |
| Js.TrimOfTrimmed | src/engine.js:55 | a string with no whitespace at either end is its own trim |
| Js.TrimIdempotent | src/engine.js:55 | trimming twice equals trimming once |
| Js.TrimEmptyIff | src/engine.js:25 | a string trims to empty exactly when every character is whitespace |
| Js.JsLengthAppend | src/engine.js:85 | the code-unit length of a concatenation is the sum of the lengths |
| Js.JsLengthAppend4 | src/engine.js:26 | the same for the four parts of a header |
| Js.JsLengthBounds | src/engine.js:76 | every character counts at least one and at most two code units |
| Js.SpacesSpec | src/engine.js:32 | the padding is exactly n spaces, n code units long |
| Js.RightPadSpec | src/engine.js:32 | `rightPad(s, n)` keeps `s` as a prefix and adds only spaces. It is exactly n code units long when `s` was shorter, and `s` itself otherwise |
| Js.MaxLength | src/engine.js:30 | an upper bound on every key's length that some key attains |
| Js.Longest | src/engine.js:30 | `longest` is null exactly for an empty list; otherwise it returns the first element of greatest length |
| Js.LongestHasMaxLength | src/engine.js:30 | the longest key is as long as the maximum length |
| Prompt.PaddedKeyLength | src/engine.js:32 | a padded key plus its space take exactly width + 1 code units |
| Prompt.PaddedLabelAligned | src/engine.js:32 | each caption has the form key, colon, spaces, description, and the description starts at column width + 1 |
| Prompt.ChoicesAligned | src/engine.js:30-34 | padding to one more than the longest key aligns every caption |
| StrictEngine.ScopeRule | src/engine.js:25 | the scope part is empty exactly for a blank scope. Otherwise it is `(` + trimmed scope + `)`, and extra whitespace around the scope changes nothing |
| StrictEngine.SubjectLineNotTruncated | src/engine.js:26 | the header starts with the type and ends with the trimmed description. Its length is the sum of its parts, so nothing is cut |
| StrictEngine.SubjectLineExamples | src/engine.js:25-26 | `fix` with an empty scope and `x` gives `fix: x`; `fix`/`api`/`x` gives `fix(api): x`; padded scope and subject give the same header |
| StrictEngine.TypeChoices | src/engine.js:30-34 | no choices (the engine throws) exactly for an empty catalog. Otherwise there is one choice per entry, in catalog order, each valued by its key and aligned to the longest key plus one |
| StrictEngine.HasUpper | src/engine.js:57 | `/[A-Z]/` matches exactly when some character is an uppercase letter |
| StrictEngine.OnlyScopeClass | src/engine.js:61 | `/^[a-z09]*$/` matches exactly when every character is a lowercase letter, `0` or `9` |
| StrictEngine.ValidateScope | src/engine.js:54-66 | on the trimmed input: accepted exactly when every character is in `[a-z09]` (so empty is accepted); the lowercase error exactly when some character is uppercase; the one-scope error exactly when none is uppercase but some is outside the class |
| StrictEngine.ScopeAcceptedExamples | src/engine.js:54-66 | the empty scope and ` api ` are accepted |
| StrictEngine.ScopeDigitExamples | src/engine.js:61-62 | `v9` is accepted; `v2` and `a,b` get the one-scope error; `Api` gets the lowercase error |
| StrictEngine.ValidateSubject | src/engine.js:73-91 | the empty error exactly for a blank input; the case error exactly when the trimmed input starts with something other than `a-z`; the length error exactly when it starts lowercase but the header is over 72 code units; accepted otherwise |
| StrictEngine.Engine | src/engine.js:28-34 | `engine` throws exactly for an empty catalog. Otherwise it asks eight questions, the first a list of the aligned type choices |
| StrictEngine.ValidatedQuestions | src/engine.js:42-118 | exactly the scope and subject questions carry a validator, each with its own rule |
| StrictEngine.VisibilityRules | src/engine.js:103-116 | every question is asked, except `breaking` (only when `isBreaking` is yes) and `issues` (only when `isIssueAffected` is yes) |
| StrictEngine.DefaultRules | src/engine.js:98-117 | `isBreaking` defaults to no. `isIssueAffected` defaults to yes exactly when a non-empty default issue is configured, and `issues` then defaults to it |
| StrictEngine.ComposeStartsWithHeader | src/engine.js:121-132 | the message starts with the full subject line and a blank line, whichever key the issues flag is read from |
| StrictEngine.AcceptedSubjectFitsHeader | src/engine.js:84-88 | for an accepted subject, the message's header fits in 72 code units and its description starts lowercase |
| StrictEngine.BlankBodyOmitted | src/engine.js:124 | a blank body contributes nothing; any other body is trimmed and wrapped |
| StrictEngine.MessageLayout | src/engine.js:130-132 | without a footer, nothing follows the body; with one, the message ends in a blank line and the footer |
| StrictEngine.ConformingAnswersComposable | src/engine.js:98-119 | answer sets the runner can produce have all four text answers. `breaking` is present exactly when `isBreaking` is yes, and `issues` exactly when `isIssueAffected` is |
| StrictEngine.SkippedBreakingIsEmpty | src/engine.js:125-127 | when `isBreaking` is no, `breaking` is absent and the breaking segment is empty |
| StrictEngine.BreakingSegmentRule | src/engine.js:125-127 | the breaking segment is `wrap('BREAKING CHANGE: ' + trimmed description)` exactly when `isBreaking` is yes and the description is not blank, and empty otherwise; the prefix is added whatever the description starts with |
| StrictEngine.BreakingPrefixDoubled | src/engine.js:125-127 | an already prefixed description gets the prefix twice |
| StrictEngine.NoIsIssuesQuestion | src/engine.js:42-119 | no question is named `isIssues`, the key the callback reads |
| StrictEngine.AsWrittenDropsIssues | src/engine.js:119-132 | as written, the issues segment is always empty and the footer is the breaking segment alone. The message equals the intended one computed with an issues flag of no |
| StrictEngine.IssuesLostExample | src/engine.js:128 | with issues affected and `#1` given, the written callback gives `fix: x` and a blank line; the intended one ends with `#1` |
| StrictEngine.ComposeKeepsIssues | src/engine.js:128-132 | the intended callback ends the message with the wrapped issue references whenever issues are affected and the references are not blank |
| StrictEngine.EndToEndExample | src/engine.js:121-132 | `feat`/`api`/`x` with no body and no footer gives `feat(api): x` and a blank line |
| LenientEngine.Filter | engine.js:8-12 | keeps exactly the non-empty strings, never more than it was given |
| LenientEngine.FilterAppend | engine.js:8-12 | filtering a concatenation filters each part, so the kept strings stay in order |
| LenientEngine.FooterOfTwo | engine.js:137 | joining the filtered pair puts a blank line between the two segments only when both are non-empty; a missing one adds no separator |
| LenientEngine.SubjectLineLength | engine.js:19-21 | the header length is type plus scope part plus 2 plus trimmed subject length, in code units |
| LenientEngine.UpperRunEnd | engine.js:24 | the run of uppercase letters from i ends at the first position that is not one |
| LenientEngine.DigitRunEnd | engine.js:24 | the run of digits from i ends at the first position that is not one |
| LenientEngine.UpperRunStops | engine.js:24 | a maximal letter run from i to m ends at m |
| LenientEngine.DigitRunReaches | engine.js:24 | a run of digits from i to j makes the digit run reach j |
| LenientEngine.KeyWithinMatch | engine.js:24 | every word of `[A-Z]+-[0-9]+` starting at i lies within the greedy match at i |
| LenientEngine.MatchIsKey | engine.js:24 | the greedy match at i is a word of `[A-Z]+-[0-9]+` |
| LenientEngine.MatchEndSpec | engine.js:24 | there is no match at i exactly when no part starting at i is a word of the pattern; otherwise the match is the longest such word |
| LenientEngine.FirstMatch | engine.js:24 | the first start position with a match, and no match between the starting point and it |
| LenientEngine.FirstMatchIsLeftmostLongest | engine.js:24 | the search finds nothing exactly when no part of the string is an issue key. Otherwise it finds the leftmost start and the longest key there |
| LenientEngine.LeftmostLongestUnique | engine.js:24 | there is only one leftmost-longest match |
| LenientEngine.BuildIssuesSpec | engine.js:23-25 | `buildIssues` changes its input exactly when the input holds an issue key. It then rewrites only the leftmost-longest key T into `T, #T` and keeps every character before and after |
| LenientEngine.BuildIssuesExamples | engine.js:23-25 | `X-1` becomes `X-1, #X-1`; `#12` is unchanged |
| LenientEngine.BlankBreakingIsEmpty | engine.js:131-132 | the breaking text is empty exactly for an absent or blank description |
| LenientEngine.BreakingTextHasOnePrefix | engine.js:131-132 | a non-blank description gives a text that starts with one `BREAKING CHANGE: `. It is the trimmed description when that already had the prefix, and the prefix plus the trimmed description otherwise |
| LenientEngine.StripKeepsLast | engine.js:132 | removing the leading prefix from a trimmed text leaves a non-empty text with the same last character |
| LenientEngine.PrefixedIsNormal | engine.js:131-132 | a prefixed, trimmed text is its own normal form |
| LenientEngine.NormaliseIdempotent | engine.js:131-132 | normalising the breaking text twice equals normalising it once |
| LenientEngine.PrefixedSameAsPlain | engine.js:131-132 | a trimmed description with or without the prefix gives the same text, the prefix plus the description |
| LenientEngine.PrefixExample | engine.js:132 | `BREAKING CHANGE: foo` and `foo` both give `BREAKING CHANGE: foo` |
| LenientEngine.TypeChoices | engine.js:32-38 | no choices (the engine throws) exactly for an empty catalog. Otherwise there is one choice per entry, in catalog order, each valued by its key and aligned to the longest key plus one |
| LenientEngine.SubjectRuleIsLengthOnly | engine.js:80-82 | the subject is accepted exactly when type, scope part, separator and trimmed subject fit in 72 code units; there is no emptiness or casing check |
| LenientEngine.SubjectRuleExamples | engine.js:80-82 | an empty subject and a capitalised one are accepted |
| LenientEngine.Engine | engine.js:30-38 | the engine function throws exactly for an empty catalog. Otherwise it asks eight questions, the first a list of the aligned type choices |
| LenientEngine.ScopeQuestionRules | engine.js:69-74 | only the subject question validates. The scope question is a list of the configured scopes when there are any, and free text otherwise |
| LenientEngine.VisibilityRules | engine.js:93-111 | every question is asked, except `breaking` (only when `isBreaking` is yes) and `issues` (only when `isIssueAffected` is yes) |
| LenientEngine.DefaultRules | engine.js:88-112 | `isBreaking` defaults to no. `isIssueAffected` defaults to yes exactly when a non-empty default issue is configured, and `issues` then defaults to it |
| LenientEngine.ConformingAnswersComposable | engine.js:93-113 | answer sets the runner can produce have all four text answers. `breaking` is present exactly when `isBreaking` is yes, and `issues` exactly when `isIssueAffected` is |
| LenientEngine.FlagsNotRead | engine.js:131-135 | the message does not depend on the `isBreaking` and `isIssueAffected` answers |
| LenientEngine.FooterSpec | engine.js:133-137 | the footer is the wrapped breaking text and the wrapped issues, each only when non-empty, with a blank line between them only when both are there |
| LenientEngine.MessageLayout | engine.js:125-139 | the message starts with the full header and a blank line. With no breaking text and no issues it ends in a blank line after the wrapped body |
| LenientEngine.SkippedBreakingIsEmpty | engine.js:97-99 | when `isBreaking` is no, `breaking` is absent and the footer is the issues segment alone |
| LenientEngine.PrefixedMessageSameAsPlain | engine.js:131-139 | the message is the same whether or not the breaking description was already prefixed |
| Compare.SameSubjectLine | engine.js:19-21 | `buildSubjectLine` and `generateSubjectLine` build the same header |
| Compare.SameChoices | engine.js:32-38 | both engines build the same type choices |
| Compare.StrictSubjectPassesLenient | src/engine.js:73-91 | every subject the strict validator accepts passes the lenient one |
| Compare.CapitalisedSubjectSplitsEngines | engine.js:80-82 | `Fix` passes the lenient validator and gets the strict case error |
| Compare.SameFooterLayout | src/engine.js:130 | the strict footer template and the lenient `filter(...).join` lay out two segments alike |
| Compare.EmptyFooterSeparator | engine.js:139 | with an empty body and no footer, the lenient message is the strict one plus a blank line |
| Compare.PrefixedBreakingSplitsEngines | src/engine.js:125-127 | for a prefixed description, the strict engine doubles the prefix and the lenient engine keeps one |

## Left out

- `index.js` and `src/index.js` are not part of this model. They read `CZ_*` environment
  variables, load the `conventional-commit-types` catalog and, in `index.js`, an optional
  commitlint configuration. This is configuration plumbing, and the model takes the resulting
  options object as a value.
- The inquirer runner (`cz.prompt`), its promise, its re-prompt loop and the `commit` callback
  are I/O. The question records are data. `Conforms` states which finished answer sets the
  runner can hand back, and the composition functions take such a set.
- The prompt texts (`message`, the `required`/`optional`/`question` helpers at
  src/engine.js:21-23) and the console banners (src/engine.js:19, src/engine.js:39-40,
  engine.js:53) are display text and output only.
- word-wrap's internals: `wrap` is an arbitrary function parameter standing for
  `wrap(s, { trim: true, newline: '\n', indent: '', width: 100 })`. Lemmas that need
  wrapping an empty string to give an empty string state it as a precondition.
- The catalog is a JavaScript object iterated by `lodash.map` and `Object.keys`. It is modelled
  as a sequence in key order, and every entry is taken to have a string `description`.
- StrictEngine.Compose: requires the type, scope, subject and body answers, a breaking
  description when `isBreaking` is yes, and the issue text when `isIssueAffected` is yes. The
  runner always supplies these for the question list (see `ConformingAnswersComposable`). A
  missing type is not an error in the JavaScript: `${type}` at src/engine.js:26 makes the header
  start with `undefined`, which is not modelled. A missing scope, subject or body, or a missing
  breaking description when `isBreaking` is yes, makes the callback throw a TypeError at
  src/engine.js:25, 26, 124 or 125, which is not modelled either.
- LenientEngine.Compose: requires the type, scope, subject and body answers for the same
  reason. A missing `answers.type` would be stringified as `undefined`, and a missing scope
  or subject makes `trim` throw (engine.js:15, engine.js:20); neither is modelled. A missing
  body is handed to word-wrap, whose behaviour on it is not modelled.
- StrictEngine.Check and LenientEngine.Check: the subject rules require the type and scope
  answers, which the runner has collected before the subject question is asked.
- JavaScript regular expressions are modelled only as far as the engines use them: the
  classes `[A-Z]`, `[a-z]`, `[a-z09]`, the pattern `[A-Z]+-[0-9]+` of one `replace`, and the
  anchored prefix `^BREAKING CHANGE: `.
- The one-scope error message of the strict scope validator suggests a wider class, but the
  code at src/engine.js:61 says `[a-z09]`, which admits only the digits 0 and 9. The model
  follows the code (see `ScopeDigitExamples`).
- Js.JsLength: a Dafny `string` holds Unicode scalar values, so a JavaScript string containing
  a lone UTF-16 surrogate has no counterpart in the model; every modelled string is
  well-formed UTF-16.

## Findings

| source | as written | input that shows it | evidently intended | confidence | as-written member | corrected member |
|---|---|---|---|---|---|---|
| src/engine.js:119 | the callback destructures `isIssues`, a key no question produces (the question at line 109 is `isIssueAffected`), so the issues segment at line 128 is always empty and the issue references are dropped | type `fix`, scope empty, subject `x`, body empty, `isBreaking` no, `isIssueAffected` yes, issues `#1`: the message is `fix: x` and a blank line, with no `#1` | read `isIssueAffected`, giving `fix: x`, a blank line, a blank line and `#1` | not executed | StrictEngine.IssuesLostExample | StrictEngine.ComposeKeepsIssues |

