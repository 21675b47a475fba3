/**
 * The records both engines share: the configuration an engine is built from, the type catalog
 * and the choices derived from it, the declarative question records handed to the prompt
 * runner (inquirer), and the answer set the runner hands back.
 */
module Prompt {
  import opened Js

  /** One entry of the commit-type catalog: its key (`feat`, `fix`, ...) and its description. */
  datatype TypeEntry = TypeEntry(key: string, description: string)

  /** The options object an engine is constructed with. The catalog is a JavaScript object; the
      sequence holds its entries in the object's key order. An absent option is `None`. */
  datatype Options = Options(
    types: seq<TypeEntry>,
    defaultType: Option<string>,
    scopes: Option<seq<string>>,
    defaultScope: Option<string>,
    defaultSubject: Option<string>,
    defaultBody: Option<string>,
    defaultIssues: Option<string>)

  /** `Object.keys` of the catalog. */
  function Keys(types: seq<TypeEntry>): seq<string> {
    seq(|types|, i requires 0 <= i < |types| => types[i].key)
  }

  /** A selectable entry of a list question: the caption shown and the value answered. */
  datatype Choice = Choice(name: string, value: string)

  /** The caption of a type choice is the key, a colon, one or more spaces and the description,
      and the description starts at code-unit column `width + 1`, the same for every entry. */
  predicate AlignedLabel(caption: string, key: string, description: string, width: nat) {
    && |key| + 2 + |description| <= |caption|
    && caption[..|key|] == key
    && caption[|key|] == ':'
    && (forall k :: |key| < k < |caption| - |description| ==> caption[k] == ' ')
    && caption[|caption| - |description|..] == description
    && JsLength(caption[..|caption| - |description|]) == width + 1
  }

  /** The choices list one entry per catalog entry, in catalog order, with the key as value and
      every caption aligned to one more than the longest key. */
  predicate AlignedChoices(types: seq<TypeEntry>, choices: seq<Choice>) {
    && |choices| == |types|
    && forall i :: 0 <= i < |types| ==>
         && choices[i].value == types[i].key
         && AlignedLabel(choices[i].name, types[i].key, types[i].description, MaxLength(Keys(types)) + 1)
  }

  /** A default value of a question: text for input and list questions, a flag for confirms. */
  datatype Value = Text(text: string) | Flag(flag: bool)

  /** What the runner renders: a list of choices, a list of plain strings, a text input or a
      yes/no confirm. */
  datatype Kind = List(choices: seq<Choice>) | TextList(items: seq<string>) | Input | Confirm

  /** The `when` predicate of a question, over the answers given so far. */
  datatype Visibility = Always | WhenIsBreaking | WhenIsIssueAffected

  /** One question record. `R` names the validation rules of an engine. */
  datatype Question<R> = Question(
    kind: Kind,
    name: string,
    default: Option<Value>,
    validate: Option<R>,
    when: Visibility)

  /** The answer set; a key the runner did not produce is `None`. The answer named `type` is the
      field `commitType`. */
  datatype Answers = Answers(
    commitType: Option<string>,
    scope: Option<string>,
    subject: Option<string>,
    body: Option<string>,
    isBreaking: Option<bool>,
    breaking: Option<string>,
    isIssueAffected: Option<bool>,
    issues: Option<string>)

  const NoAnswers := Answers(None, None, None, None, None, None, None, None)

  /** The value of `when` on a partial answer set: the flag it reads must be `true`. */
  predicate Shown(v: Visibility, a: Answers) {
    match v
    case Always => true
    case WhenIsBreaking => a.isBreaking == Some(true)
    case WhenIsIssueAffected => a.isIssueAffected == Some(true)
  }

  /** Whether the answer set holds a value under key `name`. */
  predicate Answered(a: Answers, name: string) {
    if name == "type" then a.commitType.Some?
    else if name == "scope" then a.scope.Some?
    else if name == "subject" then a.subject.Some?
    else if name == "body" then a.body.Some?
    else if name == "isBreaking" then a.isBreaking.Some?
    else if name == "breaking" then a.breaking.Some?
    else if name == "isIssueAffected" then a.isIssueAffected.Some?
    else if name == "issues" then a.issues.Some?
    else false
  }

  /** Reading a boolean answer by key, as a destructuring `{ name }` does: any other key is
      `undefined`. */
  function FlagNamed(a: Answers, name: string): Option<bool> {
    if name == "isBreaking" then a.isBreaking
    else if name == "isIssueAffected" then a.isIssueAffected
    else None
  }

  /** An answer set the runner can hand back for questions `qs`: a question's key is present
      exactly when its `when` predicate holds. Each predicate reads only answers to earlier
      questions, which later questions do not change, so evaluating it on the finished set is
      evaluating it when the question comes up. */
  predicate Conforms<R>(qs: seq<Question<R>>, a: Answers) {
    forall i :: 0 <= i < |qs| ==> (Answered(a, qs[i].name) <==> Shown(qs[i].when, a))
  }

  /** The keys of a question list, in order. */
  function Names<R>(qs: seq<Question<R>>): seq<string> {
    seq(|qs|, i requires 0 <= i < |qs| => qs[i].name)
  }

  /** The default of an optional text option, as `default: options.x` passes it. */
  function TextDefault(o: Option<string>): Option<Value> {
    match o
    case None => None
    case Some(s) => Some(Text(s))
  }

  /** The padded key and the separating space take exactly `width + 1` code units. */
  lemma PaddedKeyLength(key: string, width: nat)
    requires JsLength(key) + 1 <= width
    ensures JsLength(RightPad(key + ":", width) + " ") == width + 1
  {
    JsLengthAppend(key, ":");
    RightPadSpec(key + ":", width);
    JsLengthAppend(RightPad(key + ":", width), " ");
  }

  /** A key right-padded to `width` code units, a space and the description make an aligned
      label, provided the key and its colon fit in `width`. */
  lemma PaddedLabelAligned(key: string, description: string, width: nat)
    requires JsLength(key) + 1 <= width
    ensures AlignedLabel(RightPad(key + ":", width) + " " + description, key, description, width)
  {
    var head := key + ":";
    var p := RightPad(head, width);
    var before := p + " ";
    var caption := before + description;
    PaddedKeyLength(key, width);
    RightPadSpec(head, width);
    assert |p| >= |head| by {
      assert p[..|head|] == head;
    }
    assert caption[..|caption| - |description|] == before;
    assert caption[|caption| - |description|..] == description;
    assert caption[..|key|] == key by {
      assert caption[..|key|] == p[..|head|][..|key|];
    }
    assert caption[|key|] == ':' by {
      assert caption[|key|] == p[..|head|][|key|];
    }
    forall k | |key| < k < |caption| - |description| ensures caption[k] == ' ' {
      assert caption[k] == before[k];
      if k < |p| {
        assert before[k] == p[k];
      }
    }
  }

  /** The choice of every catalog entry with its key padded to `width`. */
  function ChoicesOfWidth(types: seq<TypeEntry>, width: nat): seq<Choice> {
    seq(|types|, i requires 0 <= i < |types| =>
      Choice(RightPad(types[i].key + ":", width) + " " + types[i].description, types[i].key))
  }

  /** Padding to one more than the longest key aligns every caption. */
  lemma ChoicesAligned(types: seq<TypeEntry>, width: nat)
    requires width == MaxLength(Keys(types)) + 1
    ensures AlignedChoices(types, ChoicesOfWidth(types, width))
  {
    var choices := ChoicesOfWidth(types, width);
    forall i | 0 <= i < |types|
      ensures AlignedLabel(choices[i].name, types[i].key, types[i].description, width)
    {
      assert JsLength(Keys(types)[i]) <= MaxLength(Keys(types));
      PaddedLabelAligned(types[i].key, types[i].description, width);
    }
  }
}
