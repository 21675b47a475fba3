/**
 * The JavaScript string primitives both engines are built from: `String.prototype.trim`,
 * the `.length` of a string (UTF-16 code units), JavaScript truthiness of an optional
 * string, and the two small npm helpers `longest` (the longest element of a list) and
 * `right-pad` (pad a string with spaces up to a length).
 */
module Js {

  datatype Option<+T> = None | Some(value: T)

  /** JavaScript truthiness of a value that is a string or `undefined`: present and non-empty. */
  predicate Truthy(s: Option<string>) {
    s.Some? && s.value != ""
  }

  /** The characters `String.prototype.trim` removes: WhiteSpace and LineTerminator of ECMA-262. */
  predicate IsWhitespace(c: char) {
    || c == '\t' || c == '\n' || c == '\U{B}' || c == '\U{C}' || c == '\r' || c == ' '
    || c == '\U{A0}' || c == '\U{1680}' || ('\U{2000}' <= c <= '\U{200A}')
    || c == '\U{2028}' || c == '\U{2029}' || c == '\U{202F}' || c == '\U{205F}'
    || c == '\U{3000}' || c == '\U{FEFF}'
  }

  predicate AllWhitespace(s: string) {
    forall i :: 0 <= i < |s| ==> IsWhitespace(s[i])
  }

  /** `s` with its leading whitespace removed. */
  function TrimStart(s: string): string {
    if |s| > 0 && IsWhitespace(s[0]) then TrimStart(s[1..]) else s
  }

  /** `s` with its trailing whitespace removed. */
  function TrimEnd(s: string): string {
    if |s| > 0 && IsWhitespace(s[|s| - 1]) then TrimEnd(s[..|s| - 1]) else s
  }

  /** TrimStart keeps a suffix, drops only whitespace, and what it keeps starts with no
      whitespace. */
  lemma {:induction false} TrimStartSpec(s: string)
    ensures var r := TrimStart(s);
      && |r| <= |s| && r == s[|s| - |r|..]
      && AllWhitespace(s[..|s| - |r|])
      && (r == "" || !IsWhitespace(r[0]))
  {
    if |s| > 0 && IsWhitespace(s[0]) {
      TrimStartSpec(s[1..]);
      var r := TrimStart(s[1..]);
      assert s[..|s| - |r|] == [s[0]] + s[1..][..|s| - 1 - |r|];
      assert s[|s| - |r|..] == s[1..][|s| - 1 - |r|..];
    }
  }

  /** TrimEnd keeps a prefix, drops only whitespace, and what it keeps ends with no whitespace. */
  lemma {:induction false} TrimEndSpec(s: string)
    ensures var r := TrimEnd(s);
      && |r| <= |s| && r == s[..|r|]
      && AllWhitespace(s[|r|..])
      && (r == "" || !IsWhitespace(r[|r| - 1]))
  {
    if |s| > 0 && IsWhitespace(s[|s| - 1]) {
      TrimEndSpec(s[..|s| - 1]);
      var r := TrimEnd(s[..|s| - 1]);
      assert s[|r|..] == s[..|s| - 1][|r|..] + [s[|s| - 1]];
      assert s[..|r|] == s[..|s| - 1][..|r|];
    }
  }

  /** `String.prototype.trim`. */
  function Trim(s: string): string {
    TrimEnd(TrimStart(s))
  }

  /** Trim keeps a contiguous part of its input, drops only whitespace around it, and what it keeps
      neither starts nor ends with whitespace. */
  lemma TrimSpec(s: string)
    ensures var r := Trim(s); var k := |s| - |TrimStart(s)|;
      && 0 <= k && k + |r| <= |s| && r == s[k..k + |r|]
      && AllWhitespace(s[..k]) && AllWhitespace(s[k + |r|..])
      && (r == "" || (!IsWhitespace(r[0]) && !IsWhitespace(r[|r| - 1])))
  {
    var t := TrimStart(s);
    var r := TrimEnd(t);
    var k := |s| - |t|;
    TrimStartSpec(s);
    TrimEndSpec(t);
    assert t == s[k..];
    assert r == t[..|r|];
    assert r == s[k..k + |r|];
    assert s[k + |r|..] == t[|r|..];
    assert r != "" ==> r[0] == t[0];
  }

  /** A string that neither starts nor ends with whitespace is its own trim. */
  lemma TrimOfTrimmed(s: string)
    requires s == "" || (!IsWhitespace(s[0]) && !IsWhitespace(s[|s| - 1]))
    ensures Trim(s) == s
  {
    assert TrimStart(s) == s;
  }

  /** Trimming twice is trimming once. */
  lemma TrimIdempotent(s: string)
    ensures Trim(Trim(s)) == Trim(s)
  {
    TrimSpec(s);
    TrimOfTrimmed(Trim(s));
  }

  /** A string trims to empty exactly when every character of it is whitespace. */
  lemma TrimEmptyIff(s: string)
    ensures Trim(s) == "" <==> AllWhitespace(s)
  {
    var t := TrimStart(s);
    TrimSpec(s);
    TrimStartSpec(s);
    TrimEndSpec(t);
    if Trim(s) == "" {
      assert AllWhitespace(t) by {
        assert t[|Trim(s)|..] == t;
      }
      assert t == "";
      assert s[..|s|] == s;
    } else {
      var k := |s| - |t|;
      assert s[k] == Trim(s)[0];
    }
  }

  /** The length of a code point in UTF-16 code units. */
  function CodeUnits(c: char): nat {
    if c as int > 0xFFFF then 2 else 1
  }

  /** JavaScript's `.length` of a string: the number of UTF-16 code units. */
  function JsLength(s: string): nat {
    if s == "" then 0 else CodeUnits(s[0]) + JsLength(s[1..])
  }

  lemma {:induction false} JsLengthAppend(a: string, b: string)
    ensures JsLength(a + b) == JsLength(a) + JsLength(b)
  {
    if a == "" {
      assert a + b == b;
    } else {
      assert (a + b)[0] == a[0];
      assert (a + b)[1..] == a[1..] + b;
      JsLengthAppend(a[1..], b);
    }
  }

  lemma JsLengthAppend4(a: string, b: string, c: string, d: string)
    ensures JsLength(a + b + c + d) == JsLength(a) + JsLength(b) + JsLength(c) + JsLength(d)
  {
    JsLengthAppend(a, b);
    JsLengthAppend(a + b, c);
    JsLengthAppend(a + b + c, d);
  }

  /** Every character counts at least one and at most two code units. */
  lemma {:induction false} JsLengthBounds(s: string)
    ensures |s| <= JsLength(s) <= 2 * |s|
  {
    if s != "" {
      JsLengthBounds(s[1..]);
    }
  }

  /** A string of `n` spaces. */
  function Spaces(n: nat): string {
    if n == 0 then "" else " " + Spaces(n - 1)
  }

  lemma {:induction false} SpacesSpec(n: nat)
    ensures |Spaces(n)| == n && JsLength(Spaces(n)) == n
    ensures forall i :: 0 <= i < n ==> Spaces(n)[i] == ' '
  {
    if n > 0 {
      SpacesSpec(n - 1);
      assert Spaces(n)[1..] == Spaces(n - 1);
    }
  }

  /** The `right-pad` package: `s` followed by as many spaces as it takes to reach `n` code units. */
  function RightPad(s: string, n: int): string {
    if JsLength(s) < n then s + Spaces(n - JsLength(s)) else s
  }

  /** Right-padding keeps the string as a prefix, adds only spaces, and reaches exactly `n` code
      units unless the string was already longer. */
  lemma RightPadSpec(s: string, n: int)
    ensures var r := RightPad(s, n);
      && r[..|s|] == s
      && (forall i :: |s| <= i < |r| ==> r[i] == ' ')
      && JsLength(r) == if JsLength(s) < n then n else JsLength(s)
  {
    if JsLength(s) < n {
      JsLengthAppend(s, Spaces(n - JsLength(s)));
      SpacesSpec(n - JsLength(s));
    }
  }

  /** The largest code-unit length among `xs` (0 for an empty list). */
  function MaxLength(xs: seq<string>): (m: nat)
    ensures forall i :: 0 <= i < |xs| ==> JsLength(xs[i]) <= m
    ensures |xs| > 0 ==> exists i :: 0 <= i < |xs| && JsLength(xs[i]) == m
  {
    if xs == [] then 0
    else
      var rest := MaxLength(xs[1..]);
      assert forall i :: 1 <= i < |xs| ==> xs[i] == xs[1..][i - 1];
      if JsLength(xs[0]) >= rest then JsLength(xs[0]) else rest
  }

  /** The `longest` package: the first element of greatest `.length`, or `null` (None) for an
      empty list. */
  function Longest(xs: seq<string>): (r: Option<string>)
    ensures r.None? <==> xs == []
    ensures r.Some? ==> exists i :: 0 <= i < |xs| && xs[i] == r.value
                                   && forall j :: 0 <= j < i ==> JsLength(xs[j]) < JsLength(r.value)
    ensures r.Some? ==> forall i :: 0 <= i < |xs| ==> JsLength(xs[i]) <= JsLength(r.value)
  {
    if xs == [] then None
    else if |xs| == 1 then Some(xs[0])
    else
      var rest := Longest(xs[1..]).value;
      assert forall i :: 1 <= i < |xs| ==> xs[i] == xs[1..][i - 1];
      if JsLength(rest) > JsLength(xs[0]) then Some(rest) else Some(xs[0])
  }

  /** The longest element is as long as the maximum length. */
  lemma LongestHasMaxLength(xs: seq<string>)
    requires xs != []
    ensures JsLength(Longest(xs).value) == MaxLength(xs)
  {
  }
}
