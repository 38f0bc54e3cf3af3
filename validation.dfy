/** How class-validator, run by the framework's validation pipe, sees and
    judges the properties of a request body. */
module Validation {

  /** A property's value after JSON parsing. `Absent` stands for both
      `undefined` and `null`: the two values that IsOptional skips and
      IsNotEmpty refuses. `NonString` is any other JSON value (a number, a
      boolean, an array, an object). */
  datatype Input = Absent | Str(value: string) | NonString

  /** The decorators the DTOs use; a violation names the one that failed. */
  datatype Constraint =
    | IsString
    | MinLength(min: nat)
    | MaxLength(max: nat)
    | Matches(message: string)
    | IsNotEmpty
    | IsIn
    | IsEnum

  datatype Violation = Violation(property: string, constraint: Constraint)

  /** What the pipe does with a body: pass it on, refuse it with the failed
      constraints (HTTP 400), or fail while transforming it, before any
      constraint is checked. */
  datatype Verdict = Accepted | Rejected(violations: set<Violation>) | TransformFailed

  /** One decorator's contribution: nothing when its check holds. */
  function Check(property: string, ok: bool, constraint: Constraint): (r: set<Violation>)
    ensures r == {} <==> ok
    ensures forall v :: v in r ==> v == Violation(property, constraint)
  {
    if ok then {} else {Violation(property, constraint)}
  }

  function VerdictOf(violations: set<Violation>): (r: Verdict)
    ensures r == Accepted <==> violations == {}
    ensures r != TransformFailed
    ensures r.Rejected? ==> r.violations == violations
  {
    if violations == {} then Accepted else Rejected(violations)
  }

  /** IsNotEmpty: the value is neither '', null nor undefined. */
  predicate NotEmpty(v: Input) {
    v != Absent && v != Str("")
  }

  /** The variation selectors U+FE0E and U+FE0F, which validator.js leaves
      out of a string's length. */
  predicate IsVariationSelector(c: char) {
    c == '\U{FE0E}' || c == '\U{FE0F}'
  }

  /** The length validator.js `isLength` measures, on which MinLength and
      MaxLength rely: UTF-16 code units, minus one per surrogate pair, minus
      one per variation selector. A `char` is a Unicode scalar value, so a
      character beyond U+FFFF, a surrogate pair in JavaScript, is already one
      `char`; only the variation selectors remain to be left out. */
  function MeasuredLength(s: string): (n: nat)
    ensures n <= |s|
    ensures n == |s| <==> forall m :: 0 <= m < |s| ==> !IsVariationSelector(s[m])
  {
    if s == [] then 0
    else
      assert forall m :: 1 <= m < |s| ==> s[m] == s[1..][m - 1];
      MeasuredLength(s[1..]) + (if IsVariationSelector(s[0]) then 0 else 1)
  }

  /** Lengths add up over a concatenation. */
  lemma {:induction false} MeasuredLengthAppend(a: string, b: string)
    ensures MeasuredLength(a + b) == MeasuredLength(a) + MeasuredLength(b)
    decreases |a|
  {
    if a == [] {
      assert a + b == b;
    } else {
      assert (a + b)[0] == a[0] && (a + b)[1..] == a[1..] + b;
      MeasuredLengthAppend(a[1..], b);
    }
  }

  /** A string of variation selectors alone has length zero. */
  lemma {:induction false} MeasuredLengthOfSelectors(s: string)
    requires forall m :: 0 <= m < |s| ==> IsVariationSelector(s[m])
    ensures MeasuredLength(s) == 0
    decreases |s|
  {
    if s != [] {
      assert forall m :: 0 <= m < |s[1..]| ==> s[1..][m] == s[m + 1];
      MeasuredLengthOfSelectors(s[1..]);
    }
  }

  /** Appending variation selectors leaves the length as it was. */
  lemma SelectorsAppended(s: string, v: string)
    requires forall m :: 0 <= m < |v| ==> IsVariationSelector(v[m])
    ensures MeasuredLength(s + v) == MeasuredLength(s)
  {
    MeasuredLengthAppend(s, v);
    MeasuredLengthOfSelectors(v);
  }

  /** MinLength(n): a string of at least n characters; any non-string fails. */
  predicate LengthAtLeast(v: Input, n: nat) {
    v.Str? && MeasuredLength(v.value) >= n
  }

  /** MaxLength(n): a string of at most n characters; any non-string fails. */
  predicate LengthAtMost(v: Input, n: nat) {
    v.Str? && MeasuredLength(v.value) <= n
  }
}
