/** The password-strength pattern of the sign-up/sign-in credentials,
        /((?=.*\d)|(?=.*\W+))(?![.\n])(?=.*[A-Z])(?=.*[a-z]).*$/
    read with the matching semantics of ECMAScript regular expressions
    (section 22.2 of ECMA-262): no flags, so `.` refuses the four line
    terminators, `$` matches only at the end of the input, `\d`, `\W`, `[A-Z]`
    and `[a-z]` are ASCII classes, and the pattern is tried at every start
    index in turn because it is not anchored. A `char` is a Unicode scalar
    value. JavaScript, with no u flag, sees a character beyond U+FFFF as two
    surrogate code units instead; both are `\W` and neither is a line
    terminator nor '.', so the pattern decides such a string the same way
    either way. */
module PasswordPattern {

  /** LineTerminator (section 12.3 of ECMA-262): what `.` does not match. */
  predicate IsLineTerminator(c: char) {
    c == '\n' || c == '\r' || c == '\U{2028}' || c == '\U{2029}'
  }

  predicate IsDigit(c: char) { '0' <= c <= '9' }

  predicate IsUpper(c: char) { 'A' <= c <= 'Z' }

  predicate IsLower(c: char) { 'a' <= c <= 'z' }

  /** The characters of `\w`; `\W` is every other character. */
  predicate IsWordChar(c: char) { IsUpper(c) || IsLower(c) || IsDigit(c) || c == '_' }

  /** The single-character classes that follow `.*` in the four lookaheads. */
  datatype CharClass = Digit | NonWord | Upper | Lower

  predicate InClass(c: char, k: CharClass) {
    match k
    case Digit => IsDigit(c)
    case NonWord => !IsWordChar(c)
    case Upper => IsUpper(c)
    case Lower => IsLower(c)
  }

  /** `(?=.*K)` at index i: `.*` may step over characters other than line
      terminators, after which K must match one character. `(?=.*\W+)` is
      `(?=.*\W)`, since a lookahead succeeds as soon as one `\W` is matched. */
  predicate LookaheadThen(s: string, i: nat, k: CharClass)
    requires i <= |s|
    decreases |s| - i
  {
    i < |s| && (InClass(s[i], k) || (!IsLineTerminator(s[i]) && LookaheadThen(s, i + 1, k)))
  }

  /** `(?![.\n])` at index i: the next character is neither '.' nor '\n'. */
  predicate NotDotOrNewlineAt(s: string, i: nat)
    requires i <= |s|
  {
    i == |s| || (s[i] != '.' && s[i] != '\n')
  }

  /** `.*$` at index i, without the m flag: `.*` must reach the end of the input. */
  predicate AnyToEnd(s: string, i: nat)
    requires i <= |s|
    decreases |s| - i
  {
    i == |s| || (!IsLineTerminator(s[i]) && AnyToEnd(s, i + 1))
  }

  /** The whole pattern, tried with its match starting at index i. */
  predicate MatchesAt(s: string, i: nat)
    requires i <= |s|
  {
    && (LookaheadThen(s, i, Digit) || LookaheadThen(s, i, NonWord))
    && NotDotOrNewlineAt(s, i)
    && LookaheadThen(s, i, Upper)
    && LookaheadThen(s, i, Lower)
    && AnyToEnd(s, i)
  }

  /** `RegExp.prototype.test` without the g or y flag: some start index
      matches. It matches iff some start index i has s[i] neither '.' nor
      '\n', no line terminator in s[i..], and an upper-case letter, a
      lower-case letter and a digit or non-word character in s[i..];
      characters before i do not count. */
  function PatternMatches(s: string): (matched: bool)
    ensures matched <==> exists i: nat :: i <= |s| && GoodStart(s, i)
  {
    EveryStartCharacterised(s);
    exists i: nat :: i <= |s| && MatchesAt(s, i)
  }

  // ---------------------------------------------------------------------------
  // A characterisation without backtracking

  /** Some character of s[lo..hi] is in class k. */
  predicate OccursIn(s: string, lo: nat, hi: nat, k: CharClass)
    requires lo <= hi <= |s|
  {
    exists m :: lo <= m < hi && InClass(s[m], k)
  }

  predicate NoLineTerminatorFrom(s: string, i: nat)
    requires i <= |s|
  {
    forall m :: i <= m < |s| ==> !IsLineTerminator(s[m])
  }

  /** s[i..] holds an upper-case letter, a lower-case letter and a digit or
      non-word character. */
  predicate StrongFrom(s: string, i: nat)
    requires i <= |s|
  {
    && OccursIn(s, i, |s|, Upper)
    && OccursIn(s, i, |s|, Lower)
    && (OccursIn(s, i, |s|, Digit) || OccursIn(s, i, |s|, NonWord))
  }

  /** A start index at which the pattern matches, stated without backtracking. */
  predicate GoodStart(s: string, i: nat)
    requires i <= |s|
  {
    i < |s| && s[i] != '.' && s[i] != '\n' && NoLineTerminatorFrom(s, i) && StrongFrom(s, i)
  }

  lemma {:induction false} AnyToEndIff(s: string, i: nat)
    requires i <= |s|
    ensures AnyToEnd(s, i) <==> NoLineTerminatorFrom(s, i)
    decreases |s| - i
  {
    if i < |s| {
      AnyToEndIff(s, i + 1);
    }
  }

  /** On a line with no terminator left, a lookahead `(?=.*K)` just asks
      whether K occurs. */
  lemma {:induction false} LookaheadThenIff(s: string, i: nat, k: CharClass)
    requires i <= |s|
    requires NoLineTerminatorFrom(s, i)
    ensures LookaheadThen(s, i, k) <==> OccursIn(s, i, |s|, k)
    decreases |s| - i
  {
    if i < |s| {
      LookaheadThenIff(s, i + 1, k);
      if InClass(s[i], k) {
        assert OccursIn(s, i, |s|, k);
      } else if OccursIn(s, i, |s|, k) {
        var m :| i <= m < |s| && InClass(s[m], k);
        assert OccursIn(s, i + 1, |s|, k);
      }
    }
  }

  lemma MatchesAtIff(s: string, i: nat)
    requires i <= |s|
    ensures MatchesAt(s, i) <==> GoodStart(s, i)
  {
    AnyToEndIff(s, i);
    if NoLineTerminatorFrom(s, i) {
      LookaheadThenIff(s, i, Digit);
      LookaheadThenIff(s, i, NonWord);
      LookaheadThenIff(s, i, Upper);
      LookaheadThenIff(s, i, Lower);
    }
  }

  lemma EveryStartCharacterised(s: string)
    ensures forall i: nat :: i <= |s| ==> (MatchesAt(s, i) <==> GoodStart(s, i))
  {
    forall i: nat | i <= |s|
      ensures MatchesAt(s, i) <==> GoodStart(s, i)
    {
      MatchesAtIff(s, i);
    }
  }

  /** With j just past the last line terminator and i the first index from j
      on that is not '.', the pattern matches iff s[i..] is strong. */
  lemma SuffixCharacterisation(s: string, j: nat, i: nat)
    requires j <= i <= |s|
    requires j == 0 || IsLineTerminator(s[j - 1])
    requires NoLineTerminatorFrom(s, j)
    requires forall m :: j <= m < i ==> s[m] == '.'
    requires i == |s| || s[i] != '.'
    ensures PatternMatches(s) <==> StrongFrom(s, i)
  {
    if StrongFrom(s, i) {
      assert GoodStart(s, i);
    }
    if PatternMatches(s) {
      var start: nat :| start <= |s| && GoodStart(s, start);
      if j > 0 {
        var last := s[j - 1];
        assert start > j - 1 || !IsLineTerminator(last);
      }
      var first := s[start];
      assert start >= i || first == '.';
      StrongFromSuffix(s, i, start);
    }
  }

  /** What occurs in a suffix occurs in every longer suffix. */
  lemma StrongFromSuffix(s: string, i: nat, start: nat)
    requires i <= start <= |s|
    requires StrongFrom(s, start)
    ensures StrongFrom(s, i)
  {
    forall k: CharClass | OccursIn(s, start, |s|, k)
      ensures OccursIn(s, i, |s|, k)
    {
      var m :| start <= m < |s| && InClass(s[m], k);
      assert i <= m;
    }
  }

  /** Decides the pattern in one pass per step, without backtracking: find
      where the last line begins, skip the dots that open it, then look for
      the three kinds of character. */
  method Test(s: string) returns (matched: bool)
    ensures matched == PatternMatches(s)
  {
    var j, k := 0, 0;
    while k < |s|
      invariant j <= k <= |s|
      invariant j == 0 || IsLineTerminator(s[j - 1])
      invariant forall m :: j <= m < k ==> !IsLineTerminator(s[m])
    {
      if IsLineTerminator(s[k]) {
        j := k + 1;
      }
      k := k + 1;
    }
    var i := j;
    while i < |s| && s[i] == '.'
      invariant j <= i <= |s|
      invariant forall m :: j <= m < i ==> s[m] == '.'
    {
      i := i + 1;
    }
    var upper, lower, other := false, false, false;
    var n := i;
    while n < |s|
      invariant i <= n <= |s|
      invariant upper == OccursIn(s, i, n, Upper)
      invariant lower == OccursIn(s, i, n, Lower)
      invariant other == (OccursIn(s, i, n, Digit) || OccursIn(s, i, n, NonWord))
    {
      var c := s[n];
      assert forall kind :: OccursIn(s, i, n + 1, kind) <==> OccursIn(s, i, n, kind) || InClass(c, kind);
      upper := upper || IsUpper(c);
      lower := lower || IsLower(c);
      other := other || IsDigit(c) || !IsWordChar(c);
      n := n + 1;
    }
    SuffixCharacterisation(s, j, i);
    matched := upper && lower && other;
  }

  // ---------------------------------------------------------------------------
  // What the pattern accepts and rejects

  /** A password lacking an ASCII upper-case letter, or lacking an ASCII
      lower-case letter, does not match. */
  lemma MissingLetterCaseRejected(s: string)
    requires (forall m :: 0 <= m < |s| ==> !IsUpper(s[m])) || (forall m :: 0 <= m < |s| ==> !IsLower(s[m]))
    ensures !PatternMatches(s)
  {
  }

  /** A password made of ASCII letters only has neither a digit nor a non-word
      character, so it does not match. */
  lemma LettersOnlyRejected(s: string)
    requires forall m :: 0 <= m < |s| ==> IsUpper(s[m]) || IsLower(s[m])
    ensures !PatternMatches(s)
  {
  }

  /** `.*$` cannot step over a final line terminator. */
  lemma TrailingLineTerminatorRejected(s: string)
    requires |s| > 0 && IsLineTerminator(s[|s| - 1])
    ensures !PatternMatches(s)
  {
  }

  /** A single-line password whose first character is not '.' and which holds
      an upper-case letter, a lower-case letter and a digit matches. */
  lemma SingleLinePasswordAccepted(s: string)
    requires forall m :: 0 <= m < |s| ==> !IsLineTerminator(s[m])
    requires |s| > 0 && s[0] != '.'
    requires exists m :: 0 <= m < |s| && IsUpper(s[m])
    requires exists m :: 0 <= m < |s| && IsLower(s[m])
    requires exists m :: 0 <= m < |s| && IsDigit(s[m])
    ensures PatternMatches(s)
  {
    assert GoodStart(s, 0);
    MatchesAtIff(s, 0);
  }

  /** Appending characters that are not line terminators keeps a match: the
      start index that matched still does. */
  lemma AppendKeepsMatch(s: string, v: string)
    requires PatternMatches(s)
    requires forall m :: 0 <= m < |v| ==> !IsLineTerminator(v[m])
    ensures PatternMatches(s + v)
  {
    var t := s + v;
    var i: nat :| i <= |s| && GoodStart(s, i);
    assert forall m :: 0 <= m < |s| ==> t[m] == s[m];
    assert forall m :: |s| <= m < |t| ==> t[m] == v[m - |s|];
    forall k: CharClass | OccursIn(s, i, |s|, k)
      ensures OccursIn(t, i, |t|, k)
    {
      var m :| i <= m < |s| && InClass(s[m], k);
      assert InClass(t[m], k);
    }
    assert GoodStart(t, i);
  }

  /** Every matching string has at least three characters: the three required
      kinds are disjoint. */
  lemma MatchImpliesLengthAtLeast3(s: string)
    requires PatternMatches(s)
    ensures |s| >= 3
  {
    var i: nat :| i <= |s| && GoodStart(s, i);
    var u :| i <= u < |s| && InClass(s[u], Upper);
    var l :| i <= l < |s| && InClass(s[l], Lower);
    var o :| i <= o < |s| && (InClass(s[o], Digit) || InClass(s[o], NonWord));
    assert IsWordChar(s[u]) && !IsDigit(s[u]) && IsWordChar(s[l]) && !IsDigit(s[l]);
  }

  /** A leading '.' is not the required special character: the match cannot
      start on it, and the rest has no digit or non-word character. A '.'
      further on does count. */
  lemma LeadingDotDoesNotCount()
    ensures !PatternMatches(".Abc")
    ensures PatternMatches("Abc.")
  {
    var s := ".Abc";
    SuffixCharacterisation(s, 0, 1);
    assert !OccursIn(s, 1, |s|, Digit) && !OccursIn(s, 1, |s|, NonWord) by {
      assert forall m :: 1 <= m < |s| ==> IsWordChar(s[m]) && !IsDigit(s[m]);
    }
    var t := "Abc.";
    assert InClass(t[0], Upper) && InClass(t[1], Lower) && InClass(t[3], NonWord);
    SuffixCharacterisation(t, 0, 0);
  }

  /** Only the last line counts: the kinds of character must all follow the
      last line terminator. */
  lemma OnlyLastLineCounts()
    ensures !PatternMatches("Ab\n1")
    ensures PatternMatches("x\nAb1")
  {
    var s := "Ab\n1";
    SuffixCharacterisation(s, 3, 3);
    assert !OccursIn(s, 3, |s|, Upper);
    var t := "x\nAb1";
    assert InClass(t[2], Upper) && InClass(t[3], Lower) && InClass(t[4], Digit);
    SuffixCharacterisation(t, 2, 2);
  }
}
