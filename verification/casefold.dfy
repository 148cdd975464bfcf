/**
 Case-insensitive comparison of answers. Both strings are lower-cased and then
 compared for equality; the lower-casing here is the ASCII one.
 */
module CaseFold {

  predicate IsUpper(c: char) { 'A' <= c <= 'Z' }

  predicate IsLower(c: char) { 'a' <= c <= 'z' }

  function Lower(c: char): (l: char)
    ensures !IsUpper(l)
    ensures !IsUpper(c) ==> l == c
    ensures IsUpper(c) ==> IsLower(l) && l as int - 'a' as int == c as int - 'A' as int
  {
    if IsUpper(c) then (c as int + 32) as char else c
  }

  function Upper(c: char): (u: char)
    ensures !IsLower(u)
    ensures !IsLower(c) ==> u == c
    ensures IsLower(c) ==> IsUpper(u) && Lower(u) == c
  {
    if IsLower(c) then (c as int - 32) as char else c
  }

  /** Upper undoes Lower on upper-case letters. */
  lemma LowerUpperRoundTrip(c: char)
    ensures IsUpper(c) ==> Upper(Lower(c)) == c
  {
  }

  /** Lower-cases every character of `s`. */
  function LowerStr(s: string): (r: string)
    ensures |r| == |s|
    ensures forall i :: 0 <= i < |s| ==> r[i] == Lower(s[i])
  {
    if |s| == 0 then [] else [Lower(s[0])] + LowerStr(s[1..])
  }

  /** Two characters that differ at most in case. */
  predicate SameLetter(a: char, b: char) { Lower(a) == Lower(b) }

  /** `expected.toLowerCase() === input.toLowerCase()`. */
  predicate Match(expected: string, input: string)
    ensures Match(expected, input) <==>
      |expected| == |input| && forall i :: 0 <= i < |input| ==> SameLetter(expected[i], input[i])
  {
    var a, b := LowerStr(expected), LowerStr(input);
    assert |expected| == |input| && (forall i :: 0 <= i < |input| ==> SameLetter(expected[i], input[i])) ==> a == b by {
      if |expected| == |input| && forall i :: 0 <= i < |input| ==> SameLetter(expected[i], input[i]) {
        assert forall i :: 0 <= i < |a| ==> a[i] == b[i];
      }
    }
    a == b
  }

  /** `b` is `a` with the case of any of its letters changed. */
  ghost predicate CaseVariant(a: string, b: string) {
    |a| == |b| && forall i :: 0 <= i < |a| ==> b[i] in {a[i], Lower(a[i]), Upper(a[i])}
  }

  /** Any re-casing of the expected answer is accepted. */
  lemma CaseVariantMatches(a: string, b: string)
    requires CaseVariant(a, b)
    ensures Match(a, b)
  {
  }

  /** Lower-casing is idempotent, so comparing lower-cased strings again changes nothing. */
  lemma LowerStrIdempotent(s: string)
    ensures LowerStr(LowerStr(s)) == LowerStr(s)
  {
  }

  /** Matching is an equivalence relation on answers. */
  lemma MatchIsEquivalence(a: string, b: string, c: string)
    ensures Match(a, a)
    ensures Match(a, b) ==> Match(b, a)
    ensures Match(a, b) && Match(b, c) ==> Match(a, c)
  {
  }

  /** Only the empty input matches an empty expected answer. */
  lemma EmptyAnswerMatchesOnlyEmpty(input: string)
    ensures Match("", input) <==> input == ""
  {
  }
}
