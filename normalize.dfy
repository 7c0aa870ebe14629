/**
 * The normalizer and the identity comparator of app.py (normalize_term and
 * terms_are_identical).  normalize_term chains five string passes: lowercase,
 * space to `_`, hyphen to `_`, delete `(`, delete `)`.  Each pass is modelled
 * as its own function and NormalizeTerm composes them in the same order.
 * Lowercasing is modelled on ASCII letters only.
 */
module Normalize {

  predicate IsUpper(c: char)
  {
    'A' <= c <= 'Z'
  }

  /** ASCII lowercase of one character. */
  function LowerChar(c: char): char
  {
    if IsUpper(c) then (c as int + 32) as char else c
  }

  /** `s.lower()` */
  function Lower(s: string): (r: string)
    ensures |r| == |s|
  {
    if s == [] then [] else [LowerChar(s[0])] + Lower(s[1..])
  }

  /** `s.replace(from, to)` for one-character patterns. */
  function Replace(s: string, from: char, to: char): (r: string)
    ensures |r| == |s|
  {
    if s == [] then [] else [if s[0] == from then to else s[0]] + Replace(s[1..], from, to)
  }

  /** `s.replace(c, "")`: every occurrence of `c` deleted. */
  function Remove(s: string, c: char): (r: string)
    ensures |r| <= |s|
    ensures forall i :: 0 <= i < |r| ==> r[i] != c
  {
    if s == [] then []
    else (if s[0] == c then [] else [s[0]]) + Remove(s[1..], c)
  }

  /** normalize_term */
  function NormalizeTerm(s: string): string
  {
    Remove(Remove(Replace(Replace(Lower(s), ' ', '_'), '-', '_'), '('), ')')
  }

  /** terms_are_identical */
  predicate TermsAreIdentical(a: string, b: string)
  {
    NormalizeTerm(a) == NormalizeTerm(b)
  }

  /** A character that normalization leaves as it is. */
  predicate IsNormalChar(c: char)
  {
    c != ' ' && c != '-' && c != '(' && c != ')' && !IsUpper(c)
  }

  /** A string that no step of normalization changes. */
  predicate IsNormal(s: string)
  {
    forall i :: 0 <= i < |s| ==> IsNormalChar(s[i])
  }

  /** What normalization makes of a single character. */
  function NormalizeChar(c: char): (r: string)
    ensures |r| <= 1
  {
    if c == '(' || c == ')' then []
    else if c == ' ' || c == '-' then "_"
    else [LowerChar(c)]
  }

  /** Reference definition: normalization character by character, left to right. */
  function NormalizeEach(s: string): string
  {
    if s == [] then [] else NormalizeChar(s[0]) + NormalizeEach(s[1..])
  }

  lemma {:induction false} LowerAppend(a: string, b: string)
    ensures Lower(a + b) == Lower(a) + Lower(b)
  {
    if a == [] {
      assert a + b == b;
    } else {
      assert (a + b)[1..] == a[1..] + b;
      LowerAppend(a[1..], b);
    }
  }

  lemma {:induction false} ReplaceAppend(a: string, b: string, from: char, to: char)
    ensures Replace(a + b, from, to) == Replace(a, from, to) + Replace(b, from, to)
  {
    if a == [] {
      assert a + b == b;
    } else {
      assert (a + b)[1..] == a[1..] + b;
      ReplaceAppend(a[1..], b, from, to);
    }
  }

  lemma {:induction false} RemoveAppend(a: string, b: string, c: char)
    ensures Remove(a + b, c) == Remove(a, c) + Remove(b, c)
  {
    if a == [] {
      assert a + b == b;
    } else {
      assert (a + b)[1..] == a[1..] + b;
      RemoveAppend(a[1..], b, c);
    }
  }

  /** Normalizing a concatenation normalizes each part. */
  lemma {:induction false} NormalizeAppend(a: string, b: string)
    ensures NormalizeTerm(a + b) == NormalizeTerm(a) + NormalizeTerm(b)
  {
    LowerAppend(a, b);
    ReplaceAppend(Lower(a), Lower(b), ' ', '_');
    ReplaceAppend(Replace(Lower(a), ' ', '_'), Replace(Lower(b), ' ', '_'), '-', '_');
    var la := Replace(Replace(Lower(a), ' ', '_'), '-', '_');
    var lb := Replace(Replace(Lower(b), ' ', '_'), '-', '_');
    RemoveAppend(la, lb, '(');
    RemoveAppend(Remove(la, '('), Remove(lb, '('), ')');
  }

  lemma NormalizeSingle(c: char)
    ensures NormalizeTerm([c]) == NormalizeChar(c)
  {
  }

  /** The chained passes agree with the character-by-character definition. */
  lemma {:induction false} NormalizeIsCharwise(s: string)
    ensures NormalizeTerm(s) == NormalizeEach(s)
  {
    if s == [] {
      assert Lower(s) == [];
    } else {
      assert s == [s[0]] + s[1..];
      NormalizeAppend([s[0]], s[1..]);
      NormalizeSingle(s[0]);
      NormalizeIsCharwise(s[1..]);
    }
  }

  lemma {:induction false} NormalizeEachIsNormal(s: string)
    ensures IsNormal(NormalizeEach(s))
    ensures |NormalizeEach(s)| <= |s|
  {
    if s != [] {
      NormalizeEachIsNormal(s[1..]);
    }
  }

  lemma {:induction false} NormalizeEachFixesNormal(s: string)
    requires IsNormal(s)
    ensures NormalizeEach(s) == s
  {
    if s != [] {
      assert IsNormalChar(s[0]);
      NormalizeEachFixesNormal(s[1..]);
    }
  }

  /**
   * The output of normalization holds no space, hyphen, parenthesis or
   * uppercase ASCII letter, and is never longer than the input.
   */
  lemma NormalizeOutput(s: string)
    ensures IsNormal(NormalizeTerm(s))
    ensures |NormalizeTerm(s)| <= |s|
  {
    NormalizeIsCharwise(s);
    NormalizeEachIsNormal(s);
  }

  /** A string without those characters passes through unchanged. */
  lemma NormalizeFixesNormal(s: string)
    requires IsNormal(s)
    ensures NormalizeTerm(s) == s
  {
    NormalizeIsCharwise(s);
    NormalizeEachFixesNormal(s);
  }

  /** Normalization is idempotent. */
  lemma NormalizeIdempotent(s: string)
    ensures NormalizeTerm(NormalizeTerm(s)) == NormalizeTerm(s)
  {
    NormalizeOutput(s);
    NormalizeFixesNormal(NormalizeTerm(s));
  }

  /** Identity is an equivalence relation. */
  lemma IdenticalIsEquivalence(a: string, b: string, c: string)
    ensures TermsAreIdentical(a, a)
    ensures TermsAreIdentical(a, b) <==> TermsAreIdentical(b, a)
    ensures TermsAreIdentical(a, b) && TermsAreIdentical(b, c) ==> TermsAreIdentical(a, c)
  {
  }

  /** Every term is identical to its own normal form. */
  lemma IdenticalToNormalForm(s: string)
    ensures TermsAreIdentical(s, NormalizeTerm(s))
  {
    NormalizeIdempotent(s);
  }

  /** Terms whose lowercase forms agree are identical. */
  lemma SameLowerIdentical(a: string, b: string)
    requires Lower(a) == Lower(b)
    ensures TermsAreIdentical(a, b)
  {
  }
}
