/**
 The few string operations the theme resolver relies on: commons-lang
 `StringUtils.isEmpty`, `String.equalsIgnoreCase` and `String.contains`.
 */
module JavaStrings {
  import opened Wrappers

  /** `StringUtils.isEmpty`: the reference is null or the string has no characters. */
  predicate IsEmpty(s: Option<string>) {
    s.None? || |s.value| == 0
  }

  /**
   `Character.toUpperCase`, for the characters whose upper case is an ASCII
   letter: `a`..`z`, dotless i (U+0131) and long s (U+017F). Every other
   character is left as it is.
   */
  function ToUpper(c: char): char {
    if 'a' <= c <= 'z' then (c as int - 32) as char
    else if c == '\U{0131}' then 'I'
    else if c == '\U{017F}' then 'S'
    else c
  }

  /**
   `Character.toLowerCase`, for the characters whose lower case is an ASCII
   letter: `A`..`Z`, capital I with dot above (U+0130) and the Kelvin sign
   (U+212A). Every other character is left as it is.
   */
  function ToLower(c: char): char {
    if 'A' <= c <= 'Z' then (c as int + 32) as char
    else if c == '\U{0130}' then 'i'
    else if c == '\U{212A}' then 'k'
    else c
  }

  /** The representative of a character's case class: lower case of upper case. */
  function Fold(c: char): char {
    ToLower(ToUpper(c))
  }

  /**
   The per-character test of `String.regionMatches(true, ...)`: the characters
   are equal, or their upper cases are, or the lower cases of their upper cases are.
   */
  predicate CharEqualsIgnoreCase(a: char, b: char) {
    a == b || ToUpper(a) == ToUpper(b) || ToLower(ToUpper(a)) == ToLower(ToUpper(b))
  }

  /** `String.equalsIgnoreCase`: same length and every position matches ignoring case. */
  predicate EqualsIgnoreCase(a: string, b: string) {
    |a| == |b| && forall i :: 0 <= i < |a| ==> CharEqualsIgnoreCase(a[i], b[i])
  }

  /** A string made only of case-class representatives, such as `default.css`. */
  predicate IsCanonical(s: string) {
    forall i :: 0 <= i < |s| ==> Fold(s[i]) == s[i]
  }

  /** Replaces every character by its case-class representative. */
  function FoldString(s: string): (r: string)
    ensures |r| == |s|
    ensures forall i :: 0 <= i < |s| ==> r[i] == Fold(s[i])
    ensures IsCanonical(r)
  {
    if |s| == 0 then [] else [Fold(s[0])] + FoldString(s[1..])
  }

  /**
   Against a canonical string, ignoring case is exactly comparing case
   classes: `f` equals `n` ignoring case if and only if `n` folds to `f`.
   */
  lemma EqualsIgnoreCaseCanonical(f: string, n: string)
    requires IsCanonical(f)
    ensures EqualsIgnoreCase(f, n) <==> FoldString(n) == f
  {
    if EqualsIgnoreCase(f, n) {
      forall i | 0 <= i < |f|
        ensures FoldString(n)[i] == f[i]
      {
        assert CharEqualsIgnoreCase(f[i], n[i]);
      }
    }
    if FoldString(n) == f {
      forall i | 0 <= i < |f|
        ensures CharEqualsIgnoreCase(f[i], n[i])
      {
        assert Fold(n[i]) == f[i];
      }
    }
  }

  /** Two canonical strings that both equal `n` ignoring case are the same string. */
  lemma CanonicalMatchIsUnique(f1: string, f2: string, n: string)
    requires IsCanonical(f1) && IsCanonical(f2)
    requires EqualsIgnoreCase(f1, n) && EqualsIgnoreCase(f2, n)
    ensures f1 == f2
  {
    EqualsIgnoreCaseCanonical(f1, n);
    EqualsIgnoreCaseCanonical(f2, n);
  }

  /** `sub` occurs in `s` starting at index `i`. */
  predicate OccursAt(s: string, sub: string, i: nat) {
    i + |sub| <= |s| && s[i..i + |sub|] == sub
  }

  /** `String.startsWith`, comparing character by character. */
  predicate StartsWith(s: string, prefix: string) {
    |prefix| == 0 || (|s| > 0 && s[0] == prefix[0] && StartsWith(s[1..], prefix[1..]))
  }

  /** Character-by-character comparison agrees with comparing the leading slice. */
  lemma {:induction false} StartsWithIffPrefix(s: string, prefix: string)
    ensures StartsWith(s, prefix) <==> |prefix| <= |s| && s[..|prefix|] == prefix
  {
    if |prefix| > 0 && |s| > 0 {
      StartsWithIffPrefix(s[1..], prefix[1..]);
      if |prefix| <= |s| && s[..|prefix|] == prefix {
        assert s[1..][..|prefix| - 1] == prefix[1..];
      }
      if StartsWith(s, prefix) {
        assert s[..|prefix|] == [s[0]] + s[1..][..|prefix| - 1];
      }
    }
  }

  /** An occurrence at `i` fixes the characters from `i` on. */
  lemma OccursAtChars(s: string, sub: string, i: nat)
    requires OccursAt(s, sub, i)
    ensures forall k :: 0 <= k < |sub| ==> s[i + k] == sub[k]
  {
    forall k | 0 <= k < |sub|
      ensures s[i + k] == sub[k]
    {
      assert s[i..i + |sub|][k] == s[i + k];
    }
  }

  /**
   `String.contains`: `indexOf(sub) >= 0`, found by trying every start
   position from the left. The comparison is case-sensitive.
   */
  function Contains(s: string, sub: string): (b: bool)
    decreases |s|
  {
    if StartsWith(s, sub) then true
    else if |s| <= |sub| then false
    else Contains(s[1..], sub)
  }

  /** The scan finds `sub` exactly when it occurs at some index of `s`. */
  lemma {:induction false} ContainsIffOccurs(s: string, sub: string)
    ensures Contains(s, sub) <==> exists i: nat :: OccursAt(s, sub, i)
    decreases |s|
  {
    StartsWithIffPrefix(s, sub);
    if |sub| <= |s| && s[..|sub|] == sub {
      assert OccursAt(s, sub, 0);
    } else if |s| <= |sub| {
      // the only start that fits is 0, and `sub` is not there
    } else {
      ContainsIffOccurs(s[1..], sub);
      if Contains(s[1..], sub) {
        var i: nat :| OccursAt(s[1..], sub, i);
        assert s[1..][i..i + |sub|] == s[i + 1..i + 1 + |sub|];
        assert OccursAt(s, sub, i + 1);
      }
      if i: nat :| OccursAt(s, sub, i) {
        assert i != 0 by {
          assert s[..|sub|] == s[0..0 + |sub|];
        }
        assert s[1..][i - 1..i - 1 + |sub|] == s[i..i + |sub|];
        assert OccursAt(s[1..], sub, i - 1);
      }
    }
  }
}
