/** Shared vocabulary: optional values, JavaScript field states, and the
    ASCII character helpers the controllers rely on (`toUpperCase`,
    `toLowerCase`, substring tests). */
module Common {

  /** A value that a request body may or may not carry. */
  datatype Option<+T> = None | Some(value: T)

  /** The three states a document field can be in: never written
      (`undefined`), explicitly cleared (`null`), or holding a value. */
  datatype Slot<+T> = Unset | Null | Val(value: T)

  /** JavaScript truthiness of an optional number: missing and 0 are falsy. */
  predicate TruthyNumber(n: Option<int>)
  {
    n.Some? && n.value != 0
  }

  predicate IsDigit(c: char)
  {
    '0' <= c <= '9'
  }

  predicate IsLowerLetter(c: char)
  {
    'a' <= c <= 'z'
  }

  predicate IsUpperLetter(c: char)
  {
    'A' <= c <= 'Z'
  }

  function LowerChar(c: char): (r: char)
    ensures !IsUpperLetter(r)
    ensures IsUpperLetter(c) ==> r as int == c as int + 32
    ensures !IsUpperLetter(c) ==> r == c
  {
    if IsUpperLetter(c) then (c as int + 32) as char else c
  }

  function UpperChar(c: char): (r: char)
    ensures !IsLowerLetter(r)
    ensures IsLowerLetter(c) ==> r as int == c as int - 32
    ensures !IsLowerLetter(c) ==> r == c
  {
    if IsLowerLetter(c) then (c as int - 32) as char else c
  }

  /** Applies `f` to every character of `s`. */
  function MapChars(f: char -> char, s: string): (r: string)
    ensures |r| == |s|
    ensures forall i :: 0 <= i < |s| ==> r[i] == f(s[i])
  {
    seq(|s|, i requires 0 <= i < |s| => f(s[i]))
  }

  /** `s.toLowerCase()`, restricted to ASCII letters. */
  function Lower(s: string): (r: string)
    ensures |r| == |s|
    ensures forall i :: 0 <= i < |s| ==> r[i] == LowerChar(s[i])
  {
    MapChars(LowerChar, s)
  }

  /** `s.toUpperCase()`, restricted to ASCII letters. */
  function Upper(s: string): (r: string)
    ensures |r| == |s|
    ensures forall i :: 0 <= i < |s| ==> r[i] == UpperChar(s[i])
  {
    MapChars(UpperChar, s)
  }

  /** An unanchored regular-expression test for a literal: `p` occurs
      somewhere in `s`. */
  predicate Contains(s: string, p: string)
    decreases |s|
  {
    p <= s || (|s| > 0 && Contains(s[1..], p))
  }

  /** `p` starts at position `k` of `s`. */
  predicate OccursAt(s: string, p: string, k: nat)
  {
    k + |p| <= |s| && s[k..k + |p|] == p
  }

  /** `Contains` is the same as the existence of a position where `p` starts. */
  lemma {:induction false} ContainsIff(s: string, p: string)
    ensures Contains(s, p) <==> exists k: nat :: OccursAt(s, p, k)
    decreases |s|
  {
    if p <= s {
      assert OccursAt(s, p, 0);
    } else if |s| > 0 {
      ContainsIff(s[1..], p);
      if Contains(s[1..], p) {
        var k: nat :| OccursAt(s[1..], p, k);
        assert s[k + 1..k + 1 + |p|] == s[1..][k..k + |p|];
        assert OccursAt(s, p, k + 1);
      } else {
        forall k: nat
          ensures !OccursAt(s, p, k)
        {
          if 0 < k && k + |p| <= |s| {
            var shifted, here := s[1..][k - 1..k - 1 + |p|], s[k..k + |p|];
            assert shifted == here by {
              forall i | 0 <= i < |p| ensures shifted[i] == here[i] { }
            }
            assert !OccursAt(s[1..], p, k - 1);
          } else if k == 0 && |p| <= |s| {
            assert s[0..|p|] == s[..|p|];
          }
        }
      }
    } else {
      assert forall k: nat :: !OccursAt(s, p, k);
    }
  }

  /** Every character of an occurring pattern is a character of the text. */
  lemma {:induction false} ContainsKeepsChars(s: string, p: string, c: char)
    requires Contains(s, p) && c in p
    ensures c in s
    decreases |s|
  {
    if p <= s {
      var i :| 0 <= i < |p| && p[i] == c;
      assert s[i] == c;
    } else {
      ContainsKeepsChars(s[1..], p, c);
    }
  }
}
