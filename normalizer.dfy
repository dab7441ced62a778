/**
 * Canonical form of a show name: every identity comparison in the scanner
 * (ignore list, the current series, the episode keys) goes through it.
 */
module Normalizer {

  predicate IsUpper(c: char) {
    'A' <= c <= 'Z'
  }

  /** `strings.ToLower` on ASCII; other characters are left alone. */
  function ToLower(c: char): (l: char)
    ensures !IsUpper(l)
  {
    if IsUpper(c) then (c as int + 32) as char else c
  }

  /** The characters `normalize` deletes: space, single quote, double quote and period. */
  predicate IsStripped(c: char) {
    c == ' ' || c == '\'' || c == '"' || c == '.'
  }

  /** A character that survives normalisation unchanged. */
  predicate IsKeyChar(c: char) {
    !IsUpper(c) && !IsStripped(c)
  }

  /** Lower-cases `s`, then deletes spaces, single quotes, double quotes and periods. */
  function Normalize(s: string): (r: string)
    ensures |r| <= |s|
    ensures forall k | 0 <= k < |r| :: IsKeyChar(r[k])
  {
    if s == [] then []
    else
      var c := ToLower(s[0]);
      (if IsStripped(c) then [] else [c]) + Normalize(s[1..])
  }

  lemma {:induction false} NormalizeAppend(a: string, b: string)
    ensures Normalize(a + b) == Normalize(a) + Normalize(b)
  {
    if a == [] {
      assert a + b == b;
    } else {
      assert (a + b)[0] == a[0] && (a + b)[1..] == a[1..] + b;
      NormalizeAppend(a[1..], b);
    }
  }

  /** A string is its own normal form exactly when every character is a key character. */
  lemma {:induction false} NormalizeFixpoint(s: string)
    ensures Normalize(s) == s <==> forall k | 0 <= k < |s| :: IsKeyChar(s[k])
  {
    if s != [] && forall k | 0 <= k < |s| :: IsKeyChar(s[k]) {
      assert forall k | 0 <= k < |s[1..]| :: IsKeyChar(s[1..][k]);
      NormalizeFixpoint(s[1..]);
    }
  }

  lemma NormalizeIdempotent(s: string)
    ensures Normalize(Normalize(s)) == Normalize(s)
  {
    NormalizeFixpoint(Normalize(s));
  }

  /** Deleting a space or punctuation character anywhere does not change the key. */
  lemma NormalizeIgnoresStripped(a: string, c: char, b: string)
    requires IsStripped(c)
    ensures Normalize(a + [c] + b) == Normalize(a + b)
  {
    NormalizeAppend(a + [c], b);
    NormalizeAppend(a, [c]);
    NormalizeAppend(a, b);
    assert Normalize([c]) == [] by {
      assert [c][1..] == [];
    }
  }

  /** Two names whose characters agree up to ASCII case have the same key. */
  lemma {:induction false} NormalizeIgnoresCase(s: string, t: string)
    requires |s| == |t|
    requires forall k | 0 <= k < |s| :: ToLower(s[k]) == ToLower(t[k])
    ensures Normalize(s) == Normalize(t)
  {
    if s != [] {
      assert ToLower(s[0]) == ToLower(t[0]);
      NormalizeIgnoresCase(s[1..], t[1..]);
    }
  }
}
