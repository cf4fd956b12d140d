/** The two string operations the application relies on: `str.lower()` and `str.replace()`. */
module Strings {

  /** Lower-case one character (ASCII letters only). */
  function LowerChar(c: char): char
  {
    if 'A' <= c <= 'Z' then (c as int + 32) as char else c
  }

  /** `s.lower()`, restricted to ASCII letters. */
  function Lower(s: string): string
  {
    seq(|s|, i requires 0 <= i < |s| => LowerChar(s[i]))
  }

  /** `pat` occurs in `s` starting at position `i`. */
  predicate OccursAt(s: string, pat: string, i: nat)
  {
    i + |pat| <= |s| && s[i..i + |pat|] == pat
  }

  /** `pat in s`. */
  predicate Contains(s: string, pat: string)
  {
    exists i: nat | i <= |s| :: OccursAt(s, pat, i)
  }

  lemma ContainsInTail(s: string, pat: string, i: nat)
    requires 0 < |s| && OccursAt(s[1..], pat, i)
    ensures OccursAt(s, pat, i + 1)
  {
  }

  /**
   * `s.replace(pat, rep)`: every non-overlapping occurrence of `pat`, scanning
   * left to right, is replaced by `rep`.
   */
  function ReplaceAll(s: string, pat: string, rep: string): (r: string)
    requires |pat| > 0
    ensures !Contains(s, pat) ==> r == s
    ensures s == pat ==> r == rep
    decreases |s|
  {
    if |s| < |pat| then s
    else if s[..|pat|] == pat then
      assert OccursAt(s, pat, 0);
      rep + ReplaceAll(s[|pat|..], pat, rep)
    else
      var tail := ReplaceAll(s[1..], pat, rep);
      assert Contains(s[1..], pat) ==> Contains(s, pat) by {
        if Contains(s[1..], pat) {
          var i: nat :| i <= |s[1..]| && OccursAt(s[1..], pat, i);
          ContainsInTail(s, pat, i);
        }
      }
      [s[0]] + tail
  }

  /** Without an occurrence at the front, the first character is kept. */
  lemma ReplaceAllKeepsFirst(s: string, pat: string, rep: string)
    requires |pat| > 0 && |pat| <= |s| && !OccursAt(s, pat, 0)
    ensures ReplaceAll(s, pat, rep) == [s[0]] + ReplaceAll(s[1..], pat, rep)
  {
  }

  /** `pat` occurs nowhere in `s` starting before position `i`. */
  predicate NoneBefore(s: string, pat: string, i: nat)
    decreases i
  {
    i == 0 || (0 < |s| && !OccursAt(s, pat, 0) && NoneBefore(s[1..], pat, i - 1))
  }

  lemma {:induction false} NoneBeforeOf(s: string, pat: string, i: nat)
    requires i <= |s|
    requires forall j: nat :: j < i ==> !OccursAt(s, pat, j)
    ensures NoneBefore(s, pat, i)
    decreases i
  {
    if i > 0 {
      forall j: nat | j < i - 1
        ensures !OccursAt(s[1..], pat, j)
      {
        if OccursAt(s[1..], pat, j) {
          ContainsInTail(s, pat, j);
        }
      }
      NoneBeforeOf(s[1..], pat, i - 1);
    }
  }

  /**
   * The leftmost occurrence of `pat` is replaced by `rep`, the text before it
   * is kept, and the rest of the text is processed the same way.
   */
  lemma ReplaceAllAtLeftmost(s: string, pat: string, rep: string, i: nat)
    requires |pat| > 0 && OccursAt(s, pat, i)
    requires forall j: nat :: j < i ==> !OccursAt(s, pat, j)
    ensures ReplaceAll(s, pat, rep) == s[..i] + rep + ReplaceAll(s[i + |pat|..], pat, rep)
  {
    NoneBeforeOf(s, pat, i);
    ReplaceAllAfterNone(s, pat, rep, i);
  }

  lemma {:induction false} ReplaceAllAfterNone(s: string, pat: string, rep: string, i: nat)
    requires |pat| > 0 && OccursAt(s, pat, i) && NoneBefore(s, pat, i)
    ensures ReplaceAll(s, pat, rep) == s[..i] + rep + ReplaceAll(s[i + |pat|..], pat, rep)
    decreases i
  {
    if i == 0 {
      assert s[..|pat|] == pat;
      assert s[..0] + rep == rep;
    } else {
      var t := s[1..];
      var k: nat := i - 1;
      var x := ReplaceAll(s[i + |pat|..], pat, rep);
      calc {
        ReplaceAll(s, pat, rep);
        { ReplaceAllKeepsFirst(s, pat, rep); }
        [s[0]] + ReplaceAll(t, pat, rep);
        { assert OccursAt(t, pat, k) by {
            assert t[k..k + |pat|] == s[i..i + |pat|];
          }
          ReplaceAllAfterNone(t, pat, rep, k);
          assert t[k + |pat|..] == s[i + |pat|..];
        }
        [s[0]] + (t[..k] + rep + x);
        { ConsAssoc(s[0], t[..k], rep, x, s[..i]); }
        s[..i] + rep + x;
      }
    }
  }

  lemma ConsAssoc(c: char, b: string, rep: string, x: string, whole: string)
    requires [c] + b == whole
    ensures [c] + (b + rep + x) == whole + rep + x
  {
    assert [c] + (b + rep + x) == ([c] + b) + rep + x;
  }
}
