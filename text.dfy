/**
 * The two Python string operations the derivation strategy relies on:
 * `str.split()` (only through the number of words it yields) and `str.upper()`.
 */
module Text {

  /** Python's `str.isspace()` for one character: the separators `str.split()` splits on. */
  predicate IsSpace(c: char) {
    var n := c as int;
    (0x09 <= n <= 0x0d) || (0x1c <= n <= 0x20) || n == 0x85 || n == 0xa0 || n == 0x1680
    || (0x2000 <= n <= 0x200a) || n == 0x2028 || n == 0x2029 || n == 0x202f || n == 0x205f
    || n == 0x3000
  }

  /**
   * `len(s.split())`: the number of maximal runs of non-whitespace characters.
   * Each run is counted at its last character, so there are never more words than characters.
   */
  function WordCount(s: string): (r: nat)
    ensures r <= |s|
  {
    if s == [] then 0
    else if !IsSpace(s[0]) && (|s| == 1 || IsSpace(s[1])) then 1 + WordCount(s[1..])
    else WordCount(s[1..])
  }

  /** A string with a non-whitespace character splits into at least one word. */
  lemma {:induction false} AtLeastOneWord(s: string, k: nat)
    requires k < |s| && !IsSpace(s[k])
    ensures WordCount(s) >= 1
  {
    if k > 0 {
      AtLeastOneWord(s[1..], k - 1);
    } else if |s| > 1 && !IsSpace(s[1]) {
      AtLeastOneWord(s[1..], 0);
    }
  }

  /** A string made only of whitespace (the empty string included) splits into no words at all. */
  lemma {:induction false} NoWords(s: string)
    ensures WordCount(s) == 0 <==> forall i :: 0 <= i < |s| ==> IsSpace(s[i])
  {
    if s != [] {
      NoWords(s[1..]);
      if !IsSpace(s[0]) {
        AtLeastOneWord(s, 0);
      }
    }
  }

  /** A non-empty string without whitespace is one word. */
  lemma {:induction false} SingleWord(s: string)
    requires s != [] && forall i :: 0 <= i < |s| ==> !IsSpace(s[i])
    ensures WordCount(s) == 1
  {
    if |s| > 1 {
      SingleWord(s[1..]);
    }
  }

  /** Two non-whitespace characters with whitespace between them belong to different words. */
  lemma {:induction false} SeveralWords(s: string, i: nat, j: nat, k: nat)
    requires i < j < k < |s|
    requires !IsSpace(s[i]) && IsSpace(s[j]) && !IsSpace(s[k])
    ensures WordCount(s) >= 2
  {
    if i > 0 {
      SeveralWords(s[1..], i - 1, j - 1, k - 1);
    } else if IsSpace(s[1]) {
      AtLeastOneWord(s[1..], k - 1);
    } else {
      SeveralWords(s[1..], 0, j - 1, k - 1);
    }
  }

  /** Two non-empty words without whitespace, joined by one space, make exactly two words. */
  lemma {:induction false} TwoWords(a: string, b: string)
    requires a != [] && forall i :: 0 <= i < |a| ==> !IsSpace(a[i])
    requires b != [] && forall i :: 0 <= i < |b| ==> !IsSpace(b[i])
    ensures WordCount(a + " " + b) == 2
  {
    var s := a + " " + b;
    if |a| == 1 {
      assert s[1..][1..] == b;
      SingleWord(b);
    } else {
      assert s[1..] == a[1..] + " " + b;
      TwoWords(a[1..], b);
    }
  }

  /** Some non-whitespace character, then whitespace, then a non-whitespace character again. */
  predicate TwoRuns(s: string) {
    exists i, j, k :: 0 <= i < j < k < |s| && !IsSpace(s[i]) && IsSpace(s[j]) && !IsSpace(s[k])
  }

  /** Without two runs of non-whitespace, a string is at most one word. */
  lemma {:induction false} AtMostOneWord(s: string)
    requires !TwoRuns(s)
    ensures WordCount(s) <= 1
  {
    if s != [] {
      AtMostOneWord(s[1..]);
      if !IsSpace(s[0]) && |s| > 1 && IsSpace(s[1]) {
        assert forall k :: 0 <= k < |s[1..]| ==> IsSpace(s[1..][k]);
        NoWords(s[1..]);
      }
    }
  }

  /**
   * A string is exactly one word, as the one-word test of the multiword matcher asks,
   * exactly when it has a non-whitespace character and no two runs of them.
   */
  lemma ExactlyOneWord(s: string)
    ensures WordCount(s) == 1 <==> (exists k :: 0 <= k < |s| && !IsSpace(s[k])) && !TwoRuns(s)
  {
    NoWords(s);
    if TwoRuns(s) {
      var i, j, k :| 0 <= i < j < k < |s| && !IsSpace(s[i]) && IsSpace(s[j]) && !IsSpace(s[k]);
      SeveralWords(s, i, j, k);
    } else {
      AtMostOneWord(s);
    }
  }

  /** `str.upper()` on one character, for the ASCII letters only. */
  function UpperChar(c: char): char {
    if 'a' <= c <= 'z' then (c as int - 32) as char else c
  }

  /** `str.upper()`, character by character. */
  function Upper(s: string): (r: string)
    ensures |r| == |s|
    ensures forall i :: 0 <= i < |r| ==> !('a' <= r[i] <= 'z')
    ensures forall i :: 0 <= i < |s| && !('a' <= s[i] <= 'z') ==> r[i] == s[i]
    ensures forall i :: 0 <= i < |s| && 'a' <= s[i] <= 'z' ==>
              'A' <= r[i] <= 'Z' && r[i] as int - 'A' as int == s[i] as int - 'a' as int
  {
    seq(|s|, i requires 0 <= i < |s| => UpperChar(s[i]))
  }
}
