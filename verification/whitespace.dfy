/**
 Whitespace tokenisation of a tool's output, as done by a byte-string `split()`
 with no separator argument: runs of whitespace act as one separator and no
 empty tokens are produced, whatever leads or trails the text.
 */
module Whitespace {

  /** The separator bytes: space, tab, line feed, carriage return, vertical tab, form feed. */
  predicate IsSpace(c: char) {
    c == ' ' || c == '\t' || c == '\n' || c == '\r' || c == '\U{0B}' || c == '\U{0C}'
  }

  /** A token: non-empty and free of separators. */
  predicate IsWord(w: string) {
    |w| > 0 && forall k :: 0 <= k < |w| ==> !IsSpace(w[k])
  }

  /** Length of the longest separator-free prefix of `s`. */
  function WordLength(s: string): (n: nat)
    ensures n <= |s|
    ensures forall k :: 0 <= k < n ==> !IsSpace(s[k])
    ensures n < |s| ==> IsSpace(s[n])
  {
    if |s| == 0 || IsSpace(s[0]) then 0 else 1 + WordLength(s[1..])
  }

  /** The tokens of `s`, left to right. */
  function Split(s: string): (words: seq<string>)
    ensures forall k :: 0 <= k < |words| ==> IsWord(words[k])
    decreases |s|
  {
    if |s| == 0 then []
    else if IsSpace(s[0]) then Split(s[1..])
    else
      var n := WordLength(s);
      [s[..n]] + Split(s[n..])
  }

  /** `s[i..j]` is a maximal separator-free run of `s`: bounded by a separator
      or by an end of `s` on either side. */
  ghost predicate IsTokenAt(s: string, i: int, j: int) {
    && 0 <= i < j <= |s|
    && (forall k :: i <= k < j ==> !IsSpace(s[k]))
    && (i == 0 || IsSpace(s[i - 1]))
    && (j == |s| || IsSpace(s[j]))
  }

  /** `t` stands in `s` as a whole whitespace-separated token. */
  ghost predicate IsToken(t: string, s: string) {
    exists i, j :: IsTokenAt(s, i, j) && s[i..j] == t
  }

  /** A maximal run of a suffix `s[m..]` is a maximal run of `s`, shifted by `m`,
      provided the suffix does not cut a run of `s` in two. */
  lemma TokenOfSuffix(s: string, m: nat, i: int, j: int)
    requires m <= |s|
    requires IsTokenAt(s[m..], i, j)
    requires i > 0 || m == 0 || IsSpace(s[m - 1])
    ensures IsTokenAt(s, i + m, j + m)
    ensures s[i + m..j + m] == s[m..][i..j]
  {
  }

  /** The converse: a maximal run of `s` lying in `s[m..]` is one of the suffix. */
  lemma SuffixOfToken(s: string, m: nat, i: int, j: int)
    requires m <= i
    requires IsTokenAt(s, i, j)
    ensures IsTokenAt(s[m..], i - m, j - m)
    ensures s[m..][i - m..j - m] == s[i..j]
  {
  }

  /** Every maximal run of `s` is listed by `Split`. */
  lemma {:induction false} TokenComplete(s: string, i: int, j: int)
    requires IsTokenAt(s, i, j)
    ensures s[i..j] in Split(s)
    decreases |s|
  {
    if IsSpace(s[0]) {
      assert i != 0 by { assert !IsSpace(s[i]); }
      SuffixOfToken(s, 1, i, j);
      TokenComplete(s[1..], i - 1, j - 1);
    } else {
      var n := WordLength(s);
      assert Split(s) == [s[..n]] + Split(s[n..]);
      if i == 0 {
        assert j == n;
      } else {
        assert i - 1 >= n;
        SuffixOfToken(s, n, i, j);
        TokenComplete(s[n..], i - n, j - n);
      }
    }
  }

  /** Everything `Split` lists is a maximal run of `s`. */
  lemma {:induction false} TokenSound(s: string, t: string)
    requires t in Split(s)
    ensures IsToken(t, s)
    decreases |s|
  {
    if IsSpace(s[0]) {
      TokenSound(s[1..], t);
      var i, j :| IsTokenAt(s[1..], i, j) && s[1..][i..j] == t;
      TokenOfSuffix(s, 1, i, j);
    } else {
      var n := WordLength(s);
      if t == s[..n] {
        assert IsTokenAt(s, 0, n) && s[0..n] == t;
      } else {
        var s' := s[n..];
        assert t in Split(s');
        TokenSound(s', t);
        var i, j :| IsTokenAt(s', i, j) && s'[i..j] == t;
        assert i != 0 by {
          assert s'[0] == s[n];
        }
        TokenOfSuffix(s, n, i, j);
      }
    }
  }

  /** Membership in `Split(s)` is exactly being a whole token of `s`. */
  lemma SplitListsTokens(t: string, s: string)
    ensures t in Split(s) <==> IsToken(t, s)
  {
    if t in Split(s) {
      TokenSound(s, t);
    }
    if IsToken(t, s) {
      var i, j :| IsTokenAt(s, i, j) && s[i..j] == t;
      TokenComplete(s, i, j);
    }
  }

  /** The words joined by single spaces: the shape of a tool's flag listing. */
  function Join(words: seq<string>): string {
    if |words| == 0 then ""
    else if |words| == 1 then words[0]
    else words[0] + " " + Join(words[1..])
  }

  /** A word followed by a separator (or by nothing) is split off whole. */
  lemma {:induction false} SplitAfterWord(w: string, rest: string)
    requires IsWord(w)
    requires |rest| == 0 || IsSpace(rest[0])
    ensures Split(w + rest) == [w] + Split(rest)
  {
    var s := w + rest;
    var n := WordLength(s);
    assert n == |w| by {
      assert |w| < |s| ==> s[|w|] == rest[0];
    }
    assert s[..n] == w;
    assert s[n..] == rest;
  }

  /** Splitting a joined list of words gives the words back. */
  lemma {:induction false} SplitJoin(words: seq<string>)
    requires forall k :: 0 <= k < |words| ==> IsWord(words[k])
    ensures Split(Join(words)) == words
  {
    if |words| == 1 {
      SplitAfterWord(words[0], "");
      assert words[0] + "" == words[0];
    } else if |words| > 1 {
      var tail := Join(words[1..]);
      SplitJoin(words[1..]);
      var rest := " " + tail;
      assert rest[1..] == tail;
      assert Split(rest) == Split(tail);
      SplitAfterWord(words[0], rest);
      assert words[0] + " " + tail == words[0] + rest;
      assert words == [words[0]] + words[1..];
    }
  }
}
