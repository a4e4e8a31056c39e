/**
 Substring search, as done by the `in` operator on two strings: the empty
 string occurs in every string, and otherwise the needle must appear as a
 contiguous slice of the haystack.
 */
module Substring {

  /** `sub` appears in `s` starting at position `i`. */
  ghost predicate OccursAt(sub: string, s: string, i: int) {
    0 <= i <= |s| - |sub| && s[i..i + |sub|] == sub
  }

  /** `sub` appears somewhere in `s`. */
  ghost predicate Occurs(sub: string, s: string) {
    exists i :: OccursAt(sub, s, i)
  }

  /** Does `sub` occur in `s`? Tries each start position from the left. */
  function Contains(sub: string, s: string): bool
    decreases |s|
  {
    if |sub| == 0 then true
    else if |s| < |sub| then false
    else s[..|sub|] == sub || Contains(sub, s[1..])
  }

  /** `Contains` answers exactly whether `sub` occurs in `s`. */
  lemma {:induction false} ContainsIff(sub: string, s: string)
    ensures Contains(sub, s) <==> Occurs(sub, s)
    decreases |s|
  {
    if |sub| == 0 {
      assert OccursAt(sub, s, 0);
    } else if |s| >= |sub| {
      ContainsIff(sub, s[1..]);
      if s[..|sub|] == sub {
        assert OccursAt(sub, s, 0);
      } else {
        if Occurs(sub, s) {
          var i :| OccursAt(sub, s, i);
          assert i != 0;
          assert s[1..][i - 1..i - 1 + |sub|] == s[i..i + |sub|];
          assert OccursAt(sub, s[1..], i - 1);
        }
        if Occurs(sub, s[1..]) {
          var i :| OccursAt(sub, s[1..], i);
          assert s[1..][i..i + |sub|] == s[i + 1..i + 1 + |sub|];
          assert OccursAt(sub, s, i + 1);
        }
      }
    }
  }

  /** Whatever is spliced between two strings occurs in the result. */
  lemma OccursInMiddle(prefix: string, sub: string, suffix: string)
    ensures Occurs(sub, prefix + sub + suffix)
  {
    var s := prefix + sub + suffix;
    assert s[|prefix|..|prefix| + |sub|] == sub;
    assert OccursAt(sub, s, |prefix|);
  }
}
