/** The one function of Go's `strings` package the service relies on. */
module Strings {

  /** `sub` occurs in `s` starting at position `k`. */
  ghost predicate OccursAt(sub: string, s: string, k: int) {
    0 <= k <= |s| - |sub| && s[k..k + |sub|] == sub
  }

  /** `sub` occurs in `s` at some position. */
  ghost predicate IsSubstring(sub: string, s: string) {
    exists k :: OccursAt(sub, s, k)
  }

  /** `strings.Contains`: tries each starting position of `s` in turn. */
  function Contains(s: string, sub: string): bool {
    if sub <= s then true
    else if s == [] then false
    else Contains(s[1..], sub)
  }

  /** `Contains` is case-sensitive substring search: it holds exactly when
      `sub` occurs somewhere in `s` (the empty text occurs everywhere). */
  lemma {:induction false} ContainsSpec(s: string, sub: string)
    ensures Contains(s, sub) <==> IsSubstring(sub, s)
  {
    if sub <= s {
      assert OccursAt(sub, s, 0);
    } else if s == [] {
    } else {
      ContainsSpec(s[1..], sub);
      ShiftSubstring(s, sub);
    }
  }

  lemma ShiftSubstring(s: string, sub: string)
    requires s != [] && !(sub <= s)
    ensures IsSubstring(sub, s) <==> IsSubstring(sub, s[1..])
  {
    assert !OccursAt(sub, s, 0) by {
      assert |sub| <= |s| ==> s[0..|sub|] == s[..|sub|];
    }
    if IsSubstring(sub, s) {
      var k :| OccursAt(sub, s, k);
      assert 1 <= k;
      assert s[1..][k - 1..k - 1 + |sub|] == s[k..k + |sub|];
      assert OccursAt(sub, s[1..], k - 1);
    }
    if IsSubstring(sub, s[1..]) {
      var k :| OccursAt(sub, s[1..], k);
      assert s[k + 1..k + 1 + |sub|] == s[1..][k..k + |sub|];
      assert OccursAt(sub, s, k + 1);
    }
  }

  /** A text missing one of the characters of `sub` does not contain it. */
  lemma MissingCharNotContained(sub: string, s: string, c: char)
    requires c in sub && c !in s
    ensures !Contains(s, sub)
  {
    var i :| 0 <= i < |sub| && sub[i] == c;
    forall k | 0 <= k <= |s| - |sub|
      ensures !OccursAt(sub, s, k)
    {
      assert s[k..k + |sub|][i] == s[k + i] != c;
    }
    ContainsSpec(s, sub);
  }
}
