/** The NUL character as a separator of ids in composite keys. */
module Separator {

  const NUL := '\0'

  predicate NulFree(s: string) {
    forall i :: 0 <= i < |s| ==> s[i] != NUL
  }

  lemma {:induction false} FirstNul(a: string, b: string, r: string, s: string)
    requires NulFree(a) && NulFree(b)
    requires a + [NUL] + r == b + [NUL] + s
    ensures a == b && r == s
    decreases |a|
  {
    var t := a + [NUL] + r;
    assert t[0] == (if a == "" then NUL else a[0]) && t[0] == (if b == "" then NUL else b[0]);
    if a == "" {
      assert t[1..] == r && t[1..] == s;
    } else {
      assert t[1..] == a[1..] + [NUL] + r && t[1..] == b[1..] + [NUL] + s;
      FirstNul(a[1..], b[1..], r, s);
      assert a == [a[0]] + a[1..] && b == [b[0]] + b[1..];
    }
  }
}
