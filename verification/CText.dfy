/**
 NUL-terminated text as the C runtime reads it: a string is the characters before the
 terminator, and the position just behind the last character reads as NUL. No member here
 reads any further, so a cursor that satisfies its preconditions never leaves the buffer.
 */
module CText {

  const NUL: char := '\0'

  /** The character under a cursor. */
  function At(s: string, p: nat): (c: char)
    requires p <= |s|
    ensures c != NUL ==> p < |s|
  {
    if p < |s| then s[p] else NUL
  }

  /** `t` stands in `s` at position `p`. */
  predicate Occurs(s: string, p: nat, t: string) {
    p + |t| <= |s| && forall k :: 0 <= k < |t| ==> s[p + k] == t[k]
  }

  lemma {:induction false} OccursAppend(s: string, p: nat, a: string, b: string)
    ensures Occurs(s, p, a + b) <==> Occurs(s, p, a) && Occurs(s, p + |a|, b)
  {
    var t := a + b;
    if Occurs(s, p, t) {
      forall k | 0 <= k < |a| ensures s[p + k] == a[k] { assert t[k] == a[k]; }
      forall k | 0 <= k < |b| ensures s[p + |a| + k] == b[k] { assert t[|a| + k] == b[k]; }
    }
    if Occurs(s, p, a) && Occurs(s, p + |a|, b) {
      forall k | 0 <= k < |t| ensures s[p + k] == t[k] {
        if k >= |a| {
          assert s[p + |a| + (k - |a|)] == b[k - |a|];
        }
      }
    }
  }

  lemma {:induction false} OccursThree(s: string, p: nat, a: string, b: string, c: string)
    ensures Occurs(s, p, a + b + c) <==> Occurs(s, p, a) && Occurs(s, p + |a|, b + c)
  {
    assert a + b + c == a + (b + c);
    OccursAppend(s, p, a, b + c);
  }

  lemma {:induction false} OccursSlice(s: string, p: nat, t: string)
    requires Occurs(s, p, t)
    ensures s[p..p + |t|] == t
  {
  }

  lemma {:induction false} OccursAt(s: string, p: nat, t: string, k: nat)
    requires Occurs(s, p, t) && k < |t|
    ensures At(s, p + k) == t[k]
  {
  }

  predicate NulFree(s: string) {
    forall i :: 0 <= i < |s| ==> s[i] != NUL
  }
}
