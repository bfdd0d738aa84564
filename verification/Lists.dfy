/** Lists without repetition. */
module Lists {
  /** No element occurs twice. */
  ghost predicate NoDup<T>(l: seq<T>) {
    forall i, j :: 0 <= i < j < |l| ==> l[i] != l[j]
  }

  ghost function Elements(l: seq<nat>): set<nat> {
    set x | x in l
  }

  lemma {:induction false} AfterThree(l: seq<nat>)
    requires NoDup(l) && |l| >= 3
    ensures l[0] != l[1] && l[0] != l[2] && l[1] != l[2]
    ensures forall x :: x in l[3..] <==> x in l && x != l[0] && x != l[1] && x != l[2]
    ensures forall x :: x in l[..3] <==> x == l[0] || x == l[1] || x == l[2]
  {
    assert l == [l[0], l[1], l[2]] + l[3..];
    assert forall k :: 0 <= k < |l| - 3 ==> l[3..][k] == l[k + 3];
  }

  lemma {:induction false} ElementsSize(l: seq<nat>)
    requires NoDup(l)
    ensures |Elements(l)| == |l|
  {
    if l == [] {
    } else {
      var n := |l| - 1;
      ElementsSize(l[..n]);
      assert l[n] !in Elements(l[..n]) && l == l[..n] + [l[n]];
      assert Elements(l) == Elements(l[..n]) + {l[n]};
    }
  }

  /** Lists without repetition and with the same members have the same length. */
  lemma {:induction false} SameMembersSameLength(a: seq<nat>, b: seq<nat>)
    requires NoDup(a) && NoDup(b) && forall x :: x in a <==> x in b
    ensures |a| == |b|
  {
    ElementsSize(a);
    ElementsSize(b);
    assert Elements(a) == Elements(b);
  }
}
