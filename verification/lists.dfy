// Lists without repetitions, from which entries are taken out.
module Lists {

  ghost predicate NoRepeats(l: seq<int>) {
    forall i, j | 0 <= i < j < |l| :: l[i] != l[j]
  }

  /** The list without the first occurrence of `x`. */
  function WithoutFirst(l: seq<int>, x: int): seq<int> {
    if l == [] then [] else if l[0] == x then l[1..] else [l[0]] + WithoutFirst(l[1..], x)
  }

  lemma {:induction false} WithoutFirstIs(l: seq<int>, x: int)
    requires NoRepeats(l)
    ensures NoRepeats(WithoutFirst(l, x))
    ensures forall a :: a in WithoutFirst(l, x) <==> a in l && a != x
  {
    if l != [] {
      assert l[0] !in l[1..];
      assert forall a :: a in l <==> a == l[0] || a in l[1..];
      if l[0] != x {
        WithoutFirstIs(l[1..], x);
        assert l[0] !in WithoutFirst(l[1..], x);
      }
    }
  }

  lemma {:induction false} RestAt(l: seq<int>, x: int, i: nat)
    requires NoRepeats(l) && i < |WithoutFirst(l, x)|
    ensures WithoutFirst(l, x)[i] in l && WithoutFirst(l, x)[i] != x
  {
    if l[0] == x {
      assert WithoutFirst(l, x)[i] == l[i + 1];
    } else if i > 0 {
      RestAt(l[1..], x, i - 1);
    }
  }

  lemma {:induction false} AppendedGone(l: seq<int>, x: int)
    requires x !in l
    ensures WithoutFirst(l + [x], x) == l
  {
    if l != [] {
      assert (l + [x])[1..] == l[1..] + [x];
      AppendedGone(l[1..], x);
    }
  }

  lemma {:induction false} FirstGone(l: seq<int>, x: int, i: nat)
    requires i < |l| && l[i] == x && x !in l[..i]
    ensures WithoutFirst(l, x) == l[..i] + l[i + 1..]
  {
    if i > 0 {
      assert l[0] == l[..i][0] && l[1..][..i - 1] == l[..i][1..];
      FirstGone(l[1..], x, i - 1);
    }
  }

  lemma {:induction false} NoneGone(l: seq<int>, x: int)
    requires x !in l
    ensures WithoutFirst(l, x) == l
  {
    if l != [] {
      NoneGone(l[1..], x);
    }
  }
}
