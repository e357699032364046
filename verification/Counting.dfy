/** Sizes of finite sets, and how many entries of a map satisfy a predicate. */
module Counting {

  lemma SubsetSize<T>(a: set<T>, b: set<T>)
    requires a <= b
    ensures |a| <= |b|
  {
    assert b == a + (b - a);
  }

  function Unit(b: bool): int {
    if b then 1 else 0
  }

  ghost function Where<T>(m: map<nat, T>, p: T -> bool): set<nat> {
    set t | t in m && p(m[t])
  }

  ghost function Tally<T>(m: map<nat, T>, p: T -> bool): nat {
    |Where(m, p)|
  }

  lemma TallyUpdate<T>(m: map<nat, T>, t: nat, v: T, p: T -> bool)
    ensures Tally(m[t := v], p) == Tally(m, p) - Unit(t in m && p(m[t])) + Unit(p(v))
  {
    SameElsewhere(m, t, v, p);
    SizesDiffer(Where(m, p), Where(m[t := v], p), t);
  }

  lemma SameElsewhere<T>(m: map<nat, T>, t: nat, v: T, p: T -> bool)
    ensures forall u :: u != t ==> (u in Where(m[t := v], p) <==> u in Where(m, p))
    ensures t in Where(m, p) <==> t in m && p(m[t])
    ensures t in Where(m[t := v], p) <==> p(v)
  {
  }

  lemma SizesDiffer(before: set<nat>, after: set<nat>, t: nat)
    requires forall u :: u != t ==> (u in after <==> u in before)
    ensures |after| == |before| - Unit(t in before) + Unit(t in after)
  {
    if t in before && t !in after {
      assert before == after + {t};
    } else if t !in before && t in after {
      assert after == before + {t};
    } else {
      assert after == before;
    }
  }
}
