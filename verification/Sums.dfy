/** Sums over finite sets. */
module Sums {
  ghost function Sum(f: nat -> nat, G: set<nat>): nat {
    if G == {} then 0 else var g :| g in G; f(g) + Sum(f, G - {g})
  }

  /** Any element may be taken out first. */
  lemma {:induction false} SumPick(f: nat -> nat, G: set<nat>, x: nat)
    requires x in G
    ensures Sum(f, G) == f(x) + Sum(f, G - {x})
  {
    var g :| g in G && Sum(f, G) == f(g) + Sum(f, G - {g});
    if g != x {
      SumPick(f, G - {g}, x);
      SumPick(f, G - {x}, g);
      assert G - {g} - {x} == G - {x} - {g};
    }
  }

  lemma {:induction false} SumUnion(f: nat -> nat, A: set<nat>, B: set<nat>)
    requires A !! B
    ensures Sum(f, A + B) == Sum(f, A) + Sum(f, B)
  {
    if A == {} {
      assert A + B == B;
    } else {
      var a :| a in A;
      SumPick(f, A, a);
      SumPick(f, A + B, a);
      assert A + B - {a} == (A - {a}) + B;
      SumUnion(f, A - {a}, B);
    }
  }

  lemma {:induction false} SumFrame(f: nat -> nat, h: nat -> nat, G: set<nat>)
    requires forall g :: g in G ==> f(g) == h(g)
    ensures Sum(f, G) == Sum(h, G)
  {
    if G != {} {
      var g :| g in G;
      SumPick(f, G, g);
      SumPick(h, G, g);
      SumFrame(f, h, G - {g});
    }
  }
}
