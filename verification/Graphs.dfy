/** Dependency graphs: `g[t]` is the set of tasks that task `t` directly waits for. */
module Graphs {
  type Graph = seq<set<nat>>

  /** Every edge goes from a lower task id to a higher one. */
  ghost predicate Downward(g: Graph) {
    forall t, m :: 0 <= t < |g| && m in g[t] ==> m < t
  }

  /** There is a non-empty path of waits from `t` down to `a`. */
  ghost predicate Reach(g: Graph, a: nat, t: nat)
    decreases t
  {
    t < |g| && exists m: nat :: m in g[t] && m < t && (a == m || Reach(g, a, m))
  }

  lemma {:induction false} ReachBelow(g: Graph, a: nat, t: nat)
    requires Reach(g, a, t)
    ensures a < t
    decreases t
  {
    var m: nat :| m in g[t] && m < t && (a == m || Reach(g, a, m));
    if a != m {
      ReachBelow(g, a, m);
    }
  }

  lemma {:induction false} ReachTrans(g: Graph, a: nat, b: nat, t: nat)
    requires Reach(g, a, b) && Reach(g, b, t)
    ensures Reach(g, a, t)
    decreases t
  {
    var m: nat :| m in g[t] && m < t && (b == m || Reach(g, b, m));
    if b != m {
      ReachTrans(g, a, b, m);
    }
    assert m in g[t] && Reach(g, a, m);
  }

  /** Paths down from `t` only use the rows up to `t`; more edges keep them. */
  lemma {:induction false} ReachMono(g: Graph, h: Graph, a: nat, t: nat)
    requires Reach(g, a, t) && t < |h|
    requires forall s :: 0 <= s <= t ==> g[s] <= h[s]
    ensures Reach(h, a, t)
    decreases t
  {
    var m: nat :| m in g[t] && m < t && (a == m || Reach(g, a, m));
    assert m in h[t];
    if a != m {
      ReachMono(g, h, a, m);
    }
  }

  lemma ReachLocal(g: Graph, h: Graph, a: nat, t: nat)
    requires t < |g| && t < |h| && forall s :: 0 <= s <= t ==> g[s] == h[s]
    ensures Reach(g, a, t) <==> Reach(h, a, t)
  {
    if Reach(g, a, t) {
      ReachMono(g, h, a, t);
    }
    if Reach(h, a, t) {
      ReachMono(h, g, a, t);
    }
  }

  lemma ReachEdge(g: Graph, a: nat, m: nat, t: nat)
    requires t < |g| && m in g[t] && m < t && (a == m || Reach(g, a, m))
    ensures Reach(g, a, t)
  {
  }

  /** In the rows up to `t`, the edges of `g` down to `low` or above are all in `h`. */
  ghost predicate SharedAbove(g: Graph, h: Graph, low: nat, t: nat) {
    t < |g| && t < |h| && forall s, m :: 0 <= s <= t && m in g[s] && m >= low ==> m in h[s]
  }

  /** A path that starts at or above `low` survives the loss of all edges below `low`. */
  lemma {:induction false} ReachAbove(g: Graph, h: Graph, low: nat, a: nat, t: nat)
    requires Reach(g, a, t) && low <= a && SharedAbove(g, h, low, t)
    ensures Reach(h, a, t)
    decreases t
  {
    var m: nat :| m in g[t] && m < t && (a == m || Reach(g, a, m));
    if a != m {
      ReachBelow(g, a, m);
      ReachAbove(g, h, low, a, m);
    }
    assert m in h[t];
  }

  /** The edge from `t` to `m` is still there, or `t` waits for another task that waits for `m`. */
  ghost predicate Bypassed(full: Graph, left: Graph, t: nat, m: nat)
    requires t < |full| == |left|
  {
    m in left[t] || exists b :: b in full[t] && Reach(full, m, b)
  }

  ghost predicate AllBypassed(full: Graph, left: Graph) {
    && |full| == |left| && Downward(full)
    && forall t, m :: 0 <= t < |full| && m in full[t] ==> Bypassed(full, left, t, m)
  }

  /** Losing bypassed edges loses no path, however many are lost at once. */
  lemma {:induction false} BypassReach(full: Graph, left: Graph, a: nat, t: nat)
    requires AllBypassed(full, left) && Reach(full, a, t)
    ensures Reach(left, a, t)
    decreases t, t
  {
    var m: nat :| m in full[t] && m < t && (a == m || Reach(full, a, m));
    BypassEdge(full, left, m, t);
    if a != m {
      BypassReach(full, left, a, m);
      ReachTrans(left, a, m, t);
    }
  }

  lemma {:induction false} BypassEdge(full: Graph, left: Graph, m: nat, t: nat)
    requires AllBypassed(full, left) && t < |full| && m in full[t]
    ensures Reach(left, m, t)
    decreases t, t - 1 - m
  {
    assert Bypassed(full, left, t, m);
    if m in left[t] {
      ReachEdge(left, m, m, t);
    } else {
      var b :| b in full[t] && Reach(full, m, b);
      ReachBelow(full, m, b);
      BypassEdge(full, left, b, t);
      BypassReach(full, left, m, b);
      ReachTrans(left, m, b, t);
    }
  }

  /** A row that no other row names has no part in the paths from elsewhere. */
  lemma {:induction false} ReachAround(g: Graph, h: Graph, x: nat, a: nat, t: nat)
    requires |g| == |h| && t != x && Reach(g, a, t)
    requires forall s :: 0 <= s < |g| && s != x ==> g[s] == h[s] && x !in g[s]
    ensures Reach(h, a, t)
    decreases t
  {
    var m: nat :| m in g[t] && m < t && (a == m || Reach(g, a, m));
    if a != m {
      ReachAround(g, h, x, a, m);
    }
    ReachEdge(h, a, m, t);
  }
}
