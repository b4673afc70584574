/** Parent maps: what the cycle check computes, when a map is a forest, and what writes to it keep. */
module Forests {
  import opened Shared

  type Node = nat
  type Parents = map<Node, Option<Node>>

  /** The node n steps up from `a`. */
  function Up(p: Parents, a: Node, n: nat): Option<Node>
    decreases n
  {
    if n == 0 then Some(a)
    else if a in p && p[a].Some? then Up(p, p[a].value, n - 1)
    else None
  }

  ghost predicate Reaches(p: Parents, a: Node, b: Node) {
    exists n: nat :: Up(p, a, n) == Some(b)
  }

  /** Following parents never comes back. */
  ghost predicate Acyclic(p: Parents) {
    forall a, n: nat :: a in p && 0 < n ==> Up(p, a, n) != Some(a)
  }

  /** Every parent exists. */
  predicate Closed(p: Parents) {
    forall a <- p :: p[a].Some? ==> p[a].value in p
  }

  ghost predicate Forest(p: Parents) {
    Acyclic(p) && Closed(p)
  }

  lemma SelfReach(p: Parents, a: Node)
    ensures Reaches(p, a, a)
  {
    assert Up(p, a, 0) == Some(a);
  }

  lemma {:induction false} UpUp(p: Parents, a: Node, m: nat, n: nat)
    ensures Up(p, a, m + n) == match Up(p, a, m) case None => None case Some(b) => Up(p, b, n)
    decreases m
  {
    if m != 0 && a in p && p[a].Some? { UpUp(p, p[a].value, m - 1, n); }
  }

  // ---------- The cycle check ----------

  datatype Verdict = Cycle | Missing | Clear

  function Walk(p: Parents, current: Node, child: Node, visited: set<Node>): Verdict
    decreases p.Keys - visited
  {
    if current == child then Cycle
    else if current in visited then Clear
    else if current !in p then Missing
    else if p[current].Some? then Walk(p, p[current].value, child, visited + {current})
    else Clear
  }

  ghost predicate Traps(p: Parents, s: set<Node>) {
    forall v <- s :: v in p && p[v].Some? ==> p[v].value in s
  }

  lemma {:induction false} Trapped(p: Parents, s: set<Node>, a: Node, n: nat)
    requires Traps(p, s) && a in s
    ensures Up(p, a, n).Some? ==> Up(p, a, n).value in s
    decreases n
  {
    if n != 0 && a in p && p[a].Some? { Trapped(p, s, p[a].value, n - 1); }
  }

  lemma TrappedReaches(p: Parents, s: set<Node>, a: Node, b: Node)
    requires Traps(p, s) && a in s && Reaches(p, a, b)
    ensures b in s
  {
    var n: nat :| Up(p, a, n) == Some(b);
    Trapped(p, s, a, n);
  }

  /** The chain from `start` leaves the map. */
  ghost predicate Leaves(p: Parents, start: Node) {
    exists x :: x !in p && Reaches(p, start, x)
  }

  lemma {:induction false} WalkFrom(p: Parents, start: Node, current: Node, child: Node, visited: set<Node>)
    requires Reaches(p, start, current) && (start == current || start in visited)
    requires child !in visited
    requires forall v <- visited :: v in p && p[v].Some? && p[v].value in visited + {current}
    ensures Walk(p, current, child, visited) == Cycle <==> Reaches(p, start, child)
    ensures Walk(p, current, child, visited) == Missing <==> !Reaches(p, start, child) && Leaves(p, start)
    decreases p.Keys - visited
  {
    var seen := visited + {current};
    if current == child {
    } else if current in visited || current !in p || p[current].None? {
      assert Traps(p, seen);
      forall x | Reaches(p, start, x) ensures x in seen { TrappedReaches(p, seen, start, x); }
    } else {
      var n: nat :| Up(p, start, n) == Some(current);
      var next := p[current].value;
      UpUp(p, start, n, 1);
      assert Up(p, current, 1) == Up(p, next, 0);
      assert Reaches(p, start, next);
      WalkFrom(p, start, next, child, seen);
    }
  }

  /** On every map, cyclic or not, the walk stops; it reports a cycle exactly when the child is reached
      from the proposed parent, and a missing category exactly when the chain leaves the map first. */
  lemma WalkMeans(p: Parents, parent: Node, child: Node)
    ensures Walk(p, parent, child, {}) == Cycle <==> Reaches(p, parent, child)
    ensures Walk(p, parent, child, {}) == Missing <==> !Reaches(p, parent, child) && Leaves(p, parent)
  {
    assert Up(p, parent, 0) == Some(parent);
    WalkFrom(p, parent, parent, child, {});
  }

  lemma ClosedWalk(p: Parents, parent: Node, child: Node)
    requires Closed(p) && parent in p
    ensures Walk(p, parent, child, {}) == Clear <==> !Reaches(p, parent, child)
  {
    WalkMeans(p, parent, child);
    assert Traps(p, p.Keys);
    forall x | Reaches(p, parent, x) ensures x in p { TrappedReaches(p, p.Keys, parent, x); }
  }

  // ---------- Writes that keep a forest ----------

  lemma {:induction false} SameUp(p: Parents, p': Parents, c: Node, a: Node, n: nat)
    requires p - {c} == p' - {c}
    requires forall k :: 0 <= k < n ==> Up(p', a, k) != Some(c)
    ensures Up(p, a, n) == Up(p', a, n)
    decreases n
  {
    if n != 0 {
      assert Up(p', a, 0) == Some(a) && a != c;
      assert a in p <==> a in p - {c};
      assert a in p' <==> a in p' - {c};
      if a in p {
        assert p[a] == (p - {c})[a] == (p' - {c})[a] == p'[a];
        if p[a].Some? {
          forall k | 0 <= k < n - 1 ensures Up(p', p[a].value, k) != Some(c) {
            assert Up(p', a, k + 1) == Up(p', p[a].value, k);
          }
          SameUp(p, p', c, p[a].value, n - 1);
        }
      }
    }
  }

  /** A loop that a change to one node creates passes through that node. */
  lemma LoopMeetsChange(p: Parents, p': Parents, c: Node, a: Node, n: nat)
    requires Acyclic(p) && p - {c} == p' - {c}
    requires a in p' && 0 < n && Up(p', a, n) == Some(a)
    ensures Up(p', c, n) == Some(c)
  {
    if k :| 0 <= k < n && Up(p', a, k) == Some(c) {
      UpUp(p', a, k, n - k);
      UpUp(p', c, n - k, k);
    } else {
      assert Up(p', a, 0) == Some(a);
      assert a in p' - {c};
      SameUp(p, p', c, a, n);
    }
  }

  /** Giving one node a new parent makes a cycle only if the new chain above it comes back to it. */
  lemma Rewired(p: Parents, p': Parents, c: Node)
    requires Acyclic(p) && p - {c} == p' - {c}
    requires forall n: nat :: 0 < n ==> Up(p', c, n) != Some(c)
    ensures Acyclic(p')
  {
    forall a, n: nat | a in p' && 0 < n ensures Up(p', a, n) != Some(a) {
      if Up(p', a, n) == Some(a) { LoopMeetsChange(p, p', c, a, n); }
    }
  }

  lemma AboveChanged(p: Parents, c: Node, parent: Node, n: nat)
    requires !Reaches(p, parent, c)
    ensures Up(p[c := Some(parent)], parent, n) == Up(p, parent, n)
  {
    var p' := p[c := Some(parent)];
    assert p - {c} == p' - {c};
    forall k | 0 <= k < n ensures Up(p, parent, k) != Some(c) {}
    SameUp(p', p, c, parent, n);
  }

  /** Hanging a node under a parent from which it is not reached keeps the forest, and hanging it under
      one from which it is reached never does. */
  lemma HangKeepsForestIff(p: Parents, c: Node, parent: Node)
    requires Forest(p) && parent in p
    ensures Forest(p[c := Some(parent)]) <==> !Reaches(p, parent, c)
  {
    var p' := p[c := Some(parent)];
    assert p - {c} == p' - {c};
    if Reaches(p, parent, c) {
      var m: nat :| Up(p, parent, m) == Some(c);
      var n := FirstReach(p, parent, c, m);
      SameUp(p', p, c, parent, n);
      assert Up(p', c, n + 1) == Up(p', parent, n) == Some(c);
    } else {
      forall n: nat | 0 < n ensures Up(p', c, n) != Some(c) {
        assert Up(p', c, n) == Up(p', parent, n - 1);
        AboveChanged(p, c, parent, n - 1);
      }
      Rewired(p, p', c);
    }
  }

  lemma FirstReach(p: Parents, a: Node, b: Node, m: nat) returns (n: nat)
    requires Up(p, a, m) == Some(b)
    ensures Up(p, a, n) == Some(b) && forall k :: 0 <= k < n ==> Up(p, a, k) != Some(b)
    decreases m
  {
    n := m;
    if k :| 0 <= k < m && Up(p, a, k) == Some(b) {
      n := FirstReach(p, a, b, k);
    }
  }

  /** A parent that may be set: none, or one that exists and is not below the node. */
  ghost predicate Fits(p: Parents, c: Node, parent: Option<Node>) {
    parent.Some? ==> parent.value in p && !Reaches(p, parent.value, c)
  }

  /** Whatever parent is written, to a node of the map or to a new one: the forest is kept exactly when it fits. */
  lemma PutKeepsForestIff(p: Parents, c: Node, parent: Option<Node>)
    requires Forest(p)
    ensures Forest(p[c := parent]) <==> Fits(p, c, parent)
  {
    if parent.None? {
      UprootKeepsForest(p, c);
    } else if parent.value in p {
      HangKeepsForestIff(p, c, parent.value);
    } else if parent.value == c {
      assert Up(p[c := parent], c, 1) == Up(p[c := parent], c, 0) == Some(c);
    } else {
      assert p[c := parent][c] == parent;
    }
  }

  /** Hanging `a` under `x` makes `y` reach a node above `x` exactly when `y` reached `a`. */
  lemma ReachAfterHang(p: Parents, a: Node, x: Node, y: Node, c: Node)
    requires a in p && a != c && !Reaches(p, x, a) && !Reaches(p, y, c)
    ensures Reaches(p[a := Some(x)], y, c) <==> Reaches(p, x, c) && Reaches(p, y, a)
  {
    var p' := p[a := Some(x)];
    assert p - {a} == p' - {a};
    if Reaches(p, x, c) && Reaches(p, y, a) {
      var k: nat :| Up(p, x, k) == Some(c);
      var m: nat :| Up(p, y, m) == Some(a);
      var n := FirstReach(p, y, a, m);
      SameUp(p', p, a, y, n);
      AboveChanged(p, a, x, k);
      UpUp(p', y, n, k + 1);
      assert Up(p', a, k + 1) == Up(p', x, k);
    }
    if Reaches(p', y, c) {
      var m: nat :| Up(p', y, m) == Some(c);
      if k: nat :| k < m && Up(p', y, k) == Some(a) {
        var n := FirstReach(p', y, a, k);
        SameUp(p, p', a, y, n);
        UpUp(p', y, n, m - n);
        assert Up(p', a, m - n) == Up(p', x, m - n - 1);
        AboveChanged(p, a, x, m - n - 1);
      } else {
        SameUp(p, p', a, y, m);
      }
    }
  }

  /** Two nodes hung at once, each under a parent that the present map allows: they spoil the forest exactly
      when each of the two new parents is below the other node. */
  lemma TwoHangsKeepForestIff(p: Parents, a: Node, x: Node, c: Node, y: Node)
    requires Forest(p) && a in p && x in p && y in p && a != c
    requires !Reaches(p, x, a) && !Reaches(p, y, c)
    ensures Forest(p[a := Some(x)][c := Some(y)]) <==> !(Reaches(p, x, c) && Reaches(p, y, a))
  {
    HangKeepsForestIff(p, a, x);
    HangKeepsForestIff(p[a := Some(x)], c, y);
    ReachAfterHang(p, a, x, y, c);
  }

  lemma UprootKeepsForest(p: Parents, c: Node)
    requires Forest(p)
    ensures Forest(p[c := None])
  {
    var p' := p[c := None];
    assert p - {c} == p' - {c};
    Rewired(p, p', c);
  }

  lemma NewNodeKeepsForest(p: Parents, c: Node, parent: Option<Node>)
    requires Forest(p) && c !in p && (parent.Some? ==> parent.value in p)
    ensures Forest(p[c := parent])
  {
    match parent
    case None => UprootKeepsForest(p, c);
    case Some(id) =>
      HangKeepsForestIff(p, c, id);
      if Reaches(p, id, c) { TrappedReaches(p, p.Keys, id, c); }
  }

  function Children(p: Parents, a: Node): set<Node> {
    set c | c in p && p[c] == Some(a)
  }

  lemma {:induction false} UpAfterRemoval(p: Parents, x: Node, a: Node, n: nat)
    ensures Up(p - {x}, a, n).Some? ==> Up(p, a, n) == Up(p - {x}, a, n)
    decreases n
  {
    if n != 0 && a in p - {x} && p[a].Some? { UpAfterRemoval(p, x, p[a].value, n - 1); }
  }

  lemma RemoveLeafKeepsForest(p: Parents, x: Node)
    requires Forest(p) && Children(p, x) == {}
    ensures Forest(p - {x})
  {
    forall a, n: nat | a in p - {x} && 0 < n ensures Up(p - {x}, a, n) != Some(a) {
      UpAfterRemoval(p, x, a, n);
    }
    forall a | a in p - {x} && p[a].Some? ensures p[a].value in p - {x} {
      assert a !in Children(p, x);
    }
  }

  /** A parent that may be set is written to one node, and a childless node is removed, in either order: the
      forest is kept exactly when the removed node is not that parent. */
  lemma PutAndRemove(p: Parents, c: Node, parent: Option<Node>, d: Node)
    requires Forest(p) && Fits(p, c, parent) && d in p && Children(p, d) == {}
    ensures Forest(p[c := parent] - {d}) <==> parent != Some(d)
    ensures Forest((p - {d})[c := parent]) <==> parent != Some(d)
  {
    SelfReach(p, c);
    PutKeepsForestIff(p, c, parent);
    RemoveLeafKeepsForest(p, d);
    PutKeepsForestIff(p - {d}, c, parent);
    if parent != Some(d) {
      assert Children(p[c := parent], d) <= Children(p, d);
      RemoveLeafKeepsForest(p[c := parent], d);
      if parent.Some? && Reaches(p - {d}, parent.value, c) {
        var n: nat :| Up(p - {d}, parent.value, n) == Some(c);
        UpAfterRemoval(p, d, parent.value, n);
      }
    } else {
      assert (p[c := parent] - {d})[c] == parent;
    }
  }

  // ---------- Shape of a forest ----------

  function Roots(p: Parents): set<Node> {
    set a | a in p && p[a].None?
  }

  ghost predicate StrictlyBelow(p: Parents, v: Node, b: Node) {
    exists k: nat :: 0 < k && Up(p, v, k) == Some(b)
  }

  lemma {:induction false} Climb(p: Parents, a: Node, b: Node, n: nat, below: set<Node>) returns (m: nat)
    requires Forest(p) && Up(p, a, n) == Some(b) && b in p
    requires below <= p.Keys && |below| == n
    requires forall v <- below :: StrictlyBelow(p, v, b)
    ensures m < |p| && Up(p, a, m).Some? && Up(p, a, m).value in Roots(p)
    decreases |p| - n
  {
    assert !StrictlyBelow(p, b, b);
    Subset(below + {b}, p.Keys);
    if p[b].None? {
      m := n;
    } else {
      var c := p[b].value;
      UpUp(p, a, n, 1);
      assert Up(p, b, 1) == Up(p, c, 0) == Some(c);
      forall v | v in below + {b} ensures StrictlyBelow(p, v, c) {
        if v != b {
          var k: nat :| 0 < k && Up(p, v, k) == Some(b);
          UpUp(p, v, k, 1);
          assert Up(p, v, k + 1) == Some(c);
        } else {
          assert Up(p, v, 1) == Some(c);
        }
      }
      m := Climb(p, a, c, n + 1, below + {b});
    }
  }

  lemma Subset<T>(a: set<T>, b: set<T>)
    requires a <= b
    ensures |a| <= |b|
  {
    assert |b| == |a| + |b - a| by { assert b == a + (b - a); }
  }

  ghost predicate RootWithin(p: Parents, a: Node, bound: nat) {
    exists m: nat :: m < bound && Up(p, a, m).Some? && Up(p, a, m).value in Roots(p)
  }

  /** Every chain ends at a root in fewer steps than there are categories. */
  lemma RootInReach(p: Parents, a: Node)
    requires Forest(p) && a in p
    ensures RootWithin(p, a, |p|)
  {
    var m := Climb(p, a, a, 0, {});
  }

  ghost function SumOfChildren(p: Parents, over: set<Node>): nat {
    if over == {} then 0 else var x :| x in over; |Children(p, x)| + SumOfChildren(p, over - {x})
  }

  function ChildrenOfAny(p: Parents, over: set<Node>): set<Node> {
    set c | c in p && p[c].Some? && p[c].value in over
  }

  lemma {:induction false} SumCountsChildren(p: Parents, over: set<Node>)
    ensures SumOfChildren(p, over) == |ChildrenOfAny(p, over)|
  {
    if over == {} {
      assert ChildrenOfAny(p, over) == {};
    } else {
      var x :| x in over && SumOfChildren(p, over) == |Children(p, x)| + SumOfChildren(p, over - {x});
      var rest := ChildrenOfAny(p, over - {x});
      SumCountsChildren(p, over - {x});
      assert ChildrenOfAny(p, over) == Children(p, x) + rest && Children(p, x) !! rest;
    }
  }

  /** Counting the roots and everyone's children counts every category once. */
  lemma {:induction false} ForestCount(p: Parents)
    requires Closed(p)
    ensures |p| == |Roots(p)| + SumOfChildren(p, p.Keys)
  {
    var others := ChildrenOfAny(p, p.Keys);
    SumCountsChildren(p, p.Keys);
    assert p.Keys == Roots(p) + others && Roots(p) !! others;
    assert |p| == |p.Keys|;
  }

  lemma ForestShape(p: Parents)
    requires Forest(p)
    ensures forall a <- p :: RootWithin(p, a, |p|)
    ensures |p| == |Roots(p)| + SumOfChildren(p, p.Keys)
  {
    forall a | a in p ensures RootWithin(p, a, |p|) { RootInReach(p, a); }
    ForestCount(p);
  }
}
