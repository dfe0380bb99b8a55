/** The breadth-first search for the tip link of a link tree. */
module TipLink {
  import opened Wrappers

  datatype Link = Link(name: string, children: seq<Link>)

  /** A link of the model and whether it hangs on a parent joint; the entries come in the model's order. */
  datatype Entry = Entry(link: Link, hasParentJoint: bool)

  /** The number of joints on the longest way down from a link. */
  function Height(l: Link): nat {
    if l.children == [] then 0 else 1 + MaxHeight(l.children)
  }

  function MaxHeight(ls: seq<Link>): nat {
    if ls == [] then 0
    else
      var h := Height(ls[|ls| - 1]);
      var rest := MaxHeight(ls[..|ls| - 1]);
      if h < rest then rest else h
  }

  /** The given link is a leaf of the tree, at the given depth. */
  ghost predicate IsLeafAt(tree: Link, name: string, depth: nat)
    decreases tree
  {
    if tree.children == [] then depth == 0 && name == tree.name
    else depth > 0 && exists c :: c in tree.children && IsLeafAt(c, name, depth - 1)
  }

  /** The last of the deepest leaves, from left to right. */
  function DeepestLeaf(tree: Link): string {
    if tree.children == [] then tree.name else DeepestOf(tree.children)
  }

  function DeepestOf(ls: seq<Link>): string
    requires ls != []
  {
    var last := ls[|ls| - 1];
    if |ls| == 1 then DeepestLeaf(last)
    else
      var rest := ls[..|ls| - 1];
      if Height(last) < MaxHeight(rest) then DeepestOf(rest) else DeepestLeaf(last)
  }

  /** That leaf is at the depth of the whole tree, and no leaf is deeper. */
  lemma DeepestLeafIsDeepest(tree: Link)
    ensures IsLeafAt(tree, DeepestLeaf(tree), Height(tree))
    ensures forall name, depth: nat :: IsLeafAt(tree, name, depth) ==> depth <= Height(tree)
    decreases tree, 1, 0
  {
    if tree.children != [] {
      var c := DeepestOfIsDeepest(tree, tree.children);
      forall name, depth: nat | IsLeafAt(tree, name, depth) ensures depth <= Height(tree) {
        var d :| d in tree.children && IsLeafAt(d, name, depth - 1);
        DeepestLeafIsDeepest(d);
        HeightBelow(tree.children, d);
      }
    }
  }

  lemma DeepestOfIsDeepest(tree: Link, ls: seq<Link>) returns (c: Link)
    requires ls != [] && forall l :: l in ls ==> l in tree.children
    ensures c in ls && Height(c) == MaxHeight(ls) && IsLeafAt(c, DeepestOf(ls), MaxHeight(ls))
    decreases tree, 0, |ls|
  {
    c := ls[|ls| - 1];
    assert c in tree.children;
    DeepestLeafIsDeepest(c);
    if |ls| > 1 {
      var rest := ls[..|ls| - 1];
      if Height(c) < MaxHeight(rest) {
        c := DeepestOfIsDeepest(tree, rest);
      }
    } else {
      assert ls[..0] == [];
    }
  }

  lemma HeightBelow(ls: seq<Link>, l: Link)
    requires l in ls
    ensures Height(l) <= MaxHeight(ls)
  {
    if l != ls[|ls| - 1] {
      assert l in ls[..|ls| - 1] by {
        var k :| 0 <= k < |ls| && ls[k] == l;
        assert ls[..|ls| - 1][k] == l;
      }
      HeightBelow(ls[..|ls| - 1], l);
    }
  }

  // -------------------------------------------------------------------------
  // Links at their depths
  // -------------------------------------------------------------------------

  /** A link in the queue and how deep it is. */
  datatype Placed = Placed(link: Link, depth: nat)

  function Bottom(p: Placed): nat {
    p.depth + Height(p.link)
  }

  /** How deep the trees under the placed links go. */
  function Deepest(ps: seq<Placed>): nat {
    if ps == [] then 0
    else
      var rest := Deepest(ps[..|ps| - 1]);
      if Bottom(ps[|ps| - 1]) < rest then rest else Bottom(ps[|ps| - 1])
  }

  /** The last of their deepest leaves. */
  function Answer(ps: seq<Placed>): string
    requires ps != []
  {
    var last, rest := ps[|ps| - 1], ps[..|ps| - 1];
    if rest != [] && Bottom(last) < Deepest(rest) then Answer(rest) else DeepestLeaf(last.link)
  }

  /** What one more placed link changes. */
  lemma OneMore(ps: seq<Placed>, p: Placed)
    ensures Deepest(ps + [p]) == if Bottom(p) < Deepest(ps) then Deepest(ps) else Bottom(p)
    ensures Answer(ps + [p]) == if ps != [] && Bottom(p) < Deepest(ps) then Answer(ps) else DeepestLeaf(p.link)
  {
    assert (ps + [p])[..|ps|] == ps;
  }

  lemma DeepestOfConcat(a: seq<Placed>, b: seq<Placed>)
    ensures Deepest(a + b) == if Deepest(a) < Deepest(b) then Deepest(b) else Deepest(a)
    decreases |b|
  {
    if b == [] {
      assert a + b == a;
    } else {
      assert (a + b)[..|a + b| - 1] == a + b[..|b| - 1];
      DeepestOfConcat(a, b[..|b| - 1]);
    }
  }

  /** The answer for two parts is the answer of the second part, unless the first goes deeper. */
  lemma AnswerOfConcat(a: seq<Placed>, b: seq<Placed>)
    requires a != [] && b != []
    ensures Answer(a + b) == if Deepest(b) < Deepest(a) then Answer(a) else Answer(b)
    decreases |b|
  {
    hide Answer, Deepest, Bottom, DeepestLeaf;
    var front, p := b[..|b| - 1], b[|b| - 1];
    assert b == front + [p];
    assert a + b == (a + front) + [p];
    OneMore(front, p);
    OneMore(a + front, p);
    if front == [] {
      assert a + front == a;
      NothingPlaced();
    } else {
      AnswerOfConcat(a, front);
      DeepestOfConcat(a, front);
    }
  }

  lemma NothingPlaced()
    ensures Deepest([]) == 0
  {
  }

  function Place(ls: seq<Link>, depth: nat): (ps: seq<Placed>)
    ensures |ps| == |ls|
  {
    seq(|ls|, k requires 0 <= k < |ls| => Placed(ls[k], depth))
  }

  lemma PlacedChildren(ls: seq<Link>, depth: nat)
    requires ls != []
    ensures Deepest(Place(ls, depth)) == depth + MaxHeight(ls)
    ensures Answer(Place(ls, depth)) == DeepestOf(ls)
    decreases |ls|
  {
    var n := |ls| - 1;
    var ps := Place(ls, depth);
    assert ps[..n] == Place(ls[..n], depth);
    if n > 0 {
      PlacedChildren(ls[..n], depth);
    } else {
      assert ls[..n] == [] && ps[..n] == [];
    }
  }

  /** Children stand for their parent. */
  lemma ChildrenForParent(l: Link, depth: nat)
    requires l.children != []
    ensures Deepest(Place(l.children, depth + 1)) == Deepest([Placed(l, depth)])
    ensures Answer(Place(l.children, depth + 1)) == Answer([Placed(l, depth)])
  {
    PlacedChildren(l.children, depth + 1);
    assert [Placed(l, depth)][..0] == [];
  }

  lemma Replace(a: seq<Placed>, m: seq<Placed>, n: seq<Placed>, b: seq<Placed>)
    requires m != [] && n != [] && Deepest(m) == Deepest(n) && Answer(m) == Answer(n)
    ensures Deepest(a + m + b) == Deepest(a + n + b)
    ensures Answer(a + m + b) == Answer(a + n + b)
  {
    DeepestOfConcat(a, m);
    DeepestOfConcat(a, n);
    DeepestOfConcat(a + m, b);
    DeepestOfConcat(a + n, b);
    if a != [] {
      AnswerOfConcat(a, m);
      AnswerOfConcat(a, n);
    } else {
      assert a + m == m && a + n == n;
    }
    if b != [] {
      AnswerOfConcat(a + m, b);
      AnswerOfConcat(a + n, b);
    } else {
      assert a + m + b == a + m && a + n + b == a + n;
    }
  }

  /** A leaf before links that are at least as deep, and none before it that is less deep, is not the answer. */
  lemma LeafDrops(a: seq<Placed>, p: Placed, b: seq<Placed>)
    requires p.link.children == [] && a + b != []
    requires (forall q :: q in a ==> q.depth > p.depth) && (forall q :: q in b ==> q.depth >= p.depth)
    ensures Answer(a + [p] + b) == Answer(a + b)
  {
    assert [p][..0] == [];
    assert Deepest([p]) == p.depth;
    DeepestOfConcat(a, [p]);
    if a != [] {
      DeepAs(a, p.depth + 1);
      AnswerOfConcat(a, [p]);
    } else {
      assert a + [p] == [p] && a + b == b;
    }
    if b != [] {
      DeepAs(b, p.depth);
      AnswerOfConcat(a + [p], b);
      if a != [] {
        AnswerOfConcat(a, b);
      }
    } else {
      assert a + [p] + b == a + [p] && a + b == a;
    }
  }

  lemma DeepAs(ps: seq<Placed>, depth: nat)
    requires ps != [] && forall q :: q in ps ==> q.depth >= depth
    ensures Deepest(ps) >= depth
  {
    assert ps[|ps| - 1] in ps;
  }

  // -------------------------------------------------------------------------
  // The search
  // -------------------------------------------------------------------------

  /** The number of links in trees, the measure of the search. */
  function Size(l: Link): nat {
    1 + Sizes(l.children)
  }

  function Sizes(ls: seq<Link>): nat {
    if ls == [] then 0 else Size(ls[0]) + Sizes(ls[1..])
  }

  lemma SizesOfConcat(a: seq<Link>, b: seq<Link>)
    ensures Sizes(a + b) == Sizes(a) + Sizes(b)
    decreases |a|
  {
    if a == [] {
      assert a + b == b;
    } else {
      assert (a + b)[1..] == a[1..] + b;
      SizesOfConcat(a[1..], b);
    }
  }

  /** Putting a link's children in its place leaves fewer links to visit. */
  lemma FewerLinks(queue: seq<Link>)
    requires queue != []
    ensures Sizes(queue[1..] + queue[0].children) < Sizes(queue)
  {
    SizesOfConcat(queue[1..], queue[0].children);
  }

  /** The first entry without a parent joint is the i-th. */
  predicate IsRoot(entries: seq<Entry>, i: int) {
    0 <= i < |entries| && !entries[i].hasParentJoint && forall j :: 0 <= j < i ==> entries[j].hasParentJoint
  }

  /** The first entry without a parent joint. */
  method GetRootLink(entries: seq<Entry>) returns (root: Option<Link>)
    ensures root == None <==> forall i :: 0 <= i < |entries| ==> entries[i].hasParentJoint
    ensures root.Some? ==> exists i :: IsRoot(entries, i) && entries[i].link == root.value
  {
    for i := 0 to |entries|
      invariant forall j :: 0 <= j < i ==> entries[j].hasParentJoint
    {
      if !entries[i].hasParentJoint {
        assert IsRoot(entries, i);
        return Some(entries[i].link);
      }
    }
    return None;
  }

  /** Searches the tree under the root level by level: the last leaf dequeued is the last of the deepest leaves. */
  method FindTipLink(entries: seq<Entry>) returns (tip: string)
    ensures (forall i :: 0 <= i < |entries| ==> entries[i].hasParentJoint) ==> tip == ""
    ensures forall i :: IsRoot(entries, i) ==> tip == DeepestLeaf(entries[i].link)
  {
    var root := GetRootLink(entries);
    if root == None {
      return "";
    }
    tip := SearchFrom(root.value);
  }

  method SearchFrom(root: Link) returns (tip: string)
    ensures tip == DeepestLeaf(root)
  {
    tip := "";
    var queue := [root];
    hide Answer, DeepestLeaf, LeftToRight, Sizes;
    // the queue holds links of one depth, followed by links of the next
    ghost var depth: nat := 0;
    ghost var here: nat := 1;
    SearchStart(root);
    while queue != []
      invariant here <= |queue| && (here == 0 ==> queue == [])
      invariant queue != [] ==> Answer(LeftToRight(queue, here, depth)) == DeepestLeaf(root)
      invariant queue == [] ==> tip == DeepestLeaf(root)
      decreases Sizes(queue)
    {
      var current := queue[0];
      ghost var before := queue;
      queue := queue[1..];
      FewerLinks(before);
      if current.children == [] {
        tip := current.name;
        assert queue == before[1..] + current.children;
        if queue == [] {
          LastLeaf(before, depth);
        } else {
          DequeueLeaf(before, here, depth);
        }
      } else {
        for i := 0 to |current.children|
          invariant queue == before[1..] + current.children[..i]
        {
          queue := queue + [current.children[i]];
          assert current.children[..i + 1] == current.children[..i] + [current.children[i]];
        }
        assert current.children[..|current.children|] == current.children;
        DequeueParent(before, here, depth, queue);
      }
      here := here - 1;
      if here == 0 {
        NextLevel(queue, depth);
        here, depth := |queue|, depth + 1;
      }
    }
  }

  /** The queue's links from left to right in the tree: the children already queued come before the rest of the
      level. */
  ghost function LeftToRight(queue: seq<Link>, here: nat, depth: nat): (ps: seq<Placed>)
    requires here <= |queue|
    ensures |ps| == |queue|
  {
    Place(queue[here..], depth + 1) + Place(queue[..here], depth)
  }

  lemma SearchStart(root: Link)
    ensures Answer(LeftToRight([root], 1, 0)) == DeepestLeaf(root)
  {
    assert LeftToRight([root], 1, 0) == [Placed(root, 0)];
    OneMore([], Placed(root, 0));
    assert [] + [Placed(root, 0)] == [Placed(root, 0)];
  }

  lemma NextLevel(queue: seq<Link>, depth: nat)
    ensures LeftToRight(queue, 0, depth) == LeftToRight(queue, |queue|, depth + 1)
  {
  }

  lemma LastLeaf(queue: seq<Link>, depth: nat)
    requires |queue| == 1 && queue[0].children == []
    ensures Answer(LeftToRight(queue, 1, depth)) == DeepestLeaf(queue[0]) == queue[0].name
  {
    hide Answer, Deepest, Bottom;
    var p := Placed(queue[0], depth);
    assert LeftToRight(queue, 1, depth) == [p];
    OneMore([], p);
    assert [] + [p] == [p];
  }

  lemma DequeueLeaf(queue: seq<Link>, here: nat, depth: nat)
    requires 0 < here <= |queue| && |queue| > 1 && queue[0].children == []
    ensures Answer(LeftToRight(queue, here, depth)) == Answer(LeftToRight(queue[1..], here - 1, depth))
  {
    hide Answer, DeepestLeaf;
    var a, p, b := Place(queue[here..], depth + 1), Placed(queue[0], depth), Place(queue[1..here], depth);
    assert LeftToRight(queue, here, depth) == a + [p] + b;
    assert LeftToRight(queue[1..], here - 1, depth) == a + b;
    LeafDrops(a, p, b);
  }

  lemma DequeueParent(queue: seq<Link>, here: nat, depth: nat, after: seq<Link>)
    requires 0 < here <= |queue| && queue[0].children != []
    requires after == queue[1..] + queue[0].children && |after| >= |queue|
    ensures Answer(LeftToRight(queue, here, depth)) == Answer(LeftToRight(after, here - 1, depth))
  {
    var a, p, b := Place(queue[here..], depth + 1), Placed(queue[0], depth), Place(queue[1..here], depth);
    var c := Place(queue[0].children, depth + 1);
    assert LeftToRight(queue, here, depth) == a + [p] + b;
    assert LeftToRight(after, here - 1, depth) == a + c + b;
    ChildrenForParent(queue[0], depth);
    Replace(a, [p], c, b);
  }
}
