/**
 * The recursive walks of a control tree in DebugUiControl.cs (`Update`, `DrawRecursive`,
 * `HitTest`) on a tree of values: each node holds what the walks read of a control, and its
 * children in sibling order.
 */
module DebugTree {
  import opened Geometry

  /** A control as the walks see it: id, flags, position relative to the parent and on screen, size, children. */
  datatype Node = Node(id: int, enabled: bool, eventEnabled: bool, local: Vec2, global: Vec2, size: Vec2, children: seq<Node>)

  /** The sum of two positions. */
  function Plus(a: Vec2, b: Vec2): Vec2
  {
    Vec2(a.x + b.x, a.y + b.y)
  }

  // Paths: a node of the tree named by the child indices leading to it.

  /** A path of child indices that stays inside the tree. */
  predicate IsPath(n: Node, path: seq<nat>)
    decreases |path|
  {
    |path| == 0 || (path[0] < |n.children| && IsPath(n.children[path[0]], path[1..]))
  }

  /** The node a path leads to. */
  function At(n: Node, path: seq<nat>): Node
    requires IsPath(n, path)
    decreases |path|
  {
    if |path| == 0 then n else At(n.children[path[0]], path[1..])
  }

  /** Every node from the root down to the end of the path is enabled. */
  predicate EnabledAlong(n: Node, path: seq<nat>)
    requires IsPath(n, path)
    decreases |path|
  {
    n.enabled && (|path| == 0 || EnabledAlong(n.children[path[0]], path[1..]))
  }

  // HitTest

  /** The point lies in the node's box on screen, edges included. */
  predicate Inside(n: Node, p: Vec2)
  {
    p.x >= n.global.x && p.x <= n.global.x + n.size.x && p.y >= n.global.y && p.y <= n.global.y + n.size.y
  }

  /** What `HitTest` answers: an enabled node is hit when it takes events and contains the point, or when a child is hit. */
  predicate Hits(n: Node, p: Vec2)
    ensures Hits(n, p) ==> n.enabled
    ensures n.enabled && n.eventEnabled && Inside(n, p) ==> Hits(n, p)
    decreases n
  {
    n.enabled && ((n.eventEnabled && Inside(n, p)) || exists k :: 0 <= k < |n.children| && Hits(n.children[k], p))
  }

  /**
   * `HitTest`: the node itself is tried first, then the children in sibling order, stopping at
   * the first hit.
   */
  method HitTest(n: Node, p: Vec2) returns (hit: bool)
    ensures hit == Hits(n, p)
    decreases n
  {
    if !n.enabled {
      return false;
    }
    if n.eventEnabled {
      if p.x >= n.global.x && p.x <= n.global.x + n.size.x && p.y >= n.global.y && p.y <= n.global.y + n.size.y {
        return true;
      }
    }
    var k := 0;
    while k < |n.children|
      invariant 0 <= k <= |n.children|
      invariant forall j :: 0 <= j < k ==> !Hits(n.children[j], p)
    {
      var childHit := HitTest(n.children[k], p);
      if childHit {
        return true;
      }
      k := k + 1;
    }
    return false;
  }

  /** A hit is made by some node that takes events and contains the point, with every node above it enabled. */
  lemma {:induction false} HitHasEnabledPath(n: Node, p: Vec2) returns (path: seq<nat>)
    requires Hits(n, p)
    ensures IsPath(n, path) && EnabledAlong(n, path) && At(n, path).eventEnabled && Inside(At(n, path), p)
    decreases n
  {
    if n.eventEnabled && Inside(n, p) {
      path := [];
    } else {
      var k :| 0 <= k < |n.children| && Hits(n.children[k], p);
      var q := HitHasEnabledPath(n.children[k], p);
      path := [k as nat] + q;
      assert path[1..] == q;
    }
  }

  /** A node that takes events and contains the point, with every node above it enabled, makes a hit. */
  lemma {:induction false} EnabledPathHits(n: Node, p: Vec2, path: seq<nat>)
    requires IsPath(n, path) && EnabledAlong(n, path) && At(n, path).eventEnabled && Inside(At(n, path), p)
    ensures Hits(n, p)
    decreases |path|
  {
    if |path| > 0 {
      var k := path[0];
      EnabledPathHits(n.children[k], p, path[1..]);
    }
  }

  /**
   * A point hits a tree exactly when some node that takes events contains it and every node
   * from the root down to that node is enabled.
   */
  lemma HitsIffEnabledPath(n: Node, p: Vec2)
    ensures Hits(n, p) <==> exists path :: IsPath(n, path) && EnabledAlong(n, path) && At(n, path).eventEnabled && Inside(At(n, path), p)
  {
    if Hits(n, p) {
      var path := HitHasEnabledPath(n, p);
    }
    forall path | IsPath(n, path) && EnabledAlong(n, path) && At(n, path).eventEnabled && Inside(At(n, path), p) {
      EnabledPathHits(n, p, path);
    }
  }

  // DrawRecursive

  /** The ids of the nodes `DrawRecursive` draws, in drawing order: a disabled node draws nothing, not even its children. */
  function DrawOrder(n: Node): (d: seq<int>)
    ensures !n.enabled ==> d == []
    ensures n.enabled ==> |d| >= 1 && d[0] == n.id
    decreases n, 1
  {
    if !n.enabled then [] else [n.id] + DrawChildren(n, |n.children|)
  }

  /** The ids drawn by the first k children of a node, one after the other. */
  function DrawChildren(n: Node, k: nat): seq<int>
    requires k <= |n.children|
    decreases n, 0, k
  {
    if k == 0 then [] else DrawChildren(n, k - 1) + DrawOrder(n.children[k - 1])
  }

  /** `DrawRecursive`: an enabled node draws itself, then each child in sibling order. */
  method DrawRecursive(n: Node) returns (drawn: seq<int>)
    ensures drawn == DrawOrder(n)
    decreases n
  {
    if !n.enabled {
      return [];
    }
    drawn := [n.id];
    var k := 0;
    while k < |n.children|
      invariant 0 <= k <= |n.children|
      invariant drawn == [n.id] + DrawChildren(n, k)
    {
      var childDrawn := DrawRecursive(n.children[k]);
      drawn := drawn + childDrawn;
      k := k + 1;
    }
  }

  /** The ids drawn by the first k children are those some child among them draws. */
  lemma {:induction false} DrawChildrenMembers(n: Node, k: nat, id: int)
    requires k <= |n.children|
    ensures id in DrawChildren(n, k) <==> exists j :: 0 <= j < k && id in DrawOrder(n.children[j])
    decreases k
  {
    if k > 0 {
      DrawChildrenMembers(n, k - 1, id);
    }
  }

  /** A drawn id belongs to a node with every node above it, and itself, enabled. */
  lemma {:induction false} DrawnHasEnabledPath(n: Node, id: int) returns (path: seq<nat>)
    requires id in DrawOrder(n)
    ensures IsPath(n, path) && EnabledAlong(n, path) && At(n, path).id == id
    decreases n
  {
    if id == n.id {
      path := [];
    } else {
      DrawChildrenMembers(n, |n.children|, id);
      var k :| 0 <= k < |n.children| && id in DrawOrder(n.children[k]);
      var q := DrawnHasEnabledPath(n.children[k], id);
      path := [k as nat] + q;
      assert path[1..] == q;
    }
  }

  /** A node that is enabled, with every node above it enabled, is drawn. */
  lemma {:induction false} EnabledPathDrawn(n: Node, path: seq<nat>)
    requires IsPath(n, path) && EnabledAlong(n, path)
    ensures At(n, path).id in DrawOrder(n)
    decreases |path|
  {
    if |path| > 0 {
      var k := path[0];
      EnabledPathDrawn(n.children[k], path[1..]);
      DrawChildrenMembers(n, |n.children|, At(n, path).id);
    }
  }

  /**
   * A node is drawn exactly when it and every node above it are enabled: an id is drawn when
   * and only when some such path leads to a node with that id.
   */
  lemma DrawnIffEnabledPath(n: Node, id: int)
    ensures id in DrawOrder(n) <==> exists path :: IsPath(n, path) && EnabledAlong(n, path) && At(n, path).id == id
  {
    if id in DrawOrder(n) {
      var path := DrawnHasEnabledPath(n, id);
    }
    forall path | IsPath(n, path) && EnabledAlong(n, path) && At(n, path).id == id {
      EnabledPathDrawn(n, path);
    }
  }

  // Update

  /** What `Update` leaves: the node's screen position is its parent's plus its own offset, and the same below it. */
  function Updated(n: Node, parentGlobal: Vec2): (u: Node)
    ensures u.global == Plus(parentGlobal, n.local) && |u.children| == |n.children|
    ensures u == n.(global := u.global, children := u.children)
    decreases n, 1
  {
    var g := Plus(parentGlobal, n.local);
    n.(global := g, children := UpdatedChildren(n, g, |n.children|))
  }

  /** The first k children of a node, updated under the screen position g. */
  function UpdatedChildren(n: Node, g: Vec2, k: nat): (cs: seq<Node>)
    requires k <= |n.children|
    ensures |cs| == k
    decreases n, 0, k
  {
    if k == 0 then [] else UpdatedChildren(n, g, k - 1) + [Updated(n.children[k - 1], g)]
  }

  /** Each of the first k children updated is that child updated under g. */
  lemma {:induction false} UpdatedChildrenAt(n: Node, g: Vec2, k: nat, j: nat)
    requires j < k <= |n.children|
    ensures UpdatedChildren(n, g, k)[j] == Updated(n.children[j], g)
    decreases k
  {
    if j < k - 1 {
      UpdatedChildrenAt(n, g, k - 1, j);
    }
  }

  /**
   * `Update`: the node takes its screen position from its parent's, then updates its children
   * from the last to the first.
   */
  method Update(n: Node, parentGlobal: Vec2) returns (m: Node)
    ensures m == Updated(n, parentGlobal)
    decreases n
  {
    var g := Vec2(parentGlobal.x + n.local.x, parentGlobal.y + n.local.y);
    var cs := n.children;
    var k := |cs|;
    while k > 0
      invariant 0 <= k <= |cs| == |n.children|
      invariant cs[..k] == n.children[..k]
      invariant forall j :: k <= j < |cs| ==> cs[j] == Updated(n.children[j], g)
    {
      k := k - 1;
      var child := Update(n.children[k], g);
      cs := cs[k := child];
    }
    forall j | 0 <= j < |cs| ensures cs[j] == UpdatedChildren(n, g, |n.children|)[j] {
      UpdatedChildrenAt(n, g, |n.children|, j);
    }
    m := n.(global := g, children := cs);
  }

  /**
   * `Root.Update`: the root keeps its own screen position and updates its children from the
   * last to the first under it.
   */
  method UpdateRoot(root: Node) returns (m: Node)
    ensures m == root.(children := UpdatedChildren(root, root.global, |root.children|))
  {
    var cs := root.children;
    var k := |cs|;
    while k > 0
      invariant 0 <= k <= |cs| == |root.children|
      invariant cs[..k] == root.children[..k]
      invariant forall j :: k <= j < |cs| ==> cs[j] == Updated(root.children[j], root.global)
    {
      k := k - 1;
      var child := Update(root.children[k], root.global);
      cs := cs[k := child];
    }
    forall j | 0 <= j < |cs| ensures cs[j] == UpdatedChildren(root, root.global, |root.children|)[j] {
      UpdatedChildrenAt(root, root.global, |root.children|, j);
    }
    m := root.(children := cs);
  }

  /** The offsets from the root down to the end of a path, added up. */
  function LocalSum(n: Node, path: seq<nat>): Vec2
    requires IsPath(n, path)
    decreases |path|
  {
    if |path| == 0 then n.local else Plus(n.local, LocalSum(n.children[path[0]], path[1..]))
  }

  /**
   * After `Update`, the tree has the same shape, and every node's screen position is the
   * parent's position plus all the offsets from the updated node down to it.
   */
  lemma {:induction false} UpdatedGlobalIsSumOfLocals(n: Node, parentGlobal: Vec2, path: seq<nat>)
    requires IsPath(n, path)
    ensures IsPath(Updated(n, parentGlobal), path)
    ensures At(Updated(n, parentGlobal), path).global == Plus(parentGlobal, LocalSum(n, path))
    ensures At(Updated(n, parentGlobal), path) == At(n, path).(global := At(Updated(n, parentGlobal), path).global, children := At(Updated(n, parentGlobal), path).children)
    decreases |path|
  {
    if |path| > 0 {
      var k := path[0];
      var g := Plus(parentGlobal, n.local);
      UpdatedChildrenAt(n, g, |n.children|, k);
      UpdatedGlobalIsSumOfLocals(n.children[k], g, path[1..]);
      var l := LocalSum(n.children[k], path[1..]);
      assert Plus(g, l) == Plus(parentGlobal, Plus(n.local, l));
    }
  }
}
