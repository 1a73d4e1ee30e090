/** Building the area tree from route records (route_builder.py): finding a
    named sub-area, creating it when it is missing, and walking an area path
    down to the crag that receives a new Route. The functions on values say
    what the tree becomes; the methods on `Crag.Node` objects do it in place
    and are proved to agree with them. */
module RouteBuilder {
  import opened Wrappers
  import opened Grades
  import opened Trees
  import opened CragStats
  import opened Crag
  import opened Records
  import opened Text

  // ---------------------------------------------------------------------------
  // The tree as a value

  /** The position of the first child named `name` (`find_existing_area`). */
  function FirstNamed(kids: seq<Tree>, name: string): (r: Option<nat>)
    ensures r.Some? ==> r.value < |kids| && kids[r.value].name == name
    ensures r.Some? ==> forall j :: 0 <= j < r.value ==> kids[j].name != name
    ensures r.None? ==> forall j :: 0 <= j < |kids| ==> kids[j].name != name
  {
    if kids == [] then None
    else if kids[0].name == name then Some(0)
    else
      match FirstNamed(kids[1..], name)
      case None => None
      case Some(i) => Some(i + 1)
  }

  /** `find_or_create_subarea` on values: the tree after the call and the
      position of the sub-area, which is appended when no child has the
      name. The children of a leaf cannot be read. */
  function FindOrCreate(t: Tree, name: string): (r: Result<(Tree, nat), NodeError>)
    ensures r.Err? <==> t.IsLeaf()
    ensures r.Ok? ==> r.value.1 < |r.value.0.kids| && r.value.0.kids[r.value.1].name == name
    ensures r.Ok? && FirstNamed(t.kids, name).Some? ==> r.value == (t, FirstNamed(t.kids, name).value)
    ensures r.Ok? && FirstNamed(t.kids, name).None? ==>
      r.value == (t.(kids := t.kids + [NewArea(name)]), |t.kids|)
  {
    if t.IsLeaf() then Err(LeafHasNoChildren)
    else
      match FirstNamed(t.kids, name)
      case Some(i) => Ok((t, i))
      // `Area(name, root)` attaches itself through `add_child`, which
      // appends an inner child unconditionally.
      case None => Ok((t.(kids := t.kids + [NewArea(name)]), |t.kids|))
  }

  /** `add_path(root, path, route)` on values: walk or create the named
      sub-areas, then add the route to the last one. An empty path fails at
      `path[0]`. */
  function AddPathTree(t: Tree, path: seq<string>, r: Tree): Result<Tree, NodeError>
    decreases |path|
  {
    if path == [] then Err(EmptyPath)
    else
      var (t1, i) :- FindOrCreate(t, path[0]);
      var sub :- if |path| > 1 then AddPathTree(t1.kids[i], path[1..], r) else AddChild(t1.kids[i], r);
      Ok(t1.(kids := t1.kids[i := sub]))
  }

  /** The node reached by following the names of `path` from `t`, taking the
      first child of each name. */
  function Follow(t: Tree, path: seq<string>): Option<Tree>
    decreases |path|
  {
    if path == [] then Some(t)
    else
      match FirstNamed(t.kids, path[0])
      case None => None
      case Some(i) => Follow(t.kids[i], path[1..])
  }

  /** `u` is `t` with children possibly appended at any level: every node of
      `t` keeps its name, its kind and its children in their places. */
  predicate Extends(t: Tree, u: Tree)
  {
    && u.name == t.name && u.kind == t.kind
    && |t.kids| <= |u.kids|
    && forall i :: 0 <= i < |t.kids| ==> Extends(t.kids[i], u.kids[i])
  }

  lemma {:induction false} ExtendsRefl(t: Tree)
    ensures Extends(t, t)
  {
    forall i | 0 <= i < |t.kids| ensures Extends(t.kids[i], t.kids[i]) {
      ExtendsRefl(t.kids[i]);
    }
  }

  /** Replacing the first child of a name by a node of the same name keeps it
      the first child of that name. */
  lemma FirstNamedUpdate(kids: seq<Tree>, i: nat, x: Tree)
    requires FirstNamed(kids, x.name) == Some(i)
    ensures FirstNamed(kids[i := x], x.name) == Some(i)
  {
    assert kids[i := x][i].name == x.name;
    assert forall j :: 0 <= j < i ==> kids[i := x][j] == kids[j];
  }

  /** `add_path` never renames nodes, and it only appends: what was in the
      tree stays where it was. */
  lemma {:induction false} AddPathExtends(t: Tree, path: seq<string>, r: Tree)
    requires AddPathTree(t, path, r).Ok?
    ensures Extends(t, AddPathTree(t, path, r).value)
    decreases |path|
  {
    var (t1, i) := FindOrCreate(t, path[0]).value;
    var u := AddPathTree(t, path, r).value;
    var sub := if |path| > 1 then AddPathTree(t1.kids[i], path[1..], r).value else AddChild(t1.kids[i], r).value;
    assert u == t1.(kids := t1.kids[i := sub]);
    forall j | 0 <= j < |t.kids| ensures Extends(t.kids[j], u.kids[j]) {
      assert t1.kids[j] == t.kids[j];
      if j == i {
        if |path| > 1 {
          AddPathExtends(t1.kids[i], path[1..], r);
        } else {
          var k := t1.kids[i];
          assert sub == k.(kids := k.kids + [r], isLeafParent := k.isLeafParent || r.IsLeaf());
          forall m | 0 <= m < |k.kids| ensures Extends(k.kids[m], sub.kids[m]) {
            ExtendsRefl(k.kids[m]);
          }
        }
      } else {
        ExtendsRefl(t.kids[j]);
      }
    }
  }

  /** After `add_path(root, path, route)`, following the names of `path`
      from the root reaches a crag whose last child is the route. */
  lemma {:induction false} AddPathReaches(t: Tree, path: seq<string>, r: Tree)
    requires AddPathTree(t, path, r).Ok?
    ensures Follow(AddPathTree(t, path, r).value, path).Some?
    ensures var crag := Follow(AddPathTree(t, path, r).value, path).value;
      |crag.kids| > 0 && crag.kids[|crag.kids| - 1] == r && crag.name == path[|path| - 1]
    decreases |path|
  {
    var (t1, i) := FindOrCreate(t, path[0]).value;
    AddPathStep(t, path, r);
    var d := Descend(t1.kids[i], path, r).value;
    if |path| > 1 {
      AddPathReaches(t1.kids[i], path[1..], r);
    }
    assert Reaches(d, path[1..], path[|path| - 1], r) by {
      if |path| == 1 {
        assert d == AddChild(t1.kids[i], r).value;
      }
    }
    FindOrCreateFirst(t, path[0]);
    DescendKeepsName(t1.kids[i], path, r);
    FollowStep(t1, i, path, d);
  }

  /** Following `path` from `u` ends at a node named `name` whose last
      child is `r`. */
  predicate Reaches(u: Tree, path: seq<string>, name: string, r: Tree) {
    && Follow(u, path).Some?
    && var crag := Follow(u, path).value;
      |crag.kids| > 0 && crag.kids[|crag.kids| - 1] == r && crag.name == name
  }

  /** One step of `add_path`: below the sub-area `find_or_create_subarea`
      gives, the rest of the path decides the outcome. */
  lemma AddPathStep(t: Tree, path: seq<string>, r: Tree)
    requires |path| > 0 && FindOrCreate(t, path[0]).Ok?
    ensures var (t1, i) := FindOrCreate(t, path[0]).value;
      var d := Descend(t1.kids[i], path, r);
      && (AddPathTree(t, path, r).Ok? <==> d.Ok?)
      && (d.Ok? ==> AddPathTree(t, path, r).value == t1.(kids := t1.kids[i := d.value]))
      && (d.Err? ==> AddPathTree(t, path, r).error == d.error)
  {
  }

  /** The sub-area `find_or_create_subarea` returns is the first child of
      its name afterwards. */
  lemma FindOrCreateFirst(t: Tree, name: string)
    requires FindOrCreate(t, name).Ok?
    ensures var (t1, i) := FindOrCreate(t, name).value; FirstNamed(t1.kids, name) == Some(i)
  {
    var (t1, i) := FindOrCreate(t, name).value;
    if FirstNamed(t.kids, name).None? {
      assert t1.kids == t.kids + [NewArea(name)];
      assert forall j :: 0 <= j < i ==> t1.kids[j] == t.kids[j];
    }
  }

  /** Following a path through the first child of its first name, after that
      child was replaced by one of the same name. */
  lemma FollowStep(t: Tree, i: nat, path: seq<string>, d: Tree)
    requires |path| > 0 && FirstNamed(t.kids, path[0]) == Some(i) && d.name == path[0]
    ensures Follow(t.(kids := t.kids[i := d]), path) == Follow(d, path[1..])
  {
    FirstNamedUpdate(t.kids, i, d);
  }

  /** What `add_path` does below a sub-area keeps its name. */
  lemma DescendKeepsName(t: Tree, path: seq<string>, r: Tree)
    requires |path| > 0 && Descend(t, path, r).Ok?
    ensures Descend(t, path, r).value.name == t.name
  {
    if |path| > 1 {
      AddPathExtends(t, path[1..], r);
    }
  }

  /** An empty path fails, and so does adding a route to an existing crag
      whose children are Areas. */
  lemma {:induction false} AddPathFails(t: Tree, path: seq<string>, r: Tree)
    requires r.IsLeaf() && WellShaped(t)
    requires |path| > 0 && Follow(t, path).Some?
    requires var crag := Follow(t, path).value; !crag.IsLeaf() && !crag.isLeafParent && crag.kids != []
    ensures AddPathTree(t, [], r) == Err(EmptyPath)
    ensures AddPathTree(t, path, r) == Err(NotLeafParent)
    decreases |path|
  {
    var i := FirstNamed(t.kids, path[0]).value;
    assert t.kids[i] in t.kids;
    if |path| > 1 {
      AddPathFails(t.kids[i], path[1..], r);
    }
  }

  // ---------------------------------------------------------------------------
  // Counting routes

  lemma {:induction false} LeafSumPrefix(t: Tree, u: Tree, n: nat)
    requires n <= |t.kids| && n <= |u.kids| && t.kids[..n] == u.kids[..n]
    ensures LeafSum(t, n) == LeafSum(u, n)
  {
    if n > 0 {
      assert t.kids[..n - 1] == t.kids[..n][..n - 1];
      assert u.kids[..n - 1] == u.kids[..n][..n - 1];
      assert t.kids[n - 1] == t.kids[..n][n - 1];
      assert u.kids[n - 1] == u.kids[..n][n - 1];
      LeafSumPrefix(t, u, n - 1);
    }
  }

  /** Replacing one child changes the route count by the difference. */
  lemma {:induction false} LeafSumUpdate(t: Tree, u: Tree, i: nat, n: nat)
    requires i < |t.kids| == |u.kids| && u.kids == t.kids[i := u.kids[i]] && n <= |t.kids|
    ensures LeafSum(u, n) == LeafSum(t, n) + (if i < n then LeafCount(u.kids[i]) - LeafCount(t.kids[i]) else 0)
  {
    if n > 0 {
      LeafSumUpdate(t, u, i, n - 1);
    }
  }

  lemma LeafSumAppend(t: Tree, u: Tree, x: Tree)
    requires u.kids == t.kids + [x]
    ensures LeafSum(u, |u.kids|) == LeafSum(t, |t.kids|) + LeafCount(x)
  {
    assert u.kids[..|t.kids|] == t.kids[..|t.kids|];
    LeafSumPrefix(t, u, |t.kids|);
  }

  /** `add_path` adds exactly the routes it is given: one for a Route. */
  lemma {:induction false} AddPathCountsRoute(t: Tree, path: seq<string>, r: Tree)
    requires AddPathTree(t, path, r).Ok?
    ensures LeafCount(AddPathTree(t, path, r).value) == LeafCount(t) + LeafCount(r)
    decreases |path|
  {
    var (t1, i) := FindOrCreate(t, path[0]).value;
    var u := AddPathTree(t, path, r).value;
    var k := t1.kids[i];
    var sub := if |path| > 1 then AddPathTree(k, path[1..], r).value else AddChild(k, r).value;
    assert u == t1.(kids := t1.kids[i := sub]);
    if FirstNamed(t.kids, path[0]).None? {
      LeafSumAppend(t, t1, NewArea(path[0]));
      assert LeafCount(NewArea(path[0])) == 0;
    }
    assert LeafCount(t1) == LeafCount(t);
    if |path| > 1 {
      AddPathCountsRoute(k, path[1..], r);
    } else {
      LeafSumAppend(k, sub, r);
    }
    LeafSumUpdate(t1, u, i, |t1.kids|);
  }

  /** The number of nodes in a subtree. */
  function NodeCount(t: Tree): nat
    decreases t, 1
  {
    1 + NodeSum(t, |t.kids|)
  }

  function NodeSum(t: Tree, n: nat): nat
    requires n <= |t.kids|
    decreases t, 0, n
  {
    if n == 0 then 0 else NodeSum(t, n - 1) + NodeCount(t.kids[n - 1])
  }

  lemma {:induction false} NodeSumPrefix(t: Tree, u: Tree, n: nat)
    requires n <= |t.kids| && n <= |u.kids| && t.kids[..n] == u.kids[..n]
    ensures NodeSum(t, n) == NodeSum(u, n)
  {
    if n > 0 {
      assert t.kids[..n - 1] == t.kids[..n][..n - 1];
      assert u.kids[..n - 1] == u.kids[..n][..n - 1];
      assert t.kids[n - 1] == t.kids[..n][n - 1];
      assert u.kids[n - 1] == u.kids[..n][n - 1];
      NodeSumPrefix(t, u, n - 1);
    }
  }

  lemma {:induction false} NodeSumUpdate(t: Tree, u: Tree, i: nat, n: nat)
    requires i < |t.kids| == |u.kids| && u.kids == t.kids[i := u.kids[i]] && n <= |t.kids|
    ensures NodeSum(u, n) == NodeSum(t, n) + (if i < n then NodeCount(u.kids[i]) - NodeCount(t.kids[i]) else 0)
  {
    if n > 0 {
      NodeSumUpdate(t, u, i, n - 1);
    }
  }

  lemma NodeSumAppend(t: Tree, u: Tree, x: Tree)
    requires u.kids == t.kids + [x]
    ensures NodeSum(u, |u.kids|) == NodeSum(t, |t.kids|) + NodeCount(x)
  {
    assert u.kids[..|t.kids|] == t.kids[..|t.kids|];
    NodeSumPrefix(t, u, |t.kids|);
  }

  /** `add_path` creates at most one Area per name on the path: the tree
      grows by the added subtree and at most `|path|` new nodes. */
  lemma {:induction false} AddPathCreatesAtMost(t: Tree, path: seq<string>, r: Tree)
    requires AddPathTree(t, path, r).Ok?
    ensures NodeCount(t) + NodeCount(r) <= NodeCount(AddPathTree(t, path, r).value)
                                        <= NodeCount(t) + NodeCount(r) + |path|
    decreases |path|
  {
    var (t1, i) := FindOrCreate(t, path[0]).value;
    var u := AddPathTree(t, path, r).value;
    var k := t1.kids[i];
    var sub := if |path| > 1 then AddPathTree(k, path[1..], r).value else AddChild(k, r).value;
    assert u == t1.(kids := t1.kids[i := sub]);
    if FirstNamed(t.kids, path[0]).None? {
      NodeSumAppend(t, t1, NewArea(path[0]));
      assert NodeSum(NewArea(path[0]), 0) == 0;
    }
    assert NodeCount(t) <= NodeCount(t1) <= NodeCount(t) + 1;
    if |path| > 1 {
      AddPathCreatesAtMost(k, path[1..], r);
    } else {
      NodeSumAppend(k, sub, r);
    }
    NodeSumUpdate(t1, u, i, |t1.kids|);
    if FirstNamed(t.kids, path[0]).Some? {
      assert NodeCount(t1) == NodeCount(t);
    }
  }

  // ---------------------------------------------------------------------------
  // The same operations on the node objects

  /** `find_existing_area`: a read-only search of the children. */
  method FindExistingArea(root: Node, name: string) returns (r: Result<Node?, NodeError>)
    requires root.Valid()
    ensures r.Err? <==> root.kind.RouteKind?
    ensures r.Err? ==> r.error == LeafHasNoChildren
    ensures r.Ok? && FirstNamed(root.tree.kids, name).None? ==> r.value == null
    ensures r.Ok? && FirstNamed(root.tree.kids, name).Some? ==>
      r.value == root.children[FirstNamed(root.tree.kids, name).value]
  {
    var children :- root.Children();
    var i := 0;
    while i < |children|
      invariant 0 <= i <= |children| && children == root.children
      invariant forall j :: 0 <= j < i ==> root.tree.kids[j].name != name
    {
      var sub := children[i];
      assert sub.Valid() && sub.tree == root.tree.kids[i];
      if sub.name == name {
        return Ok(sub);
      }
      i := i + 1;
    }
    return Ok(null);
  }

  /** `Area(name, parent)`: `Node.__init__` records the parent and then
      attaches the new node to it through `add_child`. */
  method NewSubarea(name: string, parent: Node) returns (a: Node, err: Option<NodeError>)
    requires parent.Valid()
    modifies parent
    ensures parent.Valid() && fresh(a) && a.Valid() && fresh(a.Repr)
    ensures a.tree == NewArea(name) && a.parent == parent
    ensures err.None? <==> parent.kind.AreaKind?
    ensures err.None? ==> parent.tree == old(parent.tree).(kids := old(parent.tree.kids) + [NewArea(name)])
    ensures err.None? ==> parent.children == old(parent.children) + [a] && parent.Repr == old(parent.Repr) + a.Repr
    ensures err.Some? ==> parent.tree == old(parent.tree) && parent.Repr == old(parent.Repr)
  {
    a := new Node.Area(name);
    a.parent := parent;
    err := parent.AddChild(a);
  }

  /** `find_or_create_subarea`: the existing sub-area of that name, or a new
      one attached to `root`. */
  method FindOrCreateSubarea(root: Node, name: string) returns (sub: Node?, ghost i: nat, err: Option<NodeError>)
    requires root.Valid()
    modifies root
    ensures root.Valid() && root.Repr >= old(root.Repr) && fresh(root.Repr - old(root.Repr))
    ensures err.None? <==> FindOrCreate(old(root.tree), name).Ok?
    ensures err.Some? ==> err.value == FindOrCreate(old(root.tree), name).error && root.tree == old(root.tree)
    ensures err.None? ==> (root.tree, i) == FindOrCreate(old(root.tree), name).value
    ensures err.None? ==> i < |root.children| && sub == root.children[i]
    ensures err.None? && FirstNamed(old(root.tree.kids), name).Some? ==> root.children == old(root.children)
    ensures err.None? && FirstNamed(old(root.tree.kids), name).None? ==>
      root.children == old(root.children) + [sub] && fresh(sub) && sub.parent == root
  {
    var found := FindExistingArea(root, name);
    if found.Err? {
      return null, 0, Some(found.error);
    }
    if found.value != null {
      sub, i, err := found.value, FirstNamed(root.tree.kids, name).value, None;
    } else {
      i := |root.children|;
      sub, err := NewSubarea(name, root);
    }
  }

  /** `add_route_and_update_crag`: the crag adopts the route, then the route
      records its crag. When `add_child` raises, the route is untouched. */
  method AddRouteAndUpdateCrag(crag: Node, route: Node) returns (err: Option<NodeError>)
    requires crag.Valid() && route.Valid() && crag.Repr !! route.Repr
    requires route.kind.RouteKind? && route.children == []
    modifies crag, route`parent
    ensures crag.Valid()
    ensures err.None? <==> AddChild(old(crag.tree), route.tree).Ok?
    ensures err.None? ==> crag.tree == AddChild(old(crag.tree), route.tree).value
    ensures err.None? ==> crag.Repr == old(crag.Repr) + route.Repr && route.parent == crag
    ensures err.None? ==> crag.children == old(crag.children) + [route]
    ensures err.Some? ==> err.value == AddChild(old(crag.tree), route.tree).error
    ensures err.Some? ==> crag.tree == old(crag.tree) && crag.Repr == old(crag.Repr) && route.parent == old(route.parent)
  {
    err := crag.AddChild(route);
    if err.None? {
      label added:
      route.parent := crag;
      assert route.Valid();
      forall i | 0 <= i < |crag.children|
        ensures crag.children[i].Valid()
      {
        if i < |crag.children| - 1 {
          assert old@added(crag.children[i].Valid());
          assert route !in crag.children[i].Repr;
        }
      }
    }
  }

  /** What `add_path` does below the sub-area named `path[0]`: recurse on
      the rest of the path, or add the route when that sub-area is the crag. */
  function Descend(t: Tree, path: seq<string>, r: Tree): Result<Tree, NodeError>
    requires |path| > 0
  {
    if |path| > 1 then AddPathTree(t, path[1..], r) else AddChild(t, r)
  }

  /** `add_path(root, path, route)`: one sub-area per name of `path`, found
      or created, and the route added to the last. The tree becomes the one
      `AddPathTree` computes; the only new objects are fresh areas and the
      route's own. */
  method AddPath(root: Node, path: seq<string>, route: Node) returns (err: Option<NodeError>)
    requires root.Valid() && route.Valid() && root.Repr !! route.Repr
    requires route.kind.RouteKind? && route.children == []
    modifies root.Repr, route`parent
    ensures root.Valid()
    ensures old(root.Repr) <= root.Repr && fresh(root.Repr - old(root.Repr) - route.Repr)
    ensures err.None? <==> AddPathTree(old(root.tree), path, route.tree).Ok?
    ensures err.None? ==> root.tree == AddPathTree(old(root.tree), path, route.tree).value
    ensures err.Some? ==> err.value == AddPathTree(old(root.tree), path, route.tree).error
    ensures err.None? ==> route.parent != null && route.parent in root.Repr
    ensures err.None? ==> Follow(root.tree, path) == Some(route.parent.tree)
    decreases |path|, 2
  {
    if path == [] {
      return Some(EmptyPath);
    }
    var sub, i, e := FindOrCreateSubarea(root, path[0]);
    if e.Some? {
      return e;
    }
    ghost var t1 := root.tree;
    FindOrCreateFirst(old(root.tree), path[0]);
    err := AddBelow(root, sub, i, path, route);
    AddPathStep(old(root.tree), path, route.tree);
    if err.None? {
      DescendKeepsName(t1.kids[i], path, route.tree);
      FollowStep(t1, i, path, root.tree.kids[i]);
    }
  }

  /** The rest of `add_path` once child `i` of `root` is the sub-area named
      `path[0]`: that child becomes what `Descend` computes, and `root`
      mirrors it. */
  method AddBelow(root: Node, sub: Node, ghost i: nat, path: seq<string>, route: Node) returns (err: Option<NodeError>)
    requires root.Valid() && route.Valid() && root.Repr !! route.Repr
    requires route.kind.RouteKind? && route.children == []
    requires i < |root.children| && sub == root.children[i] && |path| > 0
    modifies root.Repr, route`parent
    ensures root.Valid()
    ensures old(root.Repr) <= root.Repr && fresh(root.Repr - old(root.Repr) - route.Repr)
    ensures err.None? <==> Descend(old(root.tree.kids[i]), path, route.tree).Ok?
    ensures err.None? ==>
      root.tree == old(root.tree).(kids := old(root.tree.kids)[i := Descend(old(root.tree.kids[i]), path, route.tree).value])
    ensures err.Some? ==> err.value == Descend(old(root.tree.kids[i]), path, route.tree).error
    ensures err.None? ==> route.parent != null && route.parent in root.Repr && route.parent != root
    ensures err.None? ==> Follow(root.tree.kids[i], path[1..]) == Some(route.parent.tree)
    decreases |path|, 1
  {
    assert sub.Valid() && sub.tree == root.tree.kids[i] && sub.Repr <= root.Repr;
    err := DescendInto(sub, path, route);
    forall o | o in sub.Repr && o !in old(sub.Repr)
      ensures o !in old(root.Repr)
    {
      assert fresh(o) || o in route.Repr;
    }
    forall o | o in old(root.Repr) && o != root && o !in old(sub.Repr)
      ensures unchanged(o)
    {
      assert o != route;
    }
    root.tree := root.tree.(kids := root.tree.kids[i := sub.tree]);
    root.Repr := root.Repr + sub.Repr;
    root.GrownValid(i);
  }

  /** `sub` is the sub-area named `path[0]`: walk on, or add the route to it
      when it is the crag. */
  method DescendInto(sub: Node, path: seq<string>, route: Node) returns (err: Option<NodeError>)
    requires sub.Valid() && route.Valid() && sub.Repr !! route.Repr
    requires route.kind.RouteKind? && route.children == []
    requires |path| > 0
    modifies sub.Repr, route`parent
    ensures sub.Valid()
    ensures old(sub.Repr) <= sub.Repr && fresh(sub.Repr - old(sub.Repr) - route.Repr)
    ensures err.None? <==> Descend(old(sub.tree), path, route.tree).Ok?
    ensures err.None? ==> sub.tree == Descend(old(sub.tree), path, route.tree).value
    ensures err.Some? ==> err.value == Descend(old(sub.tree), path, route.tree).error
    ensures err.None? ==> route.parent != null && route.parent in sub.Repr
    ensures err.None? ==> Follow(sub.tree, path[1..]) == Some(route.parent.tree)
    decreases |path|, 0
  {
    if |path| > 1 {
      err := AddPath(sub, path[1..], route);
    } else {
      err := AddRouteAndUpdateCrag(sub, route);
    }
  }

  // ---------------------------------------------------------------------------
  // Building a region's subtree from its records

  /** Why `build_subtree` stops: `int` of a cell that is not a number, a
      grade `Grade` rejects, `add_child` raising inside `add_path`, or no
      record at all, so that the scratch root has no first child. */
  datatype BuildError = NotANumber | InvalidGrade(cause: GradeError) | BadNode(reason: NodeError) | NoRegion

  function NumberOf(cell: string): (r: Result<int, BuildError>)
    ensures r.Ok? <==> PyInt(cell).Some?
    ensures r.Ok? ==> r.value == PyInt(cell).value
  {
    match PyInt(cell)
    case None => Err(NotANumber)
    case Some(n) => Ok(n)
  }

  /** The Route a record describes: an empty length cell counts as 0, the
      pitch count is read as an integer and the grade parsed. The records
      carry no url, so the Route's is empty. */
  function RouteInfoOf(id: string, d: RouteDetails): (r: Result<RouteInfo, BuildError>)
    ensures r.Ok? ==> r.value.id == id && r.value.url == "" && Ok(r.value.grade) == Parse(d.grade)
    ensures r.Ok? ==> if d.length == "" then r.value.length == 0 else PyInt(d.length) == Some(r.value.length)
    ensures r.Ok? ==> PyInt(d.numPitches) == Some(r.value.numPitches)
    ensures r.Ok? ==> r.value.rating == d.rating && r.value.popularity == d.numReviewers
    ensures r.Ok? ==> r.value.routeTypes == d.routeTypes
    ensures r.Err? ==> r.error == NotANumber || r.error.InvalidGrade?
    ensures r.Err? && r.error.InvalidGrade? ==> Parse(d.grade) == Err(r.error.cause)
  {
    var length :- if d.length == "" then Ok(0) else NumberOf(d.length);
    var pitches :- NumberOf(d.numPitches);
    match Parse(d.grade)
    case Err(e) => Err(InvalidGrade(e))
    case Ok(g) => Ok(RouteInfo(id, "", g, d.routeTypes, pitches, length, d.rating, d.numReviewers))
  }

  /** One pass of the loop: the record's Route, added along its area path. */
  function InsertRecord(t: Tree, id: string, d: RouteDetails): Result<Tree, BuildError>
  {
    var info :- RouteInfoOf(id, d);
    match AddPathTree(t, d.area, NewRoute(d.name, info))
    case Err(e) => Err(BadNode(e))
    case Ok(u) => Ok(u)
  }

  /** The loop of `build_subtree` over the records, in the dict's order. */
  function BuildFrom(t: Tree, data: Dict<RouteDetails>): Result<Tree, BuildError>
    decreases |data|
  {
    if data == [] then Ok(t)
    else
      var u :- InsertRecord(t, data[0].0, data[0].1);
      BuildFrom(u, data[1..])
  }

  /** `build_subtree` on values: the first child of a scratch root named "". */
  function Subtree(data: Dict<RouteDetails>): Result<Tree, BuildError>
  {
    var root :- BuildFrom(NewArea(""), data);
    if root.kids == [] then Err(NoRegion) else Ok(root.kids[0])
  }

  /** Every record becomes exactly one Route of the tree. */
  lemma {:induction false} BuildCountsRoutes(t: Tree, data: Dict<RouteDetails>)
    requires BuildFrom(t, data).Ok?
    ensures LeafCount(BuildFrom(t, data).value) == LeafCount(t) + |data|
    decreases |data|
  {
    if data != [] {
      var (id, d) := data[0];
      var info := RouteInfoOf(id, d).value;
      var u := InsertRecord(t, id, d).value;
      AddPathCountsRoute(t, d.area, NewRoute(d.name, info));
      BuildCountsRoutes(u, data[1..]);
    }
  }

  /** A region file: every record's path starts with the same region. */
  predicate OneRegion(data: Dict<RouteDetails>, region: string) {
    forall k :: 0 <= k < |data| ==> |data[k].1.area| > 0 && data[k].1.area[0] == region
  }

  /** When all records share their first area, the scratch root ends up with
      that one area as its only child. */
  lemma {:induction false} OneRegionOneChild(t: Tree, data: Dict<RouteDetails>, region: string)
    requires OneRegion(data, region) && !t.IsLeaf()
    requires t.kids == [] || (|t.kids| == 1 && t.kids[0].name == region)
    requires BuildFrom(t, data).Ok?
    ensures var u := BuildFrom(t, data).value;
      !u.IsLeaf() && ((t.kids == [] && data == []) || (|u.kids| == 1 && u.kids[0].name == region))
    decreases |data|
  {
    if data != [] {
      var (id, d) := data[0];
      var info := RouteInfoOf(id, d).value;
      var r := NewRoute(d.name, info);
      var u := InsertRecord(t, id, d).value;
      var (t1, i) := FindOrCreate(t, region).value;
      assert |t1.kids| == 1 && i == 0;
      var sub := Descend(t1.kids[0], d.area, r).value;
      assert u == t1.(kids := t1.kids[0 := sub]);
      DescendKeepsName(t1.kids[0], d.area, r);
      assert data[1..][0..] == data[1..];
      assert OneRegion(data[1..], region) by {
        forall k | 0 <= k < |data[1..]| ensures |data[1..][k].1.area| > 0 && data[1..][k].1.area[0] == region {
          assert data[1..][k] == data[k + 1];
        }
      }
      OneRegionOneChild(u, data[1..], region);
    }
  }

  /** `build_subtree` of a region file returns the region's area, and it
      holds a Route for every record. */
  lemma SubtreeHoldsEveryRoute(data: Dict<RouteDetails>, region: string)
    requires OneRegion(data, region) && Subtree(data).Ok?
    ensures Subtree(data).value.name == region
    ensures LeafCount(Subtree(data).value) == |data|
  {
    var root := BuildFrom(NewArea(""), data).value;
    OneRegionOneChild(NewArea(""), data, region);
    BuildCountsRoutes(NewArea(""), data);
    assert LeafCount(root) == LeafSum(root, 1) == LeafCount(root.kids[0]);
  }

  /** `InsertRecord` as its two steps. */
  lemma InsertRecordSteps(t: Tree, id: string, d: RouteDetails)
    ensures var info := RouteInfoOf(id, d);
      InsertRecord(t, id, d) == if info.Err? then Err(info.error)
        else match AddPathTree(t, d.area, NewRoute(d.name, info.value))
          case Err(e) => Err(BadNode(e))
          case Ok(u) => Ok(u)
  {
  }

  /** One pass of the loop of `build_subtree`: the record's Route is built
      and added along its area path. */
  method AddRecord(root: Node, id: string, d: RouteDetails) returns (err: Option<BuildError>)
    requires root.Valid()
    modifies root.Repr
    ensures root.Valid() && old(root.Repr) <= root.Repr && fresh(root.Repr - old(root.Repr))
    ensures err.None? <==> InsertRecord(old(root.tree), id, d).Ok?
    ensures err.None? ==> root.tree == InsertRecord(old(root.tree), id, d).value
    ensures err.Some? ==> err.value == InsertRecord(old(root.tree), id, d).error
  {
    var info := RouteInfoOf(id, d);
    InsertRecordSteps(root.tree, id, d);
    if info.Err? {
      return Some(info.error);
    }
    var route := new Node.Route(d.name, info.value);
    var e := AddPath(root, d.area, route);
    if e.Some? {
      return Some(BadNode(e.value));
    }
    err := None;
  }

  /** `build_subtree(fp)` once `extract_data(fp)` has produced `data`: each
      record becomes a Route added along its area path below a scratch root,
      and the root's first child is returned. */
  method BuildSubtree(data: Dict<RouteDetails>) returns (r: Result<Node, BuildError>)
    ensures r.Ok? <==> Subtree(data).Ok?
    ensures r.Ok? ==> r.value.Valid() && r.value.tree == Subtree(data).value
    ensures r.Err? ==> r.error == Subtree(data).error
  {
    var root := new Node.Area("");
    var k := 0;
    while k < |data|
      invariant 0 <= k <= |data|
      invariant root.Valid() && fresh(root.Repr) && root.kind.AreaKind?
      invariant BuildFrom(NewArea(""), data) == BuildFrom(root.tree, data[k..])
    {
      assert data[k..][0] == data[k] && data[k..][1..] == data[k + 1..];
      var e := AddRecord(root, data[k].0, data[k].1);
      if e.Some? {
        return Err(e.value);
      }
      k := k + 1;
    }
    if |root.children| == 0 {
      return Err(NoRegion);
    }
    r := Ok(root.children[0]);
  }

}
