/** The objects of node.py and crag.py: the shared RouteFilter, the shared
    sort keys, and one class for the nodes of the area tree. Python's Node,
    Area and Route are merged into the class `Node`, whose `kind` says which
    of Area or Route it is; every method's effect is stated through the value
    `tree` the node mirrors, with the functions of modules Trees and
    CragStats. */
module Crag {
  import opened Wrappers
  import opened Grades
  import opened Trees
  import opened CragStats
  import opened Text

  class Node {
    const name: string
    const kind: Kind
    var parent: Node?
    var children: seq<Node>
    var isLeafParent: bool
    var coordinates: Option<(real, real)>
    var totalRoutes: int
    var matchingRoutes: int
    var rawScore: real
    var stats: Stats

    /** The subtree below this node as a value, and the objects it is made of. */
    ghost var tree: Tree
    ghost var Repr: set<object>

    ghost predicate Valid()
      reads this, Repr
      decreases Repr
    {
      && this in Repr
      && (forall i :: 0 <= i < |children| ==>
            children[i] in Repr && children[i].Repr <= Repr && this !in children[i].Repr && children[i].Valid())
      && (forall i, j :: 0 <= i < j < |children| ==> children[i].Repr !! children[j].Repr)
      && tree == Tree(name, kind, isLeafParent, tree.kids, coordinates, totalRoutes, matchingRoutes, rawScore, stats)
      && |tree.kids| == |children|
      && (forall i :: 0 <= i < |children| ==> tree.kids[i] == children[i].tree)
    }

    /** `Area(name)` without a parent. */
    constructor Area(name: string)
      ensures Valid() && fresh(Repr)
      ensures tree == NewArea(name) && parent == null
    {
      this.name := name;
      kind := AreaKind;
      parent := null;
      children := [];
      isLeafParent := false;
      coordinates := None;
      totalRoutes := 0;
      matchingRoutes := 0;
      rawScore := 0.0;
      stats := Unset;
      tree := NewArea(name);
      Repr := {this};
    }

    /** `Route(...)` once its grade is parsed: a leaf named `name (grade)`. */
    constructor Route(name: string, info: RouteInfo)
      ensures Valid() && fresh(Repr)
      ensures tree == Trees.NewRoute(name, info) && parent == null
    {
      this.name := RouteNodeName(name, info.grade.text);
      kind := RouteKind(info);
      parent := null;
      children := [];
      isLeafParent := false;
      coordinates := None;
      totalRoutes := 0;
      matchingRoutes := 0;
      rawScore := 0.0;
      stats := Unset;
      tree := Trees.NewRoute(name, info);
      Repr := {this};
    }

    /** The `children` property. */
    function Children(): (r: Result<seq<Node>, NodeError>)
      reads this
      ensures r.Err? <==> kind.RouteKind?
      ensures r.Ok? ==> r.value == children
    {
      if kind.RouteKind? then Err(LeafHasNoChildren) else Ok(children)
    }

    /** `add_child`: the child `c` must be a tree of its own. */
    method AddChild(c: Node) returns (err: Option<NodeError>)
      requires Valid() && c.Valid() && Repr !! c.Repr
      modifies this
      ensures Valid()
      ensures err.None? <==> Trees.AddChild(old(tree), c.tree).Ok?
      ensures err.None? ==>
        tree == Trees.AddChild(old(tree), c.tree).value && children == old(children) + [c] && Repr == old(Repr) + c.Repr
      ensures err.Some? ==>
        err == Some(Trees.AddChild(old(tree), c.tree).error) && tree == old(tree) && Repr == old(Repr)
      ensures parent == old(parent) && coordinates == old(coordinates)
    {
      if kind.RouteKind? {
        return Some(LeafHasNoChildren);
      }
      if c.kind.RouteKind? {
        if |children| == 0 {
          isLeafParent := true;
        }
        if !isLeafParent {
          return Some(NotLeafParent);
        }
      }
      children := children + [c];
      tree := tree.(kids := tree.kids + [c.tree], isLeafParent := isLeafParent);
      Repr := Repr + c.Repr;
      AppendedValid(c);
      err := None;
    }

    /** `init_stats`: the route totals, then the statistics under the bounds
        the shared filter holds. */
    method InitStats(filter: RouteFilter) returns (err: Option<NodeError>)
      requires Valid() && kind.AreaKind?
      modifies Repr
      ensures Valid() && Repr == old(Repr)
      ensures err.None? <==> InitStatsTree(old(tree), old(filter.Bounds())).Ok?
      ensures err.None? ==> tree == InitStatsTree(old(tree), old(filter.Bounds())).value
      ensures err.Some? ==> err.value == InitStatsTree(old(tree), old(filter.Bounds())).error
    {
      var bounds := filter.Bounds();
      err := CalculateTotalNumRoutes();
      if err.None? {
        err := CalculateStats(bounds);
      }
    }

    /** `calculate_total_num_routes` on an Area. */
    method CalculateTotalNumRoutes() returns (err: Option<NodeError>)
      requires Valid() && kind.AreaKind?
      modifies Repr
      ensures Valid() && Repr == old(Repr)
      ensures err.None? <==> CountTotal(old(tree)).Ok?
      ensures err.None? ==> tree == CountTotal(old(tree)).value
      ensures err.Some? ==> err.value == CountTotal(old(tree)).error
      decreases Repr, 2
    {
      if isLeafParent {
        totalRoutes := |children|;
        tree := tree.(totalRoutes := totalRoutes);
        err := None;
      } else {
        err := SumChildTotals();
      }
    }

    /** The loop of `calculate_total_num_routes` over the children of an Area
        that is not a leaf parent. */
    method SumChildTotals() returns (err: Option<NodeError>)
      requires Valid() && kind.AreaKind? && !isLeafParent
      modifies Repr
      ensures Valid() && Repr == old(Repr)
      ensures err.None? <==> CountTotal(old(tree)).Ok?
      ensures err.None? ==> tree == CountTotal(old(tree)).value
      ensures err.Some? ==> err.value == CountTotal(old(tree)).error
      decreases Repr, 1
    {
      ghost var t0 := tree;
      ResetTotal();
      var i := 0;
      while i < |children|
        invariant 0 <= i <= |children|
        invariant Valid() && Repr == old(Repr) && children == old(children)
        invariant tree == t0.(kids := tree.kids, totalRoutes := totalRoutes)
        invariant CountDone(t0, tree.kids, totalRoutes, i)
      {
        ghost var kids := tree.kids;
        ghost var total := totalRoutes;
        var e := CountChild(i);
        if e.Some? {
          CountDoneErr(t0, kids, total, i, e.value);
          return e;
        }
        CountDoneStep(t0, kids, total, i, tree.kids, totalRoutes);
        i := i + 1;
      }
      CountDoneAll(t0, tree.kids, totalRoutes);
      err := None;
    }

    /** One pass of that loop: child `i` recounts its routes and its total is
        added to this node's. */
    method CountChild(i: nat) returns (err: Option<NodeError>)
      requires Valid() && i < |children|
      modifies Repr
      ensures Valid() && Repr == old(Repr) && children == old(children)
      ensures err.None? <==> CountTotal(old(tree.kids[i])).Ok?
      ensures err.Some? ==> err.value == CountTotal(old(tree.kids[i])).error
      ensures err.None? ==>
        tree == old(tree).(kids := old(tree.kids)[i := CountTotal(old(tree.kids[i])).value],
                           totalRoutes := old(totalRoutes) + CountTotal(old(tree.kids[i])).value.totalRoutes)
      ensures err.Some? ==> tree == old(tree).(kids := tree.kids) && |tree.kids| == |old(tree.kids)|
      ensures err.Some? ==> forall j :: 0 <= j < |tree.kids| && j != i ==> tree.kids[j] == old(tree.kids[j])
      decreases Repr, 0
    {
      var child := children[i];
      if child.kind.RouteKind? {
        return Some(NotAnArea);
      }
      label L:
      err := child.CalculateTotalNumRoutes();
      label S1:
      if err.None? {
        totalRoutes := totalRoutes + child.totalRoutes;
      }
      tree := tree.(kids := tree.kids[i := child.tree], totalRoutes := totalRoutes);
      Untouched@S1(child);
      StepValid@L(i);
    }

    /** The `coordinates` setter of an Area. */
    method SetCoordinates(c: (real, real))
      requires Valid() && kind.AreaKind?
      modifies this
      ensures Valid() && Repr == old(Repr) && children == old(children)
      ensures tree == Trees.SetCoordinates(old(tree), c)
    {
      if coordinates.None? {
        coordinates := Some(c);
        tree := tree.(coordinates := coordinates);
      }
    }

    // -------------------------------------------------------------------------
    // Statistics

    /** The running total starts at zero. */
    method ResetTotal()
      requires Valid()
      modifies this
      ensures Valid() && Repr == old(Repr) && children == old(children)
      ensures tree == old(tree).(totalRoutes := 0)
    {
      totalRoutes := 0;
      tree := tree.(totalRoutes := 0);
      OwnFieldsWritten();
    }

    /** `reset_stats`. */
    method ResetStats()
      requires Valid() && kind.AreaKind?
      modifies this
      ensures Valid() && Repr == old(Repr) && children == old(children)
      ensures tree == old(tree).(matchingRoutes := 0, rawScore := 0.0)
    {
      matchingRoutes := 0;
      rawScore := 0.0;
      tree := tree.(matchingRoutes := 0, rawScore := 0.0);
    }

    /** `get_stats`, read from this node's own fields. */
    function GetStats(): (r: Result<Stats, NodeError>)
      reads this, Repr
      requires Valid()
      ensures r == StatsOf(tree)
    {
      if kind.AreaKind? then Ok(Stats(Some(matchingRoutes), Some(rawScore)))
      else if stats.Unset? then Err(MissingAttribute)
      else Ok(stats)
    }

    /** `calculate_stats` with `f` the grades of the shared RouteFilter: a
        Route stores its stats, an Area recomputes its children and sums. */
    method CalculateStats(f: Filter) returns (err: Option<NodeError>)
      requires Valid()
      modifies Repr
      ensures Valid() && Repr == old(Repr)
      ensures err.None? <==> CalcStats(old(tree), f).Ok?
      ensures err.None? ==> tree == CalcStats(old(tree), f).value
      ensures err.Some? ==> err.value == CalcStats(old(tree), f).error
      decreases Repr, 2
    {
      if kind.RouteKind? {
        var s := RouteStats(f, kind.info);
        if s.Err? {
          return Some(s.error);
        }
        stats := s.value;
        tree := tree.(stats := stats);
        err := None;
      } else {
        err := SumChildStats(f);
      }
    }

    /** The loop of `calculate_stats` over the children of an Area. */
    method SumChildStats(f: Filter) returns (err: Option<NodeError>)
      requires Valid() && kind.AreaKind?
      modifies Repr
      ensures Valid() && Repr == old(Repr)
      ensures err.None? <==> CalcStats(old(tree), f).Ok?
      ensures err.None? ==> tree == CalcStats(old(tree), f).value
      ensures err.Some? ==> err.value == CalcStats(old(tree), f).error
      decreases Repr, 1
    {
      ghost var t0 := tree;
      ResetStats();
      var i := 0;
      while i < |children|
        invariant 0 <= i <= |children|
        invariant Valid() && Repr == old(Repr) && children == old(children)
        invariant tree == t0.(kids := tree.kids, matchingRoutes := matchingRoutes, rawScore := rawScore)
        invariant CalcDone(t0, f, tree.kids, matchingRoutes, rawScore, i)
      {
        ghost var cur := tree;
        var e := CalcChildStats(i, f);
        if e.Some? {
          CalcDoneErr(t0, f, cur, i, e.value);
          return e;
        }
        CalcDoneStep(t0, f, cur, tree.kids, matchingRoutes, rawScore, i);
        i := i + 1;
      }
      CalcDoneAll(t0, f, tree.kids, matchingRoutes, rawScore);
      err := None;
    }

    /** One pass of that loop: child `i` recomputes its stats (taking the
        filter only when it is a Route) and what it reports is added. */
    method CalcChildStats(i: nat, f: Filter) returns (err: Option<NodeError>)
      requires Valid() && i < |children|
      modifies Repr
      ensures Valid() && Repr == old(Repr) && children == old(children)
      ensures tree == old(tree).(kids := tree.kids, matchingRoutes := matchingRoutes, rawScore := rawScore)
      ensures |tree.kids| == |old(tree.kids)|
      ensures forall j :: 0 <= j < |tree.kids| && j != i ==> tree.kids[j] == old(tree.kids[j])
      ensures err.None? <==> CalcChild(old(tree), i, f).Ok?
      ensures err.Some? ==> err.value == CalcChild(old(tree), i, f).error
      ensures err.None? ==> tree.kids[i] == CalcChild(old(tree), i, f).value
      ensures err.None? ==>
        matchingRoutes == old(matchingRoutes) + MatchingOf(tree.kids[i]) && rawScore == old(rawScore) + ScoreOf(tree.kids[i])
      decreases Repr, 0
    {
      var child := children[i];
      if isLeafParent && child.kind.AreaKind? {
        return Some(NotARoute);
      }
      if !isLeafParent && child.kind.RouteKind? {
        return Some(NotAnArea);
      }
      ghost var before := child.tree;
      label L:
      err := child.CalculateStats(f);
      label S1:
      if err.None? {
        CalcStatsKeepsNode(before, f);
        var s := child.GetStats();
        matchingRoutes := matchingRoutes + s.value.matching.GetOr(0);
        rawScore := rawScore + s.value.rawScore.GetOr(0.0);
      }
      tree := tree.(kids := tree.kids[i := child.tree], matchingRoutes := matchingRoutes, rawScore := rawScore);
      Untouched@S1(child);
      StepValid@L(i);
    }

    // -------------------------------------------------------------------------
    // Sorting

    /** `getattr(self, key)` read from this node's own fields; None stands for
        AttributeError. */
    function Attribute(key: string): (r: Option<SortValue>)
      reads this, Repr
      requires Valid()
      ensures r == Attr(tree, key)
    {
      Attr(Tree(name, kind, isLeafParent, [], coordinates, totalRoutes, matchingRoutes, rawScore, stats), key)
    }

    /** The key function of `sort` applied to every child before any
        comparison: None as soon as a child lacks the attribute. */
    method ChildKeys(key: string) returns (r: Option<seq<SortValue>>)
      requires Valid()
      ensures r == KeysOf(tree.kids, key)
    {
      var ks: seq<SortValue> := [];
      var i := 0;
      while i < |children|
        invariant 0 <= i <= |children|
        invariant KeysOf(tree.kids[..i], key) == Some(ks)
      {
        var v := children[i].Attribute(key);
        assert tree.kids[..i + 1][..i] == tree.kids[..i];
        if v.None? {
          KeysOfMissing(tree.kids, i + 1, key);
          return None;
        }
        ks := ks + [v.value];
        i := i + 1;
      }
      assert tree.kids[..i] == tree.kids;
      r := Some(ks);
    }

    /** `self._children.sort(key=..., reverse=descending)`. The keys are all
        computed before anything moves, so a missing attribute leaves the
        list as it was; a comparison that fails may leave it in any order. */
    method SortOwnChildren(key: string, descending: bool) returns (err: Option<NodeError>)
      requires Valid()
      modifies this
      ensures Valid() && Repr == old(Repr)
      ensures multiset(children) == multiset(old(children))
      ensures tree == old(tree).(kids := tree.kids) && multiset(tree.kids) == multiset(old(tree.kids))
      ensures err.None? <==> SortChildren(old(tree.kids), key, descending).Ok?
      ensures err.None? ==> tree == old(tree).(kids := SortChildren(old(tree.kids), key, descending).value)
      ensures err.Some? ==> err.value == SortChildren(old(tree.kids), key, descending).error
      ensures err == Some(MissingAttribute) ==> tree == old(tree)
    {
      var ks := ChildKeys(key);
      if ks.None? {
        return Some(MissingAttribute);
      }
      if !Orderable(ks.value) {
        return Some(NodeError.Incomparable);
      }
      Reorder(ks.value, descending);
      SortByPermutes(old(children), ks.value, descending);
      SortByPermutes(old(tree.kids), ks.value, descending);
      err := None;
    }

    /** The reordering `list.sort` applies, for keys already computed. */
    method Reorder(keys: seq<SortValue>, descending: bool)
      requires Valid() && |keys| == |children|
      modifies this
      ensures Valid() && Repr == old(Repr)
      ensures children == SortBy(old(children), keys, descending)
      ensures tree == old(tree).(kids := SortBy(old(tree.kids), keys, descending))
    {
      children := SortBy(children, keys, descending);
      tree := tree.(kids := SortBy(tree.kids, keys, descending));
      ReorderedValid((keys, descending));
    }

    /** Sorting the children and the mirror by the same keys keeps the node
        valid. */
    twostate lemma ReorderedValid(order: (seq<SortValue>, bool))
      requires old(Valid()) && |order.0| == |old(children)|
      requires unchanged(old(Repr) - {this}) && Repr == old(Repr)
      requires children == SortBy(old(children), order.0, order.1)
      requires tree == old(tree).(kids := SortBy(old(tree.kids), order.0, order.1))
      requires (isLeafParent, coordinates, totalRoutes, matchingRoutes, rawScore, stats)
            == old((isLeafParent, coordinates, totalRoutes, matchingRoutes, rawScore, stats))
      ensures Valid()
    {
      var (keys, descending) := order;
      var p := SortOrder(keys, descending);
      SortOrderPermutes(keys, descending);
      assert forall k :: 0 <= k < |children| ==> children[k] == old(children[p[k]]) by {
        SortByOrder(old(children), keys, descending);
      }
      assert forall k :: 0 <= k < |tree.kids| ==> tree.kids[k] == old(tree.kids[p[k]]) by {
        SortByOrder(old(tree.kids), keys, descending);
      }
      PermutedValid(p);
    }

    /** Reordering the children by a permutation keeps the node valid when
        the mirror is reordered the same way. */
    twostate lemma PermutedValid(p: seq<int>)
      requires old(Valid()) && IsPermutation(p, |old(children)|)
      requires unchanged(old(Repr) - {this}) && Repr == old(Repr)
      requires |children| == |old(children)| && forall k :: 0 <= k < |children| ==> children[k] == old(children[p[k]])
      requires tree == old(tree).(kids := tree.kids) && |tree.kids| == |children|
      requires forall k :: 0 <= k < |children| ==> tree.kids[k] == old(tree.kids[p[k]])
      requires (isLeafParent, coordinates, totalRoutes, matchingRoutes, rawScore, stats)
            == old((isLeafParent, coordinates, totalRoutes, matchingRoutes, rawScore, stats))
      ensures Valid()
    {
      forall k | 0 <= k < |children|
        ensures children[k] in Repr && children[k].Repr <= Repr && this !in children[k].Repr && children[k].Valid()
      {
        assert old(children[p[k]].Valid());
        assert unchanged(old(children[p[k]].Repr));
      }
      forall a, b | 0 <= a < b < |children| ensures children[a].Repr !! children[b].Repr {
        if p[a] < p[b] {
          assert old(children[p[a]].Repr !! children[p[b]].Repr);
        } else {
          assert old(children[p[b]].Repr !! children[p[a]].Repr);
        }
      }
    }

    /** `sort`: a leaf parent sorts its leaves; any other node sorts each
        child, then its own children. */
    method Sort(keys: SortKeys) returns (err: Option<NodeError>)
      requires Valid()
      modifies Repr
      ensures Valid() && Repr == old(Repr)
      ensures err.None? <==> SortTree(old(tree), keys).Ok?
      ensures err.None? ==> tree == SortTree(old(tree), keys).value
      ensures err.Some? ==> err.value == SortTree(old(tree), keys).error
      decreases Repr, 2
    {
      if isLeafParent {
        var probe := Attribute(keys.leafKey);
        if probe.None? {
          probe := Bandaid(keys.leafKey);
        }
        err := SortOwnChildren(keys.leafKey, Reversed(probe));
      } else {
        err := SortKids(keys);
        if err.None? {
          var own := Attribute(keys.nodeKey);
          if own.None? {
            return Some(MissingAttribute);
          }
          err := SortOwnChildren(keys.nodeKey, Reversed(own));
        }
      }
    }

    /** The loop of `sort` over the children of a node that is not a leaf
        parent. */
    method SortKids(keys: SortKeys) returns (err: Option<NodeError>)
      requires Valid()
      modifies Repr
      ensures Valid() && Repr == old(Repr)
      ensures err.None? <==> Collect(SortEach(old(tree), keys)).Ok?
      ensures err.None? ==> tree == old(tree).(kids := Collect(SortEach(old(tree), keys)).value)
      ensures err.Some? ==> err.value == Collect(SortEach(old(tree), keys)).error
      decreases Repr, 1
    {
      ghost var t0 := tree;
      var i := 0;
      while i < |children|
        invariant 0 <= i <= |children|
        invariant Valid() && Repr == old(Repr) && children == old(children)
        invariant tree == t0.(kids := tree.kids)
        invariant SortDone(t0, tree.kids, keys, i)
      {
        ghost var kids := tree.kids;
        var e := SortChild(i, keys);
        if e.Some? {
          SortEachErr(t0, keys, i, e.value);
          return e;
        }
        SortDoneStep(t0, kids, keys, i, SortTree(kids[i], keys).value);
        i := i + 1;
      }
      SortEachOk(t0, keys, tree.kids);
      err := None;
    }

    /** One pass of that loop: child `i` sorts itself. */
    method SortChild(i: nat, keys: SortKeys) returns (err: Option<NodeError>)
      requires Valid() && i < |children|
      modifies Repr
      ensures Valid() && Repr == old(Repr) && children == old(children)
      ensures err.None? <==> SortTree(old(tree.kids[i]), keys).Ok?
      ensures err.Some? ==> err.value == SortTree(old(tree.kids[i]), keys).error
      ensures err.None? ==> tree == old(tree).(kids := old(tree.kids)[i := SortTree(old(tree.kids[i]), keys).value])
      ensures err.Some? ==> tree == old(tree).(kids := tree.kids) && |tree.kids| == |old(tree.kids)|
      ensures err.Some? ==> forall j :: 0 <= j < |tree.kids| && j != i ==> tree.kids[j] == old(tree.kids[j])
      decreases Repr, 0
    {
      var child := children[i];
      label L:
      err := child.Sort(keys);
      tree := tree.(kids := tree.kids[i := child.tree]);
      StepValid@L(i);
    }

    /** After child `i` changed within its own objects and this node's own
        fields were written, every other child is as it was and all are valid. */
    twostate lemma ChildrenFramed(i: nat)
      requires old(Valid()) && i < |old(children)|
      requires children == old(children) && Repr == old(Repr)
      requires children[i].Valid() && children[i].Repr == old(children[i].Repr)
      requires forall o :: o in old(Repr) && o != this && o !in old(children[i].Repr) ==> unchanged(o)
      ensures forall j :: 0 <= j < |children| ==> children[j].Valid() && children[j].Repr == old(children[j].Repr)
      ensures forall j :: 0 <= j < |children| && j != i ==> children[j].tree == old(children[j].tree)
    {
      forall j | 0 <= j < |children| && j != i
        ensures children[j].Valid() && children[j].Repr == old(children[j].Repr)
        ensures children[j].tree == old(children[j].tree)
      {
        assert old(children[j].Repr !! children[i].Repr);
        assert unchanged(children[j].Repr);
      }
    }

    /** Appending a valid node with objects of its own keeps this node valid. */
    twostate lemma AppendedValid(c: Node)
      requires old(Valid()) && old(c.Valid()) && old(Repr) !! old(c.Repr)
      requires unchanged(old(Repr) - {this}) && unchanged(old(c.Repr))
      requires children == old(children) + [c] && Repr == old(Repr) + old(c.Repr)
      requires tree == Tree(name, kind, isLeafParent, old(tree.kids) + [c.tree], coordinates, totalRoutes, matchingRoutes, rawScore, stats)
      ensures Valid()
    {
      Untouched(c);
      forall j | 0 <= j < |children| - 1
        ensures children[j].Valid() && children[j].Repr == old(children[j].Repr)
      {
        assert this !in old(children[j].Repr);
        Untouched(children[j]);
      }
    }

    /** Writing only this node's own fields, with its value mirroring them,
        keeps it valid. */
    twostate lemma OwnFieldsWritten()
      requires old(Valid()) && children == old(children) && Repr == old(Repr)
      requires unchanged(old(Repr) - {this})
      requires tree == Tree(name, kind, isLeafParent, old(tree.kids), coordinates, totalRoutes, matchingRoutes, rawScore, stats)
      ensures Valid()
    {
      forall j | 0 <= j < |children|
        ensures children[j].Valid() && children[j].Repr == old(children[j].Repr)
      {
        assert this !in old(children[j].Repr);
        Untouched(children[j]);
      }
    }

    /** A node none of whose objects changed is as valid as it was. */
    twostate lemma Untouched(c: Node)
      requires old(c.Valid()) && forall o :: o in old(c.Repr) ==> unchanged(o)
      ensures c.Valid() && c.Repr == old(c.Repr) && c.tree == old(c.tree)
    {
    }

    /** The frame argument of every loop over the children: once child `i`
        has changed within its own objects and this node mirrors its new
        value, this node is valid again. */
    twostate lemma StepValid(i: nat)
      requires old(Valid()) && i < |old(children)|
      requires children == old(children) && Repr == old(Repr)
      requires children[i].Valid() && children[i].Repr == old(children[i].Repr)
      requires forall o :: o in old(Repr) && o != this && o !in old(children[i].Repr) ==> unchanged(o)
      requires tree == Tree(name, kind, isLeafParent, tree.kids, coordinates, totalRoutes, matchingRoutes, rawScore, stats)
      requires |tree.kids| == |children| && tree.kids[i] == children[i].tree
      requires forall j :: 0 <= j < |children| && j != i ==> tree.kids[j] == old(tree.kids[j])
      ensures Valid()
    {
      ChildrenFramed(i);
    }

    /** The same once child `i` has also taken in objects this node did not
        hold before (new sub-areas, an adopted route): this node, which now
        holds them as well, is valid again. */
    twostate lemma GrownValid(i: nat)
      requires old(Valid()) && i < |old(children)|
      requires children == old(children) && Repr == old(Repr) + children[i].Repr
      requires children[i].Valid() && old(children[i].Repr) <= children[i].Repr
      requires forall o :: o in children[i].Repr && o !in old(children[i].Repr) ==> o !in old(Repr)
      requires forall o :: o in old(Repr) && o != this && o !in old(children[i].Repr) ==> unchanged(o)
      requires tree == Tree(name, kind, isLeafParent, tree.kids, coordinates, totalRoutes, matchingRoutes, rawScore, stats)
      requires |tree.kids| == |children| && tree.kids[i] == children[i].tree
      requires forall j :: 0 <= j < |children| && j != i ==> tree.kids[j] == old(tree.kids[j])
      ensures Valid()
    {
      forall j | 0 <= j < |children| && j != i
        ensures children[j].Valid() && children[j].Repr == old(children[j].Repr)
        ensures children[j].tree == old(children[j].tree)
        ensures children[j].Repr !! children[i].Repr
      {
        assert old(children[j].Repr !! children[i].Repr);
        assert unchanged(children[j].Repr);
      }
    }
  }
  /** What a bound setter of RouteFilter is given: a Grade, or a string that
      is turned into one. */
  datatype GradeArg = GradeValue(grade: Grade) | GradeText(text: string)

  /** `grade if isinstance(grade, Grade) else Grade(grade)`. */
  function GradeOf(arg: GradeArg): (r: Result<Grade, GradeError>)
    ensures arg.GradeValue? ==> r == Ok(arg.grade)
    ensures arg.GradeText? ==> r == Parse(arg.text)
  {
    match arg
    case GradeValue(g) => Ok(g)
    case GradeText(s) => Parse(s)
  }

  /** `RouteFilter`: the pair of grade bounds shared by every Area. */
  class RouteFilter {
    var lower: Grade
    var upper: Grade

    /** A new filter runs from `Grade("5.0")` to `Grade("5.15")`. */
    constructor ()
      ensures DefaultFilter() == Ok(Filter(lower, upper))
    {
      DefaultFilterBounds();
      lower := Five(0, "");
      upper := Five(15, "");
    }

    /** The bounds as a value, for the statistics. */
    function Bounds(): (f: Filter)
      reads this
      ensures f.lower == lower && f.upper == upper
    {
      Filter(lower, upper)
    }

    /** The `lower_grade` setter; a string `Grade` rejects raises and leaves
        the bound as it was. */
    method SetLower(arg: GradeArg) returns (err: Option<GradeError>)
      modifies this
      ensures upper == old(upper)
      ensures err.None? <==> GradeOf(arg).Ok?
      ensures err.None? ==> lower == GradeOf(arg).value
      ensures err.Some? ==> err.value == GradeOf(arg).error && lower == old(lower)
    {
      var g := GradeFrom(arg);
      if g.Err? {
        return Some(g.error);
      }
      lower := g.value;
      err := None;
    }

    /** The `upper_grade` setter, likewise. */
    method SetUpper(arg: GradeArg) returns (err: Option<GradeError>)
      modifies this
      ensures lower == old(lower)
      ensures err.None? <==> GradeOf(arg).Ok?
      ensures err.None? ==> upper == GradeOf(arg).value
      ensures err.Some? ==> err.value == GradeOf(arg).error && upper == old(upper)
    {
      var g := GradeFrom(arg);
      if g.Err? {
        return Some(g.error);
      }
      upper := g.value;
      err := None;
    }
  }

  /** The conversion the setters run: a string goes through the Grade
      constructor. */
  method GradeFrom(arg: GradeArg) returns (r: Result<Grade, GradeError>)
    ensures r == GradeOf(arg)
  {
    match arg
    case GradeValue(g) => r := Ok(g);
    case GradeText(s) => r := NewGrade(s);
  }

  /** `Area.set_filter`: the lower bound is set first, then the upper. When
      the lower one raises neither changes; when only the upper one raises
      the new lower bound stays. */
  method SetFilter(filter: RouteFilter, lower: GradeArg, upper: GradeArg) returns (err: Option<GradeError>)
    modifies filter
    ensures err.None? <==> GradeOf(lower).Ok? && GradeOf(upper).Ok?
    ensures err.None? ==> filter.Bounds() == Filter(GradeOf(lower).value, GradeOf(upper).value)
    ensures GradeOf(lower).Err? ==> err == Some(GradeOf(lower).error) && filter.Bounds() == old(filter.Bounds())
    ensures GradeOf(lower).Ok? && GradeOf(upper).Err? ==>
      err == Some(GradeOf(upper).error) && filter.Bounds() == Filter(GradeOf(lower).value, old(filter.upper))
  {
    err := filter.SetLower(lower);
    if err.Some? {
      return;
    }
    err := filter.SetUpper(upper);
  }

  /** The class-level sort keys `_node_sort_key` and `_leaf_sort_key` that
      every node's `sort` reads. */
  class SortSettings {
    var keys: SortKeys

    /** Both keys start as `"name"`. */
    constructor ()
      ensures keys == DefaultSortKeys
    {
      keys := DefaultSortKeys;
    }

    /** `_set_sort_keys(**kwargs)`. */
    method SetKeyArgs(kwargs: map<string, string>)
      modifies this
      ensures keys == SetKeys(old(keys), kwargs)
    {
      var node := if "node_sort_key" in kwargs then kwargs["node_sort_key"] else keys.nodeKey;
      var leaf := if "leaf_sort_key" in kwargs then kwargs["leaf_sort_key"] else keys.leafKey;
      keys := SortKeys(node, leaf);
    }

    /** `set_sort_keys(sort_keys)` with the attribute tables given; on a
        missing name it raises before changing anything. */
    method Select(selection: map<string, string>, nodeTable: map<string, string>, leafTable: map<string, string>)
      returns (err: Option<NodeError>)
      modifies this
      ensures err.None? <==> SetSortKeys(old(keys), selection, nodeTable, leafTable).Ok?
      ensures err.None? ==> keys == SetSortKeys(old(keys), selection, nodeTable, leafTable).value
      ensures err.Some? ==> keys == old(keys)
    {
      if "node" !in selection || Lower(selection["node"]) !in nodeTable
         || "leaf" !in selection || Lower(selection["leaf"]) !in leafTable {
        return Some(MissingAttribute);
      }
      var nodeKey := nodeTable[Lower(selection["node"])];
      var leafKey := leafTable[Lower(selection["leaf"])];
      SetKeyArgs(map["node_sort_key" := nodeKey, "leaf_sort_key" := leafKey]);
      err := None;
    }
  }

}
