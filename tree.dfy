/** The area tree of the crag data model, as values: the nodes of node.py
    (with the Area and Route fields of crag.py), the rules `add_child`
    enforces, and the recursive `sort` with the attribute lookups and the
    stable list sort it relies on. The heap objects that carry this state are
    in module Crag; each of their methods is specified by a function here. */
module Trees {
  import opened Wrappers
  import opened Grades
  import opened Text

  /** What a Route carries besides its node name. */
  datatype RouteInfo = RouteInfo(
    id: string, url: string, grade: Grade, routeTypes: seq<string>,
    numPitches: int, length: int, rating: real, popularity: int)

  /** The nodes of the program are Areas (inner nodes) and Routes (leaves). */
  datatype Kind = AreaKind | RouteKind(info: RouteInfo)

  /** A Route's `_stats` dictionary: Unset until `calculate_stats` first runs,
      then the keys it holds. */
  datatype Stats = Unset | Stats(matching: Option<int>, rawScore: Option<real>)

  /** One node and its subtree. `totalRoutes`, `matchingRoutes`, `rawScore` and
      `coordinates` are the Area fields, `stats` the Route field. */
  datatype Tree = Tree(
    name: string,
    kind: Kind,
    isLeafParent: bool,
    kids: seq<Tree>,
    coordinates: Option<(real, real)>,
    totalRoutes: int,
    matchingRoutes: int,
    rawScore: real,
    stats: Stats)
  {
    predicate IsLeaf() { kind.RouteKind? }
  }

  datatype NodeError =
    | LeafHasNoChildren   // `children` or `add_child` on a leaf
    | NotLeafParent       // a leaf added to a node that already has inner children
    | MissingAttribute    // `getattr` of a sort key the node does not have
    | Incomparable        // `<` between sort keys that Python cannot order
    | NotARoute           // `calculate_stats(filter)` on an Area under a leaf parent
    | NotAnArea           // an Area-only method reached on a Route
    | BadGrade            // a grade comparison that raises inside `is_in_range`
    | EmptyPath           // `path[0]` of an empty path

  /** A fresh Area: `Node.__init__` then `Area.__init__`, before any parent
      attaches it. */
  function NewArea(name: string): (t: Tree)
    ensures !t.IsLeaf() && t.kids == [] && !t.isLeafParent && t.coordinates.None?
  {
    Tree(name, AreaKind, false, [], None, 0, 0, 0.0, Unset)
  }

  /** The node name of a Route: `f"{name} ({grade})"`. */
  function RouteNodeName(name: string, gradeText: string): string
  {
    name + " (" + gradeText + ")"
  }

  /** A fresh Route, built as a leaf. */
  function NewRoute(name: string, info: RouteInfo): (t: Tree)
    ensures t.IsLeaf() && t.kids == [] && !t.isLeafParent && t.stats.Unset?
    ensures t.name == name + " (" + info.grade.text + ")"
  {
    Tree(RouteNodeName(name, info.grade.text), RouteKind(info), false, [], None, 0, 0, 0.0, Unset)
  }

  /** The `coordinates` setter: the first value set stays. */
  function SetCoordinates(t: Tree, c: (real, real)): (r: Tree)
    ensures r.coordinates.Some? && r.kids == t.kids && r.name == t.name
    ensures t.coordinates.None? ==> r.coordinates == Some(c)
    ensures t.coordinates.Some? ==> r == t
  {
    if t.coordinates.None? then t.(coordinates := Some(c)) else t
  }

  /** Setting the coordinates again changes nothing. */
  lemma SetCoordinatesOnce(t: Tree, a: (real, real), b: (real, real))
    ensures SetCoordinates(SetCoordinates(t, a), b) == SetCoordinates(t, a)
  {
  }

  /** The shape every tree the program builds keeps: a leaf has no children
      and is no leaf parent; a leaf parent has a leaf child; a node that is not
      a leaf parent has no leaf children. */
  predicate LocalShape(t: Tree)
  {
    (t.IsLeaf() ==> t.kids == [] && !t.isLeafParent)
    && (t.isLeafParent ==> exists k :: k in t.kids && k.IsLeaf())
    && (!t.isLeafParent ==> forall k :: k in t.kids ==> !k.IsLeaf())
  }

  predicate WellShaped(t: Tree)
  {
    LocalShape(t) && forall k :: k in t.kids ==> WellShaped(k)
  }

  // ---------------------------------------------------------------------------
  // Children and add_child

  /** The `children` property: raises on a leaf. */
  function Children(t: Tree): (r: Result<seq<Tree>, NodeError>)
    ensures r.Err? <==> t.IsLeaf()
    ensures r.Ok? ==> r.value == t.kids
  {
    if t.IsLeaf() then Err(LeafHasNoChildren) else Ok(t.kids)
  }

  /** `add_child`, with `_add_leaf` for a leaf child. */
  function AddChild(t: Tree, c: Tree): Result<Tree, NodeError>
  {
    if t.IsLeaf() then Err(LeafHasNoChildren)
    else if c.IsLeaf() then
      if t.isLeafParent || |t.kids| == 0 then Ok(t.(isLeafParent := true, kids := t.kids + [c]))
      else Err(NotLeafParent)
    else Ok(t.(kids := t.kids + [c]))
  }

  /** When `add_child` succeeds and what it does: it fails on a leaf and when a
      leaf is offered to a node whose children are inner nodes; otherwise it
      appends the child, latches the leaf-parent flag on the first leaf, and
      changes nothing else. An inner child is appended even to a leaf parent. */
  lemma AddChildRules(t: Tree, c: Tree)
    ensures AddChild(t, c).Ok? <==> !t.IsLeaf() && (!c.IsLeaf() || t.isLeafParent || t.kids == [])
    ensures AddChild(t, c).Ok? ==>
      AddChild(t, c).value == t.(kids := t.kids + [c], isLeafParent := t.isLeafParent || c.IsLeaf())
  {
  }

  /** Once set, the leaf-parent flag stays set. */
  lemma LeafParentLatch(t: Tree, c: Tree)
    requires t.isLeafParent && AddChild(t, c).Ok?
    ensures AddChild(t, c).value.isLeafParent
  {
  }

  /** `add_child` keeps the shape of a well-shaped tree, except that an inner
      node appended to a leaf parent is allowed by the source. */
  lemma AddChildKeepsShape(t: Tree, c: Tree)
    requires WellShaped(t) && WellShaped(c) && AddChild(t, c).Ok?
    ensures WellShaped(AddChild(t, c).value)
  {
    var r := AddChild(t, c).value;
    forall k | k in r.kids ensures WellShaped(k) {
      if k != c {
        assert k in t.kids;
      }
    }
  }

  // ---------------------------------------------------------------------------
  // Sort keys and attributes

  /** The class-level `_node_sort_key` and `_leaf_sort_key`. */
  datatype SortKeys = SortKeys(nodeKey: string, leafKey: string)

  const DefaultSortKeys := SortKeys("name", "name")

  /** `_node_attributes` and `_leaf_attributes`: both empty. */
  const NodeAttributes: map<string, string> := map[]
  const LeafAttributes: map<string, string> := map[]

  /** `_set_sort_keys(**kwargs)`: a key not passed keeps its value. */
  function SetKeys(keys: SortKeys, kwargs: map<string, string>): (r: SortKeys)
    ensures "node_sort_key" in kwargs ==> r.nodeKey == kwargs["node_sort_key"]
    ensures "node_sort_key" !in kwargs ==> r.nodeKey == keys.nodeKey
    ensures "leaf_sort_key" in kwargs ==> r.leafKey == kwargs["leaf_sort_key"]
    ensures "leaf_sort_key" !in kwargs ==> r.leafKey == keys.leafKey
  {
    SortKeys(
      if "node_sort_key" in kwargs then kwargs["node_sort_key"] else keys.nodeKey,
      if "leaf_sort_key" in kwargs then kwargs["leaf_sort_key"] else keys.leafKey)
  }

  /** `set_sort_keys`: the lower-cased selections are looked up in the
      attribute tables; a missing selection or name raises KeyError. */
  function SetSortKeys(keys: SortKeys, selection: map<string, string>,
                       nodeTable: map<string, string>, leafTable: map<string, string>): (r: Result<SortKeys, NodeError>)
    ensures r.Ok? <==> "node" in selection && "leaf" in selection
                       && Lower(selection["node"]) in nodeTable && Lower(selection["leaf"]) in leafTable
    ensures r.Ok? ==> r.value == SortKeys(nodeTable[Lower(selection["node"])], leafTable[Lower(selection["leaf"])])
  {
    if "node" !in selection || Lower(selection["node"]) !in nodeTable then Err(MissingAttribute)
    else if "leaf" !in selection || Lower(selection["leaf"]) !in leafTable then Err(MissingAttribute)
    else
      Ok(SetKeys(keys, map["node_sort_key" := nodeTable[Lower(selection["node"])],
                           "leaf_sort_key" := leafTable[Lower(selection["leaf"])]]))
  }

  /** With the tables as the class defines them, `set_sort_keys` always raises. */
  lemma SetSortKeysAlwaysRaises(keys: SortKeys, selection: map<string, string>)
    ensures SetSortKeys(keys, selection, NodeAttributes, LeafAttributes).Err?
  {
  }

  /** A sort key value: a `str`, a number, or a Grade (whose value may be None). */
  datatype SortValue = Str(s: string) | Num(x: real) | GradeKey(value: Option<int>)

  /** `getattr(node, key)` for the attributes of Area and Route whose
      values are names, numbers, flags or grades: the ones a sort key can
      usefully name. A flag is a `bool`, which compares as the number 0 or
      1. None stands for AttributeError, and also for the attributes that
      hold other values (the coordinates, the parent, the children, the
      route types, the filter and a Route's stats dictionary). */
  function Attr(t: Tree, key: string): Option<SortValue>
  {
    if key == "name" || key == "_name" then Some(Str(t.name))
    else if key == "is_leaf" || key == "_is_leaf" then Some(Num(if t.IsLeaf() then 1.0 else 0.0))
    else if key == "is_leaf_parent" || key == "_is_leaf_parent" then Some(Num(if t.isLeafParent then 1.0 else 0.0))
    else
      match t.kind
      case RouteKind(info) =>
        if key == "_id" then Some(Str(info.id))
        else if key == "_url" then Some(Str(info.url))
        else if key == "_grade" || key == "grade" then Some(GradeKey(info.grade.value))
        else if key == "_num_pitches" then Some(Num(info.numPitches as real))
        else if key == "_length" then Some(Num(info.length as real))
        else if key == "_rating" || key == "rating" then Some(Num(info.rating))
        else if key == "_popularity" then Some(Num(info.popularity as real))
        else None
      case AreaKind =>
        if key == "_total_routes" || key == "total_num_routes" then Some(Num(t.totalRoutes as real))
        else if key == "_matching_routes" || key == "num_matching_routes" then Some(Num(t.matchingRoutes as real))
        else if key == "_raw_score" then Some(Num(t.rawScore))
        else if key == "_popularity" || key == "_log_normalize_score" then Some(Num(0.0))
        else None
  }

  /** The stand-in values `_sort_leaf_nodes` uses when the leaf parent itself
      lacks the leaf key. */
  function Bandaid(key: string): Option<SortValue>
  {
    if key == "_length" || key == "_num_pitches" then Some(Num(1.0))
    else if key == "_grade" then Some(Str("a"))
    else None
  }

  /** The sort runs in reverse unless the probed value is a `str`. */
  predicate Reversed(probe: Option<SortValue>)
  {
    !(probe.Some? && probe.value.Str?)
  }

  /** The direction `_sort_leaf_nodes` chooses: ascending exactly when the leaf
      parent's own attribute, or else the stand-in, is a `str`. */
  lemma LeafDirection(t: Tree, key: string)
    ensures Attr(t, key).Some? ==> (Reversed(Attr(t, key)) <==> !Attr(t, key).value.Str?)
    ensures Attr(t, key).None? ==> (Reversed(Bandaid(key)) <==> key != "_grade")
  {
  }

  // ---------------------------------------------------------------------------
  // Comparing keys

  /** Python's `<` on `str`: lexicographic by code point. */
  predicate LexLess(a: string, b: string)
    decreases |a|
  {
    if a == [] then b != []
    else if b == [] then false
    else if a[0] != b[0] then a[0] < b[0]
    else LexLess(a[1..], b[1..])
  }

  lemma {:induction false} LexLessTransitive(a: string, b: string, c: string)
    requires LexLess(a, b) && LexLess(b, c)
    ensures LexLess(a, c)
    decreases |a|
  {
    if a != [] && b != [] && c != [] && a[0] == b[0] && b[0] == c[0] {
      LexLessTransitive(a[1..], b[1..], c[1..]);
    }
  }

  lemma {:induction false} LexLessIrreflexive(a: string)
    ensures !LexLess(a, a)
    decreases |a|
  {
    if a != [] {
      LexLessIrreflexive(a[1..]);
    }
  }

  /** `a < b` between two keys Python can order; false otherwise (the sort
      never compares keys that are not `Comparable`). */
  predicate Less(a: SortValue, b: SortValue)
  {
    match (a, b)
    case (Str(x), Str(y)) => LexLess(x, y)
    case (Num(x), Num(y)) => x < y
    case (GradeKey(Some(x)), GradeKey(Some(y))) => x < y
    case _ => false
  }

  lemma LessTransitive(a: SortValue, b: SortValue, c: SortValue)
    requires Less(a, b) && Less(b, c)
    ensures Less(a, c)
  {
    if a.Str? {
      LexLessTransitive(a.s, b.s, c.s);
    }
  }

  /** Two keys that `<` can compare without raising. */
  predicate Comparable(a: SortValue, b: SortValue)
  {
    (a.Str? && b.Str?) || (a.Num? && b.Num?)
    || (a.GradeKey? && b.GradeKey? && a.value.Some? && b.value.Some?)
  }

  /** A key list `list.sort` orders without raising: a list of fewer than two
      elements is never compared; otherwise every element takes part in some
      comparison and the keys must be of one orderable kind. */
  predicate Orderable(keys: seq<SortValue>)
  {
    |keys| <= 1 || forall i, j :: 0 <= i < |keys| && 0 <= j < |keys| ==> Comparable(keys[i], keys[j])
  }

  // ---------------------------------------------------------------------------
  // The stable sort

  /** Whether `p` must come before `q` (`reverse=True` flips the comparison and
      keeps equal keys in their original order). */
  predicate Before<T>(p: (SortValue, T), q: (SortValue, T), descending: bool)
  {
    if descending then Less(q.0, p.0) else Less(p.0, q.0)
  }

  predicate Sorted<T>(s: seq<(SortValue, T)>, descending: bool)
  {
    forall i, j :: 0 <= i < j < |s| ==> !Before(s[j], s[i], descending)
  }

  /** Insert `x` before the first element it must precede. */
  function Insert<T>(x: (SortValue, T), s: seq<(SortValue, T)>, descending: bool): (r: seq<(SortValue, T)>)
    ensures |r| == |s| + 1
  {
    if s == [] then [x]
    else if Before(x, s[0], descending) then [x] + s
    else [s[0]] + Insert(x, s[1..], descending)
  }

  /** Stable insertion sort, taking the elements in their order. */
  function InsSort<T>(s: seq<(SortValue, T)>, descending: bool): (r: seq<(SortValue, T)>)
    ensures |r| == |s|
  {
    if s == [] then [] else Insert(s[|s| - 1], InsSort(s[..|s| - 1], descending), descending)
  }

  lemma {:induction false} InsertMultiset<T>(x: (SortValue, T), s: seq<(SortValue, T)>, descending: bool)
    ensures multiset(Insert(x, s, descending)) == multiset(s) + multiset{x}
  {
    if s != [] && !Before(x, s[0], descending) {
      InsertMultiset(x, s[1..], descending);
      assert s == [s[0]] + s[1..];
    }
  }

  /** Sorting permutes. */
  lemma {:induction false} InsSortMultiset<T>(s: seq<(SortValue, T)>, descending: bool)
    ensures multiset(InsSort(s, descending)) == multiset(s)
  {
    if s != [] {
      InsSortMultiset(s[..|s| - 1], descending);
      InsertMultiset(s[|s| - 1], InsSort(s[..|s| - 1], descending), descending);
      assert s == s[..|s| - 1] + [s[|s| - 1]];
    }
  }

  lemma BeforeTransitive<T>(p: (SortValue, T), q: (SortValue, T), r: (SortValue, T), descending: bool)
    requires Before(p, q, descending) && Before(q, r, descending)
    ensures Before(p, r, descending)
  {
    if descending { LessTransitive(r.0, q.0, p.0); } else { LessTransitive(p.0, q.0, r.0); }
  }

  lemma BeforeIrreflexive<T>(p: (SortValue, T), descending: bool)
    ensures !Before(p, p, descending)
  {
    if p.0.Str? { LexLessIrreflexive(p.0.s); }
  }

  lemma {:induction false} InsertSorted<T>(x: (SortValue, T), s: seq<(SortValue, T)>, descending: bool)
    requires Sorted(s, descending)
    ensures Sorted(Insert(x, s, descending), descending)
  {
    if s == [] {
    } else if Before(x, s[0], descending) {
      var r := [x] + s;
      forall i, j | 0 <= i < j < |r| ensures !Before(r[j], r[i], descending) {
        if i == 0 {
          assert r[j] == s[j - 1];
          if Before(r[j], x, descending) {
            BeforeTransitive(r[j], x, s[0], descending);
            if j == 1 {
              BeforeIrreflexive(s[0], descending);
            }
          }
        }
      }
    } else {
      var rest := Insert(x, s[1..], descending);
      InsertSorted(x, s[1..], descending);
      InsertMultiset(x, s[1..], descending);
      var r := [s[0]] + rest;
      forall i, j | 0 <= i < j < |r| ensures !Before(r[j], r[i], descending) {
        if i == 0 {
          assert r[j] in multiset(s[1..]) + multiset{x};
          if r[j] != x {
            var k :| 0 <= k < |s[1..]| && s[1..][k] == r[j];
            assert s[k + 1] == r[j];
          }
        }
      }
    }
  }

  /** Sorting sorts. */
  lemma {:induction false} InsSortSorted<T>(s: seq<(SortValue, T)>, descending: bool)
    ensures Sorted(InsSort(s, descending), descending)
  {
    if s != [] {
      InsSortSorted(s[..|s| - 1], descending);
      InsertSorted(s[|s| - 1], InsSort(s[..|s| - 1], descending), descending);
    }
  }

  lemma {:induction false} InsertAtEnd<T>(x: (SortValue, T), s: seq<(SortValue, T)>, descending: bool)
    requires forall k :: 0 <= k < |s| ==> !Before(x, s[k], descending)
    ensures Insert(x, s, descending) == s + [x]
  {
    if s != [] {
      InsertAtEnd(x, s[1..], descending);
    }
  }

  /** A sorted list is left as it is: sorting twice is sorting once. */
  lemma {:induction false} InsSortOfSorted<T>(s: seq<(SortValue, T)>, descending: bool)
    requires Sorted(s, descending)
    ensures InsSort(s, descending) == s
  {
    if s != [] {
      var init := s[..|s| - 1];
      assert Sorted(init, descending);
      InsSortOfSorted(init, descending);
      InsertAtEnd(s[|s| - 1], init, descending);
    }
  }

  lemma InsSortTwice<T>(s: seq<(SortValue, T)>, descending: bool)
    ensures InsSort(InsSort(s, descending), descending) == InsSort(s, descending)
  {
    InsSortSorted(s, descending);
    InsSortOfSorted(InsSort(s, descending), descending);
  }

  function Zip<T>(keys: seq<SortValue>, items: seq<T>): (r: seq<(SortValue, T)>)
    requires |keys| == |items|
    ensures |r| == |items| && forall i {:trigger r[i]} :: 0 <= i < |r| ==> r[i] == (keys[i], items[i])
  {
    if items == [] then [] else Zip(keys[..|keys| - 1], items[..|items| - 1]) + [(keys[|keys| - 1], items[|items| - 1])]
  }

  function Keys<T>(s: seq<(SortValue, T)>): (r: seq<SortValue>)
    ensures |r| == |s| && forall i {:trigger r[i]} :: 0 <= i < |s| ==> r[i] == s[i].0
  {
    if s == [] then [] else Keys(s[..|s| - 1]) + [s[|s| - 1].0]
  }

  function Items<T>(s: seq<(SortValue, T)>): (r: seq<T>)
    ensures |r| == |s| && forall i {:trigger r[i]} :: 0 <= i < |s| ==> r[i] == s[i].1
  {
    if s == [] then [] else Items(s[..|s| - 1]) + [s[|s| - 1].1]
  }

  /** `items.sort(key=..., reverse=descending)` for precomputed keys. */
  function SortBy<T>(items: seq<T>, keys: seq<SortValue>, descending: bool): (r: seq<T>)
    requires |keys| == |items|
    ensures |r| == |items|
  {
    Items(InsSort(Zip(keys, items), descending))
  }

  lemma {:induction false} InsertItems<T>(x: (SortValue, T), s: seq<(SortValue, T)>, descending: bool)
    ensures multiset(Items(Insert(x, s, descending))) == multiset(Items(s)) + multiset{x.1}
  {
    if s == [] {
      assert Items([x]) == [x.1];
    } else {
      ItemsConcat([s[0]], s[1..]);
      assert [s[0]] + s[1..] == s;
      assert Items([s[0]]) == [s[0].1];
      if Before(x, s[0], descending) {
        ItemsConcat([x], s);
        assert Items([x]) == [x.1];
      } else {
        InsertItems(x, s[1..], descending);
        ItemsConcat([s[0]], Insert(x, s[1..], descending));
      }
    }
  }

  lemma {:induction false} InsSortItems<T>(s: seq<(SortValue, T)>, descending: bool)
    ensures multiset(Items(InsSort(s, descending))) == multiset(Items(s))
  {
    if s != [] {
      var init := s[..|s| - 1];
      InsSortItems(init, descending);
      InsertItems(s[|s| - 1], InsSort(init, descending), descending);
    }
  }

  lemma ItemsConcat<T>(a: seq<(SortValue, T)>, b: seq<(SortValue, T)>)
    ensures Items(a + b) == Items(a) + Items(b)
  {
    var l, r := Items(a + b), Items(a) + Items(b);
    assert |l| == |r|;
    forall i | 0 <= i < |l| ensures l[i] == r[i] {
      if i < |a| { assert (a + b)[i] == a[i]; } else { assert (a + b)[i] == b[i - |a|]; }
    }
  }

  /** The sorted items are a permutation of the items. */
  lemma SortByPermutes<T>(items: seq<T>, keys: seq<SortValue>, descending: bool)
    requires |keys| == |items|
    ensures multiset(SortBy(items, keys, descending)) == multiset(items)
  {
    var z := Zip(keys, items);
    InsSortItems(z, descending);
    assert Items(z) == items;
  }

  /** The positions `0 .. n - 1`. */
  function Positions(n: nat): (r: seq<int>)
    ensures |r| == n && forall k {:trigger r[k]} :: 0 <= k < n ==> r[k] == k
  {
    if n == 0 then [] else Positions(n - 1) + [n - 1]
  }

  /** `z` follows `s` through `base`: the same keys in the same places, and
      each element of `s` is the element of `base` at the position `z` holds. */
  ghost predicate Tracks<T>(s: seq<(SortValue, T)>, z: seq<(SortValue, int)>, base: seq<(SortValue, T)>)
  {
    && |s| == |z|
    && forall k :: 0 <= k < |s| ==> z[k].0 == s[k].0 && 0 <= z[k].1 < |base| && base[z[k].1] == s[k]
  }

  lemma TracksCons<T>(a: (SortValue, T), b: (SortValue, int), s: seq<(SortValue, T)>,
                      z: seq<(SortValue, int)>, base: seq<(SortValue, T)>)
    requires Tracks([a], [b], base) && Tracks(s, z, base)
    ensures Tracks([a] + s, [b] + z, base)
  {
    forall k | 0 <= k < |s| + 1
      ensures ([b] + z)[k].0 == ([a] + s)[k].0 && 0 <= ([b] + z)[k].1 < |base|
      ensures base[([b] + z)[k].1] == ([a] + s)[k]
    {
      if k == 0 {
        assert [a][0] == a && [b][0] == b;
      } else {
        assert ([a] + s)[k] == s[k - 1] && ([b] + z)[k] == z[k - 1];
      }
    }
  }

  lemma {:induction false} InsertTracks<T>(x: (SortValue, T), y: (SortValue, int), s: seq<(SortValue, T)>,
                                            z: seq<(SortValue, int)>, base: seq<(SortValue, T)>, descending: bool)
    requires Tracks(s, z, base) && Tracks([x], [y], base)
    ensures Tracks(Insert(x, s, descending), Insert(y, z, descending), base)
  {
    assert [x][0] == x && [y][0] == y;
    if s != [] {
      assert z[0].0 == s[0].0;
      if Before(x, s[0], descending) {
        assert Before(y, z[0], descending);
        TracksCons(x, y, s, z, base);
      } else {
        assert !Before(y, z[0], descending);
        InsertTracks(x, y, s[1..], z[1..], base, descending);
        assert [s[0]][0] == s[0] && [z[0]][0] == z[0];
        TracksCons(s[0], z[0], Insert(x, s[1..], descending), Insert(y, z[1..], descending), base);
      }
    }
  }

  /** Sorting the positions along with the elements sorts them the same way:
      the comparisons see only the keys. */
  lemma {:induction false} InsSortTracks<T>(s: seq<(SortValue, T)>, z: seq<(SortValue, int)>,
                                             base: seq<(SortValue, T)>, descending: bool)
    requires Tracks(s, z, base)
    ensures Tracks(InsSort(s, descending), InsSort(z, descending), base)
    decreases |s|
  {
    if s != [] {
      var n := |s| - 1;
      InsSortTracks(s[..n], z[..n], base, descending);
      InsertTracks(s[n], z[n], InsSort(s[..n], descending), InsSort(z[..n], descending), base, descending);
    }
  }

  /** `p` lists each of the positions `0 .. n - 1` once. */
  predicate IsPermutation(p: seq<int>, n: nat)
  {
    && |p| == n
    && (forall k :: 0 <= k < n ==> 0 <= p[k] < n)
    && (forall a, b :: 0 <= a < b < n ==> p[a] != p[b])
  }

  lemma {:induction false} PositionsOnce(n: nat, v: int)
    ensures multiset(Positions(n))[v] == (if 0 <= v < n then 1 else 0)
  {
    if n > 0 {
      PositionsOnce(n - 1, v);
    }
  }

  /** The order a sort puts the positions in: a permutation of them. */
  function SortOrder(keys: seq<SortValue>, descending: bool): (p: seq<int>)
  {
    SortBy(Positions(|keys|), keys, descending)
  }

  lemma SortOrderPermutes(keys: seq<SortValue>, descending: bool)
    ensures IsPermutation(SortOrder(keys, descending), |keys|)
  {
    var n := |keys|;
    var p := SortOrder(keys, descending);
    SortByPermutes(Positions(n), keys, descending);
    forall k | 0 <= k < n ensures 0 <= p[k] < n {
      assert p[k] in multiset(Positions(n));
      PositionsOnce(n, p[k]);
    }
    forall a, b | 0 <= a < b < n ensures p[a] != p[b] {
      OnceDistinct(p, n, a, b);
    }
  }

  /** A sequence with the same elements as the positions holds no value twice. */
  lemma OnceDistinct(p: seq<int>, n: nat, a: nat, b: nat)
    requires a < b < |p| && multiset(p) == multiset(Positions(n))
    ensures p[a] != p[b]
  {
    var v := p[b];
    PositionsOnce(n, v);
    var pre := p[..b];
    assert p == pre + [v] + p[b + 1..];
    assert multiset(p)[v] == multiset(pre)[v] + 1 + multiset(p[b + 1..])[v];
    assert v !in multiset(pre);
    assert p[a] == pre[a] && pre[a] in multiset(pre);
  }

  /** A sort moves the item at position `SortOrder(keys)[k]` to position `k`,
      whatever the items are. */
  lemma SortByOrder<T>(items: seq<T>, keys: seq<SortValue>, descending: bool)
    requires |keys| == |items|
    ensures var p := SortOrder(keys, descending);
      |p| == |items| && forall k :: 0 <= k < |items| ==> 0 <= p[k] < |items| && SortBy(items, keys, descending)[k] == items[p[k]]
  {
    var s := Zip(keys, items);
    var z := Zip(keys, Positions(|items|));
    InsSortTracks(s, z, s, descending);
  }

  // ---------------------------------------------------------------------------
  // Sorting the tree

  /** The key of every node, or None when one of them lacks the attribute
      (the key function raises before any comparison). */
  function KeysOf(kids: seq<Tree>, key: string): (r: Option<seq<SortValue>>)
    ensures r.Some? ==> |r.value| == |kids|
  {
    if kids == [] then Some([])
    else
      match KeysOf(kids[..|kids| - 1], key)
      case None => None
      case Some(init) =>
        match Attr(kids[|kids| - 1], key)
        case None => None
        case Some(v) => Some(init + [v])
  }

  /** The keys are there exactly when every node has the attribute, and then
      they are the nodes' attributes in order. */
  lemma {:induction false} KeysOfMeaning(kids: seq<Tree>, key: string)
    ensures KeysOf(kids, key).Some? <==> forall i :: 0 <= i < |kids| ==> Attr(kids[i], key).Some?
    ensures KeysOf(kids, key).Some? ==>
      forall i :: 0 <= i < |kids| ==> Some(KeysOf(kids, key).value[i]) == Attr(kids[i], key)
    decreases |kids|
  {
    if kids != [] {
      var init := kids[..|kids| - 1];
      KeysOfMeaning(init, key);
      assert forall i :: 0 <= i < |init| ==> init[i] == kids[i];
    }
  }

  /** A node without the attribute makes the keys of any longer list missing. */
  lemma {:induction false} KeysOfMissing(kids: seq<Tree>, n: nat, key: string)
    requires 0 < n <= |kids| && Attr(kids[n - 1], key).None?
    ensures KeysOf(kids, key).None?
    decreases |kids|
  {
    if n < |kids| {
      KeysOfMissing(kids[..|kids| - 1], n, key);
    }
  }

  /** `children.sort(key=lambda node: getattr(node, key), reverse=descending)`. */
  function SortChildren(kids: seq<Tree>, key: string, descending: bool): Result<seq<Tree>, NodeError>
  {
    match KeysOf(kids, key)
    case None => Err(MissingAttribute)
    case Some(keys) =>
      if !Orderable(keys) then Err(NodeError.Incomparable) else Ok(SortBy(kids, keys, descending))
  }

  /** The value `_sort_leaf_nodes` probes for the direction. */
  function LeafProbe(t: Tree, key: string): Option<SortValue>
  {
    if Attr(t, key).Some? then Attr(t, key) else Bandaid(key)
  }

  /** `_sort_leaf_nodes`. */
  function SortLeafParent(t: Tree, leafKey: string): Result<Tree, NodeError>
  {
    var kids :- SortChildren(t.kids, leafKey, Reversed(LeafProbe(t, leafKey)));
    Ok(t.(kids := kids))
  }

  /** `_sort_internal_node`: the node's own attribute must exist. */
  function SortInternal(t: Tree, nodeKey: string): Result<Tree, NodeError>
  {
    match Attr(t, nodeKey)
    case None => Err(MissingAttribute)
    case Some(own) =>
      var kids :- SortChildren(t.kids, nodeKey, Reversed(Some(own)));
      Ok(t.(kids := kids))
  }

  /** The results of a run of calls that stops at the first exception: all
      the values when every call succeeds, else the first error. */
  function Collect<T, E>(rs: seq<Result<T, E>>): (r: Result<seq<T>, E>)
    ensures r.Ok? ==> |r.value| == |rs|
  {
    if rs == [] then Ok([])
    else
      var v :- rs[0];
      var rest :- Collect(rs[1..]);
      Ok([v] + rest)
  }

  lemma {:induction false} CollectOk<T, E>(rs: seq<Result<T, E>>)
    ensures Collect(rs).Ok? <==> forall i :: 0 <= i < |rs| ==> rs[i].Ok?
    ensures Collect(rs).Ok? ==> forall i :: 0 <= i < |rs| ==> Collect(rs).value[i] == rs[i].value
    decreases |rs|
  {
    if rs != [] {
      CollectOk(rs[1..]);
      assert forall i :: 1 <= i < |rs| ==> rs[1..][i - 1] == rs[i];
    }
  }

  lemma {:induction false} CollectFirstError<T, E>(rs: seq<Result<T, E>>, e: nat)
    requires e < |rs| && rs[e].Err? && forall i :: 0 <= i < e ==> rs[i].Ok?
    ensures Collect(rs) == Err(rs[e].error)
    decreases e
  {
    if e > 0 {
      CollectFirstError(rs[1..], e - 1);
    }
  }

  /** `sort`: a leaf parent sorts its leaves; any other node sorts each child
      in order, then its own children. The first exception ends the walk. */
  function SortTree(t: Tree, keys: SortKeys): Result<Tree, NodeError>
    decreases t
  {
    if t.isLeafParent then SortLeafParent(t, keys.leafKey)
    else
      var kids :- Collect(SortEach(t, keys));
      SortInternal(t.(kids := kids), keys.nodeKey)
  }

  /** `child.sort()` for each child, in order. */
  function SortEach(t: Tree, keys: SortKeys): (r: seq<Result<Tree, NodeError>>)
    decreases t, 0
  {
    seq(|t.kids|, j requires 0 <= j < |t.kids| => SortTree(t.kids[j], keys))
  }

  /** Every child sorts without error exactly when `child.sort()` for each
      child, in order, raises nothing; the results are then the sorted
      children. */
  lemma SortEachOk(t: Tree, keys: SortKeys, kids: seq<Tree>)
    requires |kids| == |t.kids|
    requires forall j :: 0 <= j < |kids| ==> SortTree(t.kids[j], keys) == Ok(kids[j])
    ensures Collect(SortEach(t, keys)) == Ok(kids)
  {
    var rs := SortEach(t, keys);
    CollectOk(rs);
    assert Collect(rs).value == kids;
  }

  /** The loop over the children after `i` passes: the first `i` children
      are sorted, the rest untouched. */
  ghost predicate SortDone(t0: Tree, kids: seq<Tree>, keys: SortKeys, i: nat)
  {
    && i <= |kids| == |t0.kids|
    && (forall j :: i <= j < |kids| ==> kids[j] == t0.kids[j])
    && (forall j :: 0 <= j < i ==> SortTree(t0.kids[j], keys) == Ok(kids[j]))
  }

  lemma SortDoneStep(t0: Tree, kids: seq<Tree>, keys: SortKeys, i: nat, r: Tree)
    requires SortDone(t0, kids, keys, i) && i < |kids| && SortTree(kids[i], keys) == Ok(r)
    ensures SortDone(t0, kids[i := r], keys, i + 1)
  {
  }

  /** The first child whose sort fails decides the error. */
  lemma SortEachErr(t: Tree, keys: SortKeys, i: nat, e: NodeError)
    requires i < |t.kids|
    requires forall j :: 0 <= j < i ==> SortTree(t.kids[j], keys).Ok?
    requires SortTree(t.kids[i], keys) == Err(e)
    ensures Collect(SortEach(t, keys)) == Err(e)
  {
    CollectFirstError(SortEach(t, keys), i);
  }

  /** Sorting changes nothing but the order of children, at every level. */
  lemma SortTreeKeepsNode(t: Tree, keys: SortKeys)
    requires SortTree(t, keys).Ok?
    ensures SortTree(t, keys).value == t.(kids := SortTree(t, keys).value.kids)
    ensures |SortTree(t, keys).value.kids| == |t.kids|
    ensures forall key :: Attr(SortTree(t, keys).value, key) == Attr(t, key)
  {
    var kids: seq<Tree>;
    if t.isLeafParent {
      kids := SortChildren(t.kids, keys.leafKey, Reversed(LeafProbe(t, keys.leafKey))).value;
    } else {
      var t1 := t.(kids := Collect(SortEach(t, keys)).value);
      assert Attr(t1, keys.nodeKey) == Attr(t, keys.nodeKey) by { AttrIgnoresKids(t, t1.kids); }
      kids := SortChildren(t1.kids, keys.nodeKey, Reversed(Attr(t1, keys.nodeKey))).value;
    }
    assert SortTree(t, keys).value == t.(kids := kids);
    AttrIgnoresKids(t, kids);
  }

  /** `getattr` never looks at the children. */
  lemma AttrIgnoresKids(t: Tree, kids: seq<Tree>)
    ensures forall key :: Attr(t.(kids := kids), key) == Attr(t, key)
  {
    forall key ensures Attr(t.(kids := kids), key) == Attr(t, key) {
      var u := t.(kids := kids);
      assert u.name == t.name && u.kind == t.kind && u.totalRoutes == t.totalRoutes;
      assert u.matchingRoutes == t.matchingRoutes && u.rawScore == t.rawScore;
    }
  }

  /** What a successful sort gives a leaf parent: a permutation of its
      children, in the order of their keys. */
  lemma SortLeafParentOrders(t: Tree, keys: SortKeys)
    requires t.isLeafParent && SortTree(t, keys).Ok?
    ensures multiset(SortTree(t, keys).value.kids) == multiset(t.kids)
    ensures var ks := KeysOf(t.kids, keys.leafKey).value;
      Sorted(InsSort(Zip(ks, t.kids), Reversed(LeafProbe(t, keys.leafKey))), Reversed(LeafProbe(t, keys.leafKey)))
  {
    var ks := KeysOf(t.kids, keys.leafKey).value;
    SortByPermutes(t.kids, ks, Reversed(LeafProbe(t, keys.leafKey)));
    InsSortSorted(Zip(ks, t.kids), Reversed(LeafProbe(t, keys.leafKey)));
  }

  /** Every pair a sort of `kids` produces pairs a node with its own key. */
  predicate KeyedBy(ps: seq<(SortValue, Tree)>, key: string)
  {
    forall p :: p in ps ==> Attr(p.1, key) == Some(p.0)
  }

  lemma SortedStaysKeyed(kids: seq<Tree>, keys: seq<SortValue>, key: string, descending: bool)
    requires |keys| == |kids| && forall i :: 0 <= i < |kids| ==> Some(keys[i]) == Attr(kids[i], key)
    ensures KeyedBy(InsSort(Zip(keys, kids), descending), key)
  {
    var z := Zip(keys, kids);
    InsSortMultiset(z, descending);
    forall p | p in InsSort(z, descending) ensures Attr(p.1, key) == Some(p.0) {
      assert p in multiset(z);
      var i :| 0 <= i < |z| && z[i] == p;
    }
  }

  lemma ZipOfKeyed(ps: seq<(SortValue, Tree)>, key: string)
    requires KeyedBy(ps, key)
    ensures KeysOf(Items(ps), key) == Some(Keys(ps))
    ensures Zip(Keys(ps), Items(ps)) == ps
  {
    var items := Items(ps);
    forall i | 0 <= i < |items| ensures Attr(items[i], key).Some? {
      assert ps[i] in ps;
    }
    KeysOfMeaning(items, key);
    var ks := KeysOf(items, key).value;
    forall i | 0 <= i < |ks| ensures ks[i] == Keys(ps)[i] {
      assert ps[i] in ps;
    }
  }

  /** Reordering keyed pairs keeps their keys orderable. */
  lemma OrderablePermutation<T>(a: seq<(SortValue, T)>, b: seq<(SortValue, T)>)
    requires multiset(a) == multiset(b) && Orderable(Keys(a))
    ensures Orderable(Keys(b))
  {
    var ka, kb := Keys(a), Keys(b);
    if |kb| > 1 {
      assert |a| == |b| by {
        assert |multiset(a)| == |multiset(b)|;
      }
      forall i, j | 0 <= i < |kb| && 0 <= j < |kb| ensures Comparable(kb[i], kb[j]) {
        assert b[i] in multiset(a) && b[j] in multiset(a);
        var i' :| 0 <= i' < |a| && a[i'] == b[i];
        var j' :| 0 <= j' < |a| && a[j'] == b[j];
        assert ka[i'] == kb[i] && ka[j'] == kb[j];
      }
    }
  }

  lemma KeysOfZip<T>(keys: seq<SortValue>, items: seq<T>)
    requires |keys| == |items|
    ensures Keys(Zip(keys, items)) == keys
  {
  }

  /** Sorting a list of children a second time leaves it as it is. */
  lemma SortChildrenTwice(kids: seq<Tree>, key: string, descending: bool)
    requires SortChildren(kids, key, descending).Ok?
    ensures SortChildren(SortChildren(kids, key, descending).value, key, descending)
         == SortChildren(kids, key, descending)
  {
    var keys := KeysOf(kids, key).value;
    KeysOfMeaning(kids, key);
    var z := Zip(keys, kids);
    var sorted := InsSort(z, descending);
    var once := Items(sorted);
    assert SortChildren(kids, key, descending) == Ok(once);
    SortedStaysKeyed(kids, keys, key, descending);
    ZipOfKeyed(sorted, key);
    InsSortMultiset(z, descending);
    KeysOfZip(keys, kids);
    OrderablePermutation(z, sorted);
    InsSortSorted(z, descending);
    InsSortOfSorted(sorted, descending);
    assert SortBy(once, Keys(sorted), descending) == once;
  }

  /** Every child of a sorted internal node is itself sorted: sorting it
      again gives it back. */
  lemma {:induction false} SortedKidsFixed(t: Tree, keys: SortKeys)
    requires !t.isLeafParent && SortTree(t, keys).Ok?
    ensures AllSorted(SortTree(t, keys).value.kids, keys)
    decreases t, 0
  {
    var kids1 := Collect(SortEach(t, keys)).value;
    InternalSortParts(t, keys);
    CollectOk(SortEach(t, keys));
    forall k | k in kids1 ensures SortTree(k, keys) == Ok(k) {
      var j :| 0 <= j < |kids1| && kids1[j] == k;
      SortTreeTwice(t.kids[j], keys);
    }
    InternalSortPermutes(t, keys);
    AllSortedPermuted(kids1, SortTree(t, keys).value.kids, keys);
  }

  /** A sort of an internal node reorders the sorted children. */
  lemma InternalSortPermutes(t: Tree, keys: SortKeys)
    requires !t.isLeafParent && SortTree(t, keys).Ok?
    ensures Collect(SortEach(t, keys)).Ok?
    ensures multiset(SortTree(t, keys).value.kids) == multiset(Collect(SortEach(t, keys)).value)
  {
    InternalSortParts(t, keys);
    var kids1 := Collect(SortEach(t, keys)).value;
    var dir := Reversed(Attr(t, keys.nodeKey));
    var keys1 := KeysOf(kids1, keys.nodeKey).value;
    assert SortTree(t, keys).value.kids == SortBy(kids1, keys1, dir);
    SortByPermutes(kids1, keys1, dir);
  }

  lemma AllSortedPermuted(a: seq<Tree>, b: seq<Tree>, keys: SortKeys)
    requires multiset(a) == multiset(b) && AllSorted(a, keys)
    ensures AllSorted(b, keys)
  {
    forall k | k in b ensures SortTree(k, keys) == Ok(k) {
      assert k in multiset(a);
    }
  }

  /** Sorting is idempotent: `sort(); sort()` leaves the tree as one `sort()`
      does. */
  lemma {:induction false} SortTreeTwice(t: Tree, keys: SortKeys)
    requires SortTree(t, keys).Ok?
    ensures SortTree(SortTree(t, keys).value, keys) == SortTree(t, keys)
    decreases t, 1
  {
    if t.isLeafParent {
      LeafSortedTwice(t, keys);
    } else {
      SortedKidsFixed(t, keys);
      InternalSortedTwice(t, keys);
    }
  }

  lemma LeafSortedTwice(t: Tree, keys: SortKeys)
    requires t.isLeafParent && SortTree(t, keys).Ok?
    ensures SortTree(SortTree(t, keys).value, keys) == SortTree(t, keys)
  {
    SortTreeKeepsNode(t, keys);
    var r := SortTree(t, keys).value;
    assert LeafProbe(r, keys.leafKey) == LeafProbe(t, keys.leafKey);
    SortChildrenTwice(t.kids, keys.leafKey, Reversed(LeafProbe(t, keys.leafKey)));
  }

  /** Each of `kids` is already sorted: sorting it again gives it back. */
  predicate AllSorted(kids: seq<Tree>, keys: SortKeys)
  {
    forall k :: k in kids ==> SortTree(k, keys) == Ok(k)
  }

  /** An internal node whose sorted children are each already sorted. */
  lemma InternalSortedTwice(t: Tree, keys: SortKeys)
    requires !t.isLeafParent && SortTree(t, keys).Ok?
    requires AllSorted(SortTree(t, keys).value.kids, keys)
    ensures SortTree(SortTree(t, keys).value, keys) == SortTree(t, keys)
  {
    var r := SortTree(t, keys).value;
    SortTreeKeepsNode(t, keys);
    InternalSortParts(t, keys);
    var kids1 := Collect(SortEach(t, keys)).value;
    var dir := Reversed(Attr(t, keys.nodeKey));
    assert SortChildren(r.kids, keys.nodeKey, dir) == Ok(r.kids) by {
      SortChildrenTwice(kids1, keys.nodeKey, dir);
    }
    SortedNodeFixed(r, keys);
  }

  /** A successful sort of an internal node: its children sort, it has its
      own key, and its new children are the sorted ones in key order. */
  lemma InternalSortParts(t: Tree, keys: SortKeys)
    requires !t.isLeafParent && SortTree(t, keys).Ok?
    ensures Collect(SortEach(t, keys)).Ok? && Attr(t, keys.nodeKey).Some?
    ensures SortChildren(Collect(SortEach(t, keys)).value, keys.nodeKey, Reversed(Attr(t, keys.nodeKey)))
         == Ok(SortTree(t, keys).value.kids)
  {
    var rs := Collect(SortEach(t, keys));
    assert rs.Ok?;
    var t1 := t.(kids := rs.value);
    AttrIgnoresKids(t, rs.value);
    assert SortTree(t, keys) == SortInternal(t1, keys.nodeKey);
  }

  /** A node whose children are sorted and in the order of their keys sorts
      to itself. */
  lemma SortedNodeFixed(r: Tree, keys: SortKeys)
    requires !r.isLeafParent && AllSorted(r.kids, keys) && Attr(r, keys.nodeKey).Some?
    requires SortChildren(r.kids, keys.nodeKey, Reversed(Attr(r, keys.nodeKey))) == Ok(r.kids)
    ensures SortTree(r, keys) == Ok(r)
  {
    forall j | 0 <= j < |r.kids| ensures SortTree(r.kids[j], keys) == Ok(r.kids[j]) {
      assert r.kids[j] in r.kids;
    }
    SortEachOk(r, keys, r.kids);
    assert r.(kids := r.kids) == r;
  }
}
