/** The statistics of crag.py as values: the route filter, a Route's stats,
    and the two bottom-up reductions an Area runs over its subtree
    (`calculate_total_num_routes` and `calculate_stats`), with the counts
    they are meant to equal. */
module CragStats {
  import opened Wrappers
  import opened Grades
  import opened Trees
  import opened Text

  /** The grade bounds a RouteFilter holds. */
  datatype Filter = Filter(lower: Grade, upper: Grade)

  /** `RouteFilter.is_match`: the grade range test and nothing else. */
  function IsMatch(f: Filter, info: RouteInfo): Result<bool, GradeError>
  {
    InRange(info.grade, f.lower, f.upper)
  }

  /** The dictionary `Route.calculate_stats` stores: one matching route and
      its raw score on a match, no keys otherwise. */
  function RouteStats(f: Filter, info: RouteInfo): (r: Result<Stats, NodeError>)
    ensures r.Ok? <==> IsMatch(f, info).Ok?
    ensures r.Ok? ==> r.value.Stats? && (r.value.matching == Some(1) <==> IsMatch(f, info) == Ok(true))
    ensures r.Ok? && IsMatch(f, info) == Ok(true) ==> r.value.rawScore == Some(info.rating * info.popularity as real)
    ensures r.Ok? && IsMatch(f, info) == Ok(false) ==> r.value == Stats(None, None)
  {
    match IsMatch(f, info)
    case Err(_) => Err(BadGrade)
    case Ok(true) => Ok(Stats(Some(1), Some(info.rating * info.popularity as real)))
    case Ok(false) => Ok(Stats(None, None))
  }

  /** What `get_stats()` contributes to a parent's sums: a missing key counts 0. */
  function MatchingOf(t: Tree): int
  {
    if t.IsLeaf() then (if t.stats.Stats? then t.stats.matching.GetOr(0) else 0) else t.matchingRoutes
  }

  function ScoreOf(t: Tree): real
  {
    if t.IsLeaf() then (if t.stats.Stats? then t.stats.rawScore.GetOr(0.0) else 0.0) else t.rawScore
  }

  /** `get_stats()`: an Area reports both sums; a Route reports the
      dictionary `calculate_stats` stored, and has none before that. */
  function StatsOf(t: Tree): (r: Result<Stats, NodeError>)
    ensures r.Err? <==> t.IsLeaf() && t.stats.Unset?
    ensures r.Ok? ==> r.value.Stats? && r.value.matching.GetOr(0) == MatchingOf(t) && r.value.rawScore.GetOr(0.0) == ScoreOf(t)
  {
    if !t.IsLeaf() then Ok(Stats(Some(t.matchingRoutes), Some(t.rawScore)))
    else if t.stats.Unset? then Err(MissingAttribute)
    else Ok(t.stats)
  }

  function SumMatching(kids: seq<Tree>): int
  {
    if kids == [] then 0 else SumMatching(kids[..|kids| - 1]) + MatchingOf(kids[|kids| - 1])
  }

  function SumScore(kids: seq<Tree>): real
  {
    if kids == [] then 0.0 else SumScore(kids[..|kids| - 1]) + ScoreOf(kids[|kids| - 1])
  }

  function SumTotals(kids: seq<Tree>): int
  {
    if kids == [] then 0 else SumTotals(kids[..|kids| - 1]) + kids[|kids| - 1].totalRoutes
  }

  /** One more child adds what it reports to each running sum. */
  lemma SumsStep(kids: seq<Tree>, i: nat)
    requires i < |kids|
    ensures SumMatching(kids[..i + 1]) == SumMatching(kids[..i]) + MatchingOf(kids[i])
    ensures SumScore(kids[..i + 1]) == SumScore(kids[..i]) + ScoreOf(kids[i])
    ensures SumTotals(kids[..i + 1]) == SumTotals(kids[..i]) + kids[i].totalRoutes
  {
    assert kids[..i + 1][..i] == kids[..i];
  }

  // ---------------------------------------------------------------------------
  // calculate_total_num_routes

  /** `calculate_total_num_routes`: a leaf parent counts its children; any
      other Area recomputes each child and sums their totals. A Route has no
      such method. */
  function CountTotal(t: Tree): Result<Tree, NodeError>
    decreases t, 2
  {
    if t.IsLeaf() then Err(NotAnArea)
    else if t.isLeafParent then Ok(t.(totalRoutes := |t.kids|))
    else
      var kids :- Collect(CountEach(t));
      Ok(t.(kids := kids, totalRoutes := SumTotals(kids)))
  }

  /** `calculate_total_num_routes()` on each child, in order. */
  function CountEach(t: Tree): seq<Result<Tree, NodeError>>
    decreases t, 1
  {
    seq(|t.kids|, i requires 0 <= i < |t.kids| => CountTotal(t.kids[i]))
  }

  /** An Area that is not a leaf parent, all of whose children recount
      without error, holds the recounted children and the sum of their
      totals. */
  lemma CountInternalOk(t: Tree, kids: seq<Tree>)
    requires !t.IsLeaf() && !t.isLeafParent && |kids| == |t.kids|
    requires forall j :: 0 <= j < |kids| ==> CountTotal(t.kids[j]) == Ok(kids[j])
    ensures CountTotal(t) == Ok(t.(kids := kids, totalRoutes := SumTotals(kids)))
  {
    var rs := CountEach(t);
    CollectOk(rs);
    assert Collect(rs).value == kids;
  }

  /** The first child whose recount fails decides the error of its parent. */
  lemma CountInternalErr(t: Tree, i: nat, e: NodeError)
    requires !t.IsLeaf() && !t.isLeafParent && i < |t.kids|
    requires forall j :: 0 <= j < i ==> CountTotal(t.kids[j]).Ok?
    requires CountTotal(t.kids[i]) == Err(e)
    ensures CountTotal(t) == Err(e)
  {
    CollectFirstError(CountEach(t), i);
  }

  // ---------------------------------------------------------------------------
  // calculate_stats

  /** `calculate_stats`: a Route stores its stats; an Area resets its sums,
      then recomputes each child in order and adds what the child reports. A
      leaf parent passes the filter, which an Area child cannot take; any
      other Area passes nothing, which a Route child cannot take. */
  function CalcStats(t: Tree, f: Filter): Result<Tree, NodeError>
    decreases t, 2
  {
    if t.IsLeaf() then
      var s :- RouteStats(f, t.kind.info);
      Ok(t.(stats := s))
    else
      var kids :- Collect(CalcEach(t, f));
      Ok(t.(kids := kids, matchingRoutes := SumMatching(kids), rawScore := SumScore(kids)))
  }

  function CalcEach(t: Tree, f: Filter): seq<Result<Tree, NodeError>>
    decreases t, 1
  {
    seq(|t.kids|, i requires 0 <= i < |t.kids| => CalcChild(t, i, f))
  }

  function CalcChild(t: Tree, i: nat, f: Filter): Result<Tree, NodeError>
    requires i < |t.kids|
    decreases t, 0
  {
    if t.isLeafParent && !t.kids[i].IsLeaf() then Err(NotARoute)
    else if !t.isLeafParent && t.kids[i].IsLeaf() then Err(NotAnArea)
    else CalcStats(t.kids[i], f)
  }

  /** An Area all of whose children compute their stats without error holds
      the new children and the sums of what they report. */
  lemma CalcInternalOk(t: Tree, f: Filter, kids: seq<Tree>)
    requires !t.IsLeaf() && |kids| == |t.kids|
    requires forall j :: 0 <= j < |kids| ==> CalcChild(t, j, f) == Ok(kids[j])
    ensures CalcStats(t, f) == Ok(t.(kids := kids, matchingRoutes := SumMatching(kids), rawScore := SumScore(kids)))
  {
    var rs := CalcEach(t, f);
    forall j | 0 <= j < |rs| ensures rs[j] == Ok(kids[j]) {
      assert rs[j] == CalcChild(t, j, f);
    }
    CollectOk(rs);
    assert Collect(rs).value == kids;
  }

  /** The first child that fails decides the error of its parent. */
  lemma CalcInternalErr(t: Tree, f: Filter, i: nat, e: NodeError)
    requires !t.IsLeaf() && i < |t.kids|
    requires forall j :: 0 <= j < i ==> CalcChild(t, j, f).Ok?
    requires CalcChild(t, i, f) == Err(e)
    ensures CalcStats(t, f) == Err(e)
  {
    var rs := CalcEach(t, f);
    forall j | 0 <= j <= i ensures rs[j] == CalcChild(t, j, f) {
    }
    CollectFirstError(rs, i);
  }

  /** The loop of `calculate_stats` over `t0`'s children after `i` of them:
      they hold their new values, the later ones are untouched, and `m` and
      `s` are the sums so far. */
  ghost predicate CalcDone(t0: Tree, f: Filter, kids: seq<Tree>, m: int, s: real, i: nat)
  {
    && i <= |kids| == |t0.kids|
    && m == SumMatching(kids[..i]) && s == SumScore(kids[..i])
    && (forall j :: i <= j < |kids| ==> kids[j] == t0.kids[j])
    && (forall j :: 0 <= j < i ==> CalcChild(t0, j, f) == Ok(kids[j]))
  }

  lemma CalcDoneStep(t0: Tree, f: Filter, cur: Tree, kids: seq<Tree>, m: int, s: real, i: nat)
    requires CalcDone(t0, f, cur.kids, cur.matchingRoutes, cur.rawScore, i) && i < |cur.kids|
    requires cur == t0.(kids := cur.kids, matchingRoutes := cur.matchingRoutes, rawScore := cur.rawScore)
    requires |kids| == |cur.kids| && forall j :: 0 <= j < |kids| && j != i ==> kids[j] == cur.kids[j]
    requires CalcChild(cur, i, f) == Ok(kids[i])
    requires m == cur.matchingRoutes + MatchingOf(kids[i]) && s == cur.rawScore + ScoreOf(kids[i])
    ensures CalcDone(t0, f, kids, m, s, i + 1)
  {
    assert kids[..i] == cur.kids[..i];
    SumsStep(kids, i);
  }

  lemma CalcDoneErr(t0: Tree, f: Filter, cur: Tree, i: nat, e: NodeError)
    requires !t0.IsLeaf() && CalcDone(t0, f, cur.kids, cur.matchingRoutes, cur.rawScore, i) && i < |cur.kids|
    requires cur == t0.(kids := cur.kids, matchingRoutes := cur.matchingRoutes, rawScore := cur.rawScore)
    requires CalcChild(cur, i, f) == Err(e)
    ensures CalcStats(t0, f) == Err(e)
  {
    assert CalcChild(t0, i, f) == Err(e);
    CalcInternalErr(t0, f, i, e);
  }

  lemma CalcDoneAll(t0: Tree, f: Filter, kids: seq<Tree>, m: int, s: real)
    requires !t0.IsLeaf() && CalcDone(t0, f, kids, m, s, |kids|)
    ensures CalcStats(t0, f) == Ok(t0.(kids := kids, matchingRoutes := m, rawScore := s))
  {
    assert kids[..|kids|] == kids;
    CalcInternalOk(t0, f, kids);
  }

  /** The same for the loop of `calculate_total_num_routes`, `total` being
      the sum so far. */
  ghost predicate CountDone(t0: Tree, kids: seq<Tree>, total: int, i: nat)
  {
    && i <= |kids| == |t0.kids|
    && total == SumTotals(kids[..i])
    && (forall j :: i <= j < |kids| ==> kids[j] == t0.kids[j])
    && (forall j :: 0 <= j < i ==> CountTotal(t0.kids[j]) == Ok(kids[j]))
  }

  lemma CountDoneStep(t0: Tree, kids: seq<Tree>, total: int, i: nat, kids2: seq<Tree>, total2: int)
    requires CountDone(t0, kids, total, i) && i < |kids|
    requires |kids2| == |kids| && forall j :: 0 <= j < |kids| && j != i ==> kids2[j] == kids[j]
    requires CountTotal(kids[i]) == Ok(kids2[i]) && total2 == total + kids2[i].totalRoutes
    ensures CountDone(t0, kids2, total2, i + 1)
  {
    assert kids2[..i] == kids[..i];
    SumsStep(kids2, i);
  }

  lemma CountDoneErr(t0: Tree, kids: seq<Tree>, total: int, i: nat, e: NodeError)
    requires !t0.IsLeaf() && !t0.isLeafParent
    requires CountDone(t0, kids, total, i) && i < |kids| && CountTotal(kids[i]) == Err(e)
    ensures CountTotal(t0) == Err(e)
  {
    CountInternalErr(t0, i, e);
  }

  lemma CountDoneAll(t0: Tree, kids: seq<Tree>, total: int)
    requires !t0.IsLeaf() && !t0.isLeafParent && CountDone(t0, kids, total, |kids|)
    ensures CountTotal(t0) == Ok(t0.(kids := kids, totalRoutes := total))
  {
    assert kids[..|kids|] == kids;
    CountInternalOk(t0, kids);
  }

  // ---------------------------------------------------------------------------
  // Reference counts

  /** The trees `build_subtree` produces: leaves have no children, a leaf
      parent holds only Routes and any other node only Areas. */
  predicate Tidy(t: Tree)
  {
    (t.IsLeaf() ==> t.kids == [] && !t.isLeafParent)
    && (forall k :: k in t.kids ==> (k.IsLeaf() <==> t.isLeafParent) && Tidy(k))
  }

  /** Every Route in the subtree has a grade the filter can compare. */
  predicate GradesOk(t: Tree, f: Filter)
  {
    if t.IsLeaf() then IsMatch(f, t.kind.info).Ok? else forall k :: k in t.kids ==> GradesOk(k, f)
  }

  /** The number of Routes in the subtree. */
  function LeafCount(t: Tree): nat
    decreases t, 1
  {
    if t.IsLeaf() then 1 else LeafSum(t, |t.kids|)
  }

  function LeafSum(t: Tree, n: nat): nat
    requires n <= |t.kids|
    decreases t, 0, n
  {
    if n == 0 then 0 else LeafSum(t, n - 1) + LeafCount(t.kids[n - 1])
  }

  /** The number of Routes in the subtree that the filter matches. */
  function MatchCount(t: Tree, f: Filter): nat
    decreases t, 1
  {
    if t.IsLeaf() then (if IsMatch(f, t.kind.info) == Ok(true) then 1 else 0)
    else MatchSum(t, |t.kids|, f)
  }

  function MatchSum(t: Tree, n: nat, f: Filter): nat
    requires n <= |t.kids|
    decreases t, 0, n
  {
    if n == 0 then 0 else MatchSum(t, n - 1, f) + MatchCount(t.kids[n - 1], f)
  }

  /** The raw score of the subtree: rating times popularity, summed over
      the Routes the filter matches. */
  function MatchScore(t: Tree, f: Filter): real
    decreases t, 1
  {
    if t.IsLeaf() then
      (if IsMatch(f, t.kind.info) == Ok(true) then t.kind.info.rating * t.kind.info.popularity as real else 0.0)
    else ScoreSum(t, |t.kids|, f)
  }

  function ScoreSum(t: Tree, n: nat, f: Filter): real
    requires n <= |t.kids|
    decreases t, 0, n
  {
    if n == 0 then 0.0 else ScoreSum(t, n - 1, f) + MatchScore(t.kids[n - 1], f)
  }

  // ---------------------------------------------------------------------------
  // What the reductions compute

  lemma {:induction false} LeafSumOfLeaves(t: Tree, n: nat)
    requires n <= |t.kids| && forall k :: k in t.kids ==> k.IsLeaf()
    ensures LeafSum(t, n) == n
  {
    if n > 0 {
      LeafSumOfLeaves(t, n - 1);
      assert t.kids[n - 1] in t.kids;
    }
  }

  lemma {:induction false} SumTotalsCounts(t: Tree, kids: seq<Tree>, n: nat)
    requires n <= |t.kids| == |kids|
    requires forall i :: 0 <= i < |kids| ==> kids[i].totalRoutes == LeafCount(t.kids[i])
    ensures SumTotals(kids[..n]) == LeafSum(t, n)
  {
    if n > 0 {
      SumTotalsCounts(t, kids, n - 1);
      assert kids[..n][..n - 1] == kids[..n - 1];
    }
  }

  /** `calculate_total_num_routes` succeeds on every tidy Area and leaves it
      holding the number of Routes below it, which no filter affects. */
  lemma {:induction false} CountTotalCounts(t: Tree)
    requires Tidy(t) && !t.IsLeaf()
    ensures CountTotal(t).Ok?
    ensures CountTotal(t).value.totalRoutes == LeafCount(t)
    ensures CountTotal(t).value.kids == t.kids || !t.isLeafParent
    decreases t
  {
    if t.isLeafParent {
      LeafSumOfLeaves(t, |t.kids|);
    } else {
      var rs := CountEach(t);
      forall i | 0 <= i < |rs| ensures rs[i].Ok? && rs[i].value.totalRoutes == LeafCount(t.kids[i]) {
        assert t.kids[i] in t.kids;
        CountTotalCounts(t.kids[i]);
      }
      CollectOk(rs);
      var kids := Collect(rs).value;
      SumTotalsCounts(t, kids, |kids|);
      assert kids[..|kids|] == kids;
    }
  }

  lemma {:induction false} SumMatchingCounts(t: Tree, kids: seq<Tree>, n: nat, f: Filter)
    requires n <= |t.kids| == |kids|
    requires forall i :: 0 <= i < |kids| ==> MatchingOf(kids[i]) == MatchCount(t.kids[i], f)
    ensures SumMatching(kids[..n]) == MatchSum(t, n, f)
  {
    if n > 0 {
      SumMatchingCounts(t, kids, n - 1, f);
      assert kids[..n][..n - 1] == kids[..n - 1];
    }
  }

  lemma {:induction false} SumScoreCounts(t: Tree, kids: seq<Tree>, n: nat, f: Filter)
    requires n <= |t.kids| == |kids|
    requires forall i :: 0 <= i < |kids| ==> ScoreOf(kids[i]) == MatchScore(t.kids[i], f)
    ensures SumScore(kids[..n]) == ScoreSum(t, n, f)
  {
    if n > 0 {
      SumScoreCounts(t, kids, n - 1, f);
      assert kids[..n][..n - 1] == kids[..n - 1];
    }
  }

  /** `calculate_stats` on a tidy tree fails exactly when some Route's grade
      cannot be compared with the bounds; when it succeeds the node reports
      the number of matching Routes below it and, as its raw score, the sum
      of rating times popularity over them. */
  lemma {:induction false} CalcStatsCounts(t: Tree, f: Filter)
    requires Tidy(t)
    ensures CalcStats(t, f).Ok? <==> GradesOk(t, f)
    ensures CalcStats(t, f).Ok? ==> MatchingOf(CalcStats(t, f).value) == MatchCount(t, f)
    ensures CalcStats(t, f).Ok? ==> ScoreOf(CalcStats(t, f).value) == MatchScore(t, f)
    decreases t
  {
    if !t.IsLeaf() {
      var rs := CalcEach(t, f);
      forall i | 0 <= i < |rs|
        ensures rs[i] == CalcStats(t.kids[i], f)
        ensures rs[i].Ok? <==> GradesOk(t.kids[i], f)
        ensures rs[i].Ok? ==> MatchingOf(rs[i].value) == MatchCount(t.kids[i], f)
        ensures rs[i].Ok? ==> ScoreOf(rs[i].value) == MatchScore(t.kids[i], f)
      {
        assert t.kids[i] in t.kids;
        assert rs[i] == CalcChild(t, i, f);
        CalcStatsCounts(t.kids[i], f);
      }
      CollectOk(rs);
      if Collect(rs).Ok? {
        var kids := Collect(rs).value;
        SumMatchingCounts(t, kids, |kids|, f);
        SumScoreCounts(t, kids, |kids|, f);
        assert kids[..|kids|] == kids;
      } else {
        var i :| 0 <= i < |rs| && rs[i].Err?;
        assert t.kids[i] in t.kids;
      }
    }
  }

  lemma {:induction false} MatchSumBounded(t: Tree, n: nat, f: Filter)
    requires n <= |t.kids|
    requires forall i :: 0 <= i < |t.kids| ==> MatchCount(t.kids[i], f) <= LeafCount(t.kids[i])
    ensures MatchSum(t, n, f) <= LeafSum(t, n)
  {
    if n > 0 {
      MatchSumBounded(t, n - 1, f);
    }
  }

  /** No more Routes match than there are Routes: after both reductions an
      Area's matching count is at most its total. */
  lemma {:induction false} MatchAtMostTotal(t: Tree, f: Filter)
    ensures MatchCount(t, f) <= LeafCount(t)
    decreases t
  {
    if !t.IsLeaf() {
      forall i | 0 <= i < |t.kids| ensures MatchCount(t.kids[i], f) <= LeafCount(t.kids[i]) {
        MatchAtMostTotal(t.kids[i], f);
      }
      MatchSumBounded(t, |t.kids|, f);
    }
  }

  /** `calculate_stats` changes only the statistics: names, kinds, flags and
      the number of children stay. */
  lemma CalcStatsKeepsNode(t: Tree, f: Filter)
    requires CalcStats(t, f).Ok?
    ensures var r := CalcStats(t, f).value;
      r.name == t.name && r.kind == t.kind && r.isLeafParent == t.isLeafParent
      && |r.kids| == |t.kids| && r.totalRoutes == t.totalRoutes && r.coordinates == t.coordinates
      && StatsOf(r).Ok?
  {
  }

  /** `calculate_stats` resets before it sums, so running it twice with the
      same filter gives what running it once does. */
  lemma {:induction false} CalcStatsTwice(t: Tree, f: Filter)
    requires CalcStats(t, f).Ok?
    ensures CalcStats(CalcStats(t, f).value, f) == CalcStats(t, f)
    decreases t
  {
    var r := CalcStats(t, f).value;
    if !t.IsLeaf() {
      var rs := CalcEach(t, f);
      CollectOk(rs);
      var kids := Collect(rs).value;
      assert r.kids == kids;
      var again := CalcEach(r, f);
      forall i | 0 <= i < |kids| ensures again[i] == Ok(kids[i]) {
        assert rs[i] == CalcChild(t, i, f) && rs[i].Ok?;
        assert kids[i] == rs[i].value;
        CalcStatsKeepsNode(t.kids[i], f);
        CalcStatsTwice(t.kids[i], f);
        assert again[i] == CalcChild(r, i, f);
      }
      CollectOk(again);
      assert Collect(again).value == kids;
    }
  }

  /** The filter a new RouteFilter holds: 5.0 to 5.15. */
  function DefaultFilter(): Result<Filter, GradeError>
  {
    var lower :- Parse("5.0");
    var upper :- Parse("5.15");
    Ok(Filter(lower, upper))
  }

  lemma DefaultFilterBounds()
    ensures DefaultFilter() == Ok(Filter(Five(0, ""), Five(15, "")))
  {
    ParseFive(0, "");
    ParseFive(15, "");
    assert Numeral(0) == "0";
    assert Numeral(15) == "15";
    assert "5." + "0" + "" == "5.0";
    assert "5." + "15" + "" == "5.15";
  }
  // ---------------------------------------------------------------------------
  // init_stats

  /** `init_stats` on values: recount the routes, then the statistics. */
  function InitStatsTree(t: Tree, f: Filter): Result<Tree, NodeError>
  {
    var u :- CountTotal(t);
    CalcStats(u, f)
  }

  /** `u` differs from `t` at most in its counters: the same kinds, flags
      and shape at every node. */
  predicate SameRoutes(t: Tree, u: Tree)
    decreases t
  {
    && u.kind == t.kind && u.isLeafParent == t.isLeafParent && |u.kids| == |t.kids|
    && forall i :: 0 <= i < |t.kids| ==> SameRoutes(t.kids[i], u.kids[i])
  }

  lemma {:induction false} SameRoutesRefl(t: Tree)
    ensures SameRoutes(t, t)
    decreases t
  {
    forall i | 0 <= i < |t.kids| ensures SameRoutes(t.kids[i], t.kids[i]) {
      SameRoutesRefl(t.kids[i]);
    }
  }

  lemma {:induction false} SameRoutesSym(t: Tree, u: Tree)
    requires SameRoutes(t, u)
    ensures SameRoutes(u, t)
    decreases t
  {
    forall i | 0 <= i < |u.kids| ensures SameRoutes(u.kids[i], t.kids[i]) {
      SameRoutesSym(t.kids[i], u.kids[i]);
    }
  }

  /** Recounting the routes changes only the counters. */
  lemma {:induction false} CountTotalSameRoutes(t: Tree)
    requires CountTotal(t).Ok?
    ensures SameRoutes(t, CountTotal(t).value)
    decreases t
  {
    var u := CountTotal(t).value;
    if t.isLeafParent {
      SameRoutesRefl(t);
    } else {
      var rs := CountEach(t);
      CollectOk(rs);
      forall i | 0 <= i < |t.kids| ensures SameRoutes(t.kids[i], u.kids[i]) {
        assert rs[i] == CountTotal(t.kids[i]);
        CountTotalSameRoutes(t.kids[i]);
      }
    }
  }

  lemma {:induction false} SameSums(t: Tree, u: Tree, n: nat, f: Filter)
    requires n <= |t.kids| == |u.kids|
    requires forall i :: 0 <= i < |t.kids| ==>
      LeafCount(u.kids[i]) == LeafCount(t.kids[i]) && MatchCount(u.kids[i], f) == MatchCount(t.kids[i], f)
      && MatchScore(u.kids[i], f) == MatchScore(t.kids[i], f)
    ensures LeafSum(u, n) == LeafSum(t, n) && MatchSum(u, n, f) == MatchSum(t, n, f)
    ensures ScoreSum(u, n, f) == ScoreSum(t, n, f)
  {
    if n > 0 {
      SameSums(t, u, n - 1, f);
    }
  }

  /** The reference counts and the shape conditions do not look at the
      counters. */
  lemma {:induction false} SameRoutesCounts(t: Tree, u: Tree, f: Filter)
    requires SameRoutes(t, u)
    ensures LeafCount(u) == LeafCount(t) && MatchCount(u, f) == MatchCount(t, f)
    ensures MatchScore(u, f) == MatchScore(t, f)
    ensures Tidy(t) ==> Tidy(u)
    ensures GradesOk(t, f) ==> GradesOk(u, f)
    decreases t
  {
    forall i | 0 <= i < |t.kids|
      ensures LeafCount(u.kids[i]) == LeafCount(t.kids[i]) && MatchCount(u.kids[i], f) == MatchCount(t.kids[i], f)
      ensures MatchScore(u.kids[i], f) == MatchScore(t.kids[i], f)
      ensures Tidy(t.kids[i]) ==> Tidy(u.kids[i])
      ensures GradesOk(t.kids[i], f) ==> GradesOk(u.kids[i], f)
    {
      SameRoutesCounts(t.kids[i], u.kids[i], f);
    }
    SameSums(t, u, |t.kids|, f);
    forall k | k in u.kids
      ensures exists i :: 0 <= i < |t.kids| && k == u.kids[i] && t.kids[i] in t.kids
    {
      var i :| 0 <= i < |u.kids| && u.kids[i] == k;
      assert t.kids[i] in t.kids;
    }
  }

  /** After `init_stats` an Area's total is the number of Routes below it and
      its matching count the number of those the filter matches, which is
      never more, and its raw score the sum of rating times popularity over
      those; it succeeds exactly when every Route's grade can be compared
      with the bounds. */
  lemma InitStatsCounts(t: Tree, f: Filter)
    requires Tidy(t) && !t.IsLeaf()
    ensures InitStatsTree(t, f).Ok? <==> GradesOk(t, f)
    ensures InitStatsTree(t, f).Ok? ==>
      var r := InitStatsTree(t, f).value;
      r.totalRoutes == LeafCount(t) && r.matchingRoutes == MatchCount(t, f) <= r.totalRoutes
      && r.rawScore == MatchScore(t, f)
  {
    CountTotalCounts(t);
    var u := CountTotal(t).value;
    CountTotalSameRoutes(t);
    SameRoutesCounts(t, u, f);
    SameRoutesSym(t, u);
    SameRoutesCounts(u, t, f);
    CalcStatsCounts(u, f);
    MatchAtMostTotal(t, f);
    if CalcStats(u, f).Ok? {
      CalcStatsKeepsNode(u, f);
    }
  }

}
