/** Shaping the rows of a route CSV export into route records (parser.py):
    the area string of a row becomes a path from the region down to the
    crag, the fixed columns become the fields of a RouteDetails, and the rows
    are gathered into a dictionary keyed by route id. Turning a cell into a
    float is given as a parameter `toReal`, which yields None where Python's
    `float` raises. */
module Parser {
  import opened Wrappers
  import opened Text
  import opened Records

  /** Why a row cannot be shaped: a missing column or a missing url
      segment (IndexError), or a cell `float` rejects (ValueError). */
  datatype ParseError = IndexError | ValueError

  // ---------------------------------------------------------------------------
  // generate_area_list

  /** The area string ends with the segment `International`. */
  predicate EndsInternational(area: string) {
    var parts := Split(area, " > ");
    |parts| > 0 && parts[|parts| - 1] == "International"
  }

  /** The list before it is reversed: an International row loses its last two
      segments, any other row gains `USA`. */
  function Trimmed(area: string): seq<string>
  {
    var parts := Split(area, " > ");
    if EndsInternational(area) then parts[..if |parts| >= 2 then |parts| - 2 else 0]
    else parts + ["USA"]
  }

  /** `generate_area_list(area)` as a value. */
  function AreaList(area: string): seq<string>
  {
    Reverse(Trimmed(area))
  }

  /** `list.reverse()`: the elements swap in place from both ends inwards. */
  method ReverseInPlace<T>(a: array<T>)
    modifies a
    ensures a[..] == Reverse(old(a[..]))
  {
    var i := 0;
    while i < a.Length - 1 - i
      invariant 0 <= i <= a.Length - i
      invariant forall k :: 0 <= k < i ==> a[k] == old(a[a.Length - 1 - k]) && a[a.Length - 1 - k] == old(a[k])
      invariant forall k :: i <= k < a.Length - i ==> a[k] == old(a[k])
    {
      a[i], a[a.Length - 1 - i] := a[a.Length - 1 - i], a[i];
      i := i + 1;
    }
  }

  /** `generate_area_list`: split on `" > "`, drop the International tail or
      append `USA`, and reverse the list in place. */
  method GenerateAreaList(area: string) returns (path: seq<string>)
    ensures path == AreaList(area)
  {
    var parts := Split(area, " > ");
    if |parts| > 0 && parts[|parts| - 1] == "International" {
      parts := parts[..if |parts| >= 2 then |parts| - 2 else 0];
    } else {
      parts := parts + ["USA"];
    }
    assert parts == Trimmed(area);
    var a := new string[|parts|](i requires 0 <= i < |parts| => parts[i]);
    assert a[..] == parts;
    ReverseInPlace(a);
    path := a[..];
  }

  /** A row of the USA: `USA`, then the segments from the last to the
      first, so the path is one longer and ends at the crag. */
  lemma AreaListUSA(area: string)
    requires !EndsInternational(area)
    ensures |Split(area, " > ")| >= 1
    ensures AreaList(area) == ["USA"] + Reverse(Split(area, " > "))
    ensures |AreaList(area)| == |Split(area, " > ")| + 1
    ensures AreaList(area)[|AreaList(area)| - 1] == Split(area, " > ")[0]
  {
    SplitNonEmpty(area, " > ");
    var parts := Split(area, " > ");
    assert Reverse(parts + ["USA"]) == ["USA"] + Reverse(parts);
  }

  /** A row abroad: the last two segments are dropped, the rest reversed. */
  lemma AreaListInternational(area: string)
    requires EndsInternational(area)
    ensures var n := |Split(area, " > ")|;
      |AreaList(area)| == (if n >= 2 then n - 2 else 0)
    ensures var parts := Split(area, " > ");
      |parts| >= 2 ==> AreaList(area) == Reverse(parts[..|parts| - 2])
  {
  }

  /** A path written out as the site writes it (crag first, region last)
      reads back as the path, when no name contains `>`. */
  lemma AreaListRoundTrip(path: seq<string>)
    requires |path| >= 2 && path[0] == "USA" && path[1] != "International"
    requires forall k :: 0 <= k < |path| ==> '>' !in path[k]
    ensures AreaList(Join(Reverse(path[1..]), " > ")) == path
  {
    var segs := Reverse(path[1..]);
    forall k | 0 <= k < |segs| ensures '>' !in segs[k] {
      assert segs[k] == path[1..][|path[1..]| - 1 - k];
    }
    SplitJoinArrows(segs);
    assert segs[|segs| - 1] == path[1];
    AreaListUSA(Join(segs, " > "));
    assert Reverse(segs) == path[1..];
  }

  /** Splitting on `" > "` undoes joining with it when no piece holds `>`. */
  lemma {:induction false} SplitJoinArrows(parts: seq<string>)
    requires |parts| >= 1 && forall k :: 0 <= k < |parts| ==> '>' !in parts[k]
    ensures Split(Join(parts, " > "), " > ") == parts
    decreases |parts|
  {
    var s := Join(parts, " > ");
    if |parts| == 1 {
      NoArrowNoSeparator(parts[0]);
      SplitWithout(parts[0], " > ");
    } else {
      var rest := Join(parts[1..], " > ");
      assert s == parts[0] + " > " + rest;
      FirstArrow(parts[0], rest);
      SplitStep(s, " > ", |parts[0]|);
      assert s[..|parts[0]|] == parts[0];
      assert s[|parts[0]| + 3..] == rest;
      SplitJoinArrows(parts[1..]);
    }
  }

  lemma NoArrowNoSeparator(p: string)
    requires '>' !in p
    ensures !Contains(p, " > ")
  {
    forall j | 0 <= j <= |p| ensures !OccursAt(p, " > ", j) {
      if j + 3 <= |p| {
        assert p[j..j + 3][1] == p[j + 1];
        assert p[j + 1] in p;
        assert " > "[1] == '>';
      }
    }
  }

  /** In `p + " > " + rest` with no `>` in `p`, the first separator is the
      one after `p`. */
  lemma FirstArrow(p: string, rest: string)
    requires '>' !in p
    ensures FindFrom(p + " > " + rest, " > ", 0) == Some(|p|)
  {
    var s := p + " > " + rest;
    assert s[|p|..|p| + 3] == " > ";
    assert OccursAt(s, " > ", |p|);
    forall j | 0 <= j < |p| ensures !OccursAt(s, " > ", j) {
      assert s[j..j + 3][1] == s[j + 1];
      if j + 1 < |p| {
        assert s[j + 1] == p[j + 1];
        assert p[j + 1] in p;
      } else {
        assert s[j + 1] == ' ';
      }
    }
    FindFromSpec(s, " > ", 0);
  }

  // ---------------------------------------------------------------------------
  // organize_route_details

  /** The route types of a row: every `TR` spelled out, then split on `", "`. */
  function RouteTypes(cell: string): seq<string>
  {
    Split(ReplaceAll(cell, "TR", "Top Rope"), ", ")
  }

  /** The types join back into the cell with `TR` spelled out, and none of
      them holds the separator; a cell without `TR` is only split. */
  lemma RouteTypesMeaning(cell: string)
    ensures Join(RouteTypes(cell), ", ") == ReplaceAll(cell, "TR", "Top Rope")
    ensures forall p :: p in RouteTypes(cell) ==> !Contains(p, ", ")
    ensures !Contains(cell, "TR") ==> RouteTypes(cell) == Split(cell, ", ")
  {
    JoinSplit(ReplaceAll(cell, "TR", "Top Rope"), ", ");
    SplitPiecesFree(ReplaceAll(cell, "TR", "Top Rope"), ", ");
    if !Contains(cell, "TR") {
      SplitWithout(cell, "TR");
    }
  }

  /** `organize_route_details(route_data, num_reviews, route_id)`: the cells
      are read in the order of the dictionary display, column 5 first. A
      short row raises IndexError at its first missing column, unless the
      rating in column 3 has already raised ValueError. */
  function OrganizeRouteDetails(row: seq<string>, numReviews: int, routeId: string,
                                toReal: string -> Option<real>): (r: Result<RouteDetails, ParseError>)
    ensures r.Ok? <==> |row| >= 11 && toReal(row[3]).Some? && toReal(row[9]).Some? && toReal(row[10]).Some?
    ensures r.Ok? ==>
      && r.value.name == row[0] && r.value.area == AreaList(row[1])
      && r.value.grade == row[6] && r.value.routeTypes == RouteTypes(row[5])
      && r.value.numPitches == row[7] && r.value.length == row[8]
      && Some(r.value.rating) == toReal(row[3]) && r.value.numReviewers == numReviews
      && Some(r.value.coordinates.0) == toReal(row[9]) && Some(r.value.coordinates.1) == toReal(row[10])
    ensures r == Err(ValueError) <==>
      (|row| >= 9 && toReal(row[3]).None?)
      || (|row| >= 10 && toReal(row[3]).Some? && toReal(row[9]).None?)
      || (|row| >= 11 && toReal(row[3]).Some? && toReal(row[9]).Some? && toReal(row[10]).None?)
  {
    if |row| < 9 then Err(IndexError)
    else
      match toReal(row[3])
      case None => Err(ValueError)
      case Some(rating) =>
        if |row| < 10 then Err(IndexError)
        else
          match toReal(row[9])
          case None => Err(ValueError)
          case Some(lat) =>
            if |row| < 11 then Err(IndexError)
            else
              match toReal(row[10])
              case None => Err(ValueError)
              case Some(lon) =>
                Ok(RouteDetails(row[0], AreaList(row[1]), row[6], RouteTypes(row[5]),
                                row[7], row[8], rating, numReviews, (lat, lon)))
  }

  // ---------------------------------------------------------------------------
  // build_route_dict

  /** The route id of a row: the second-to-last `/`-segment of its url in
      column 2. */
  function IdOf(row: seq<string>): (r: Result<string, ParseError>)
    ensures r.Err? <==> |row| < 3 || !Contains(row[2], "/")
  {
    if |row| < 3 then Err(IndexError)
    else
      var parts := Split(row[2], "/");
      SplitPieces(row[2], "/");
      if |parts| < 2 then Err(IndexError)
      else
        Ok(parts[|parts| - 2])
  }

  /** A Mountain Project route url `.../route/<id>/<slug>` gives its id. */
  lemma IdOfUrl(row: seq<string>, prefix: string, id: string, slug: string)
    requires |row| >= 3 && row[2] == prefix + "/" + id + "/" + slug
    requires !Contains(id, "/") && !Contains(slug, "/")
    ensures IdOf(row) == Ok(id)
  {
    SplitConcat(prefix, "/", id + "/" + slug);
    assert prefix + "/" + id + "/" + slug == prefix + "/" + (id + "/" + slug);
    SplitConcat(id, "/", slug);
    SplitWithout(id, "/");
    SplitWithout(slug, "/");
  }

  /** The loop of `build_route_dict` from dictionary `d` on: each row's
      record is stored under its id, replacing what an earlier row stored. */
  function RouteDictFrom(d: Dict<RouteDetails>, routes: seq<seq<string>>, reviews: Dict<int>,
                         toReal: string -> Option<real>): Result<Dict<RouteDetails>, ParseError>
    decreases |routes|
  {
    if routes == [] then Ok(d)
    else
      var id :- IdOf(routes[0]);
      var details :- OrganizeRouteDetails(routes[0], Lookup(reviews, id).GetOr(0), id, toReal);
      RouteDictFrom(Put(d, id, details), routes[1..], reviews, toReal)
  }

  /** `build_route_dict(routes)` with the review counts as a parameter. */
  method BuildRouteDict(routes: seq<seq<string>>, reviews: Dict<int>, toReal: string -> Option<real>)
    returns (r: Result<Dict<RouteDetails>, ParseError>)
    ensures r == RouteDictFrom([], routes, reviews, toReal)
  {
    var d: Dict<RouteDetails> := [];
    var k := 0;
    while k < |routes|
      invariant 0 <= k <= |routes|
      invariant RouteDictFrom([], routes, reviews, toReal) == RouteDictFrom(d, routes[k..], reviews, toReal)
    {
      assert routes[k..][0] == routes[k] && routes[k..][1..] == routes[k + 1..];
      var id := IdOf(routes[k]);
      if id.Err? {
        return Err(id.error);
      }
      var numReviews := Lookup(reviews, id.value).GetOr(0);
      var details := OrganizeRouteDetails(routes[k], numReviews, id.value, toReal);
      if details.Err? {
        return Err(details.error);
      }
      d := Put(d, id.value, details.value);
      k := k + 1;
    }
    assert routes[k..] == [];
    r := Ok(d);
  }

  /** The result holds each id once, and its keys are those of the start
      dictionary together with the ids of the rows. */
  lemma {:induction false} RouteDictKeys(d: Dict<RouteDetails>, routes: seq<seq<string>>, reviews: Dict<int>,
                                         toReal: string -> Option<real>, q: string)
    requires DistinctKeys(d) && RouteDictFrom(d, routes, reviews, toReal).Ok?
    ensures DistinctKeys(RouteDictFrom(d, routes, reviews, toReal).value)
    ensures q in Keys(RouteDictFrom(d, routes, reviews, toReal).value) <==>
      q in Keys(d) || exists j :: 0 <= j < |routes| && IdOf(routes[j]) == Ok(q)
    decreases |routes|
  {
    if routes != [] {
      var id := IdOf(routes[0]).value;
      var details := OrganizeRouteDetails(routes[0], Lookup(reviews, id).GetOr(0), id, toReal).value;
      var d1 := Put(d, id, details);
      PutDistinct(d, id, details);
      PutKeys(d, id, details);
      RouteDictKeys(d1, routes[1..], reviews, toReal, q);
      if exists j :: 0 <= j < |routes[1..]| && IdOf(routes[1..][j]) == Ok(q) {
        var j :| 0 <= j < |routes[1..]| && IdOf(routes[1..][j]) == Ok(q);
        assert routes[1..][j] == routes[j + 1];
      }
      if exists j :: 0 <= j < |routes| && IdOf(routes[j]) == Ok(q) {
        var j :| 0 <= j < |routes| && IdOf(routes[j]) == Ok(q);
        if j > 0 {
          assert routes[1..][j - 1] == routes[j];
        }
      }
    }
  }

  /** An id no row has keeps whatever the start dictionary held. */
  lemma {:induction false} RouteDictUntouched(d: Dict<RouteDetails>, routes: seq<seq<string>>, reviews: Dict<int>,
                                              toReal: string -> Option<real>, q: string)
    requires RouteDictFrom(d, routes, reviews, toReal).Ok?
    requires forall j :: 0 <= j < |routes| ==> IdOf(routes[j]) != Ok(q)
    ensures Lookup(RouteDictFrom(d, routes, reviews, toReal).value, q) == Lookup(d, q)
    decreases |routes|
  {
    if routes != [] {
      var id := IdOf(routes[0]).value;
      var details := OrganizeRouteDetails(routes[0], Lookup(reviews, id).GetOr(0), id, toReal).value;
      PutLookup(d, id, details, q);
      forall j | 0 <= j < |routes[1..]| ensures IdOf(routes[1..][j]) != Ok(q) {
        assert routes[1..][j] == routes[j + 1];
      }
      RouteDictUntouched(Put(d, id, details), routes[1..], reviews, toReal, q);
    }
  }

  /** The record stored under an id is the one its last row gives, with the
      review count of that id, or 0 when the review map lacks it. */
  lemma {:induction false} RouteDictLastWins(d: Dict<RouteDetails>, routes: seq<seq<string>>, reviews: Dict<int>,
                                             toReal: string -> Option<real>, j: nat)
    requires RouteDictFrom(d, routes, reviews, toReal).Ok?
    requires j < |routes| && IdOf(routes[j]).Ok?
    requires OrganizeRouteDetails(routes[j], Lookup(reviews, IdOf(routes[j]).value).GetOr(0), IdOf(routes[j]).value, toReal).Ok?
    requires forall m :: j < m < |routes| ==> IdOf(routes[m]) != IdOf(routes[j])
    ensures var id := IdOf(routes[j]).value;
      Lookup(RouteDictFrom(d, routes, reviews, toReal).value, id)
        == Some(OrganizeRouteDetails(routes[j], Lookup(reviews, id).GetOr(0), id, toReal).value)
    decreases |routes|
  {
    var id := IdOf(routes[0]).value;
    var details := OrganizeRouteDetails(routes[0], Lookup(reviews, id).GetOr(0), id, toReal).value;
    var q := IdOf(routes[j]).value;
    if j == 0 {
      PutLookup(d, id, details, q);
      forall m | 0 <= m < |routes[1..]| ensures IdOf(routes[1..][m]) != Ok(q) {
        assert routes[1..][m] == routes[m + 1];
      }
      RouteDictUntouched(Put(d, id, details), routes[1..], reviews, toReal, q);
    } else {
      assert routes[1..][j - 1] == routes[j];
      forall m | j - 1 < m < |routes[1..]| ensures IdOf(routes[1..][m]) != IdOf(routes[1..][j - 1]) {
        assert routes[1..][m] == routes[m + 1];
      }
      RouteDictLastWins(Put(d, id, details), routes[1..], reviews, toReal, j - 1);
    }
  }
}
