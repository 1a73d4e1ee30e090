/** The parts of the scraper (scraper.py) that do not talk to the network:
    reading an area's name and id off its url and writing the url back,
    cleaning the grade distribution of an area page, deciding whether an
    area is small enough to download whole, building the map of regions,
    and the rule `download_area_helper` follows to batch its requests.
    Each request the helper would send through `scrape_data` is recorded as
    the pair of grade bounds it carries. */
module Scraper {
  import opened Wrappers
  import opened Text
  import opened Records

  /** The Python exceptions these functions can raise, and `Diverges` for a
      helper call that would repeat one request forever. */
  datatype ScrapeError = IndexError | KeyError | ValueError | TypeError | ZeroDivisionError | Diverges

  // ---------------------------------------------------------------------------
  // get_area_name_and_id, generate_area_url

  /** `get_area_name_and_id(url)`: the last `/`-segment with dashes read as
      spaces and title-cased, and the segment before it. A url without `/`
      has no second-to-last segment. */
  function AreaNameAndId(url: string): (r: Result<(string, string), ScrapeError>)
    ensures r.Ok? <==> Contains(url, "/")
  {
    var parts := Split(url, "/");
    SplitPieces(url, "/");
    if |parts| < 2 then Err(IndexError)
    else Ok((Title(MapChar(parts[|parts| - 1], '-', ' ')), parts[|parts| - 2]))
  }

  /** Of an area url, the id is the segment before the last "/" and the
      name is the segment after it, with dashes read as spaces and
      title-cased; whatever comes before the id does not matter. */
  lemma AreaNameAndIdOf(head: string, id: string, slug: string)
    requires !Contains(id, "/") && !Contains(slug, "/")
    ensures AreaNameAndId(id + "/" + slug) == Ok((Title(MapChar(slug, '-', ' ')), id))
    ensures AreaNameAndId(head + "/" + id + "/" + slug) == Ok((Title(MapChar(slug, '-', ' ')), id))
  {
    SplitWithout(slug, "/");
    SplitAround(id, "/", slug);
    var tail := id + "/" + slug;
    assert head + "/" + id + "/" + slug == head + "/" + tail;
    SplitConcat(head, "/", tail);
    var parts := Split(head + "/" + tail, "/");
    assert parts == Split(head, "/") + [id, slug];
    assert parts[|parts| - 1] == slug && parts[|parts| - 2] == id;
  }

  /** `generate_area_url(area_id, area_name)`, the base url of the
      environment passed in: base, id and the lower-cased name with dashes
      for spaces, joined by `/`. */
  function AreaUrl(base: string, id: string, name: string): string
  {
    Join([base, id, MapChar(Lower(name), ' ', '-')], "/")
  }

  /** Reading the url of an area gives back its id, and its name
      title-cased, when neither holds a `/` and the name holds no `-`. */
  lemma AreaUrlRoundTrip(base: string, id: string, name: string)
    requires '/' !in id && '/' !in name && '-' !in name
    ensures AreaNameAndId(AreaUrl(base, id, name)) == Ok((Title(name), id))
  {
    var slug := MapChar(Lower(name), ' ', '-');
    JoinCons(id, [slug], "/");
    JoinCons(base, [id, slug], "/");
    assert [base, id, slug] == [base] + [id, slug];
    assert [id, slug] == [id] + [slug];
    var url := AreaUrl(base, id, name);
    assert url == base + "/" + (id + "/" + slug);
    assert '/' !in Lower(name) && '-' !in Lower(name) by {
      forall k | 0 <= k < |name| ensures Lower(name)[k] != '/' && Lower(name)[k] != '-' {
        assert name[k] in name;
      }
    }
    assert '/' !in slug by {
      forall k | 0 <= k < |slug| ensures slug[k] != '/' {
        assert Lower(name)[k] in Lower(name);
      }
    }
    CharAbsentNotContained(id, '/');
    CharAbsentNotContained(slug, '/');
    SplitConcat(base, "/", id + "/" + slug);
    SplitConcat(id, "/", slug);
    SplitWithout(id, "/");
    SplitWithout(slug, "/");
    MapCharBack(Lower(name), ' ', '-');
    TitleOfLower(name, false);
  }

  // ---------------------------------------------------------------------------
  // clean_data

  /** The count cell of a distribution row: the page gives a number or a
      numeral. */
  datatype Count = IntCount(value: int) | TextCount(text: string)

  /** Python's `int(...)` on a count cell. */
  function IntOf(c: Count): (r: Option<int>)
    ensures c.IntCount? ==> r == Some(c.value)
    ensures c.TextCount? ==> r == PyInt(c.text)
  {
    match c
    case IntCount(n) => Some(n)
    case TextCount(s) => PyInt(s)
  }

  /** The open-ended labels of the distribution become the grades they
      bound; any other label stays. */
  function CleanGrade(g: string): (r: string)
    ensures r != "<5.6" && r != ">=5.13"
    ensures g != "<5.6" && g != ">=5.13" ==> r == g
  {
    if g == "<5.6" then "5.6"
    else if g == ">=5.13" then "5.13"
    else g
  }

  /** The loop of `clean_data` from dictionary `d` on. */
  function CleanFrom(d: Dict<int>, rows: seq<(string, Count)>): Result<Dict<int>, ScrapeError>
    decreases |rows|
  {
    if rows == [] then Ok(d)
    else
      match IntOf(rows[0].1)
      case None => Err(ValueError)
      case Some(n) => CleanFrom(Put(d, CleanGrade(rows[0].0), n), rows[1..])
  }

  /** `clean_data(data)`: the rows under `rock`, stored grade by grade. */
  function CleanSpec(data: Dict<seq<(string, Count)>>): Result<Dict<int>, ScrapeError>
  {
    match Lookup(data, "rock")
    case None => Err(KeyError)
    case Some(rows) => CleanFrom([], rows)
  }

  /** `clean_data(data)`, the loop as written. */
  method CleanData(data: Dict<seq<(string, Count)>>) returns (r: Result<Dict<int>, ScrapeError>)
    ensures r == CleanSpec(data)
  {
    var rock := Lookup(data, "rock");
    if rock.None? {
      return Err(KeyError);
    }
    var rows := rock.value;
    var clean: Dict<int> := [];
    var k := 0;
    while k < |rows|
      invariant 0 <= k <= |rows|
      invariant CleanFrom([], rows) == CleanFrom(clean, rows[k..])
    {
      assert rows[k..][0] == rows[k] && rows[k..][1..] == rows[k + 1..];
      var grade := rows[k].0;
      if grade == "<5.6" {
        grade := "5.6";
      } else if grade == ">=5.13" {
        grade := "5.13";
      }
      var n := IntOf(rows[k].1);
      if n.None? {
        return Err(ValueError);
      }
      clean := Put(clean, grade, n.value);
      k := k + 1;
    }
    assert rows[k..] == [];
    r := Ok(clean);
  }

  /** The entries the loop stores, in order. */
  function CleanEntries(rows: seq<(string, Count)>): (r: Result<seq<(string, int)>, ScrapeError>)
    ensures r.Ok? ==> |r.value| == |rows|
    ensures r.Ok? ==> forall j :: 0 <= j < |rows| ==>
      r.value[j].0 == CleanGrade(rows[j].0) && Some(r.value[j].1) == IntOf(rows[j].1)
    ensures r.Ok? <==> forall j :: 0 <= j < |rows| ==> IntOf(rows[j].1).Some?
  {
    if rows == [] then Ok([])
    else
      match IntOf(rows[0].1)
      case None => Err(ValueError)
      case Some(n) =>
        assert forall j :: 1 <= j < |rows| ==> rows[j] == rows[1..][j - 1];
        var rest :- CleanEntries(rows[1..]);
        Ok([(CleanGrade(rows[0].0), n)] + rest)
  }

  lemma {:induction false} CleanFromEntries(d: Dict<int>, rows: seq<(string, Count)>)
    ensures CleanFrom(d, rows) == (var es :- CleanEntries(rows); Ok(PutAll(d, es)))
    decreases |rows|
  {
    if rows != [] && IntOf(rows[0].1).Some? {
      CleanFromEntries(Put(d, CleanGrade(rows[0].0), IntOf(rows[0].1).value), rows[1..]);
    }
  }

  /** Cleaning fails only on a count that is not a number. */
  lemma {:induction false} CleanRowsError(d: Dict<int>, rows: seq<(string, Count)>)
    ensures CleanFrom(d, rows).Ok? <==> forall m :: 0 <= m < |rows| ==> IntOf(rows[m].1).Some?
    ensures CleanFrom(d, rows).Ok? || CleanFrom(d, rows) == Err(ValueError)
    decreases |rows|
  {
    if rows != [] && IntOf(rows[0].1).Some? {
      CleanRowsError(Put(d, CleanGrade(rows[0].0), IntOf(rows[0].1).value), rows[1..]);
      assert forall m :: 1 <= m < |rows| ==> rows[m] == rows[1..][m - 1];
    }
  }

  /** `clean_data` raises KeyError exactly when the data has no `rock`
      entry. */
  lemma CleanDataKeyError(data: Dict<seq<(string, Count)>>)
    ensures CleanSpec(data) == Err(KeyError) <==> "rock" !in Keys(data)
  {
    if "rock" in Keys(data) {
      CleanRowsError([], Lookup(data, "rock").value);
    }
  }

  /** The cleaned distribution holds each cleaned label once, and only the
      labels of its rows. */
  lemma CleanRowsKeys(rows: seq<(string, Count)>, q: string)
    requires CleanFrom([], rows).Ok?
    ensures DistinctKeys(CleanFrom([], rows).value)
    ensures q in Keys(CleanFrom([], rows).value) <==> exists m :: 0 <= m < |rows| && CleanGrade(rows[m].0) == q
  {
    CleanFromEntries([], rows);
    var es := CleanEntries(rows).value;
    PutAllKeys([], es, q);
    if exists m :: 0 <= m < |es| && es[m].0 == q {
      var m :| 0 <= m < |es| && es[m].0 == q;
      assert CleanGrade(rows[m].0) == q;
    }
    if exists m :: 0 <= m < |rows| && CleanGrade(rows[m].0) == q {
      var m :| 0 <= m < |rows| && CleanGrade(rows[m].0) == q;
      assert es[m].0 == q;
    }
  }

  /** A label takes the count of the last row that cleans to it. */
  lemma CleanRowsLastWins(rows: seq<(string, Count)>, j: nat)
    requires CleanFrom([], rows).Ok? && j < |rows|
    requires forall m :: j < m < |rows| ==> CleanGrade(rows[m].0) != CleanGrade(rows[j].0)
    ensures Lookup(CleanFrom([], rows).value, CleanGrade(rows[j].0)) == IntOf(rows[j].1)
  {
    CleanFromEntries([], rows);
    PutAllLast([], CleanEntries(rows).value, j);
  }

  // ---------------------------------------------------------------------------
  // is_manageable

  /** The grades a whole-area download has to be able to fetch at once. */
  const SmallGrades: seq<string> := ["5.6", "5.7", "5.8", "5.9"]

  /** `all([data[g] <= bound for g in gs])`: every count is read before any is
      compared, so a missing grade raises whatever the others hold. */
  function AllAtMost(data: Dict<int>, gs: seq<string>, bound: int): (r: Result<bool, ScrapeError>)
    ensures r.Err? <==> exists i :: 0 <= i < |gs| && gs[i] !in Keys(data)
    ensures r.Err? ==> r.error == KeyError
    ensures r == Ok(true) <==> forall i :: 0 <= i < |gs| ==> Lookup(data, gs[i]).Some? && Lookup(data, gs[i]).value <= bound
  {
    if gs == [] then Ok(true)
    else
      match Lookup(data, gs[0])
      case None => Err(KeyError)
      case Some(n) =>
        assert forall i :: 1 <= i < |gs| ==> gs[i] == gs[1..][i - 1];
        var rest :- AllAtMost(data, gs[1..], bound);
        Ok(n <= bound && rest)
  }

  /** `is_manageable(data)`. */
  function IsManageable(data: Dict<int>): Result<bool, ScrapeError>
  {
    AllAtMost(data, SmallGrades, 1000)
  }

  /** The count of a grade when the distribution has it and it is at most
      `bound`. */
  predicate AtMost(data: Dict<int>, g: string, bound: int) {
    Lookup(data, g).Some? && Lookup(data, g).value <= bound
  }

  /** An area can be downloaded whole exactly when each of 5.6, 5.7, 5.8
      and 5.9 has at most 1000 routes; a missing one raises KeyError. */
  lemma IsManageableMeaning(data: Dict<int>)
    ensures IsManageable(data) == Err(KeyError) <==>
      "5.6" !in Keys(data) || "5.7" !in Keys(data) || "5.8" !in Keys(data) || "5.9" !in Keys(data)
    ensures IsManageable(data) == Ok(true) <==>
      AtMost(data, "5.6", 1000) && AtMost(data, "5.7", 1000) && AtMost(data, "5.8", 1000) && AtMost(data, "5.9", 1000)
  {
    var gs := SmallGrades;
    assert gs[0] == "5.6" && gs[1] == "5.7" && gs[2] == "5.8" && gs[3] == "5.9" && |gs| == 4;
  }

  // ---------------------------------------------------------------------------
  // create_country_map

  /** What the map stores of a region: its id and its number of routes. */
  datatype AreaEntry = AreaEntry(id: string, routes: int)

  /** Names that are not regions of the country. */
  predicate Skipped(name: string) {
    name == "International" || name == "In Progress"
  }

  /** The loop of `create_country_map` from dictionary `d` on; a link is
      given by its href and its route count. */
  function CountryMapFrom(d: Dict<AreaEntry>, states: seq<(string, int)>): Result<Dict<AreaEntry>, ScrapeError>
    decreases |states|
  {
    if states == [] then Ok(d)
    else
      var nameId :- AreaNameAndId(states[0].0);
      if Skipped(nameId.0) then CountryMapFrom(d, states[1..])
      else CountryMapFrom(Put(d, nameId.0, AreaEntry(nameId.1, states[0].1)), states[1..])
  }

  /** `create_country_map(states)`, the loop as written. */
  method CreateCountryMap(states: seq<(string, int)>) returns (r: Result<Dict<AreaEntry>, ScrapeError>)
    ensures r == CountryMapFrom([], states)
  {
    var regions: Dict<AreaEntry> := [];
    var k := 0;
    while k < |states|
      invariant 0 <= k <= |states|
      invariant CountryMapFrom([], states) == CountryMapFrom(regions, states[k..])
    {
      assert states[k..][0] == states[k] && states[k..][1..] == states[k + 1..];
      var nameId := AreaNameAndId(states[k].0);
      if nameId.Err? {
        return Err(nameId.error);
      }
      var name := nameId.value.0;
      if !(name == "International" || name == "In Progress") {
        regions := Put(regions, name, AreaEntry(nameId.value.1, states[k].1));
      }
      k := k + 1;
    }
    assert states[k..] == [];
    r := Ok(regions);
  }

  /** The link `href` names the region `q`. */
  predicate Names(href: string, q: string) {
    AreaNameAndId(href).Ok? && AreaNameAndId(href).value.0 == q
  }

  /** The region map fails exactly when a link has no `/`. */
  lemma {:induction false} CountryMapError(d: Dict<AreaEntry>, states: seq<(string, int)>)
    ensures CountryMapFrom(d, states).Ok? <==> forall j :: 0 <= j < |states| ==> Contains(states[j].0, "/")
    ensures CountryMapFrom(d, states).Err? ==> CountryMapFrom(d, states).error == IndexError
    decreases |states|
  {
    if states != [] && AreaNameAndId(states[0].0).Ok? {
      var nameId := AreaNameAndId(states[0].0).value;
      assert forall j :: 1 <= j < |states| ==> states[j] == states[1..][j - 1];
      if Skipped(nameId.0) {
        CountryMapError(d, states[1..]);
      } else {
        CountryMapError(Put(d, nameId.0, AreaEntry(nameId.1, states[0].1)), states[1..]);
      }
    }
  }

  /** The region map never holds `International` or `In Progress`, names
      each other region once, and only the regions its links name. */
  lemma {:induction false} CountryMapKeys(d: Dict<AreaEntry>, states: seq<(string, int)>, q: string)
    requires DistinctKeys(d) && CountryMapFrom(d, states).Ok?
    ensures DistinctKeys(CountryMapFrom(d, states).value)
    ensures q in Keys(CountryMapFrom(d, states).value) <==>
      q in Keys(d) || (!Skipped(q) && exists j :: 0 <= j < |states| && Names(states[j].0, q))
    decreases |states|
  {
    if states != [] {
      var nameId := AreaNameAndId(states[0].0).value;
      var d1 := if Skipped(nameId.0) then d else Put(d, nameId.0, AreaEntry(nameId.1, states[0].1));
      if !Skipped(nameId.0) {
        PutDistinct(d, nameId.0, AreaEntry(nameId.1, states[0].1));
        PutKeys(d, nameId.0, AreaEntry(nameId.1, states[0].1));
      }
      CountryMapKeys(d1, states[1..], q);
      if exists j :: 0 <= j < |states[1..]| && Names(states[1..][j].0, q) {
        var j :| 0 <= j < |states[1..]| && Names(states[1..][j].0, q);
        assert states[1..][j] == states[j + 1];
      }
      if exists j :: 0 <= j < |states| && Names(states[j].0, q) {
        var j :| 0 <= j < |states| && Names(states[j].0, q);
        if j > 0 {
          assert states[1..][j - 1] == states[j];
        }
      }
    }
  }

  /** A region no link names keeps its entry. */
  lemma {:induction false} CountryMapUntouched(d: Dict<AreaEntry>, states: seq<(string, int)>, q: string)
    requires CountryMapFrom(d, states).Ok?
    requires forall j :: 0 <= j < |states| ==> !Names(states[j].0, q)
    ensures Lookup(CountryMapFrom(d, states).value, q) == Lookup(d, q)
    decreases |states|
  {
    if states != [] {
      var nameId := AreaNameAndId(states[0].0).value;
      assert forall j :: 0 <= j < |states[1..]| ==> states[1..][j] == states[j + 1];
      if Skipped(nameId.0) {
        CountryMapUntouched(d, states[1..], q);
      } else {
        PutLookup(d, nameId.0, AreaEntry(nameId.1, states[0].1), q);
        CountryMapUntouched(Put(d, nameId.0, AreaEntry(nameId.1, states[0].1)), states[1..], q);
      }
    }
  }

  /** The entry of a region is the id and count of the last link naming it. */
  lemma {:induction false} CountryMapLastWins(d: Dict<AreaEntry>, states: seq<(string, int)>, j: nat)
    requires CountryMapFrom(d, states).Ok? && j < |states|
    requires AreaNameAndId(states[j].0).Ok? && !Skipped(AreaNameAndId(states[j].0).value.0)
    requires forall m :: j < m < |states| ==> !Names(states[m].0, AreaNameAndId(states[j].0).value.0)
    ensures var nameId := AreaNameAndId(states[j].0).value;
      Lookup(CountryMapFrom(d, states).value, nameId.0) == Some(AreaEntry(nameId.1, states[j].1))
    decreases |states|
  {
    var head := AreaNameAndId(states[0].0).value;
    var q := AreaNameAndId(states[j].0).value.0;
    var d1 := if Skipped(head.0) then d else Put(d, head.0, AreaEntry(head.1, states[0].1));
    assert forall m :: 0 <= m < |states[1..]| ==> states[1..][m] == states[m + 1];
    if j == 0 {
      PutLookup(d, head.0, AreaEntry(head.1, states[0].1), q);
      CountryMapUntouched(d1, states[1..], q);
    } else {
      CountryMapLastWins(d1, states[1..], j - 1);
    }
  }

  // ---------------------------------------------------------------------------
  // download_area_helper

  /** The grades a helper call walks through, easiest first. */
  const HelperGrades: seq<string> := ["5.6", "5.7", "5.8", "5.9", "5.10", "5.11", "5.12", LastHelperGrade]

  /** The hardest grade the helper asks for, which the last request always
      takes in. */
  const LastHelperGrade: string := "5.13"

  /** What a helper call reads: the grade distribution of the area, the two
      tables of `grade_parameters.json` (the request bounds of each grade,
      and under `<grade>-split` the bound pairs that split it, here keyed by
      the grade), and whether a progress callback was given. */
  datatype HelperInput = HelperInput(
    dist: map<string, int>, bounds: map<string, (string, string)>,
    splits: map<string, seq<(string, string)>>, reporting: bool)

  /** The variables of a helper call: the grades left, `num_routes`,
      `param_1_val` and `param_2_val`, the shared `cache` list, the requests
      sent (the bounds each `scrape_data` call carries), the progress values
      handed to the callback, and the exception raised, if any. */
  datatype Batch = Batch(
    grades: seq<string>, numRoutes: int, param1: string, param2: string,
    cache: seq<int>, log: seq<(string, string)>, progress: seq<int>,
    failed: Option<ScrapeError>)

  /** Python's `a // b`, which rounds down. */
  function FloorDiv(a: int, b: int): int
    requires b != 0
  {
    if b > 0 then a / b else (-a) / (-b)
  }

  /** `FloorDiv` rounds the exact quotient down, whatever the signs. */
  lemma FloorDivRoundsDown(a: int, b: int)
    requires b != 0
    ensures b > 0 ==> b * FloorDiv(a, b) <= a < b * FloorDiv(a, b) + b
    ensures b < 0 ==> b * FloorDiv(a, b) >= a > b * FloorDiv(a, b) + b
  {
    if b < 0 {
      var q := (-a) / (-b);
      assert (-b) * q <= -a < (-b) * q + (-b);
    }
  }

  /** The first lines of `reset_params`: a new cache gets a second slot
      of 0; otherwise the routes of the request just made are added to it.
      `prev` is `num_routes`, still None on the first call. */
  function CacheAfter(cache: seq<int>, prev: Option<int>): (r: Result<seq<int>, ScrapeError>)
    ensures r.Ok? <==> |cache| == 1 || (|cache| >= 2 && prev.Some?)
    ensures r.Ok? ==> |r.value| >= 2 && r.value[0] == cache[0]
  {
    if |cache| == 1 then Ok(cache + [0])
    else if |cache| < 2 then Err(IndexError)
    else if prev.None? then Err(TypeError)
    else Ok(cache[1 := cache[1] + prev.value])
  }

  /** `reset_params()`: update the cache, report progress, and load the
      bounds of the first grade left, dropping it when it fits in one
      request. A grade of exactly 1000 routes is neither dropped nor split,
      and from there the loop would send the same request forever. */
  function Reset(s: Batch, prev: Option<int>, h: HelperInput): (r: Batch)
    requires s.failed.None?
    ensures r.failed.None? ==> |s.grades| > 0 && r.numRoutes != 1000
    ensures r.failed.None? ==> (if r.numRoutes < 1000 then r.grades == s.grades[1..] else r.grades == s.grades)
    ensures r.failed.None? ==> CacheAfter(s.cache, prev) == Ok(r.cache) && r.log == s.log
  {
    match CacheAfter(s.cache, prev)
    case Err(e) => s.(failed := Some(e))
    case Ok(c) =>
      if h.reporting && c[0] == 0 then s.(cache := c, failed := Some(ZeroDivisionError))
      else
        var s1 := s.(cache := c, progress := if h.reporting then s.progress + [FloorDiv(100 * c[1], c[0])] else s.progress);
        if s.grades == [] then s1.(failed := Some(IndexError))
        else if s.grades[0] !in h.dist then s1.(failed := Some(KeyError))
        else
          var s2 := s1.(numRoutes := h.dist[s.grades[0]]);
          if s.grades[0] !in h.bounds then s2.(failed := Some(KeyError))
          else
            var s3 := s2.(param1 := h.bounds[s.grades[0]].0, param2 := h.bounds[s.grades[0]].1,
                          grades := if s2.numRoutes < 1000 then s.grades[1..] else s.grades);
            if s2.numRoutes == 1000 then s3.(failed := Some(Diverges)) else s3
  }

  /** What is left of the helper's work: a failed call is finished; a
      grade left counts twice, and one more unless a split is pending. */
  function Measure(s: Batch): nat {
    if s.failed.Some? then 0 else 2 * |s.grades| + (if s.numRoutes > 1000 then 1 else 2)
  }

  /** One turn of the `while` loop: merge the next grade into the pending
      request while the total stays below 1000, send the split requests of
      a grade above 1000, or else send the pending request. */
  function Step(s: Batch, h: HelperInput): (r: Batch)
    requires s.failed.None? && s.grades != []
    ensures Measure(r) < Measure(s)
  {
    var g := s.grades[0];
    if g !in h.dist then s.(failed := Some(KeyError))
    else if s.numRoutes + h.dist[g] < 1000 then
      if g !in h.bounds then s.(numRoutes := s.numRoutes + h.dist[g], failed := Some(KeyError))
      else s.(numRoutes := s.numRoutes + h.dist[g], param2 := h.bounds[g].1, grades := s.grades[1..])
    else if s.numRoutes > 1000 then
      if g !in h.splits then s.(failed := Some(KeyError))
      else Reset(s.(log := s.log + h.splits[g], grades := s.grades[1..]), Some(s.numRoutes), h)
    else Reset(s.(log := s.log + [(s.param1, s.param2)]), Some(s.numRoutes), h)
  }

  /** The loop to its end, then the last request. */
  function Loop(s: Batch, h: HelperInput): Batch
    decreases Measure(s)
  {
    if s.failed.Some? then s
    else if s.grades == [] then s.(log := s.log + [(s.param1, s.param2)])
    else Loop(Step(s, h), h)
  }

  function Start(cache: seq<int>): Batch {
    Batch(HelperGrades, 0, "", "", cache, [], [], None)
  }

  /** `download_area_helper` on a cache list. */
  function Helper(cache: seq<int>, h: HelperInput): Batch {
    Loop(Reset(Start(cache), None, h), h)
  }

  /** The list `download_area` threads through its helper calls: the number
      of routes of the area, then the number requested so far. */
  class ProgressCache {
    var counts: seq<int>

    constructor(total: int)
      ensures counts == [total]
    {
      counts := [total];
    }
  }

  /** One call of `download_area_helper`. The variables the nested
      `reset_params` updates as `nonlocal` are the fields. */
  class AreaDownload {
    const input: HelperInput
    const cache: ProgressCache
    var grades: seq<string>
    var numRoutes: int
    var param1: string
    var param2: string
    var log: seq<(string, string)>
    var progress: seq<int>
    var failed: Option<ScrapeError>

    function State(): Batch
      reads this, cache
    {
      Batch(grades, numRoutes, param1, param2, cache.counts, log, progress, failed)
    }

    constructor(input: HelperInput, cache: ProgressCache)
      ensures this.input == input && this.cache == cache
      ensures State() == Start(cache.counts)
    {
      this.input := input;
      this.cache := cache;
      grades := HelperGrades;
      numRoutes, param1, param2 := 0, "", "";
      log, progress, failed := [], [], None;
    }

    /** `reset_params()`. */
    method ResetParams(prev: Option<int>)
      requires failed.None?
      modifies this, cache
      ensures State() == Reset(old(State()), prev, input)
    {
      if |cache.counts| == 1 {
        cache.counts := cache.counts + [0];
      } else if |cache.counts| < 2 {
        failed := Some(IndexError);
        return;
      } else if prev.None? {
        failed := Some(TypeError);
        return;
      } else {
        cache.counts := cache.counts[1 := cache.counts[1] + prev.value];
      }
      if input.reporting {
        if cache.counts[0] == 0 {
          failed := Some(ZeroDivisionError);
          return;
        }
        progress := progress + [FloorDiv(100 * cache.counts[1], cache.counts[0])];
      }
      if grades == [] {
        failed := Some(IndexError);
        return;
      }
      if grades[0] !in input.dist {
        failed := Some(KeyError);
        return;
      }
      numRoutes := input.dist[grades[0]];
      if grades[0] !in input.bounds {
        failed := Some(KeyError);
        return;
      }
      param1 := input.bounds[grades[0]].0;
      param2 := input.bounds[grades[0]].1;
      if numRoutes < 1000 {
        grades := grades[1..];
      } else if numRoutes == 1000 {
        failed := Some(Diverges);
      }
    }

    /** The `while` loop and the request after it. */
    method RunLoop()
      modifies this, cache
      ensures State() == Loop(old(State()), input)
    {
      while failed.None? && grades != []
        invariant Loop(State(), input) == Loop(old(State()), input)
        decreases Measure(State())
      {
        ghost var before := State();
        var g := grades[0];
        if g !in input.dist {
          failed := Some(KeyError);
        } else if numRoutes + input.dist[g] < 1000 {
          numRoutes := numRoutes + input.dist[g];
          if g !in input.bounds {
            failed := Some(KeyError);
          } else {
            param2 := input.bounds[g].1;
            grades := grades[1..];
          }
        } else if numRoutes > 1000 {
          if g !in input.splits {
            failed := Some(KeyError);
          } else {
            log := log + input.splits[g];
            grades := grades[1..];
            ResetParams(Some(numRoutes));
          }
        } else {
          log := log + [(param1, param2)];
          ResetParams(Some(numRoutes));
        }
        assert State() == Step(before, input);
      }
      if failed.None? {
        log := log + [(param1, param2)];
      }
    }
  }

  /** `download_area_helper(area_id, area_name, grade_distribution,
      cache=cache, callback=callback)`: the requests it sends, the progress
      values it reports, and what it raises. */
  method DownloadAreaHelper(input: HelperInput, cache: ProgressCache)
    returns (log: seq<(string, string)>, progress: seq<int>, err: Option<ScrapeError>)
    modifies cache
    ensures var r := Helper(old(cache.counts), input);
      cache.counts == r.cache && log == r.log && progress == r.progress && err == r.failed
  {
    var run := new AreaDownload(input, cache);
    run.ResetParams(None);
    if run.failed.None? {
      run.RunLoop();
    }
    log, progress, err := run.log, run.progress, run.failed;
  }

  // ---------------------------------------------------------------------------
  // The batching plan a helper call follows

  /** A request of the plan: consecutive grades merged into one, or the
      split requests of a single grade. */
  datatype Request = Merged(batch: seq<string>) | SplitOf(grade: string)

  /** Every grade has a count and request bounds (split bounds are looked
      up only for a grade above 1000 routes, and a missing entry is a
      KeyError of the plan). */
  predicate Known(gs: seq<string>, h: HelperInput) {
    forall g :: g in gs ==> g in h.dist && g in h.bounds
  }

  /** The routes of a grade, 0 for one the distribution does not list (the
      plan only ever asks for listed ones). */
  function RoutesOf(dist: map<string, int>, g: string): int {
    if g in dist then dist[g] else 0
  }

  /** The number of routes of some grades. */
  function Sum(gs: seq<string>, dist: map<string, int>): int {
    if gs == [] then 0 else RoutesOf(dist, gs[0]) + Sum(gs[1..], dist)
  }

  lemma SumFirst(gs: seq<string>, k: nat, dist: map<string, int>)
    requires 0 < k <= |gs| && forall g :: g in gs ==> g in dist
    ensures Sum(gs[..k], dist) == dist[gs[0]] + Sum(gs[1..][..k - 1], dist)
  {
    assert gs[..k][1..] == gs[1..][..k - 1];
  }

  /** How many of `gs` join a request that already holds `total` routes:
      as many as keep the total below 1000. */
  function Take(total: int, gs: seq<string>, dist: map<string, int>): (k: nat)
    requires forall g :: g in gs ==> g in dist
    ensures k <= |gs|
    ensures total < 1000 ==> total + Sum(gs[..k], dist) < 1000
    ensures k < |gs| ==> total + Sum(gs[..k], dist) + dist[gs[k]] >= 1000
    decreases |gs|
  {
    if gs == [] || total + dist[gs[0]] >= 1000 then 0
    else
      var k := Take(total + dist[gs[0]], gs[1..], dist);
      SumFirst(gs, k + 1, dist);
      k + 1
  }

  predicate Fits(q: Request, h: HelperInput) {
    match q
    case Merged(b) => |b| > 0 && forall g :: g in b ==> g in h.dist && g in h.bounds
    case SplitOf(g) => g in h.dist && g in h.splits
  }

  predicate AllFit(reqs: seq<Request>, h: HelperInput) {
    forall i :: 0 <= i < |reqs| ==> Fits(reqs[i], h)
  }

  /** The routes a request fetches. */
  function Routes(q: Request, h: HelperInput): int {
    match q
    case Merged(b) => Sum(b, h.dist)
    case SplitOf(g) => RoutesOf(h.dist, g)
  }

  /** A merged request stays below 1000 routes; a split grade is above. */
  predicate Within(q: Request, h: HelperInput) {
    match q
    case Merged(b) => Sum(b, h.dist) < 1000
    case SplitOf(g) => RoutesOf(h.dist, g) > 1000
  }

  function Covers(q: Request): seq<string> {
    match q
    case Merged(b) => b
    case SplitOf(g) => [g]
  }

  /** The grades the requests cover, in order. */
  function GradesOf(reqs: seq<Request>): seq<string> {
    if reqs == [] then [] else Covers(reqs[0]) + GradesOf(reqs[1..])
  }

  /** The `scrape_data` calls of a request: a merged one carries the lower
      bound of its first grade and the upper bound of its last. */
  function Sent(q: Request, h: HelperInput): seq<(string, string)> {
    match q
    case Merged(b) =>
      if |b| > 0 && b[0] in h.bounds && b[|b| - 1] in h.bounds
      then [(h.bounds[b[0]].0, h.bounds[b[|b| - 1]].1)] else []
    case SplitOf(g) => if g in h.splits then h.splits[g] else []
  }

  function LogOf(reqs: seq<Request>, h: HelperInput): seq<(string, string)> {
    if reqs == [] then [] else Sent(reqs[0], h) + LogOf(reqs[1..], h)
  }

  /** The plan for `gs`: a grade above 1000 routes is split (it needs split
      bounds and is not allowed to be the last), one of exactly 1000 stalls
      the helper, and
      any other grade opens a request that the following grades join while
      the total stays below 1000. */
  function Batches(gs: seq<string>, h: HelperInput): (r: Result<seq<Request>, ScrapeError>)
    requires |gs| > 0 && Known(gs, h)
    ensures r.Ok? ==> |r.value| > 0
    decreases |gs|
  {
    var n := h.dist[gs[0]];
    KnownSuffix(gs, 1, h);
    if n == 1000 then Err(Diverges)
    else if n > 1000 then
      if gs[0] !in h.splits then Err(KeyError)
      else if |gs| == 1 then Err(IndexError)
      else
        var rest :- Batches(gs[1..], h);
        Ok([SplitOf(gs[0])] + rest)
    else
      var k := 1 + Take(n, gs[1..], h.dist);
      if k == |gs| then Ok([Merged(gs)])
      else
        KnownSuffix(gs, k, h);
        var rest :- Batches(gs[k..], h);
        Ok([Merged(gs[..k])] + rest)
  }

  /** Every request of the plan `b` fits the helper's tables and keeps to
      its side of 1000 routes, and the requests cover `gs` in order. */
  predicate ShapeOf(b: Result<seq<Request>, ScrapeError>, gs: seq<string>, h: HelperInput) {
    b.Ok? ==> && AllFit(b.value, h) && GradesOf(b.value) == gs
              && forall i :: 0 <= i < |b.value| ==> Within(b.value[i], h)
  }

  /** Every plan has that shape. */
  lemma {:induction false} BatchesShape(gs: seq<string>, h: HelperInput)
    requires |gs| > 0 && Known(gs, h)
    ensures ShapeOf(Batches(gs, h), gs, h)
    decreases |gs|
  {
    var n := h.dist[gs[0]];
    if n > 1000 && |gs| > 1 && gs[0] in h.splits {
      KnownSuffix(gs, 1, h);
      BatchesShape(gs[1..], h);
      SplitPlan(gs, h);
      assert gs[0] in gs && gs[..1] == [gs[0]];
      ShapeThen(Batches(gs, h), Batches(gs[1..], h), SplitOf(gs[0]), gs, 1, h);
    } else if n < 1000 {
      var k := 1 + Take(n, gs[1..], h.dist);
      OpeningFits(gs, h);
      MergedPlan(gs, h);
      if k == |gs| {
        assert gs[..k] == gs;
        PlanOne(Merged(gs), h);
      } else {
        KnownSuffix(gs, k, h);
        BatchesShape(gs[k..], h);
        ShapeThen(Batches(gs, h), Batches(gs[k..], h), Merged(gs[..k]), gs, k, h);
      }
    }
  }

  /** A request for the first `k` grades in front of a plan of the rest. */
  lemma ShapeThen(b: Result<seq<Request>, ScrapeError>, b2: Result<seq<Request>, ScrapeError>,
                  q: Request, gs: seq<string>, k: nat, h: HelperInput)
    requires 0 < k <= |gs| && Fits(q, h) && Within(q, h) && Covers(q) == gs[..k]
    requires b == Then(q, b2) && ShapeOf(b2, gs[k..], h)
    ensures ShapeOf(b, gs, h)
  {
    if b2.Ok? {
      PlanCons(q, b2.value, h);
      assert gs[..k] + gs[k..] == gs;
    }
  }

  lemma KnownSuffix(gs: seq<string>, k: nat, h: HelperInput)
    requires k <= |gs| && Known(gs, h)
    ensures Known(gs[k..], h)
  {
    forall g | g in gs[k..] ensures g in h.dist && g in h.bounds {
      var j :| 0 <= j < |gs[k..]| && gs[k..][j] == g;
      assert gs[k + j] == g;
    }
  }

  /** The request a grade below 1000 routes opens fits and stays below
      1000 routes. */
  lemma OpeningFits(gs: seq<string>, h: HelperInput)
    requires |gs| > 0 && Known(gs, h) && h.dist[gs[0]] < 1000
    ensures var k := 1 + Take(h.dist[gs[0]], gs[1..], h.dist);
      k <= |gs| && Fits(Merged(gs[..k]), h) && Within(Merged(gs[..k]), h)
  {
    var k := 1 + Take(h.dist[gs[0]], gs[1..], h.dist);
    SumFirst(gs, k, h.dist);
    forall g | g in gs[..k] ensures g in h.dist && g in h.bounds {
      var j :| 0 <= j < k && gs[..k][j] == g;
      assert gs[j] == g;
    }
  }

  /** A request in front of a plan keeps every request fitting and within
      its bounds, and puts its grades in front. */
  lemma PlanCons(q: Request, rest: seq<Request>, h: HelperInput)
    requires Fits(q, h) && Within(q, h) && AllFit(rest, h)
    requires forall i :: 0 <= i < |rest| ==> Within(rest[i], h)
    ensures AllFit([q] + rest, h) && GradesOf([q] + rest) == Covers(q) + GradesOf(rest)
    ensures forall i :: 0 <= i < |[q] + rest| ==> Within(([q] + rest)[i], h)
  {
    assert ([q] + rest)[1..] == rest;
  }

  lemma PlanOne(q: Request, h: HelperInput)
    requires Fits(q, h) && Within(q, h)
    ensures AllFit([q], h) && GradesOf([q]) == Covers(q)
    ensures forall i :: 0 <= i < 1 ==> Within([q][i], h)
  {
    assert [q][1..] == [];
  }

  /** The routes of the grade a request starts with. */
  function FirstRoutes(q: Request, h: HelperInput): int {
    match q
    case Merged(b) => if |b| > 0 then RoutesOf(h.dist, b[0]) else 0
    case SplitOf(g) => RoutesOf(h.dist, g)
  }

  /** A request followed by the plan of what is left, or the error that plan
      runs into. */
  function Then(q: Request, rest: Result<seq<Request>, ScrapeError>): Result<seq<Request>, ScrapeError> {
    if rest.Ok? then Ok([q] + rest.value) else Err(rest.error)
  }

  /** A plan that starts with a grade of more than 1000 routes: its split,
      then the plan of the rest, or KeyError when it has no split bounds. */
  lemma SplitPlan(gs: seq<string>, h: HelperInput)
    requires |gs| > 1 && Known(gs, h) && h.dist[gs[0]] > 1000
    ensures gs[0] !in h.splits ==> Batches(gs, h) == Err(KeyError)
    ensures gs[0] in h.splits ==> var rest := Batches(gs[1..], h);
      Batches(gs, h) == Then(SplitOf(gs[0]), rest)
  {
  }

  /** A plan that starts with a merged request followed by more grades:
      that request, then the plan of the rest. */
  lemma MergedPlan(gs: seq<string>, h: HelperInput)
    requires |gs| > 0 && Known(gs, h) && h.dist[gs[0]] < 1000
    ensures var k := 1 + Take(h.dist[gs[0]], gs[1..], h.dist);
      k == |gs| ==> Batches(gs, h) == Ok([Merged(gs)])
    ensures var k := 1 + Take(h.dist[gs[0]], gs[1..], h.dist);
      k < |gs| ==> var rest := Batches(gs[k..], h);
        Batches(gs, h) == Then(Merged(gs[..k]), rest)
  {
  }

  /** A merged request is closed only when the next grade would take it to
      1000 routes or more. */
  predicate Greedy(reqs: seq<Request>, h: HelperInput) {
    forall i :: 0 <= i < |reqs| - 1 && reqs[i].Merged? ==> Routes(reqs[i], h) + FirstRoutes(reqs[i + 1], h) >= 1000
  }

  lemma GreedyCons(q: Request, rest: seq<Request>, h: HelperInput)
    requires Greedy(rest, h)
    requires q.Merged? && |rest| > 0 ==> Routes(q, h) + FirstRoutes(rest[0], h) >= 1000
    ensures Greedy([q] + rest, h)
  {
    var reqs := [q] + rest;
    assert forall i :: 1 <= i < |reqs| ==> reqs[i] == rest[i - 1];
    forall i | 0 <= i < |reqs| - 1 && reqs[i].Merged?
      ensures Routes(reqs[i], h) + FirstRoutes(reqs[i + 1], h) >= 1000
    {
      if i > 0 {
        assert reqs[i] == rest[i - 1] && reqs[i + 1] == rest[i];
      }
    }
  }

  /** Merging is greedy: every merged request of the plan but the last is
      closed only because the grade after it would take it to 1000 routes
      or more. */
  lemma {:induction false} BatchesGreedy(gs: seq<string>, h: HelperInput)
    requires |gs| > 0 && Known(gs, h) && Batches(gs, h).Ok?
    ensures Greedy(Batches(gs, h).value, h)
    decreases |gs|
  {
    if h.dist[gs[0]] >= 1000 {
      SplitPlan(gs, h);
      BatchesGreedy(gs[1..], h);
      GreedyCons(SplitOf(gs[0]), Batches(gs[1..], h).value, h);
    } else {
      MergedPlan(gs, h);
      var k := 1 + Take(h.dist[gs[0]], gs[1..], h.dist);
      if k < |gs| {
        BatchesGreedy(gs[k..], h);
        MergedBoundary(gs, h);
        GreedyCons(Merged(gs[..k]), Batches(gs[k..], h).value, h);
      }
    }
  }

  lemma MergedBoundary(gs: seq<string>, h: HelperInput)
    requires |gs| > 0 && Known(gs, h) && Batches(gs, h).Ok? && h.dist[gs[0]] < 1000
    requires 1 + Take(h.dist[gs[0]], gs[1..], h.dist) < |gs|
    ensures var k := 1 + Take(h.dist[gs[0]], gs[1..], h.dist);
      Batches(gs[k..], h).Ok? && Sum(gs[..k], h.dist) + FirstRoutes(Batches(gs[k..], h).value[0], h) >= 1000
  {
    MergedPlan(gs, h);
    var k := 1 + Take(h.dist[gs[0]], gs[1..], h.dist);
    var rest := Batches(gs[k..], h).value;
    SumFirst(gs, k, h.dist);
    BatchesShape(gs[k..], h);
    assert GradesOf(rest) == Covers(rest[0]) + GradesOf(rest[1..]);
    assert Covers(rest[0])[0] == gs[k];
    assert gs[1..][k - 1] == gs[k];
  }

  /** With counts that are not negative, no request takes in a grade of
      1000 routes or more. */
  lemma {:induction false} TakeBelow(total: int, gs: seq<string>, dist: map<string, int>)
    requires total >= 0 && forall g :: g in gs ==> g in dist && dist[g] >= 0
    ensures forall j :: 0 <= j < Take(total, gs, dist) ==> dist[gs[j]] < 1000
    decreases |gs|
  {
    if gs != [] && total + dist[gs[0]] < 1000 {
      TakeBelow(total + dist[gs[0]], gs[1..], dist);
      assert forall j :: 1 <= j < |gs| ==> gs[j] == gs[1..][j - 1];
    }
  }

  /** A grade the plan cannot get past: one of exactly 1000 routes, or one
      above 1000 without split bounds. */
  predicate Blocks(g: string, h: HelperInput) {
    RoutesOf(h.dist, g) == 1000 || (RoutesOf(h.dist, g) > 1000 && g !in h.splits)
  }

  /** The position of the first grade of `gs` that blocks, `|gs|` when none
      does. */
  function FirstBlock(gs: seq<string>, h: HelperInput): (k: nat)
    ensures k <= |gs| && (k < |gs| ==> Blocks(gs[k], h))
    ensures forall i :: 0 <= i < k ==> !Blocks(gs[i], h)
  {
    if gs == [] || Blocks(gs[0], h) then 0
    else
      assert forall i :: 1 <= i < |gs| ==> gs[i] == gs[1..][i - 1];
      1 + FirstBlock(gs[1..], h)
  }

  /** Past `k` grades that do not block, the first blocking grade is the
      first one of the rest. */
  lemma {:induction false} FirstBlockAfter(gs: seq<string>, k: nat, h: HelperInput)
    requires k <= |gs| && forall j :: 0 <= j < k ==> !Blocks(gs[j], h)
    ensures FirstBlock(gs, h) == k + FirstBlock(gs[k..], h)
    decreases k
  {
    if k == 0 {
      assert gs[0..] == gs;
    } else {
      assert forall j :: 0 <= j < k - 1 ==> gs[1..][j] == gs[j + 1];
      FirstBlockAfter(gs[1..], k - 1, h);
      assert gs[1..][k - 1..] == gs[k..];
    }
  }

  /** With counts that are not negative, the plan fails at the first grade
      that blocks: it stalls when that grade has exactly 1000 routes and
      raises KeyError when it has more; past every grade it raises
      IndexError when the last has more than 1000 routes and succeeds
      otherwise. */
  lemma {:induction false} BatchesOutcome(gs: seq<string>, h: HelperInput)
    requires |gs| > 0 && Known(gs, h) && forall g :: g in gs ==> h.dist[g] >= 0
    ensures OutcomeOf(Batches(gs, h), gs, h)
    decreases |gs|
  {
    var n := h.dist[gs[0]];
    if n > 1000 && |gs| > 1 && gs[0] in h.splits {
      KnownSuffix(gs, 1, h);
      BatchesOutcome(gs[1..], h);
      OutcomeSplit(gs, h);
    } else if n > 1000 && gs[0] in h.splits {
      FirstBlockAfter(gs, 1, h);
    } else if n < 1000 {
      var k := 1 + Take(n, gs[1..], h.dist);
      if k < |gs| {
        BatchesOutcome(gs[k..], h);
      }
      OutcomeMerged(gs, h);
    }
  }

  /** The three outcomes of `BatchesOutcome`, for a plan `b` of `gs`. */
  predicate OutcomeOf(b: Result<seq<Request>, ScrapeError>, gs: seq<string>, h: HelperInput)
    requires |gs| > 0 && Known(gs, h)
  {
    var k := FirstBlock(gs, h);
    && (b == Err(Diverges) <==> k < |gs| && h.dist[gs[k]] == 1000)
    && (b == Err(KeyError) <==> k < |gs| && h.dist[gs[k]] > 1000)
    && (b == Err(IndexError) <==> k == |gs| && h.dist[gs[|gs| - 1]] > 1000)
    && (b.Ok? <==> k == |gs| && h.dist[gs[|gs| - 1]] < 1000)
  }

  predicate PlanOutcome(gs: seq<string>, h: HelperInput)
    requires |gs| > 0 && Known(gs, h)
  {
    OutcomeOf(Batches(gs, h), gs, h)
  }

  lemma OutcomeSplit(gs: seq<string>, h: HelperInput)
    requires |gs| > 1 && Known(gs, h) && h.dist[gs[0]] > 1000 && gs[0] in h.splits
    requires PlanOutcome(gs[1..], h)
    ensures PlanOutcome(gs, h)
  {
    SplitPlan(gs, h);
    OutcomeAfter(Batches(gs, h), Batches(gs[1..], h), SplitOf(gs[0]), gs, 1, h);
  }

  /** A plan that opens with a request for `k` grades none of which
      blocks, followed by more grades, has the outcome of the plan of the
      rest. */
  lemma OutcomeAfter(b: Result<seq<Request>, ScrapeError>, b2: Result<seq<Request>, ScrapeError>,
                     q: Request, gs: seq<string>, k: nat, h: HelperInput)
    requires 0 < k < |gs| && Known(gs, h) && forall j :: 0 <= j < k ==> !Blocks(gs[j], h)
    requires b == Then(q, b2) && OutcomeOf(b2, gs[k..], h)
    ensures OutcomeOf(b, gs, h)
  {
    FirstBlockAfter(gs, k, h);
    var m := FirstBlock(gs[k..], h);
    if m < |gs| - k {
      assert gs[k + m] == gs[k..][m];
    }
    assert gs[|gs| - 1] == gs[k..][|gs| - k - 1];
  }

  lemma OutcomeMerged(gs: seq<string>, h: HelperInput)
    requires |gs| > 0 && Known(gs, h) && forall g :: g in gs ==> h.dist[g] >= 0
    requires h.dist[gs[0]] < 1000
    requires var k := 1 + Take(h.dist[gs[0]], gs[1..], h.dist); k < |gs| ==> PlanOutcome(gs[k..], h)
    ensures PlanOutcome(gs, h)
  {
    var n := h.dist[gs[0]];
    var k := 1 + Take(n, gs[1..], h.dist);
    OpeningBelow(gs, h);
    assert forall j :: 0 <= j < k ==> !Blocks(gs[j], h) by {
      forall j | 0 <= j < k ensures !Blocks(gs[j], h) {
        assert gs[j] in gs;
      }
    }
    MergedPlan(gs, h);
    if k < |gs| {
      OutcomeAfter(Batches(gs, h), Batches(gs[k..], h), Merged(gs[..k]), gs, k, h);
    } else {
      FirstBlockAfter(gs, k, h);
    }
  }

  /** The grades a merging request takes in have fewer than 1000 routes. */
  lemma OpeningBelow(gs: seq<string>, h: HelperInput)
    requires |gs| > 0 && Known(gs, h) && forall g :: g in gs ==> h.dist[g] >= 0
    requires h.dist[gs[0]] < 1000
    ensures forall j :: 0 <= j < 1 + Take(h.dist[gs[0]], gs[1..], h.dist) ==> h.dist[gs[j]] < 1000
  {
    TakeBelow(h.dist[gs[0]], gs[1..], h.dist);
    assert forall j :: 1 <= j < |gs| ==> gs[j] == gs[1..][j - 1];
  }

  // ---------------------------------------------------------------------------
  // The helper carries out the plan

  /** The routes the cache has counted when the last request of a plan goes
      out: those of every request before it. */
  function Counted(reqs: seq<Request>, h: HelperInput): int
    requires |reqs| > 0
  {
    if |reqs| == 1 then 0 else Routes(reqs[0], h) + Counted(reqs[1..], h)
  }

  /** The progress reported before each request of a plan, `done` routes
      counted before the first: the share of `total` counted so far, in
      whole percent rounded down. */
  function Reports(total: int, done: int, reqs: seq<Request>, h: HelperInput): seq<int>
    requires total != 0 && |reqs| > 0
    decreases |reqs|
  {
    [FloorDiv(100 * done, total)] + (if |reqs| == 1 then [] else Reports(total, done + Routes(reqs[0], h), reqs[1..], h))
  }

  /** The helper, from state `t` whose cache reads `c` after its first
      update, ends in `r` having carried out the plan `b`: it fails when the
      plan does and with the same exception, and otherwise it has sent the
      requests of the plan, counted the routes of all but the last, and
      reported progress before each. */
  predicate Follows(r: Batch, t: Batch, c: seq<int>, b: Result<seq<Request>, ScrapeError>, h: HelperInput)
    requires |c| >= 2 && (h.reporting ==> c[0] != 0)
    requires b.Ok? ==> |b.value| > 0
  {
    && (r.failed.None? <==> b.Ok?)
    && (b.Err? ==> r.failed == Some(b.error))
    && (b.Ok? ==> r.log == t.log + LogOf(b.value, h)
                  && r.cache == c[1 := c[1] + Counted(b.value, h)]
                  && r.progress == t.progress + (if h.reporting then Reports(c[0], c[1], b.value, h) else []))
  }

  /** From `t` to `t2` the helper has sent `q` and reported the progress
      the cache `c` shows. */
  predicate Sends(t: Batch, t2: Batch, c: seq<int>, q: Request, h: HelperInput)
    requires |c| >= 2 && (h.reporting ==> c[0] != 0)
  {
    && t2.log == t.log + Sent(q, h)
    && t2.progress == t.progress + (if h.reporting then [FloorDiv(100 * c[1], c[0])] else [])
  }

  /** Carrying out one request and then the rest of a plan carries out the
      whole plan. */
  lemma FollowsCons(r: Batch, t: Batch, t2: Batch, c: seq<int>, c2: seq<int>, q: Request,
                    b2: Result<seq<Request>, ScrapeError>, h: HelperInput)
    requires |c| >= 2 && (h.reporting ==> c[0] != 0)
    requires b2.Ok? ==> |b2.value| > 0
    requires Sends(t, t2, c, q, h)
    requires c2 == c[1 := c[1] + Routes(q, h)] && Follows(r, t2, c2, b2, h)
    ensures Follows(r, t, c, Then(q, b2), h)
  {
    if b2.Ok? {
      var rest := b2.value;
      LogStep(r.log, t.log, t2.log, q, rest, h);
      CacheStep(r.cache, c, c2, q, rest, h);
      ProgressStep(r.progress, t.progress, t2.progress, c, c2, q, rest, h);
      FollowsOk(r, t, c, [q] + rest, h);
    }
  }

  lemma LogStep(log: seq<(string, string)>, log0: seq<(string, string)>, log1: seq<(string, string)>,
                q: Request, rest: seq<Request>, h: HelperInput)
    requires |rest| > 0 && log1 == log0 + Sent(q, h) && log == log1 + LogOf(rest, h)
    ensures log == log0 + LogOf([q] + rest, h)
  {
    var reqs := [q] + rest;
    assert reqs[0] == q && reqs[1..] == rest;
    LogCons(reqs, h);
    Regroup(log0, Sent(q, h), LogOf(rest, h));
  }

  /** Concatenation is associative. */
  lemma Regroup<T>(a: seq<T>, b: seq<T>, c: seq<T>)
    ensures a + b + c == a + (b + c)
  {
  }

  lemma CacheStep(cache: seq<int>, c: seq<int>, c2: seq<int>, q: Request, rest: seq<Request>, h: HelperInput)
    requires |c| >= 2 && |rest| > 0
    requires c2 == c[1 := c[1] + Routes(q, h)] && cache == c2[1 := c2[1] + Counted(rest, h)]
    ensures cache == c[1 := c[1] + Counted([q] + rest, h)]
  {
    var reqs := [q] + rest;
    assert reqs[0] == q && reqs[1..] == rest;
    CountedCons(reqs, h);
    AddTwice(c, Routes(q, h), Counted(rest, h));
  }

  lemma ProgressStep(p: seq<int>, p0: seq<int>, p1: seq<int>, c: seq<int>, c2: seq<int>,
                     q: Request, rest: seq<Request>, h: HelperInput)
    requires |c| >= 2 && (h.reporting ==> c[0] != 0) && |rest| > 0
    requires c2 == c[1 := c[1] + Routes(q, h)]
    requires p1 == p0 + (if h.reporting then [FloorDiv(100 * c[1], c[0])] else [])
    requires p == p1 + (if h.reporting then Reports(c2[0], c2[1], rest, h) else [])
    ensures p == p0 + (if h.reporting then Reports(c[0], c[1], [q] + rest, h) else [])
  {
    if h.reporting {
      UpdatedSlots(c, c2, Routes(q, h));
      ReportsStep(p, p0, p1, c[0], c[1], c2[0], c2[1], q, rest, h);
    } else {
      assert p1 + [] == p1 && p0 + [] == p0;
    }
  }

  lemma UpdatedSlots(c: seq<int>, c2: seq<int>, n: int)
    requires |c| >= 2 && c2 == c[1 := c[1] + n]
    ensures c2[0] == c[0] && c2[1] == c[1] + n
  {
  }

  lemma ReportsStep(p: seq<int>, p0: seq<int>, p1: seq<int>, total: int, done: int, total2: int, done2: int,
                    q: Request, rest: seq<Request>, h: HelperInput)
    requires total != 0 && |rest| > 0 && total2 == total && done2 == done + Routes(q, h)
    requires p1 == p0 + [FloorDiv(100 * done, total)]
    requires p == p1 + Reports(total2, done2, rest, h)
    ensures p == p0 + Reports(total, done, [q] + rest, h)
  {
    var head := [FloorDiv(100 * done, total)];
    var later := Reports(total, done + Routes(q, h), rest, h);
    assert Reports(total, done, [q] + rest, h) == head + later by { ReportsCons(total, done, q, rest, h); }
    assert p == p0 + (head + later) by { Regroup(p0, head, later); }
  }

  /** Counting `x` routes and then `y` counts `x + y`. */
  lemma AddTwice(c: seq<int>, x: int, y: int)
    requires |c| >= 2
    ensures c[1 := c[1] + x][1 := c[1] + x + y] == c[1 := c[1] + (x + y)]
  {
    var l, r := c[1 := c[1] + x][1 := c[1] + x + y], c[1 := c[1] + (x + y)];
    assert |l| == |r|;
    forall i | 0 <= i < |l| ensures l[i] == r[i] {
    }
  }

  lemma FollowsOk(r: Batch, t: Batch, c: seq<int>, reqs: seq<Request>, h: HelperInput)
    requires |c| >= 2 && (h.reporting ==> c[0] != 0) && |reqs| > 0
    requires r.failed.None? && r.log == t.log + LogOf(reqs, h) && r.cache == c[1 := c[1] + Counted(reqs, h)]
    requires r.progress == t.progress + (if h.reporting then Reports(c[0], c[1], reqs, h) else [])
    ensures Follows(r, t, c, Ok(reqs), h)
  {
  }


  /** The log, the count and the reports of a plan, one request at a time. */
  lemma LogCons(reqs: seq<Request>, h: HelperInput)
    requires |reqs| > 1
    ensures LogOf(reqs, h) == Sent(reqs[0], h) + LogOf(reqs[1..], h)
  {
  }

  lemma CountedCons(reqs: seq<Request>, h: HelperInput)
    requires |reqs| > 1
    ensures Counted(reqs, h) == Routes(reqs[0], h) + Counted(reqs[1..], h)
  {
  }

  lemma ReportsCons(total: int, done: int, q: Request, rest: seq<Request>, h: HelperInput)
    requires total != 0 && |rest| > 0
    ensures Reports(total, done, [q] + rest, h)
            == [FloorDiv(100 * done, total)] + Reports(total, done + Routes(q, h), rest, h)
  {
    var reqs := [q] + rest;
    assert reqs[0] == q && reqs[1..] == rest;
  }

  /** A call of `reset_params` that neither fails on the cache nor on a
      missing key: no error yet, a grade left, every grade left known, and
      a total to report against. */
  predicate Resumes(t: Batch, prev: Option<int>, h: HelperInput) {
    && t.failed.None? && |t.grades| > 0 && Known(t.grades, h)
    && CacheAfter(t.cache, prev).Ok? && (h.reporting ==> t.cache[0] != 0)
  }

  /** What `reset_params` leaves when it does not fail on the cache or a
      missing key. */
  lemma ResetLoads(t: Batch, prev: Option<int>, h: HelperInput)
    requires Resumes(t, prev, h)
    ensures var c := CacheAfter(t.cache, prev).value; var g := t.grades[0]; var n := h.dist[g];
      Reset(t, prev, h) == t.(cache := c,
        progress := t.progress + (if h.reporting then [FloorDiv(100 * c[1], c[0])] else []),
        numRoutes := n, param1 := h.bounds[g].0, param2 := h.bounds[g].1,
        grades := if n < 1000 then t.grades[1..] else t.grades,
        failed := if n == 1000 then Some(Diverges) else None)
  {
  }

  /** The grades `k` consecutive merging turns take in. */
  function Absorb(s: Batch, k: nat, h: HelperInput): Batch
    requires k <= |s.grades| && Known(s.grades, h)
  {
    s.(grades := s.grades[k..], numRoutes := s.numRoutes + Sum(s.grades[..k], h.dist),
       param2 := if k == 0 then s.param2 else h.bounds[s.grades[k - 1]].1)
  }

  /** The merging turns of the loop take in exactly the grades `Take`
      counts. */
  lemma {:induction false} AbsorbLoop(s: Batch, h: HelperInput)
    requires s.failed.None? && s.numRoutes < 1000 && Known(s.grades, h)
    ensures Loop(s, h) == Loop(Absorb(s, Take(s.numRoutes, s.grades, h.dist), h), h)
    decreases |s.grades|
  {
    var k := Take(s.numRoutes, s.grades, h.dist);
    if k == 0 {
      assert s.grades[0..] == s.grades;
      assert Absorb(s, 0, h) == s;
    } else {
      var g := s.grades[0];
      var s1 := s.(numRoutes := s.numRoutes + h.dist[g], param2 := h.bounds[g].1, grades := s.grades[1..]);
      assert Step(s, h) == s1;
      AbsorbLoop(s1, h);
      assert Take(s1.numRoutes, s1.grades, h.dist) == k - 1;
      SumFirst(s.grades, k, h.dist);
      assert s.grades[1..][k - 1..] == s.grades[k..];
      if k > 1 {
        assert s.grades[1..][k - 2] == s.grades[k - 1];
      }
      assert Absorb(s1, k - 1, h) == Absorb(s, k, h);
    }
  }

  /** From a call of `reset_params` on, the helper carries out the plan of
      the grades left. */
  lemma {:induction false} ResetLoop(t: Batch, prev: Option<int>, h: HelperInput)
    requires Resumes(t, prev, h)
    ensures Follows(Loop(Reset(t, prev, h), h), t, CacheAfter(t.cache, prev).value, Batches(t.grades, h), h)
    decreases |t.grades|, 1
  {
    ResetLoads(t, prev, h);
    var n := h.dist[t.grades[0]];
    if n > 1000 && t.grades[0] !in h.splits {
      SplitMissing(t, prev, h);
    } else if n > 1000 && |t.grades| == 1 {
      SplitLast(t, prev, h);
    } else if n > 1000 {
      ResetLoopSplit(t, prev, h);
    } else if n < 1000 && Opening(t.grades, h) == |t.grades| {
      MergedLast(t, prev, h);
    } else if n < 1000 {
      ResetLoopMerged(t, prev, h);
    }
  }

  /** The state in which a split turn calls `reset_params` again: the
      split requests sent and the grade dropped. */
  function AfterSplit(t: Batch, prev: Option<int>, h: HelperInput): Batch
    requires t.failed.None?
  {
    var s := Reset(t, prev, h);
    s.(log := s.log + (if |t.grades| > 0 && t.grades[0] in h.splits then h.splits[t.grades[0]] else []),
       grades := if |s.grades| > 0 then s.grades[1..] else [])
  }

  /** A grade above 1000 routes: `reset_params` loads it, the next turn
      sends its split requests and calls `reset_params` again. */
  lemma SplitTurn(t: Batch, prev: Option<int>, h: HelperInput)
    requires Resumes(t, prev, h)
    requires h.dist[t.grades[0]] > 1000 && t.grades[0] in h.splits
    ensures var c := CacheAfter(t.cache, prev).value; var t2 := AfterSplit(t, prev, h);
      && Loop(Reset(t, prev, h), h) == Loop(Reset(t2, Some(h.dist[t.grades[0]]), h), h)
      && t2.failed.None? && t2.cache == c && t2.grades == t.grades[1..]
      && Sends(t, t2, c, SplitOf(t.grades[0]), h)
      && Known(t2.grades, h) && (h.reporting ==> t2.cache[0] != 0)
      && CacheAfter(t2.cache, Some(h.dist[t.grades[0]])) == Ok(c[1 := c[1] + Routes(SplitOf(t.grades[0]), h)])
  {
    ResetLoads(t, prev, h);
    var s := Reset(t, prev, h);
    assert Step(s, h) == Reset(AfterSplit(t, prev, h), Some(h.dist[t.grades[0]]), h);
  }

  lemma {:induction false} ResetLoopSplit(t: Batch, prev: Option<int>, h: HelperInput)
    requires Resumes(t, prev, h)
    requires h.dist[t.grades[0]] > 1000 && t.grades[0] in h.splits && |t.grades| > 1
    ensures Follows(Loop(Reset(t, prev, h), h), t, CacheAfter(t.cache, prev).value, Batches(t.grades, h), h)
    decreases |t.grades|, 0
  {
    var g := t.grades[0];
    var t2 := AfterSplit(t, prev, h);
    var prev2 := Some(h.dist[g]);
    var b2 := Batches(t2.grades, h);
    SplitNext(t, prev, h);
    ResetLoop(t2, prev2, h);
    StepFollows(t, prev, t2, prev2, SplitOf(g), h, Loop(Reset(t2, prev2, h), h), b2);
    assert Loop(Reset(t, prev, h), h) == Loop(Reset(t2, prev2, h), h) by { SplitTurn(t, prev, h); }
    assert Batches(t.grades, h) == Then(SplitOf(g), b2) by { SplitPlan(t.grades, h); }
  }

  /** A last grade above 1000 routes: after its split requests
      `reset_params` finds no grade left and raises IndexError. */
  lemma SplitLast(t: Batch, prev: Option<int>, h: HelperInput)
    requires t.failed.None? && |t.grades| == 1 && Known(t.grades, h)
    requires CacheAfter(t.cache, prev).Ok? && (h.reporting ==> t.cache[0] != 0)
    requires h.dist[t.grades[0]] > 1000 && t.grades[0] in h.splits
    ensures Follows(Loop(Reset(t, prev, h), h), t, CacheAfter(t.cache, prev).value, Batches(t.grades, h), h)
  {
    var t2 := AfterSplit(t, prev, h);
    SplitTurn(t, prev, h);
    assert Reset(t2, Some(h.dist[t.grades[0]]), h).failed == Some(IndexError);
  }

  /** A grade above 1000 routes without split bounds: `reset_params` loads
      it, and the next turn raises KeyError looking up its split. */
  lemma SplitMissing(t: Batch, prev: Option<int>, h: HelperInput)
    requires Resumes(t, prev, h)
    requires h.dist[t.grades[0]] > 1000 && t.grades[0] !in h.splits
    ensures Follows(Loop(Reset(t, prev, h), h), t, CacheAfter(t.cache, prev).value, Batches(t.grades, h), h)
  {
    ResetLoads(t, prev, h);
    var s := Reset(t, prev, h);
    assert Step(s, h) == s.(failed := Some(KeyError));
  }

  /** How many grades the request opened by `gs[0]` takes in. */
  function Opening(gs: seq<string>, h: HelperInput): (k: nat)
    requires |gs| > 0 && Known(gs, h)
    ensures 0 < k <= |gs|
  {
    1 + Take(h.dist[gs[0]], gs[1..], h.dist)
  }

  /** The state in which a merging request is sent: the grades it takes in
      absorbed and its bounds logged. */
  function AfterMerge(t: Batch, prev: Option<int>, h: HelperInput): Batch
    requires Resumes(t, prev, h)
    requires h.dist[t.grades[0]] < 1000
  {
    ResetLoads(t, prev, h);
    var a := Absorb(Reset(t, prev, h), Opening(t.grades, h) - 1, h);
    a.(log := a.log + [(a.param1, a.param2)])
  }

  /** The plan of `gs` when its opening request leaves grades behind. */
  lemma MergedPlanAt(gs: seq<string>, h: HelperInput)
    requires |gs| > 0 && Known(gs, h) && h.dist[gs[0]] < 1000 && Opening(gs, h) < |gs|
    ensures Batches(gs, h) == Then(Merged(gs[..Opening(gs, h)]), Batches(gs[Opening(gs, h)..], h))
  {
    MergedPlan(gs, h);
  }

  /** Counting `n` more routes in a cache that has its two entries. */
  lemma CacheAdds(cache: seq<int>, n: int)
    requires |cache| >= 2
    ensures CacheAfter(cache, Some(n)) == Ok(cache[1 := cache[1] + n])
  {
  }

  lemma MergedState(t: Batch, prev: Option<int>, h: HelperInput)
    requires Resumes(t, prev, h)
    requires h.dist[t.grades[0]] < 1000
    ensures var c := CacheAfter(t.cache, prev).value; var t2 := AfterMerge(t, prev, h);
      var k := Opening(t.grades, h); var q := Merged(t.grades[..k]);
      && t2.failed.None? && t2.cache == c && t2.grades == t.grades[k..]
      && t2.numRoutes == Routes(q, h)
      && Sends(t, t2, c, q, h)
      && Known(t2.grades, h) && (h.reporting ==> t2.cache[0] != 0)
      && CacheAfter(t2.cache, Some(t2.numRoutes)) == Ok(c[1 := c[1] + Routes(q, h)])
  {
    var gs := t.grades;
    ResetLoads(t, prev, h);
    var k := Opening(gs, h);
    SumFirst(gs, k, h.dist);
    CacheAdds(CacheAfter(t.cache, prev).value, AfterMerge(t, prev, h).numRoutes);
    assert h.bounds[gs[k - 1]].1 == h.bounds[gs[..k][k - 1]].1;
    if k > 1 {
      assert gs[1..][k - 2] == gs[k - 1];
    }
  }

  /** A grade below 1000 routes: `reset_params` loads it, the following
      turns merge in the grades `Take` counts, and the turn after them sends
      the request, then calls `reset_params` again unless no grade is
      left. */
  lemma MergedTurn(t: Batch, prev: Option<int>, h: HelperInput)
    requires Resumes(t, prev, h)
    requires h.dist[t.grades[0]] < 1000
    ensures var t2 := AfterMerge(t, prev, h); var k := Opening(t.grades, h);
      && (k == |t.grades| ==> Loop(Reset(t, prev, h), h) == t2)
      && (k < |t.grades| ==> Loop(Reset(t, prev, h), h) == Loop(Reset(t2, Some(t2.numRoutes), h), h))
  {
    var gs := t.grades;
    ResetLoads(t, prev, h);
    var s := Reset(t, prev, h);
    var k := Opening(gs, h);
    AbsorbLoop(s, h);
    var a := Absorb(s, k - 1, h);
    assert a.grades == gs[k..];
    if k < |gs| {
      SumFirst(gs, k, h.dist);
      assert gs[1..][k - 1] == gs[k];
      assert Step(a, h) == Reset(AfterMerge(t, prev, h), Some(a.numRoutes), h);
    }
  }

  lemma {:induction false} ResetLoopMerged(t: Batch, prev: Option<int>, h: HelperInput)
    requires Resumes(t, prev, h)
    requires h.dist[t.grades[0]] < 1000 && Opening(t.grades, h) < |t.grades|
    ensures Follows(Loop(Reset(t, prev, h), h), t, CacheAfter(t.cache, prev).value, Batches(t.grades, h), h)
    decreases |t.grades|, 0
  {
    var k := Opening(t.grades, h);
    var t2 := AfterMerge(t, prev, h);
    var prev2 := Some(t2.numRoutes);
    var b2 := Batches(t2.grades, h);
    MergedNext(t, prev, h);
    ResetLoop(t2, prev2, h);
    StepFollows(t, prev, t2, prev2, Merged(t.grades[..k]), h, Loop(Reset(t2, prev2, h), h), b2);
    assert Loop(Reset(t, prev, h), h) == Loop(Reset(t2, prev2, h), h) by { MergedTurn(t, prev, h); }
    assert Batches(t.grades, h) == Then(Merged(t.grades[..k]), b2) by { MergedPlanAt(t.grades, h); }
  }

  /** Between `t` and `t2` the helper sent `q` and counted its routes, and
      from `t2` it calls `reset_params` again with `prev2`. */
  predicate Turn(t: Batch, prev: Option<int>, t2: Batch, prev2: Option<int>, q: Request, h: HelperInput)
    requires Resumes(t, prev, h)
  {
    var c := CacheAfter(t.cache, prev).value;
    && Resumes(t2, prev2, h) && Sends(t, t2, c, q, h)
    && CacheAfter(t2.cache, prev2) == Ok(c[1 := c[1] + Routes(q, h)])
  }

  /** The turn of a merging request that leaves grades behind. */
  lemma MergedNext(t: Batch, prev: Option<int>, h: HelperInput)
    requires Resumes(t, prev, h)
    requires h.dist[t.grades[0]] < 1000 && Opening(t.grades, h) < |t.grades|
    ensures var t2 := AfterMerge(t, prev, h);
      Turn(t, prev, t2, Some(t2.numRoutes), Merged(t.grades[..Opening(t.grades, h)]), h)
  {
    MergedState(t, prev, h);
  }

  /** The turn of a split grade that is not the last one. */
  lemma SplitNext(t: Batch, prev: Option<int>, h: HelperInput)
    requires Resumes(t, prev, h) && h.dist[t.grades[0]] > 1000 && t.grades[0] in h.splits && |t.grades| > 1
    ensures Turn(t, prev, AfterSplit(t, prev, h), Some(h.dist[t.grades[0]]), SplitOf(t.grades[0]), h)
  {
    SplitTurn(t, prev, h);
  }

  /** One turn of the helper: when the run from `t` is the run from `t2`,
      the plan of `t` is `q` followed by the plan of `t2`, and `q` was sent
      between the two with its routes counted, the run from `t` carries out
      the plan of `t` as soon as the run from `t2` carries out its own. */
  lemma StepFollows(t: Batch, prev: Option<int>, t2: Batch, prev2: Option<int>, q: Request, h: HelperInput,
                    r: Batch, b2: Result<seq<Request>, ScrapeError>)
    requires Resumes(t, prev, h) && Turn(t, prev, t2, prev2, q, h) && (b2.Ok? ==> |b2.value| > 0)
    requires Follows(r, t2, CacheAfter(t2.cache, prev2).value, b2, h)
    ensures Follows(r, t, CacheAfter(t.cache, prev).value, Then(q, b2), h)
  {
    var c := CacheAfter(t.cache, prev).value;
    FollowsCons(r, t, t2, c, CacheAfter(t2.cache, prev2).value, q, b2, h);
  }

  /** A request that takes in every grade left is the last one sent. */
  lemma MergedLast(t: Batch, prev: Option<int>, h: HelperInput)
    requires Resumes(t, prev, h)
    requires h.dist[t.grades[0]] < 1000 && Opening(t.grades, h) == |t.grades|
    ensures Follows(Loop(Reset(t, prev, h), h), t, CacheAfter(t.cache, prev).value, Batches(t.grades, h), h)
  {
    var gs := t.grades;
    MergedState(t, prev, h);
    MergedTurn(t, prev, h);
    MergedPlan(gs, h);
    assert gs[..|gs|] == gs;
    FollowsSingle(AfterMerge(t, prev, h), t, CacheAfter(t.cache, prev).value, Merged(gs), h);
  }

  /** A plan of one request is carried out by sending it, with progress
      reported once and nothing counted. */
  lemma FollowsSingle(r: Batch, t: Batch, c: seq<int>, q: Request, h: HelperInput)
    requires |c| >= 2 && (h.reporting ==> c[0] != 0)
    requires r.failed.None? && r.cache == c && Sends(t, r, c, q, h)
    ensures Follows(r, t, c, Ok([q]), h)
  {
    assert LogOf([q], h) == Sent(q, h) + LogOf([], h);
    assert c[1 := c[1] + Counted([q], h)] == c;
  }

  /** A helper run from a state with nothing sent, nothing reported and a
      fresh cache `[total]` carries out the plan of its grades. */
  lemma FreshFollows(t: Batch, h: HelperInput)
    requires t.failed.None? && |t.grades| > 0 && Known(t.grades, h)
    requires |t.cache| == 1 && (h.reporting ==> t.cache[0] != 0) && t.log == [] && t.progress == []
    ensures var r := Loop(Reset(t, None, h), h); var b := Batches(t.grades, h);
      && (r.failed.None? <==> b.Ok?)
      && (b.Err? ==> r.failed == Some(b.error))
      && (b.Ok? ==> r.log == LogOf(b.value, h)
                    && r.cache == [t.cache[0], Counted(b.value, h)]
                    && r.progress == (if h.reporting then Reports(t.cache[0], 0, b.value, h) else []))
  {
    var c := t.cache + [0];
    assert CacheAfter(t.cache, None) == Ok(c);
    ResetLoop(t, None, h);
    FollowsFromNothing(Loop(Reset(t, None, h), h), t, c, Batches(t.grades, h), h);
  }

  /** What `Follows` says of a run that starts with nothing sent, nothing
      reported and no route counted. */
  lemma FollowsFromNothing(r: Batch, t: Batch, c: seq<int>, b: Result<seq<Request>, ScrapeError>, h: HelperInput)
    requires |c| == 2 && c[1] == 0 && (h.reporting ==> c[0] != 0) && t.log == [] && t.progress == []
    requires b.Ok? ==> |b.value| > 0
    requires Follows(r, t, c, b, h)
    ensures (r.failed.None? <==> b.Ok?) && (b.Err? ==> r.failed == Some(b.error))
    ensures b.Ok? ==> r.log == LogOf(b.value, h)
                      && r.cache == [c[0], Counted(b.value, h)]
                      && r.progress == (if h.reporting then Reports(c[0], 0, b.value, h) else [])
  {
    if b.Ok? {
      assert c[1 := c[1] + Counted(b.value, h)] == [c[0], Counted(b.value, h)];
    }
  }

  /** `download_area_helper` on a fresh cache `[total]` sends exactly the
      requests of the plan for 5.6 to 5.13, in order, or raises what the
      plan runs into; it counts in the cache the routes of every request but
      the last, and before each request reports the share of `total`
      counted so far. */
  lemma HelperFollowsPlan(cache: seq<int>, h: HelperInput)
    requires Known(HelperGrades, h) && |cache| == 1 && (h.reporting ==> cache[0] != 0)
    ensures var r := Helper(cache, h); var b := Batches(HelperGrades, h);
      && (r.failed.None? <==> b.Ok?)
      && (b.Err? ==> r.failed == Some(b.error))
      && (b.Ok? ==> r.log == LogOf(b.value, h)
                    && r.cache == [cache[0], Counted(b.value, h)]
                    && r.progress == (if h.reporting then Reports(cache[0], 0, b.value, h) else []))
  {
    FreshFollows(Start(cache), h);
  }

  /** With counts that are not negative, the helper fails at the first of
      the eight grades that has exactly 1000 routes (it stalls) or more than
      1000 without split bounds (KeyError); past all of them it raises
      IndexError when 5.13 has more than 1000, and finishes otherwise. */
  lemma HelperOutcome(cache: seq<int>, h: HelperInput)
    requires Known(HelperGrades, h) && |cache| == 1 && (h.reporting ==> cache[0] != 0)
    requires forall g :: g in HelperGrades ==> h.dist[g] >= 0
    ensures var k := FirstBlock(HelperGrades, h);
      Helper(cache, h).failed == Some(Diverges) <==> k < |HelperGrades| && h.dist[HelperGrades[k]] == 1000
    ensures var k := FirstBlock(HelperGrades, h);
      Helper(cache, h).failed == Some(KeyError) <==> k < |HelperGrades| && h.dist[HelperGrades[k]] > 1000
    ensures Helper(cache, h).failed == Some(IndexError) <==>
      FirstBlock(HelperGrades, h) == |HelperGrades| && h.dist[LastHelperGrade] > 1000
    ensures Helper(cache, h).failed.None? <==>
      FirstBlock(HelperGrades, h) == |HelperGrades| && h.dist[LastHelperGrade] < 1000
  {
    HelperFollowsPlan(cache, h);
    BatchesOutcome(HelperGrades, h);
  }

  /** A cache that already went through a helper call makes the next call
      raise TypeError before it sends anything: `num_routes` is still None
      when it is added to the cache. */
  lemma HelperReusedCache(cache: seq<int>, h: HelperInput)
    requires |cache| >= 2
    ensures Helper(cache, h).failed == Some(TypeError) && Helper(cache, h).log == []
    ensures Helper(cache, h).cache == cache
  {
  }

  /** The helper as `download_area` means it to run on a cache an earlier
      sub-area has already used: the first `reset_params` adds no routes,
      so the count goes on from where the earlier call left it. */
  function ResumedHelper(cache: seq<int>, h: HelperInput): Batch {
    Loop(Reset(Start(cache), Some(0), h), h)
  }

  /** The cache `[total, counted]` with `n` more routes counted. */
  function Bump(c: seq<int>, n: int): (r: seq<int>)
    requires |c| == 2
    ensures |r| == 2 && r[0] == c[0] && r[1] == c[1] + n
  {
    [c[0], c[1] + n]
  }

  /** On the cache `[total, counted]` an earlier call left, the corrected
      helper carries out the plan: it fails exactly when the plan does, and
      otherwise sends its requests, adds the routes of all but the last to
      those already counted, and reports the share counted so far. */
  lemma ResumedHelperFollowsPlan(cache: seq<int>, h: HelperInput)
    requires Known(HelperGrades, h) && |cache| == 2 && (h.reporting ==> cache[0] != 0)
    ensures var r := ResumedHelper(cache, h); var b := Batches(HelperGrades, h);
      && (r.failed.None? <==> b.Ok?)
      && (b.Err? ==> r.failed == Some(b.error))
      && (b.Ok? ==> r.log == LogOf(b.value, h)
                    && r.cache == Bump(cache, Counted(b.value, h))
                    && r.progress == (if h.reporting then Reports(cache[0], cache[1], b.value, h) else []))
  {
    ResumedFollows(Start(cache), h);
  }

  /** Counting no routes leaves the cache as it was. */
  lemma CacheAddsNothing(cache: seq<int>)
    requires |cache| == 2
    ensures CacheAfter(cache, Some(0)) == Ok(cache)
  {
    assert cache[1 := cache[1] + 0] == cache;
  }

  /** A helper run on a used cache, from a state with nothing sent and
      nothing reported, carries out the plan of its grades when its first
      `reset_params` adds no routes. */
  lemma ResumedFollows(t: Batch, h: HelperInput)
    requires t.failed.None? && |t.grades| > 0 && Known(t.grades, h)
    requires |t.cache| == 2 && (h.reporting ==> t.cache[0] != 0) && t.log == [] && t.progress == []
    ensures var r := Loop(Reset(t, Some(0), h), h); var b := Batches(t.grades, h);
      && (r.failed.None? <==> b.Ok?)
      && (b.Err? ==> r.failed == Some(b.error))
      && (b.Ok? ==> r.log == LogOf(b.value, h)
                    && r.cache == Bump(t.cache, Counted(b.value, h))
                    && r.progress == (if h.reporting then Reports(t.cache[0], t.cache[1], b.value, h) else []))
  {
    CacheAddsNothing(t.cache);
    ResetLoop(t, Some(0), h);
    FollowsFromPair(Loop(Reset(t, Some(0), h), h), t, t.cache, Batches(t.grades, h), h);
  }

  /** What `Follows` says of a run that starts with nothing sent and
      nothing reported. */
  lemma FollowsFromPair(r: Batch, t: Batch, c: seq<int>, b: Result<seq<Request>, ScrapeError>, h: HelperInput)
    requires |c| == 2 && (h.reporting ==> c[0] != 0) && t.log == [] && t.progress == []
    requires b.Ok? ==> |b.value| > 0
    requires Follows(r, t, c, b, h)
    ensures (r.failed.None? <==> b.Ok?) && (b.Err? ==> r.failed == Some(b.error))
    ensures b.Ok? ==> r.log == LogOf(b.value, h)
                      && r.cache == Bump(c, Counted(b.value, h))
                      && r.progress == (if h.reporting then Reports(c[0], c[1], b.value, h) else [])
  {
    if b.Ok? {
      assert c[1 := c[1] + Counted(b.value, h)] == Bump(c, Counted(b.value, h));
    }
  }
}
