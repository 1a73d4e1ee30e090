# Rock-Radar core, modelled in Dafny

Rock-Radar downloads route data for rock-climbing areas from a climbing
website, parses the CSV exports into route records, builds an area tree of
regions, crags and routes, and computes statistics for the routes that fall
inside a grade filter. This project models the core of that pipeline:

- `grade.dfy` (module `Grades`): Yosemite Decimal System grades. It covers
  parsing "5.10b/c" into a base and a suffix, the numeric value
  `base * 100 + rank` of a suffix in the strict ranking, comparison, the
  34 common grades, and the loose range test `is_in_range`.
- `tree.dfy` (module `Trees`): the area tree as a value. It covers the
  rules of `add_child`, sort-key selection, and the recursive `sort`,
  which uses Python's stable `list.sort`.
- `crag_stats.dfy` (module `CragStats`): route matching against a filter.
  It also covers `calculate_total_num_routes`, `calculate_stats` and
  `init_stats`, each as a specification on the tree.
- `crag.dfy` (module `Crag`): the mutable `Node` class, with its children
  list, parent link and statistics. Its methods are proved against the
  value model. The module also has the `RouteFilter` class and the class
  level sort keys (`SortSettings`).
- `route_builder.dfy` (module `RouteBuilder`): finding or creating
  sub-areas, `add_path`, and `build_subtree` over a route dictionary.
- `parser.dfy` (module `Parser`): the area path of a CSV row, the route
  types cell, the route id in a URL, and `build_route_dict`.
- `scraper.dfy` (module `Scraper`): the URL helpers and the clean-up of a
  grade distribution. It also covers `is_manageable`, the region map, and
  `download_area_helper`, whose batching loop is modelled as the sequence
  of requests it sends.
- `utils.dfy` (module `Utils`): `string_to_int`, the file-type test of
  `extract_data`, and the project-root guard of `save_json_data`.
- `text.dfy`, `records.dfy`, `wrappers.dfy`: the Python `str` operations
  the core relies on, insertion-ordered dicts, and `Option`/`Result`.

A Python exception is an `Err` value, or an `Option` error returned by a
method. The model does not use preconditions to exclude inputs that the
source handles by raising.

## Model

| member | source | states |
|---|---|---|
| Grades.LooseEquivalents | src/custom_types/grade.py:13-19 | a suffix has loose equivalents exactly when it is one of "a", "b", "c", "d" or none |
| Grades.StrictRankingIsFlattenedTable | src/custom_types/grade.py:13-23 | the strict ranking is the loose table's lists joined in order |
| Grades.BuildStrictRanking | src/custom_types/grade.py:21-23 | the loop that builds the ranking yields exactly the flattened table |
| Grades.RankIsFirstPosition | src/custom_types/grade.py:89-93 | a suffix's rank is 10 plus the index of its first occurrence in the ranking (`list.index`) |
| Grades.RankedIffListed | src/custom_types/grade.py:89-93 | a suffix has a value exactly when it is in the strict ranking |
| Grades.BaseAndSuffix | src/custom_types/grade.py:71-87 | the character loop fails exactly when the part after the dot is missing or holds no digit, and otherwise returns the specified base and suffix |
| Grades.ParseWellFormed | src/custom_types/grade.py:71-87 | "prefix.digits suffix" parses to the digits' decimal value and that suffix |
| Grades.MainComponentOf | src/custom_types/grade.py:76-78 | the main component is the text after the dot, up to the first space |
| Grades.ParseExample | src/custom_types/grade.py:25-34 | "5.10b/c" is base 10, suffix "b/c", value 1016 |
| Grades.ParseFails | src/custom_types/grade.py:71-87 | parsing fails exactly when there is no main component or it has no digit; text without a dot raises the IndexError |
| Grades.DetermineValue | src/custom_types/grade.py:89-93 | a value exists exactly for ranked suffixes, and it is `base*100+rank` |
| Grades.NewGrade | src/custom_types/grade.py:25-28 | a constructed grade keeps its text, and its value agrees with its base and suffix |
| Grades.ParseKeepsText | src/custom_types/grade.py:25-34 | the text of a parsed grade is its input, and its value is consistent |
| Grades.Lt | src/custom_types/grade.py:40-42 | comparison raises exactly when either value is missing |
| Grades.Le | src/custom_types/grade.py:36-42 | `<=` raises exactly when a value is missing, and otherwise compares the values |
| Grades.ValueOrder | src/custom_types/grade.py:36-42 | grade order is lexicographic on (base, rank), and equality is the same base and rank |
| Grades.SameBaseAndSuffixEqual | src/custom_types/grade.py:36-38 | two texts with the same base and suffix give equal grades |
| Grades.LeTotalPreorder | src/custom_types/grade.py:36-42 | on valued grades, `<=` is reflexive, total and transitive |
| Grades.ParseAll | src/custom_types/grade.py:60-69 | a successful list parse has one grade per text, each the parse of its text |
| Grades.ParseFive | src/custom_types/grade.py:60-69 | "5.N" followed by letters a-d parses to base N with that suffix |
| Grades.CommonGradeParses | src/custom_types/grade.py:60-69 | each of the 34 common grade texts parses, and has its listed value |
| Grades.CommonValueAscending | src/custom_types/grade.py:60-69 | the common values strictly increase along the list |
| Grades.AllCommonGradesParse | src/custom_types/grade.py:60-69 | `get_all_common_grades` succeeds with 34 grades of the listed values |
| Grades.AllCommonGradesAscending | src/custom_types/grade.py:60-69 | the common grades come out in strictly ascending order |
| Grades.AllCommonGradesEnds | src/custom_types/grade.py:60-69 | the list runs from "5.0" to "5.15d" |
| Grades.InRangeMeaning | src/custom_types/grade.py:119-130 | `is_in_range` holds exactly when the strict test holds or a loose test against either bound holds, and it raises only for an unknown bound suffix |
| Grades.InRangeStrict | src/custom_types/grade.py:126 | a grade between the bounds is in range |
| Grades.InRangeLooseLower | src/custom_types/grade.py:95-105 | a grade of the lower bound's base whose suffix is loosely equivalent is in range |
| Grades.InRangeLooseUpper | src/custom_types/grade.py:107-117 | a grade of the upper bound's base whose suffix is loosely equivalent is in range |
| Grades.InRangeExamples | src/custom_types/grade.py:119-130 | 5.10+ is within 5.0..5.10c, and 5.11a matches a 5.11a lower bound even when the range is empty |
| Grades.InRangePins | src/custom_types/grade.py:119-130 | 5.15c and 5.15d are outside 5.0..5.15 while 5.15+ is inside, and 5.10a against a 5.10+ lower bound raises |
| Grades.InRangeMisses | src/custom_types/grade.py:107-130 | above the upper bound, with the upper base but an unrelated suffix, the grade is out of range |
| Grades.InRangeRaises | src/custom_types/grade.py:95-105 | a grade below a lower bound of its own base raises when that bound's suffix has no loose table |
| Trees.NewArea | src/custom_types/crag.py:65-73 | a fresh area is an inner node with no children, not a leaf parent, and has no coordinates |
| Trees.NewRoute | src/custom_types/crag.py:165-178 | a fresh route is a leaf with unset statistics, named "name (grade)" |
| Trees.SetCoordinates | src/custom_types/crag.py:83-87 | unset coordinates take the new value; set ones leave the area unchanged; name and children are kept |
| Trees.SetCoordinatesOnce | src/custom_types/crag.py:83-87 | a second assignment of coordinates has no effect |
| Trees.Children | src/custom_types/node.py:44-49 | `children` raises exactly on a leaf, and otherwise gives the child list |
| Trees.AddChildRules | src/custom_types/node.py:71-98 | a child is accepted exactly when the parent is not a leaf and a leaf goes only under a leaf parent or an empty node; it is appended and marks a leaf parent |
| Trees.LeafParentLatch | src/custom_types/node.py:71-84 | a leaf parent stays a leaf parent |
| Trees.AddChildKeepsShape | src/custom_types/node.py:71-98 | adding a child keeps the tree well shaped: leaves have no children, a leaf parent holds a leaf, and any other node holds only areas |
| Trees.SetKeys | src/custom_types/node.py:100-119 | each sort key takes the keyword argument when given, and otherwise keeps its value |
| Trees.SetSortKeys | src/custom_types/node.py:121-126 | selection succeeds exactly when both lower-cased names are in the attribute tables, and yields the table entries |
| Trees.SetSortKeysAlwaysRaises | src/custom_types/node.py:17-18 | with the empty attribute tables of the source, `set_sort_keys` always raises |
| Trees.LeafDirection | src/custom_types/node.py:138-148 | leaves sort in descending order exactly when the parent's own value for the key is not a string; when the parent lacks the attribute, exactly when the key is not `_grade` |
| Trees.InsSortMultiset | src/custom_types/node.py:133-136 | the stable sort is a permutation |
| Trees.InsSortSorted | src/custom_types/node.py:133-136 | the stable sort's result is ordered by key in the chosen direction |
| Trees.InsSortOfSorted | src/custom_types/node.py:133-136 | the stable sort leaves an already ordered list unchanged |
| Trees.InsSortTwice | src/custom_types/node.py:133-136 | sorting twice is sorting once |
| Trees.SortByPermutes | src/custom_types/node.py:133-136 | sorting nodes by their keys permutes the nodes |
| Trees.SortOrderPermutes | src/custom_types/node.py:133-136 | the order the sort produces is a permutation of the positions |
| Trees.SortByOrder | src/custom_types/node.py:133-136 | the k-th sorted node is the node at the k-th position of that permutation |
| Trees.KeysOfMeaning | src/custom_types/node.py:133-148 | keys are found exactly when every child has the attribute, and each key is that child's attribute |
| Trees.KeysOfMissing | src/custom_types/node.py:133-148 | one child without the attribute makes the key lookup fail |
| Trees.CollectOk | src/custom_types/node.py:158-161 | sorting all children succeeds exactly when each child sort does, keeping results in order |
| Trees.CollectFirstError | src/custom_types/node.py:158-161 | the first child sort that raises decides the error |
| Trees.SortEachOk | src/custom_types/node.py:158-161 | when each child sorts, the children are replaced by their sorted forms |
| Trees.SortEachErr | src/custom_types/node.py:158-161 | when the i-th child is the first to fail, `sort` raises its error |
| Trees.SortTreeKeepsNode | src/custom_types/node.py:150-161 | sorting changes only the children, keeps their number and every attribute |
| Trees.SortLeafParentOrders | src/custom_types/node.py:156-157 | a leaf parent's children are permuted and ordered by the leaf key |
| Trees.InternalSortPermutes | src/custom_types/node.py:158-161 | an inner node's children are a permutation of its sorted subtrees |
| Trees.SortChildrenTwice | src/custom_types/node.py:128-148 | sorting a child list twice is sorting it once |
| Trees.SortTreeTwice | src/custom_types/node.py:150-161 | `sort` is idempotent on the whole tree |
| CragStats.RouteStats | src/custom_types/crag.py:213-225 | a route's stats raise exactly when `is_match` does; a match counts 1 with raw score rating times popularity, and a miss has neither |
| CragStats.StatsOf | src/custom_types/crag.py:126-130 | `get_stats` raises only on a route whose stats were never computed, and reports the matching count and score |
| CragStats.CountInternalOk | src/custom_types/crag.py:102-114 | on an inner area, the total is the sum of the children's recomputed totals |
| CragStats.CountInternalErr | src/custom_types/crag.py:102-114 | the first child that raises decides the error of the total |
| CragStats.CountTotalCounts | src/custom_types/crag.py:102-114 | on a well-formed tree, `calculate_total_num_routes` succeeds and gives the number of routes below |
| CragStats.CalcInternalOk | src/custom_types/crag.py:132-144 | an area's stats are the sums over its recomputed children |
| CragStats.CalcInternalErr | src/custom_types/crag.py:132-144 | the first child that raises decides the error of `calculate_stats` |
| CragStats.CalcStatsCounts | src/custom_types/crag.py:132-144 | `calculate_stats` succeeds exactly when every grade comparison succeeds; it then counts the matching routes, and its raw score is the sum of rating times popularity over them |
| CragStats.MatchAtMostTotal | src/custom_types/crag.py:41-47 | no more routes match than exist |
| CragStats.CalcStatsKeepsNode | src/custom_types/crag.py:132-144 | computing stats keeps the name, kind, shape, total and coordinates, and leaves the stats readable |
| CragStats.CalcStatsTwice | src/custom_types/crag.py:132-144 | computing stats twice with one filter gives the same tree |
| CragStats.DefaultFilterBounds | src/custom_types/crag.py:11-13 | the default filter runs from 5.0 to 5.15 |
| CragStats.CountTotalSameRoutes | src/custom_types/crag.py:102-114 | counting totals keeps the same routes in the same places |
| CragStats.SameRoutesCounts | src/custom_types/crag.py:102-144 | trees with the same routes have the same counts |
| CragStats.InitStatsCounts | src/custom_types/crag.py:116-119 | `init_stats` succeeds exactly when all grade comparisons do; the total is then the route count, the matching count is at most the total, and the raw score sums rating times popularity over the matching routes |
| Crag.Node.Area | src/custom_types/crag.py:65-73 | a new area node holds a fresh area tree with no parent |
| Crag.Node.Route | src/custom_types/crag.py:165-178 | a new route node holds a fresh route leaf with no parent |
| Crag.Node.Children | src/custom_types/node.py:44-49 | the `children` property raises on a leaf, and otherwise gives the children list |
| Crag.Node.AddChild | src/custom_types/node.py:86-98 | `add_child` updates the node as the tree rule says, appends the child object, and leaves the node unchanged on error |
| Crag.Node.InitStats | src/custom_types/crag.py:116-119 | `init_stats` leaves the tree `InitStatsTree` specifies, or reports its error |
| Crag.Node.CalculateTotalNumRoutes | src/custom_types/crag.py:102-114 | the node's subtree becomes the recomputed totals, or the error is reported |
| Crag.Node.SumChildTotals | src/custom_types/crag.py:109-113 | the loop over children ends with the specified totals |
| Crag.Node.CountChild | src/custom_types/crag.py:111-112 | one child's recomputed total is added, and the other children are untouched |
| Crag.Node.SetCoordinates | src/custom_types/crag.py:83-87 | the coordinates setter follows the set-once rule |
| Crag.Node.ResetTotal | src/custom_types/crag.py:110 | only the total becomes 0 |
| Crag.Node.ResetStats | src/custom_types/crag.py:121-124 | only the matching count and score become 0 |
| Crag.Node.GetStats | src/custom_types/crag.py:126-130 | `get_stats` reads the node's statistics as specified |
| Crag.Node.CalculateStats | src/custom_types/crag.py:132-144 | the subtree becomes the specified stats tree, or the error is reported |
| Crag.Node.SumChildStats | src/custom_types/crag.py:134-143 | the loop over children ends with the specified sums |
| Crag.Node.CalcChildStats | src/custom_types/crag.py:136-143 | one child is recomputed and its counts added, and the other children are untouched |
| Crag.Node.Attribute | src/custom_types/node.py:134 | `getattr` of a sort key reads the tree's attribute |
| Crag.Node.ChildKeys | src/custom_types/node.py:133-136 | the keys of the children, or none when one lacks the attribute |
| Crag.Node.SortOwnChildren | src/custom_types/node.py:128-148 | the children list is always a permutation of the old one; it is sorted as specified on success, and left unchanged when a child lacks the key |
| Crag.Node.Reorder | src/custom_types/node.py:133-136 | the children object list and the tree are reordered by the same keys |
| Crag.Node.Sort | src/custom_types/node.py:150-161 | `sort` leaves the subtree `SortTree` gives, or reports its error |
| Crag.Node.SortKids | src/custom_types/node.py:158-160 | every child is sorted in turn, or the first error is reported |
| Crag.Node.SortChild | src/custom_types/node.py:159-160 | one child is sorted, and the other children are untouched |
| Crag.GradeOf | src/custom_types/crag.py:31-39 | a grade argument is used as is, and text is parsed |
| Crag.RouteFilter.constructor | src/custom_types/crag.py:11-13 | a new filter holds the default bounds |
| Crag.RouteFilter.Bounds | src/custom_types/crag.py:20-29 | the filter's bounds are its two grades |
| Crag.RouteFilter.SetLower | src/custom_types/crag.py:31-34 | the lower bound takes the grade or its parse, and stays unchanged when parsing raises |
| Crag.RouteFilter.SetUpper | src/custom_types/crag.py:36-39 | the upper bound takes the grade or its parse, and stays unchanged when parsing raises |
| Crag.GradeFrom | src/custom_types/crag.py:31-39 | the argument is turned into a grade as the setters do |
| Crag.SetFilter | src/custom_types/crag.py:146-149 | both bounds are set when both parse; a failing lower bound changes nothing; a failing upper bound leaves the new lower bound in place |
| Crag.SortSettings.constructor | src/custom_types/node.py:15-16 | both sort keys start as "name" |
| Crag.SortSettings.SetKeyArgs | src/custom_types/node.py:100-119 | `_set_sort_keys` updates the class keys as specified |
| Crag.SortSettings.Select | src/custom_types/node.py:121-126 | `set_sort_keys` sets the looked-up keys, or leaves them unchanged when it raises |
| RouteBuilder.FirstNamed | src/data/route_builder.py:25-39 | the index of the first child with the name, or none when no child has it |
| RouteBuilder.FindOrCreate | src/data/route_builder.py:42-56 | an existing sub-area is reused; otherwise a new one is appended; either way the index names it |
| RouteBuilder.AddPathExtends | src/data/route_builder.py:71-84 | `add_path` only adds nodes: every existing node keeps its place |
| RouteBuilder.AddPathReaches | src/data/route_builder.py:71-84 | after `add_path`, the path leads to a crag named by the last element, whose last child is the route |
| RouteBuilder.AddPathStep | src/data/route_builder.py:71-84 | one step descends into the found or created sub-area |
| RouteBuilder.AddPathFails | src/data/route_builder.py:71-84 | an empty path raises, and so does a path ending at an area that already holds sub-areas |
| RouteBuilder.AddPathCountsRoute | src/data/route_builder.py:71-84 | `add_path` adds exactly one route to the route count |
| RouteBuilder.AddPathCreatesAtMost | src/data/route_builder.py:71-84 | `add_path` creates at most one new area per path element |
| RouteBuilder.FindExistingArea | src/data/route_builder.py:25-39 | returns the child object of the first matching name, or None; raises on a leaf |
| RouteBuilder.NewSubarea | src/custom_types/node.py:20-31 | a new area constructed with a parent is appended to that parent |
| RouteBuilder.FindOrCreateSubarea | src/data/route_builder.py:42-56 | the object-level find-or-create agrees with `FindOrCreate` |
| RouteBuilder.AddRouteAndUpdateCrag | src/data/route_builder.py:59-68 | the route is added to the crag and its parent set, or nothing changes on error |
| RouteBuilder.AddPath | src/data/route_builder.py:71-84 | the object tree becomes the specified one, and the route's parent is the node the path reaches |
| RouteBuilder.AddBelow | src/data/route_builder.py:77-84 | the rest of the path is added inside the chosen sub-area |
| RouteBuilder.DescendInto | src/data/route_builder.py:77-84 | the recursive call on the sub-area matches its specification |
| RouteBuilder.NumberOf | src/data/route_builder.py:124-129 | a numeric cell is read with Python's `int` |
| RouteBuilder.RouteInfoOf | src/data/route_builder.py:124-129 | the route record built from a row has the id, the parsed grade, the numbers read with `int`, the rating and the popularity of the row, or the error that stops it |
| RouteBuilder.BuildCountsRoutes | src/data/route_builder.py:123-130 | each record adds exactly one route to the tree |
| RouteBuilder.OneRegionOneChild | src/data/route_builder.py:110-131 | records that share a region give the scratch root one child |
| RouteBuilder.SubtreeHoldsEveryRoute | src/data/route_builder.py:110-131 | `build_subtree` returns the region's area holding one route per record |
| RouteBuilder.AddRecord | src/data/route_builder.py:123-130 | one loop body inserts the record as specified |
| RouteBuilder.BuildSubtree | src/data/route_builder.py:110-131 | the built object tree is well formed and equals the specified subtree, or the error is reported |
| Parser.ReverseInPlace | src/parser/parser.py:23 | `list.reverse` reverses the array in place |
| Parser.GenerateAreaList | src/parser/parser.py:8-24 | the returned path is the specified area list |
| Parser.AreaListUSA | src/parser/parser.py:18-24 | a US location gives "USA" and then its parts from the region down |
| Parser.AreaListInternational | src/parser/parser.py:19-23 | an international location drops the last two parts and reverses the rest |
| Parser.AreaListRoundTrip | src/parser/parser.py:8-24 | a location printed from a US path reads back as that path |
| Parser.SplitJoinArrows | src/parser/parser.py:18 | splitting at " > " undoes joining with it |
| Parser.RouteTypesMeaning | src/parser/parser.py:44-49 | the route types rejoin to the cell with "TR" spelled out, and no type holds ", " |
| Parser.OrganizeRouteDetails | src/parser/parser.py:27-55 | a record is built exactly when the row is long enough and its three numbers parse, from the stated cells; each parse failure is a ValueError |
| Parser.IdOf | src/parser/parser.py:73 | the route id exists exactly when the third cell holds a "/" |
| Parser.IdOfUrl | src/parser/parser.py:73 | the id is the second-to-last "/"-separated segment of the URL |
| Parser.BuildRouteDict | src/parser/parser.py:58-81 | the loop builds the specified dictionary |
| Parser.RouteDictKeys | src/parser/parser.py:71-81 | the keys are distinct, and they are exactly the route ids of the rows |
| Parser.RouteDictUntouched | src/parser/parser.py:71-81 | an id no row has keeps its old record |
| Parser.RouteDictLastWins | src/parser/parser.py:71-81 | an id holds the record of the last row with that id |
| Scraper.AreaNameAndId | src/scraper/scraper.py:16-23 | name and id are read exactly when the link holds a "/" |
| Scraper.AreaNameAndIdOf | src/scraper/scraper.py:16-23 | the id is the segment before the last "/", and the name is the segment after it with dashes as spaces, title-cased |
| Scraper.AreaUrlRoundTrip | src/scraper/scraper.py:16-23 | the name and id read from a generated area URL are the id and the title-cased name |
| Scraper.IntOf | src/scraper/scraper.py:163 | a count is an int or the `int` of its text |
| Scraper.CleanGrade | src/scraper/scraper.py:158-162 | "<5.6" and ">=5.13" are renamed, and every other grade is kept |
| Scraper.CleanData | src/scraper/scraper.py:153-164 | the loop builds the specified distribution |
| Scraper.CleanRowsError | src/scraper/scraper.py:153-164 | clean-up succeeds exactly when every count reads as an int, and otherwise raises ValueError |
| Scraper.CleanDataKeyError | src/scraper/scraper.py:155 | clean-up raises KeyError exactly when there is no "rock" entry |
| Scraper.CleanRowsKeys | src/scraper/scraper.py:157-164 | the keys are distinct and are the cleaned grades of the rows |
| Scraper.CleanRowsLastWins | src/scraper/scraper.py:157-164 | a grade holds the count of its last row |
| Scraper.AllAtMost | src/scraper/scraper.py:174 | raises KeyError exactly when a grade is missing, and holds exactly when every grade is at most the bound |
| Scraper.IsManageableMeaning | src/scraper/scraper.py:167-174 | an area is manageable exactly when 5.6 to 5.9 each have at most 1000 routes, and a missing one raises KeyError |
| Scraper.CreateCountryMap | src/scraper/scraper.py:74-88 | the loop builds the specified region map |
| Scraper.CountryMapError | src/scraper/scraper.py:82-88 | the map fails, with IndexError, exactly when a link has no "/" |
| Scraper.CountryMapKeys | src/scraper/scraper.py:82-88 | the keys are distinct and are the names of the links, minus the skipped ones |
| Scraper.CountryMapUntouched | src/scraper/scraper.py:82-88 | a name no link gives keeps its old entry |
| Scraper.CountryMapLastWins | src/scraper/scraper.py:82-88 | a name holds the id and count of its last link |
| Scraper.FloorDivRoundsDown | src/scraper/scraper.py:288 | `//` rounds the exact quotient down, whatever the signs |
| Scraper.CacheAfter | src/scraper/scraper.py:283-286 | the cache update succeeds exactly for a fresh cache or a known route count, and keeps the total |
| Scraper.Reset | src/scraper/scraper.py:276-295 | `reset_params` loads the next grade, drops it when under 1000 routes, and updates the cache |
| Scraper.Take | src/scraper/scraper.py:299-302 | the merge loop takes the longest run of grades that keeps the total under 1000 |
| Scraper.BatchesShape | src/scraper/scraper.py:297-311 | every planned request fits the limit, has its bounds, and the requests cover the grades in order |
| Scraper.BatchesGreedy | src/scraper/scraper.py:299-302 | a merged request could not have taken the next grade without reaching 1000 |
| Scraper.TakeBelow | src/scraper/scraper.py:299-302 | every merged grade has fewer than 1000 routes |
| Scraper.BatchesOutcome | src/scraper/scraper.py:297-311 | the plan fails at the first grade with exactly 1000 routes (it loops forever) or with more than 1000 and no split bounds (KeyError); past every grade it raises IndexError exactly when the last one is over 1000, and succeeds exactly when it is under |
| Scraper.SplitPlan | src/scraper/scraper.py:303-307 | a grade over 1000 is sent as its split requests, or raises KeyError when it has no split bounds |
| Scraper.MergedPlan | src/scraper/scraper.py:299-302 | grades under 1000 are merged into one request |
| Scraper.ResetLoop | src/scraper/scraper.py:297-311 | the loop after a reset sends exactly the planned requests, with the matching cache and progress |
| Scraper.HelperFollowsPlan | src/scraper/scraper.py:265-312 | on a fresh cache, the helper sends the planned requests, counts their routes in the cache, and reports the progress percentages |
| Scraper.HelperOutcome | src/scraper/scraper.py:265-312 | the helper fails at the first of its grades with exactly 1000 routes (it loops forever) or with more than 1000 and no split bounds (KeyError); past them it raises IndexError exactly when 5.13 is over 1000, and finishes exactly when it is under |
| Scraper.HelperReusedCache | src/scraper/scraper.py:283-286 | a cache that already has two slots makes the helper raise TypeError before any request |
| Scraper.ResumedHelperFollowsPlan | src/scraper/scraper.py:265-312 | with `num_routes` starting at 0, a reused cache is continued: the planned requests are sent and counted on top |
| Scraper.ProgressCache.constructor | src/scraper/scraper.py:325-328 | a new cache holds the area's total |
| Scraper.AreaDownload.constructor | src/scraper/scraper.py:273-274 | the helper starts with all grades and no routes loaded |
| Scraper.AreaDownload.ResetParams | src/scraper/scraper.py:276-295 | the nested `reset_params` updates the variables as `Reset` specifies |
| Scraper.AreaDownload.RunLoop | src/scraper/scraper.py:297-311 | the `while` loop ends in the state `Loop` specifies |
| Scraper.DownloadAreaHelper | src/scraper/scraper.py:265-312 | the helper's requests, progress, cache and error are those of `Helper` |
| Utils.RemoveSeparators | src/utils/utils.py:98 | deleting spaces and commas from a grouped count leaves its digits |
| Utils.StringToIntGrouped | src/utils/utils.py:88-98 | a grouped count with a digit reads as the value of its digits |
| Utils.StringToIntNeedsDigit | src/utils/utils.py:88-98 | text with no digit raises ValueError |
| Utils.StringToIntWithCommas | src/utils/utils.py:88-98 | a count printed with thousands commas reads back as itself |
| Utils.SplitExt | src/utils/utils.py:29 | `os.path.splitext` splits the path into a prefix and an extension without a slash |
| Utils.ExtractFormatJson | src/utils/utils.py:26-34 | a file is read as JSON exactly when its name ends in ".json" after a proper base name |
| Utils.IsSubpathMeaning | src/utils/utils.py:57-67 | a path is inside the project exactly when it starts with the project root |
| Utils.SaveJsonData | src/utils/utils.py:70-85 | a path outside the root raises and writes nothing; otherwise only that file changes, and it holds the data |
| Text.JoinSplit | src/parser/parser.py:18 | joining the pieces of `str.split` gives back the string |
| Text.SplitPieces | src/scraper/scraper.py:22 | a split has several pieces exactly when the separator occurs |
| Text.ReplaceCharIsMapChar | src/scraper/scraper.py:23 | a one-character `replace` changes exactly that character |
| Text.ReplaceCharByNothing | src/utils/utils.py:98 | replacing a character by "" deletes exactly that character |
| Text.TitleOfLower | src/scraper/scraper.py:23 | `title` ignores the case the letters had |
| Text.PyIntSigned | src/utils/utils.py:98 | `int` reads back any printed integer, with any whitespace around it |
| Text.PyIntUnderscore | src/utils/utils.py:98 | `int` skips a single underscore between digits |
| Text.PyIntNeedsDigit | src/utils/utils.py:98 | `int` raises on text without a digit |
| Records.PutLookup | src/parser/parser.py:76 | after `d[k] = v`, k maps to v and every other key keeps its value |
| Records.PutKeys | src/parser/parser.py:76 | `d[k] = v` appends k exactly when it was missing |
| Records.PutAllLast | src/scraper/scraper.py:163 | after a loop of stores, a key holds its last stored value |

## Left out

- The Streamlit user interface and the ranking model are not part of this model.
- Floating point: the rating, the coordinates and the raw score are exact reals, and `round(...)` is not modelled. A grade's value is the exact integer `base*100+rank`; the source computes it as a float.
- `float()` of a CSV cell is the `toReal` parameter of `Parser.OrganizeRouteDetails`, because Python's float syntax is outside the model.
- The network and the file system are parameters or are left out. This covers requests, BeautifulSoup and file reads and writes: `get_reviews`, `get_routes`, `get_route_distribution`, `get_navbar_anchor_tags`, `get_main_area_urls`, `add_international_countries`, `save_area_ids`, `url_generator`, `build_json_sources`, `build_area_tree`, `get_areas_available_for_download`, `download_and_merge_data`, `zip_csv_files`, `extract_csv_data`, `extract_json_data` and `os.makedirs`.
- `scrape_data` is modelled only as the pair of grade bounds each request carries, in the order the requests are sent.
- `download_area`: only its cache initialisation (`Scraper.ProgressCache.constructor`) and the helper call are modelled. Its page fetch and its recursion into sub-areas are network work.
- `build_area_tree_threaded` and `add_subtree_to_list` are left out, because they are concurrency.
- The project root, the base URL, the reviews map and the contents of `grade_parameters.json` are parameters, because they come from the file system.
- `Area.init_stats` calls `calculate_stats` with an argument that `Area.calculate_stats` does not take, which would raise TypeError. The model passes the area's filter, as the recursion into routes does.
- `build_subtree` calls `Route(...)` with 8 arguments where the constructor takes 9 (the URL is missing). The model gives each route an empty URL.
- `custom_types.RouteDetails` names a `url` field and a `route_type` field. The parser writes neither of them; it writes `route_types`. The model follows the parser.
- `Trees.SetSortKeys`: the attribute tables are parameters. `Trees.SetSortKeysAlwaysRaises` records that the empty tables of the source make every call raise.
- `Node`, `Area` and `Route` are one class `Crag.Node` with a kind, because Dafny classes have no inheritance here. The class-level filter and sort keys are objects passed in (`Crag.RouteFilter`, `Crag.SortSettings`).
- The `node_sort_keys` and `leaf_sort_keys` properties, `__str__`, `more_deets`, the route `crag` getter and setter, and the rounding in `rating` are left out; they are display helpers.
- `Utils.StringToInt` reads only the ASCII digits 0-9. Python's `int()` also reads the other Unicode decimal digits (category Nd, such as '٣' or '３'), which the model rejects. Whitespace (the full `str.isspace` set) and single underscores between digits are modelled.
- `Text.PyIntSigned`, like every member built on `Text.PyInt`, leaves out the non-ASCII decimal digits that `int()` reads.
- `Text.PyIntNeedsDigit`: a "digit" here is an ASCII digit. Text whose only digits are non-ASCII decimal digits is read by `int()`.
- `RouteBuilder.NumberOf` reads a cell with `Text.PyInt`, so non-ASCII decimal digits in a cell are not read.
- `Scraper.IntOf` reads a count with `Text.PyInt`, so non-ASCII decimal digits in a count are not read.
- `Grades.BaseAndSuffix` tests `char.isdigit()` as an ASCII digit. Python's test also accepts the other Unicode digits: a decimal one such as '٣' would go into the base, and one such as '²' would go into the base and then make `int(base)` raise ValueError. The model puts both into the suffix.
- `Grades.Parse` inherits that gap from `Grades.BaseAndSuffix`.
- `Text.TitleOfLower` is about `Text.Title` and `Text.Lower`, which case only the ASCII letters. Python also cases the non-ASCII letters and counts them as letters when it decides where a word starts. So `"éa".title()` is "Éa" in Python and "éA" in the model.
- `Scraper.AreaNameAndId` and `Scraper.AreaNameAndIdOf` title-case the name with `Text.Title`, so they have the same gap for non-ASCII letters.
- `Trees.Attr` and `Crag.Node.Attribute` give a sort key's value only for attributes holding names, numbers, flags or grades. The following are treated as missing: the coordinates (`coordinates`, `_coordinates`), the parent (`parent`, `_parent`, `crag`), the children (`children`, `_children`), `_route_types`, the filter (`route_filter`, `_route_filter`), a Route's `_stats`, the class-level sort settings, and methods. When Python sorts by one of these, it compares the values (tuples, lists) or raises TypeError; the model raises MissingAttribute instead. The direction of a leaf sort comes out the same, because none of these values is a `str`. That includes an unset `_coordinates`, which is None and has no stand-in value either.
- `Trees.KeysOfMeaning` is stated over `Trees.Attr`, so it has the same gap for those attributes.
- `Trees.LeafDirection` is stated over `Trees.Attr`, so it has the same gap for those attributes. The direction it gives is still Python's for them.
- `Crag.Node.SortOwnChildren`: when two keys cannot be compared, the children are left in an unspecified order, which is a permutation of the old one. Python's `list.sort` may leave the list partly sorted after such a TypeError.
- `Scraper.Batches` and the lemmas about the plan assume that every grade has a count and request bounds (`Scraper.Known`). A missing count or bound makes the helper raise KeyError. `Scraper.Helper` models that, but the plan does not.
- `Scraper.DownloadAreaHelper`: a grade with exactly 1000 routes makes the source loop forever. The model stops with the error `Diverges` instead.
- `Crag.Node.CalculateStats`, `Crag.Node.CalculateTotalNumRoutes`, `Crag.Node.Sort`: after an exception, the partly updated subtree is left unspecified (the error itself is stated).

## Findings

| source | as written | input that shows it | evidently intended | confidence | as-written member | corrected member |
|---|---|---|---|---|---|---|
| src/scraper/scraper.py:283-286 | `cache[1] += num_routes` runs while `num_routes` is still None on each helper call's first `reset_params` | `download_area` on an area that is not manageable, with two or more manageable sub-areas: the second helper call gets the cache `[total, n]` and raises TypeError before sending any request | `num_routes` starts at 0, so the second sub-area's routes are counted on top of the first's | not executed | Scraper.HelperReusedCache | Scraper.ResumedHelperFollowsPlan |
