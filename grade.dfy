/** Climbing grades in the Yosemite Decimal System ("5.10b/c", "5.9+"): parsing
    a grade string into a base and a suffix, the numeric value that orders
    grades, and the fuzzy range test that also accepts suffixes loosely
    equivalent to a bound's suffix.

    The source keeps the value as the float `base + rank/100`; here it is the
    integer `base * 100 + rank`, which orders grades the same way because every
    rank lies between 10 and 23. */
module Grades {
  import opened Wrappers
  import opened Text

  datatype GradeError =
    | MissingDot      // `text.split(".")[1]` has no second piece (IndexError)
    | NoDigits        // `int("")` on a grade without digits (ValueError)
    | Incomparable    // `<` between a value and None (TypeError)
    | UnknownBound    // a bound suffix that is not a key of the table (KeyError)

  /** A grade as the source stores it: the raw text, the base and suffix taken
      from it, and its value, None when the suffix has no rank. */
  datatype Grade = Grade(text: string, base: nat, suffix: string, value: Option<int>)

  // ---------------------------------------------------------------------------
  // The class-level tables

  /** `_loose_grade_equivalency`, in the dictionary's insertion order: for each
      bound suffix, the suffixes accepted as loosely equal to it. */
  const LooseTable: seq<(string, seq<string>)> := [
    ("a", ["a", "-", "a/b"]),
    ("b", ["a/b", "b", "", "b/c"]),
    ("c", ["b/c", "c", "+", "c/d"]),
    ("d", ["+", "c/d", "d"]),
    ("", ["-", "", "+"])
  ]

  /** `_loose_grade_equivalency[key]`; None stands for the KeyError. */
  function LooseEquivalents(key: string): (r: Option<seq<string>>)
    ensures r.Some? <==> key in ["a", "b", "c", "d", ""]
  {
    LookUp(LooseTable, key)
  }

  function LookUp(table: seq<(string, seq<string>)>, key: string): (r: Option<seq<string>>)
    ensures r.Some? <==> exists k :: 0 <= k < |table| && table[k].0 == key
    ensures r.Some? ==> exists k :: 0 <= k < |table| && table[k] == (key, r.value)
  {
    if table == [] then None
    else if table[0].0 == key then Some(table[0].1)
    else
      var r := LookUp(table[1..], key);
      assert forall k :: 0 <= k < |table| - 1 ==> table[1..][k] == table[k + 1];
      r
  }

  /** The lists of a table, concatenated in order. */
  function Flatten(table: seq<(string, seq<string>)>): seq<string>
  {
    if table == [] then [] else Flatten(table[..|table| - 1]) + table[|table| - 1].1
  }

  /** `_strict_grade_ranking`, as the class body's loop leaves it. */
  const StrictRanking: seq<string> :=
    ["a", "-", "a/b", "a/b", "b", "", "b/c", "b/c", "c", "+", "c/d", "+", "c/d", "d", "-", "", "+"]

  /** The ranking is every equivalence list of the table, concatenated in order. */
  lemma StrictRankingIsFlattenedTable()
    ensures Flatten(LooseTable) == StrictRanking
  {
    var t := LooseTable;
    assert t[..0] == [];
    assert t[..1][..0] == t[..0];
    assert Flatten(t[..1]) == ["a", "-", "a/b"];
    assert t[..2][..1] == t[..1];
    assert Flatten(t[..2]) == ["a", "-", "a/b"] + ["a/b", "b", "", "b/c"];
    assert t[..3][..2] == t[..2];
    assert Flatten(t[..3]) == Flatten(t[..2]) + ["b/c", "c", "+", "c/d"];
    assert t[..4][..3] == t[..3];
    assert Flatten(t[..4]) == Flatten(t[..3]) + ["+", "c/d", "d"];
    assert t[..5][..4] == t[..4];
    assert t[..5] == t;
  }

  /** The class body's loop that fills `_strict_grade_ranking`. */
  method BuildStrictRanking() returns (ranking: seq<string>)
    ensures ranking == StrictRanking
  {
    ranking := [];
    for i := 0 to |LooseTable|
      invariant ranking == Flatten(LooseTable[..i])
    {
      assert LooseTable[..i + 1][..i] == LooseTable[..i];
      ranking := ranking + LooseTable[i].1;
    }
    assert LooseTable[..|LooseTable|] == LooseTable;
    StrictRankingIsFlattenedTable();
  }

  /** The rank of a suffix: 10 plus the position of its first occurrence in the
      strict ranking (`enumerate(..., start=10)`, see RankIsFirstPosition);
      None when the suffix is not listed. */
  function Rank(suffix: string): (r: Option<int>)
    ensures r.Some? ==> 10 <= r.value <= 23
  {
    if suffix == "a" then Some(10)
    else if suffix == "-" then Some(11)
    else if suffix == "a/b" then Some(12)
    else if suffix == "b" then Some(14)
    else if suffix == "" then Some(15)
    else if suffix == "b/c" then Some(16)
    else if suffix == "c" then Some(18)
    else if suffix == "+" then Some(19)
    else if suffix == "c/d" then Some(20)
    else if suffix == "d" then Some(23)
    else None
  }

  /** `_determine_value`: None (Python's implicit return) for an unranked suffix. */
  function ValueOf(base: nat, suffix: string): Option<int>
  {
    match Rank(suffix)
    case None => None
    case Some(r) => Some(base * 100 + r)
  }

  /** The rank of each listed suffix is 10 plus the position of its first
      occurrence in the strict ranking. */
  lemma RankIsFirstPosition(i: nat)
    requires i < |StrictRanking|
    ensures Rank(StrictRanking[i]).Some?
    ensures var j := Rank(StrictRanking[i]).value - 10;
      0 <= j <= i && StrictRanking[j] == StrictRanking[i] && StrictRanking[i] !in StrictRanking[..j]
  {
    var r := StrictRanking;
    assert r[..0] == [] && r[..1] == ["a"] && r[..2] == ["a", "-"];
    assert r[..4] == ["a", "-", "a/b", "a/b"];
    assert r[..5] == r[..4] + ["b"];
    assert r[..6] == r[..5] + [""];
    assert r[..8] == r[..6] + ["b/c", "b/c"];
    assert r[..9] == r[..8] + ["c"];
    assert r[..10] == r[..9] + ["+"];
    assert r[..13] == r[..10] + ["c/d", "+", "c/d"];
  }

  /** Exactly the suffixes of the strict ranking have a rank. */
  lemma RankedIffListed(suffix: string)
    ensures Rank(suffix).Some? <==> suffix in StrictRanking
  {
    var r := StrictRanking;
    if suffix in r {
      var i :| 0 <= i < |r| && r[i] == suffix;
      assert i in {0, 1, 2, 3, 4, 5, 6, 7, 8, 9, 10, 11, 12, 13, 14, 15, 16};
    }
    if suffix == "a" { assert r[0] == suffix; }
    else if suffix == "-" { assert r[1] == suffix; }
    else if suffix == "a/b" { assert r[2] == suffix; }
    else if suffix == "b" { assert r[4] == suffix; }
    else if suffix == "" { assert r[5] == suffix; }
    else if suffix == "b/c" { assert r[6] == suffix; }
    else if suffix == "c" { assert r[8] == suffix; }
    else if suffix == "+" { assert r[9] == suffix; }
    else if suffix == "c/d" { assert r[10] == suffix; }
    else if suffix == "d" { assert r[13] == suffix; }
  }

  // ---------------------------------------------------------------------------
  // Parsing

  /** The digits of `s`, in order. */
  function Digits(s: string): (r: string)
    ensures forall c :: c in r ==> IsDigit(c)
  {
    if s == [] then [] else Digits(s[..|s| - 1]) + (if IsDigit(s[|s| - 1]) then [s[|s| - 1]] else [])
  }

  /** The characters of `s` that are not digits, in order. */
  function NonDigits(s: string): (r: string)
    ensures forall c :: c in r ==> !IsDigit(c)
  {
    if s == [] then [] else NonDigits(s[..|s| - 1]) + (if IsDigit(s[|s| - 1]) then [] else [s[|s| - 1]])
  }

  lemma {:induction false} DigitsAppend(a: string, b: string)
    ensures Digits(a + b) == Digits(a) + Digits(b)
    ensures NonDigits(a + b) == NonDigits(a) + NonDigits(b)
    decreases |b|
  {
    if b == [] {
      assert a + b == a;
    } else {
      var b', c := b[..|b| - 1], b[|b| - 1];
      assert (a + b)[..|a + b| - 1] == a + b' && (a + b)[|a + b| - 1] == c;
      DigitsAppend(a, b');
      var d, n := if IsDigit(c) then [c] else [], if IsDigit(c) then [] else [c];
      SnocRegroup(Digits(a + b), Digits(a + b'), d, Digits(a), Digits(b'), Digits(b));
      SnocRegroup(NonDigits(a + b), NonDigits(a + b'), n, NonDigits(a), NonDigits(b'), NonDigits(b));
    }
  }

  lemma {:induction false} DigitsOfDigits(s: string)
    requires forall c :: c in s ==> IsDigit(c)
    ensures Digits(s) == s && NonDigits(s) == []
  {
    if s != [] {
      assert s == s[..|s| - 1] + [s[|s| - 1]];
      DigitsOfDigits(s[..|s| - 1]);
    }
  }

  lemma {:induction false} DigitsOfNonDigits(s: string)
    requires forall c :: c in s ==> !IsDigit(c)
    ensures Digits(s) == [] && NonDigits(s) == s
  {
    if s != [] {
      assert s == s[..|s| - 1] + [s[|s| - 1]];
      DigitsOfNonDigits(s[..|s| - 1]);
    }
  }

  /** The part of a grade that holds base and suffix: the text after the first
      `.` up to the next `.`, cut at the first space. */
  function MainComponent(text: string): Option<string>
  {
    var parts := Split(text, ".");
    if |parts| < 2 then None
    else
      SplitNonEmpty(parts[1], " ");
      Some(Split(parts[1], " ")[0])
  }

  /** `_get_base_and_suffix`: the digits of the main component read as a number,
      and its other characters in order. */
  function BaseAndSuffixOf(text: string): Result<(nat, string), GradeError>
  {
    match MainComponent(text)
    case None => Err(MissingDot)
    case Some(main) =>
      if Digits(main) == [] then Err(NoDigits)
      else Ok((DigitsValue(Digits(main)), NonDigits(main)))
  }

  /** `Grade(text)`. */
  function Parse(text: string): (r: Result<Grade, GradeError>)
  {
    var (base, suffix) :- BaseAndSuffixOf(text);
    Ok(Grade(text, base, suffix, ValueOf(base, suffix)))
  }

  /** A grade whose value is the one its base and suffix determine: every grade
      built by `Parse`. */
  predicate Valued(g: Grade) {
    g.value == ValueOf(g.base, g.suffix)
  }

  /** `_get_base_and_suffix`, with the character loop of the source. */
  method BaseAndSuffix(text: string) returns (r: Result<(nat, string), GradeError>)
    ensures r.Err? <==> MainComponent(text).None? || Digits(MainComponent(text).value) == []
    ensures r == BaseAndSuffixOf(text)
  {
    var parts := Split(text, ".");
    if |parts| < 2 {
      return Err(MissingDot);
    }
    SplitNonEmpty(parts[1], " ");
    var main := Split(parts[1], " ")[0];
    var base, suffix := "", "";
    for i := 0 to |main|
      invariant base == Digits(main[..i]) && suffix == NonDigits(main[..i])
    {
      assert main[..i + 1][..i] == main[..i];
      if IsDigit(main[i]) {
        base := base + [main[i]];
      } else {
        suffix := suffix + [main[i]];
      }
    }
    assert main[..|main|] == main;
    if base == "" {
      return Err(NoDigits);
    }
    return Ok((DigitsValue(base), suffix));
  }

  /** `_determine_value`: a linear search for the suffix in the strict ranking. */
  method DetermineValue(base: nat, suffix: string) returns (v: Option<int>)
    ensures v.Some? <==> suffix in StrictRanking
    ensures v == ValueOf(base, suffix)
  {
    var ranking := StrictRanking;
    for i := 0 to |ranking|
      invariant suffix !in ranking[..i]
    {
      if ranking[i] == suffix {
        RankIsFirstPosition(i);
        return Some(base * 100 + 10 + i);
      }
      assert ranking[..i + 1] == ranking[..i] + [ranking[i]];
    }
    assert ranking[..|ranking|] == ranking;
    RankedIffListed(suffix);
    return None;
  }

  /** `Grade.__init__`. */
  method NewGrade(text: string) returns (r: Result<Grade, GradeError>)
    ensures r.Ok? ==> r.value.text == text && Valued(r.value)
    ensures r == Parse(text)
  {
    var parts := BaseAndSuffix(text);
    if parts.Err? {
      return Err(parts.error);
    }
    var (base, suffix) := parts.value;
    var value := DetermineValue(base, suffix);
    return Ok(Grade(text, base, suffix, value));
  }

  /** `str(Grade(s))` is `s`: the text is stored unchanged. */
  lemma ParseKeepsText(text: string)
    ensures Parse(text).Ok? ==> Parse(text).value.text == text && Valued(Parse(text).value)
  {
  }

  /** A grade written `prefix.digits suffix`, where the prefix has no `.`, the
      digits are not empty and the suffix has neither digit, `.` nor space,
      parses to that base and suffix. */
  lemma ParseWellFormed(prefix: string, digits: string, suffix: string)
    requires '.' !in prefix
    requires digits != [] && forall c :: c in digits ==> IsDigit(c)
    requires forall c :: c in suffix ==> !IsDigit(c) && c != '.' && c != ' '
    ensures Parse(prefix + "." + digits + suffix)
         == Ok(Grade(prefix + "." + digits + suffix, DigitsValue(digits), suffix,
                     ValueOf(DigitsValue(digits), suffix)))
  {
    var main := digits + suffix;
    assert prefix + "." + main == prefix + "." + digits + suffix;
    assert '.' !in main && ' ' !in main by {
      forall k | 0 <= k < |main| ensures main[k] != '.' && main[k] != ' ' {
        if k < |digits| {
          assert main[k] == digits[k] && main[k] in digits;
        } else {
          assert main[k] == suffix[k - |digits|] && main[k] in suffix;
        }
      }
    }
    MainComponentOf(prefix, main);
    DigitsAppend(digits, suffix);
    DigitsOfDigits(digits);
    DigitsOfNonDigits(suffix);
    assert Digits(main) == digits && NonDigits(main) == suffix;
    assert BaseAndSuffixOf(prefix + "." + main) == Ok((DigitsValue(digits), suffix));
  }

  /** The main component of `prefix.main`, when neither part has a `.` and
      the second has no space, is the second part. */
  lemma MainComponentOf(prefix: string, main: string)
    requires '.' !in prefix && '.' !in main && ' ' !in main
    ensures MainComponent(prefix + "." + main) == Some(main)
  {
    CharAbsentNotContained(prefix, '.');
    CharAbsentNotContained(main, '.');
    CharAbsentNotContained(main, ' ');
    SplitAround(prefix, ".", main);
    SplitWithout(main, ".");
    SplitWithout(main, " ");
  }

  /** The example of the source's comment: "5.10b/c" has base 10 and suffix "b/c". */
  lemma ParseExample()
    ensures Parse("5.10b/c") == Ok(Grade("5.10b/c", 10, "b/c", Some(1016)))
  {
    ParseWellFormed("5", "10", "b/c");
    assert "5" + "." + "10" + "b/c" == "5.10b/c";
    assert DigitsValue("10") == 10 by { assert "10"[..1] == "1"; }
  }

  /** Parsing fails exactly when there is no `.` or the main component has no
      digit. */
  lemma ParseFails(text: string)
    ensures Parse(text).Err? <==> MainComponent(text).None? || Digits(MainComponent(text).value) == []
    ensures '.' !in text ==> Parse(text) == Err(MissingDot)
  {
    if '.' !in text {
      CharAbsentNotContained(text, '.');
      SplitWithout(text, ".");
    }
  }

  // ---------------------------------------------------------------------------
  // Ordering

  /** `__eq__`: only the values are compared (None equals None). */
  function Eq(a: Grade, b: Grade): bool
  {
    a.value == b.value
  }

  /** `__lt__`: compares the values; a missing value raises TypeError. */
  function Lt(a: Grade, b: Grade): (r: Result<bool, GradeError>)
    ensures r.Err? <==> a.value.None? || b.value.None?
  {
    if a.value.None? || b.value.None? then Err(Incomparable)
    else Ok(a.value.value < b.value.value)
  }

  /** `__le__` as `functools.total_ordering` derives it: `a < b or a == b`. */
  function Le(a: Grade, b: Grade): (r: Result<bool, GradeError>)
    ensures r.Err? <==> a.value.None? || b.value.None?
    ensures r.Ok? ==> (r.value <==> a.value.value <= b.value.value)
  {
    var lt :- Lt(a, b);
    Ok(lt || Eq(a, b))
  }

  /** The value orders grades by base first and by suffix rank second. */
  lemma ValueOrder(a: Grade, b: Grade)
    requires Valued(a) && Valued(b) && a.value.Some? && b.value.Some?
    ensures Rank(a.suffix).Some? && Rank(b.suffix).Some?
    ensures Lt(a, b) == Ok(a.base < b.base || (a.base == b.base && Rank(a.suffix).value < Rank(b.suffix).value))
    ensures Eq(a, b) <==> a.base == b.base && Rank(a.suffix) == Rank(b.suffix)
  {
  }

  /** Two grades with the same base and suffix are equal, whatever their texts. */
  lemma SameBaseAndSuffixEqual(s1: string, s2: string)
    requires Parse(s1).Ok? && Parse(s2).Ok?
    requires Parse(s1).value.base == Parse(s2).value.base
    requires Parse(s1).value.suffix == Parse(s2).value.suffix
    ensures Eq(Parse(s1).value, Parse(s2).value)
  {
  }

  /** `<=` is a total preorder on grades that have a value. */
  lemma LeTotalPreorder(a: Grade, b: Grade, c: Grade)
    requires a.value.Some? && b.value.Some? && c.value.Some?
    ensures Le(a, a) == Ok(true)
    ensures Le(a, b) == Ok(true) || Le(b, a) == Ok(true)
    ensures Le(a, b) == Ok(true) && Le(b, c) == Ok(true) ==> Le(a, c) == Ok(true)
  {
  }

  /** The strings of `get_all_common_grades`, as listed. */
  const CommonGradeTexts: seq<string> := [
    "5.0", "5.1", "5.2", "5.3", "5.4", "5.5", "5.6", "5.7", "5.8",
    "5.9", "5.10a", "5.10b", "5.10c", "5.10d", "5.11a", "5.11b",
    "5.11c", "5.11d", "5.12a", "5.12b", "5.12c", "5.12d", "5.13a",
    "5.13b", "5.13c", "5.13d", "5.14a", "5.14b", "5.14c", "5.14d",
    "5.15a", "5.15b", "5.15c", "5.15d"
  ]

  /** Every text parsed in order; the first failure is the result. */
  function ParseAll(texts: seq<string>): (r: Result<seq<Grade>, GradeError>)
    ensures r.Ok? ==> |r.value| == |texts|
    ensures r.Ok? ==> forall k :: 0 <= k < |texts| ==> Parse(texts[k]) == Ok(r.value[k])
  {
    if texts == [] then Ok([])
    else
      var g :- Parse(texts[0]);
      var rest :- ParseAll(texts[1..]);
      Ok([g] + rest)
  }

  /** `get_all_common_grades`, before its `sorted` call (see AllCommonGradesAscending). */
  function AllCommonGrades(): Result<seq<Grade>, GradeError>
  {
    ParseAll(CommonGradeTexts)
  }

  /** The grade written `5.<base><suffix>`, with the value its base and suffix
      determine. */
  function Five(base: nat, suffix: string): Grade
  {
    Grade("5." + Numeral(base) + suffix, base, suffix, ValueOf(base, suffix))
  }

  /** `5.<base><suffix>` parses to `Five(base, suffix)` when the suffix is made
      of letters a to d and the signs `+`, `-` and `/`. */
  lemma ParseFive(base: nat, suffix: string)
    requires forall c :: c in suffix ==> 'a' <= c <= 'd' || c == '+' || c == '-' || c == '/'
    ensures Parse("5." + Numeral(base) + suffix) == Ok(Five(base, suffix))
  {
    var digits := Numeral(base);
    NumeralValue(base);
    ParseWellFormed("5", digits, suffix);
    assert "5" + "." == "5.";
  }

  /** The suffix of the k-th common grade from 5.10a on. */
  function Letter(r: nat): string
    requires r < 4
  {
    if r == 0 then "a" else if r == 1 then "b" else if r == 2 then "c" else "d"
  }

  /** The value of each common grade in the listed order. */
  function CommonValue(k: nat): (v: int)
    requires k < 34
  {
    if k < 10 then k * 100 + 15
    else
      var base := 10 + (k - 10) / 4;
      var r := (k - 10) % 4;
      base * 100 + (if r == 0 then 10 else if r == 1 then 14 else if r == 2 then 18 else 23)
  }

  lemma CommonGradeTextAt(k: nat)
    requires k < 34
    ensures k < 10 ==> CommonGradeTexts[k] == "5." + Numeral(k) + ""
    ensures k >= 10 ==> CommonGradeTexts[k] == "5." + Numeral(10 + (k - 10) / 4) + Letter((k - 10) % 4)
  {
    if k < 10 {
      SingleDigitText(k);
    } else {
      var b := 10 + (k - 10) / 4;
      assert Numeral(b) == Numeral(b / 10) + [('0' as int + b % 10) as char];
      if k < 22 {
        LetteredLow(k);
      } else {
        LetteredHigh(k);
      }
    }
  }

  lemma SingleDigitText(k: nat)
    requires k < 10
    ensures CommonGradeTexts[k] == "5." + Numeral(k) + ""
  {
  }

  /** The lettered grades 5.10a to 5.12d. */
  lemma LetteredLow(k: nat)
    requires 10 <= k < 22
    ensures CommonGradeTexts[k] == "5." + [('0' as int + (10 + (k - 10) / 4) / 10) as char, ('0' as int + (10 + (k - 10) / 4) % 10) as char] + Letter((k - 10) % 4)
  {
  }

  /** The lettered grades 5.13a to 5.15d. */
  lemma LetteredHigh(k: nat)
    requires 22 <= k < 34
    ensures CommonGradeTexts[k] == "5." + [('0' as int + (10 + (k - 10) / 4) / 10) as char, ('0' as int + (10 + (k - 10) / 4) % 10) as char] + Letter((k - 10) % 4)
  {
  }

  /** The k-th common grade parses to a grade of value `CommonValue(k)`. */
  lemma CommonGradeParses(k: nat)
    requires k < 34
    ensures Parse(CommonGradeTexts[k]).Ok?
    ensures Parse(CommonGradeTexts[k]).value.value == Some(CommonValue(k))
  {
    CommonGradeTextAt(k);
    var b, sfx := if k < 10 then k else 10 + (k - 10) / 4, if k < 10 then "" else Letter((k - 10) % 4);
    assert CommonGradeTexts[k] == "5." + Numeral(b) + sfx;
    assert ValueOf(b, sfx) == Some(CommonValue(k)) by {
      if k >= 10 {
        var r := (k - 10) % 4;
        if r == 0 {
          assert Rank("a") == Some(10);
        } else if r == 1 {
          assert Rank("b") == Some(14);
        } else if r == 2 {
          assert Rank("c") == Some(18);
        } else {
          assert Rank("d") == Some(23);
        }
      }
    }
    ParseFive(b, sfx);
  }

  lemma CommonValueStep(k: nat)
    requires k < 33
    ensures CommonValue(k) < CommonValue(k + 1)
  {
    if k >= 10 {
      var q, r := (k - 10) / 4, (k - 10) % 4;
      assert k - 10 == 4 * q + r;
      if r < 3 {
        assert (k + 1 - 10) / 4 == q && (k + 1 - 10) % 4 == r + 1;
      } else {
        assert (k + 1 - 10) / 4 == q + 1 && (k + 1 - 10) % 4 == 0;
      }
    }
  }

  /** The common values ascend strictly along the list. */
  lemma {:induction false} CommonValueAscending(i: nat, j: nat)
    requires i < j < 34
    ensures CommonValue(i) < CommonValue(j)
    decreases j - i
  {
    CommonValueStep(i);
    if i + 1 < j {
      CommonValueAscending(i + 1, j);
    }
  }

  /** Every common grade parses, with the value `CommonValue` gives it. */
  lemma AllCommonGradesParse()
    ensures AllCommonGrades().Ok? && |AllCommonGrades().value| == 34
    ensures forall k :: 0 <= k < 34 ==> AllCommonGrades().value[k].value == Some(CommonValue(k))
  {
    forall k | 0 <= k < 34 ensures Parse(CommonGradeTexts[k]).Ok? {
      CommonGradeParses(k);
    }
    ParseAllOk(CommonGradeTexts);
    var gs := AllCommonGrades().value;
    forall k | 0 <= k < 34 ensures gs[k].value == Some(CommonValue(k)) {
      CommonGradeParses(k);
    }
  }

  /** `get_all_common_grades` yields 34 grades, 5.0 to 5.15d, in strictly
      ascending order, so `sorted` returns them in the listed order. */
  lemma AllCommonGradesAscending()
    ensures AllCommonGrades().Ok?
    ensures |AllCommonGrades().value| == 34
    ensures forall i, j :: 0 <= i < j < 34 ==> Lt(AllCommonGrades().value[i], AllCommonGrades().value[j]) == Ok(true)
  {
    AllCommonGradesParse();
    CommonOrderAscending(AllCommonGrades().value);
  }

  /** Grades carrying the common values in order ascend strictly. */
  lemma CommonOrderAscending(gs: seq<Grade>)
    requires |gs| == 34 && forall k :: 0 <= k < 34 ==> gs[k].value == Some(CommonValue(k))
    ensures forall i, j :: 0 <= i < j < 34 ==> Lt(gs[i], gs[j]) == Ok(true)
  {
    forall i, j | 0 <= i < j < 34 ensures Lt(gs[i], gs[j]) == Ok(true) {
      CommonValueAscending(i, j);
    }
  }

  /** The common grades run from 5.0 to 5.15d. */
  lemma AllCommonGradesEnds()
    ensures AllCommonGrades().Ok? && |AllCommonGrades().value| == 34
    ensures AllCommonGrades().value[0].text == "5.0" && AllCommonGrades().value[33].text == "5.15d"
  {
    AllCommonGradesParse();
    ParseKeepsText(CommonGradeTexts[0]);
    ParseKeepsText(CommonGradeTexts[33]);
  }

  lemma {:induction false} ParseAllOk(texts: seq<string>)
    requires forall k :: 0 <= k < |texts| ==> Parse(texts[k]).Ok?
    ensures ParseAll(texts).Ok?
  {
    if texts != [] {
      ParseAllOk(texts[1..]);
    }
  }

  // ---------------------------------------------------------------------------
  // Range membership

  /** `_loose_ge` and `_loose_le` (the two are the same test): the bound has the
      grade's base and the grade's suffix is in the bound suffix's equivalence
      list. A bound suffix that is not a key raises KeyError, but only once the
      bases agree. */
  function Loose(g: Grade, bound: Grade): Result<bool, GradeError>
  {
    if bound.base != g.base then Ok(false)
    else
      match LooseEquivalents(bound.suffix)
      case None => Err(UnknownBound)
      case Some(accepted) => Ok(g.suffix in accepted)
  }

  /** `is_in_range`: `min <= g <= max` (a chained comparison, so the second test
      runs only when the first holds), else `_loose_ge(min) or _loose_le(max)`. */
  function InRange(g: Grade, lo: Grade, hi: Grade): Result<bool, GradeError>
  {
    var above :- Le(lo, g);
    var strict :- if above then Le(g, hi) else Ok(false);
    if strict then Ok(true)
    else
      var looseLo :- Loose(g, lo);
      if looseLo then Ok(true) else Loose(g, hi)
  }

  /** What `is_in_range` answers when every value is known: strict membership,
      or loose equality with a bound; the only failure left is a bound suffix
      that is not a table key. */
  lemma InRangeMeaning(g: Grade, lo: Grade, hi: Grade)
    requires g.value.Some? && lo.value.Some? && hi.value.Some?
    ensures InRange(g, lo, hi).Err? ==> InRange(g, lo, hi) == Err(UnknownBound)
    ensures InRange(g, lo, hi).Ok? ==>
      (InRange(g, lo, hi).value <==>
         (lo.value.value <= g.value.value <= hi.value.value)
         || Loose(g, lo) == Ok(true) || Loose(g, hi) == Ok(true))
    ensures lo.value.value <= g.value.value <= hi.value.value ==> InRange(g, lo, hi) == Ok(true)
  {
  }

  /** `min <= g <= max` puts g in range. */
  lemma InRangeStrict(g: Grade, lo: Grade, hi: Grade)
    requires Le(lo, g) == Ok(true) && Le(g, hi) == Ok(true)
    ensures InRange(g, lo, hi) == Ok(true)
  {
  }

  /** A grade loosely equal to the lower bound is in range, whatever the upper
      bound is (as long as it has a value). */
  lemma InRangeLooseLower(g: Grade, lo: Grade, hi: Grade, accepted: seq<string>)
    requires g.value.Some? && lo.value.Some? && hi.value.Some?
    requires g.base == lo.base && LooseEquivalents(lo.suffix) == Some(accepted) && g.suffix in accepted
    ensures InRange(g, lo, hi) == Ok(true)
  {
  }

  /** A grade loosely equal to the upper bound is in range, whatever the lower
      bound is, unless the lower-bound test raises first: that needs the same
      base as the grade and a suffix that is not a table key. */
  lemma InRangeLooseUpper(g: Grade, lo: Grade, hi: Grade, accepted: seq<string>)
    requires g.value.Some? && lo.value.Some? && hi.value.Some?
    requires g.base != lo.base || LooseEquivalents(lo.suffix).Some?
    requires g.base == hi.base && LooseEquivalents(hi.suffix) == Some(accepted) && g.suffix in accepted
    ensures InRange(g, lo, hi) == Ok(true)
  {
  }

  /** Examples: 5.10+ is in range below 5.10c, and 5.11a is in the reversed
      range from 5.11a to 5.9. */
  lemma InRangeExamples()
    ensures InRange(Five(10, "+"), Five(0, ""), Five(10, "c")) == Ok(true)
    ensures InRange(Five(11, "a"), Five(11, "a"), Five(9, "")) == Ok(true)
  {
  }

  /** Regression pins for the default bounds 5.0 and 5.15: 5.15c and 5.15d are
      rejected, 5.15+ is accepted (loosely equal to 5.15); and a loose test
      against a bound suffix that is not a key (5.10+) raises. */
  lemma InRangePins()
    ensures InRange(Five(15, "c"), Five(0, ""), Five(15, "")) == Ok(false)
    ensures InRange(Five(15, "d"), Five(0, ""), Five(15, "")) == Ok(false)
    ensures InRange(Five(15, "+"), Five(0, ""), Five(15, "")) == Ok(true)
    ensures InRange(Five(10, "a"), Five(10, "+"), Five(12, "")) == Err(UnknownBound)
  {
    PinSuffixes();
    var acc := ["-", "", "+"];
    InRangeMisses(Five(15, "c"), Five(0, ""), Five(15, ""), acc);
    InRangeMisses(Five(15, "d"), Five(0, ""), Five(15, ""), acc);
    InRangeLooseUpper(Five(15, "+"), Five(0, ""), Five(15, ""), acc);
    InRangeRaises(Five(10, "a"), Five(10, "+"), Five(12, ""));
  }

  /** Above the upper bound, with another base than the lower bound and a
      suffix the upper bound does not accept: out of range. */
  lemma InRangeMisses(g: Grade, lo: Grade, hi: Grade, accepted: seq<string>)
    requires g.value.Some? && lo.value.Some? && hi.value.Some?
    requires hi.value.value < g.value.value && g.base != lo.base
    requires g.base == hi.base && LooseEquivalents(hi.suffix) == Some(accepted) && g.suffix !in accepted
    ensures InRange(g, lo, hi) == Ok(false)
  {
  }

  /** Below the lower bound, with its base and a bound suffix that is not a
      table key: the loose test raises. */
  lemma InRangeRaises(g: Grade, lo: Grade, hi: Grade)
    requires g.value.Some? && lo.value.Some? && g.value.value < lo.value.value
    requires g.base == lo.base && LooseEquivalents(lo.suffix).None?
    ensures InRange(g, lo, hi) == Err(UnknownBound)
  {
  }

  /** The ranks and loose rows the pins above need. */
  lemma PinSuffixes()
    ensures Rank("") == Some(15) && Rank("a") == Some(10) && Rank("c") == Some(18)
    ensures Rank("d") == Some(23) && Rank("+") == Some(19)
    ensures LooseEquivalents("") == Some(["-", "", "+"]) && LooseEquivalents("+").None?
    ensures "c" !in ["-", "", "+"] && "d" !in ["-", "", "+"] && "+" in ["-", "", "+"]
  {
    assert LooseTable[4] == ("", ["-", "", "+"]);
  }
}
