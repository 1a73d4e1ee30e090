/** The small helpers of `src/utils/utils.py` that are pure: reading a
    count such as "1,234", the file-type test of `extract_data`, and the
    guard of `save_json_data` that keeps writes inside the project. */
module Utils {
  import opened Wrappers
  import opened Text

  // ---------------------------------------------------------------------------
  // string_to_int

  /** `string_to_int(s)`: delete every space and every comma, then `int()`;
      None stands for the ValueError `int()` raises. */
  function StringToInt(s: string): (r: Option<int>) {
    PyInt(Remove(Remove(s, ' '), ','))
  }

  /** A count as the pages print it: digits, with spaces and commas between
      them. */
  predicate Grouped(s: string) {
    forall c :: c in s ==> IsDigit(c) || c == ' ' || c == ','
  }

  /** The digits of `s`, in order. */
  function Digits(s: string): (r: string)
    ensures forall c :: c in r ==> IsDigit(c)
  {
    if s == [] then [] else (if IsDigit(s[0]) then [s[0]] else []) + Digits(s[1..])
  }

  /** Deleting spaces and commas from a grouped count leaves its digits. */
  lemma {:induction false} RemoveSeparators(s: string)
    requires Grouped(s)
    ensures Remove(Remove(s, ' '), ',') == Digits(s)
  {
    if s != [] {
      assert Grouped(s[1..]) by {
        forall c | c in s[1..] ensures IsDigit(c) || c == ' ' || c == ',' {
          assert c in s;
        }
      }
      RemoveSeparators(s[1..]);
      assert s == [s[0]] + s[1..];
      RemoveAppend([s[0]], s[1..], ' ');
      RemoveAppend(Remove([s[0]], ' '), Remove(s[1..], ' '), ',');
      assert s[0] in s;
    }
  }

  /** A digit of `s` is a digit of `Digits(s)`. */
  lemma {:induction false} DigitKept(s: string, i: nat)
    requires i < |s| && IsDigit(s[i])
    ensures |Digits(s)| > 0
  {
    if i > 0 {
      DigitKept(s[1..], i - 1);
    }
  }

  /** A grouped count with at least one digit reads as the decimal value of
      its digits ("1,234" is 1234, "12 000" is 12000). */
  lemma StringToIntGrouped(s: string)
    requires Grouped(s) && exists i :: 0 <= i < |s| && IsDigit(s[i])
    ensures StringToInt(s) == Some(DigitsValue(Digits(s)))
  {
    var i :| 0 <= i < |s| && IsDigit(s[i]);
    DigitKept(s, i);
    RemoveSeparators(s);
    PyIntDigits(Digits(s));
  }

  /** `int()` of a non-empty string of digits is their decimal value. */
  lemma PyIntDigits(t: string)
    requires AllDigits(t)
    ensures PyInt(t) == Some(DigitsValue(t))
  {
    assert forall c :: c in t ==> !IsSpace(c);
    assert Strip(t) == t;
    ReadDigits(t);
  }

  /** With no digit at all `string_to_int` raises: "" and " , " are not
      counts. */
  lemma StringToIntNeedsDigit(s: string)
    requires forall c :: c in s ==> !IsDigit(c)
    ensures StringToInt(s) == None
  {
    PyIntNeedsDigit(Remove(Remove(s, ' '), ','));
  }

  /** The last three digits of a count, with leading zeros. */
  function Group(m: nat): (s: string)
    requires m < 1000
    ensures |s| == 3 && forall c :: c in s ==> IsDigit(c)
  {
    [('0' as int + m / 100) as char, ('0' as int + m / 10 % 10) as char, ('0' as int + m % 10) as char]
  }

  /** A count printed with a comma between groups of three digits. */
  function WithCommas(n: nat): (s: string)
    ensures Grouped(s) && |s| > 0 && IsDigit(s[|s| - 1])
  {
    if n < 1000 then
      var d := Numeral(n);
      assert d[|d| - 1] in d;
      d
    else
      var g := Group(n % 1000);
      assert g[2] in g;
      WithCommas(n / 1000) + "," + g
  }

  lemma {:induction false} DigitsAppend(x: string, y: string)
    ensures Digits(x + y) == Digits(x) + Digits(y)
  {
    if x != [] {
      assert (x + y)[1..] == x[1..] + y;
      DigitsAppend(x[1..], y);
    } else {
      assert x + y == y;
    }
  }

  lemma DigitsOfDigits(s: string)
    requires forall c :: c in s ==> IsDigit(c)
    ensures Digits(s) == s
  {
    if s != [] {
      assert s[0] in s;
      DigitsOfDigits(s[1..]);
      assert s == [s[0]] + s[1..];
    }
  }

  /** Appending a group of three digits multiplies by 1000 and adds it. */
  lemma GroupValue(x: string, m: nat)
    requires m < 1000 && forall c :: c in x ==> IsDigit(c)
    ensures DigitsValue(x + Group(m)) == DigitsValue(x) * 1000 + m
  {
    var g := Group(m);
    var x1 := x + [g[0]];
    var x2 := x1 + [g[1]];
    assert x + g == x2 + [g[2]];
    AppendDigit(x, g[0]);
    AppendDigit(x1, g[1]);
    AppendDigit(x2, g[2]);
    ThreeDigits(DigitsValue(x), m);
  }

  /** Appending one digit multiplies by ten and adds it. */
  lemma AppendDigit(x: string, d: char)
    requires IsDigit(d) && forall c :: c in x ==> IsDigit(c)
    ensures forall c :: c in x + [d] ==> IsDigit(c)
    ensures DigitsValue(x + [d]) == DigitsValue(x) * 10 + DigitValue(d)
  {
    assert (x + [d])[..|x|] == x;
  }

  lemma ThreeDigits(v: nat, m: nat)
    requires m < 1000
    ensures ((v * 10 + m / 100) * 10 + m / 10 % 10) * 10 + m % 10 == v * 1000 + m
  {
  }

  /** `string_to_int` reads back a count printed with commas. */
  lemma {:induction false} StringToIntWithCommas(n: nat)
    ensures StringToInt(WithCommas(n)) == Some(n)
    decreases n
  {
    var s := WithCommas(n);
    assert s[|s| - 1] in s;
    StringToIntGrouped(s);
    DigitsWithCommas(n);
  }

  lemma {:induction false} DigitsWithCommas(n: nat)
    ensures DigitsValue(Digits(WithCommas(n))) == n
    decreases n
  {
    if n < 1000 {
      DigitsOfDigits(Numeral(n));
      NumeralValue(n);
    } else {
      var a := WithCommas(n / 1000);
      var g := Group(n % 1000);
      DigitsWithCommas(n / 1000);
      DigitsAppend(a + ",", g);
      DigitsAppend(a, ",");
      DigitsOfDigits(g);
      assert Digits(",") == [];
      assert Digits(a) + [] == Digits(a);
      GroupValue(Digits(a), n % 1000);
    }
  }

  // ---------------------------------------------------------------------------
  // extract_data

  /** The index of the last `c` in `p`, or -1. */
  function LastIndex(p: string, c: char): (i: int)
    ensures -1 <= i < |p|
    ensures i >= 0 ==> p[i] == c
    ensures forall j :: i < j < |p| ==> p[j] != c
  {
    if p == [] then -1
    else if p[|p| - 1] == c then |p| - 1
    else LastIndex(p[..|p| - 1], c)
  }

  /** `os.path.splitext(p)`: the extension starts at the last dot of the
      last path component, unless only dots come before it in that
      component (".bashrc" has none). */
  function SplitExt(p: string): (r: (string, string))
    ensures r.0 + r.1 == p
    ensures r.1 == [] || (r.1[0] == '.' && '/' !in r.1 && '.' !in r.1[1..])
  {
    var sep := LastIndex(p, '/');
    var dot := LastIndex(p, '.');
    if dot > sep && exists i :: sep < i < dot && p[i] != '.' then
      assert p[..dot] + p[dot..] == p;
      (p[..dot], p[dot..])
    else
      assert p + [] == p;
      (p, [])
  }

  datatype Format = Json | Csv

  /** `extract_data` reads a file as JSON when its extension is `.json`
      and as CSV otherwise. */
  function ExtractFormat(fileName: string): Format {
    if SplitExt(fileName).1 == ".json" then Json else Csv
  }

  /** The file name ends in ".json" after a last path component that has
      something other than dots before it. */
  predicate JsonName(p: string) {
    && |p| >= 5 && p[|p| - 5..] == ".json"
    && exists i :: 0 <= i < |p| - 5 && p[i] != '.' && p[i] != '/' && NoSlashBetween(p, i, |p| - 5)
  }

  predicate NoSlashBetween(p: string, lo: int, hi: int)
    requires 0 <= lo && hi <= |p|
  {
    forall j :: lo < j < hi ==> p[j] != '/'
  }

  /** `extract_data` takes the JSON branch exactly for JSON names:
      "areas/area.json" and "a.json" are read as JSON, while ".json",
      "x.json.csv" and "dir.json/file" are read as CSV. */
  lemma ExtractFormatJson(p: string)
    ensures ExtractFormat(p) == Json <==> JsonName(p)
  {
    var sep := LastIndex(p, '/');
    var dot := LastIndex(p, '.');
    if ExtractFormat(p) == Json {
      var r := SplitExt(p);
      assert |r.1| == 5 && r.0 == p[..|p| - 5];
      assert dot == |p| - 5 && dot > sep;
      var i :| sep < i < dot && p[i] != '.';
      assert p[|p| - 5..] == r.1;
      assert NoSlashBetween(p, i, |p| - 5);
      assert JsonName(p);
    }
    if JsonName(p) {
      var i :| 0 <= i < |p| - 5 && p[i] != '.' && p[i] != '/' && NoSlashBetween(p, i, |p| - 5);
      var e := p[|p| - 5..];
      assert forall j :: |p| - 5 <= j < |p| ==> p[j] == e[j - (|p| - 5)];
      assert p[|p| - 5] == '.';
      assert dot == |p| - 5;
      assert sep < i;
      assert p[dot..] == ".json";
    }
  }

  // ---------------------------------------------------------------------------
  // save_json_data

  /** `is_subpath(fp)`: the path starts with the project root, which the
      source computes from the location of `utils.py` and is a parameter
      here. */
  predicate IsSubpath(fp: string, root: string) {
    |root| <= |fp| && fp[..|root|] == root
  }

  /** A path is inside the root exactly when it is the root followed by
      something. */
  lemma IsSubpathMeaning(fp: string, root: string)
    ensures IsSubpath(fp, root) <==> exists rest :: fp == root + rest
  {
    if IsSubpath(fp, root) {
      assert fp == root + fp[|root|..];
    }
    if exists rest :: fp == root + rest {
      var rest :| fp == root + rest;
      assert fp[..|root|] == root;
    }
  }

  /** The exception `save_json_data` raises for a path outside the root. */
  datatype SaveError = OutsideProjectRoot

  /** `save_json_data(fp, data)` on the files written so far, a map from
      path to content: refuse a path outside the project root before
      anything is written; otherwise the file at `fp` holds `data`. */
  function SaveJsonData<D>(fp: string, data: D, root: string, files: map<string, D>)
    : (r: Result<map<string, D>, SaveError>)
    ensures r.Err? <==> !IsSubpath(fp, root)
    ensures r.Ok? ==> fp in r.value && r.value[fp] == data && r.value.Keys == files.Keys + {fp}
    ensures r.Ok? ==> forall q :: q in files && q != fp ==> q in r.value && r.value[q] == files[q]
  {
    if !IsSubpath(fp, root) then Err(OutsideProjectRoot) else Ok(files[fp := data])
  }
}
