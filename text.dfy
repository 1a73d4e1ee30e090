/** String operations of Python's `str` that the model relies on, restricted to
    ASCII where case matters: `split` with an explicit separator, `join`,
    `replace`, `lower`, `title`, `startswith` and decimal digits. */
module Text {
  import opened Wrappers

  /** `sep` occurs in `s` starting at index `j`. */
  predicate OccursAt(s: string, sep: string, j: int) {
    0 <= j && j + |sep| <= |s| && s[j..j + |sep|] == sep
  }

  predicate Contains(s: string, sep: string) {
    exists j :: 0 <= j <= |s| && OccursAt(s, sep, j)
  }

  /** The first occurrence of `sep` in `s` at or after `k` (`str.find`). */
  function FindFrom(s: string, sep: string, k: nat): (r: Option<nat>)
    decreases |s| - k
    ensures r.Some? ==> k <= r.value && r.value + |sep| <= |s|
  {
    if k + |sep| > |s| then None
    else if s[k..k + |sep|] == sep then Some(k)
    else FindFrom(s, sep, k + 1)
  }

  /** `FindFrom` finds the first occurrence at or after `k`. */
  lemma {:induction false} FindFromSpec(s: string, sep: string, k: nat)
    ensures var r := FindFrom(s, sep, k);
      && (r.Some? ==> OccursAt(s, sep, r.value))
      && (r.Some? ==> forall j :: k <= j < r.value ==> !OccursAt(s, sep, j))
      && (r.None? ==> forall j :: k <= j ==> !OccursAt(s, sep, j))
    decreases |s| - k
  {
    if k + |sep| <= |s| && s[k..k + |sep|] != sep {
      FindFromSpec(s, sep, k + 1);
    }
  }

  /** `s.split(sep)`: the pieces between the non-overlapping occurrences of
      `sep`, scanning from the left. */
  function Split(s: string, sep: string): (parts: seq<string>)
    requires |sep| > 0
    decreases |s|
  {
    match FindFrom(s, sep, 0)
    case None => [s]
    case Some(i) => [s[..i]] + Split(s[i + |sep|..], sep)
  }

  /** `sep.join(parts)`. */
  function Join(parts: seq<string>, sep: string): string
  {
    if |parts| == 0 then ""
    else if |parts| == 1 then parts[0]
    else parts[0] + sep + Join(parts[1..], sep)
  }

  /** `s.replace(target, with)`, which Python defines as `with.join(s.split(target))`. */
  function ReplaceAll(s: string, target: string, with: string): string
    requires |target| > 0
  {
    Join(Split(s, target), with)
  }

  /** A split has at least one piece. */
  lemma {:induction false} SplitNonEmpty(s: string, sep: string)
    requires |sep| > 0
    ensures |Split(s, sep)| >= 1
  {
    match FindFrom(s, sep, 0)
    case None =>
    case Some(i) =>
  }

  /** One step of `Split`: the piece before the first separator, then the rest. */
  lemma SplitStep(s: string, sep: string, i: nat)
    requires |sep| > 0 && FindFrom(s, sep, 0) == Some(i)
    ensures Split(s, sep) == [s[..i]] + Split(s[i + |sep|..], sep)
  {
  }

  lemma JoinCons(x: string, ys: seq<string>, sep: string)
    requires |ys| >= 1
    ensures Join([x] + ys, sep) == x + sep + Join(ys, sep)
  {
    assert ([x] + ys)[1..] == ys;
  }

  /** One step of `replace`: the text before the first occurrence, the
      replacement, then the rest replaced; the text before holds no
      occurrence. */
  lemma ReplaceStep(s: string, sep: string, with: string, i: nat)
    requires |sep| > 0 && FindFrom(s, sep, 0) == Some(i)
    ensures ReplaceAll(s, sep, with) == s[..i] + with + ReplaceAll(s[i + |sep|..], sep, with)
    ensures !Contains(s[..i], sep)
  {
    var rest := s[i + |sep|..];
    FindFromSpec(s, sep, 0);
    SplitStep(s, sep, i);
    SplitNonEmpty(rest, sep);
    JoinCons(s[..i], Split(rest, sep), with);
    forall j | 0 <= j <= i ensures !OccursAt(s[..i], sep, j) {
      OccursInPrefix(s, sep, i, j);
    }
  }

  /** Joining the pieces of a split with the same separator gives back the string. */
  lemma {:induction false} JoinSplit(s: string, sep: string)
    requires |sep| > 0
    ensures Join(Split(s, sep), sep) == s
    decreases |s|
  {
    match FindFrom(s, sep, 0)
    case None =>
    case Some(i) =>
      var rest := s[i + |sep|..];
      ReplaceStep(s, sep, sep, i);
      JoinSplit(rest, sep);
      assert s == s[..i] + sep + rest by { FindFromSpec(s, sep, 0); }
  }

  /** No piece of a split contains the separator. */
  lemma {:induction false} SplitPiecesFree(s: string, sep: string)
    requires |sep| > 0
    ensures forall p :: p in Split(s, sep) ==> !Contains(p, sep)
    decreases |s|
  {
    FindFromSpec(s, sep, 0);
    match FindFrom(s, sep, 0)
    case None =>
    case Some(i) =>
      SplitStep(s, sep, i);
      SplitPiecesFree(s[i + |sep|..], sep);
      forall j | 0 <= j <= i ensures !OccursAt(s[..i], sep, j) {
        OccursInPrefix(s, sep, i, j);
      }
  }

  /** An occurrence inside a prefix is an occurrence in the whole string. */
  lemma OccursInPrefix(s: string, sep: string, i: nat, j: nat)
    requires i <= |s|
    ensures OccursAt(s[..i], sep, j) ==> OccursAt(s, sep, j)
  {
    if OccursAt(s[..i], sep, j) {
      assert s[..i][j..j + |sep|] == s[j..j + |sep|];
    }
  }

  /** A string without the separator splits into itself alone. */
  lemma SplitWithout(s: string, sep: string)
    requires |sep| > 0 && !Contains(s, sep)
    ensures Split(s, sep) == [s]
  {
    FindFromSpec(s, sep, 0);
    match FindFrom(s, sep, 0)
    case None =>
    case Some(i) => assert false;
  }

  /** A split has more than one piece exactly when the separator occurs. */
  lemma SplitPieces(s: string, sep: string)
    requires |sep| > 0
    ensures |Split(s, sep)| >= 2 <==> Contains(s, sep)
  {
    FindFromSpec(s, sep, 0);
    if Contains(s, sep) {
      var j :| 0 <= j <= |s| && OccursAt(s, sep, j);
      var i := FindFrom(s, sep, 0).value;
      SplitStep(s, sep, i);
      SplitNonEmpty(s[i + |sep|..], sep);
    } else {
      SplitWithout(s, sep);
    }
  }

  /** Splitting a string that holds the separator once, between two pieces
      free of it. */
  lemma SplitAround(a: string, sep: string, b: string)
    requires |sep| == 1 && !Contains(a, sep)
    ensures Split(a + sep + b, sep) == [a] + Split(b, sep)
  {
    var s := a + sep + b;
    FindFromSpec(s, sep, 0);
    FindFromSpec(a, sep, 0);
    assert OccursAt(s, sep, |a|);
    match FindFrom(s, sep, 0)
    case None =>
    case Some(i) =>
      if i < |a| {
        assert s[i..i + 1] == a[i..i + 1];
        assert OccursAt(a, sep, i);
      }
      assert i == |a|;
      assert s[..i] == a;
      assert s[i + 1..] == b;
  }

  /** With a one-character separator, a split of two strings joined by it
      is the two splits one after the other. */
  lemma {:induction false} SplitConcat(a: string, sep: string, b: string)
    requires |sep| == 1
    ensures Split(a + sep + b, sep) == Split(a, sep) + Split(b, sep)
    decreases |a|
  {
    match FindFrom(a, sep, 0)
    case None =>
      SplitConcatFree(a, sep, b);
    case Some(i) =>
      SplitConcat(a[i + 1..], sep, b);
      SplitConcatCons(a, sep, b, i);
  }

  /** A first part free of the separator stays one piece. */
  lemma SplitConcatFree(a: string, sep: string, b: string)
    requires |sep| == 1 && FindFrom(a, sep, 0).None?
    ensures Split(a + sep + b, sep) == Split(a, sep) + Split(b, sep)
  {
    assert !Contains(a, sep) by { FindFromSpec(a, sep, 0); }
    SplitWithout(a, sep);
    SplitAround(a, sep, b);
  }

  /** The first piece of the first part heads both splits. */
  lemma SplitConcatCons(a: string, sep: string, b: string, i: nat)
    requires |sep| == 1 && FindFrom(a, sep, 0) == Some(i)
    requires Split(a[i + 1..] + sep + b, sep) == Split(a[i + 1..], sep) + Split(b, sep)
    ensures Split(a + sep + b, sep) == Split(a, sep) + Split(b, sep)
  {
    SplitConcatStep(a, sep, b, i);
    ConsRegroup(Split(a + sep + b, sep), [a[..i]], Split(a[i + 1..] + sep + b, sep),
                Split(a[i + 1..], sep), Split(b, sep), Split(a, sep));
  }

  lemma ConsRegroup<T>(l: seq<T>, p: seq<T>, m: seq<T>, x: seq<T>, y: seq<T>, r: seq<T>)
    requires l == p + m && m == x + y && r == p + x
    ensures l == r + y
  {
  }

  lemma SnocRegroup<T>(l: seq<T>, m: seq<T>, z: seq<T>, x: seq<T>, y: seq<T>, r: seq<T>)
    requires l == m + z && m == x + y && r == y + z
    ensures l == x + r
  {
  }

  /** The first piece of `a` is also the first piece of `a + sep + b`. */
  lemma SplitConcatStep(a: string, sep: string, b: string, i: nat)
    requires |sep| == 1 && FindFrom(a, sep, 0) == Some(i)
    ensures Split(a + sep + b, sep) == [a[..i]] + Split(a[i + 1..] + sep + b, sep)
    ensures Split(a, sep) == [a[..i]] + Split(a[i + 1..], sep)
  {
    var s := a + sep + b;
    assert s[..i] == a[..i] && s[i + 1..] == a[i + 1..] + sep + b;
    FirstOccurrenceKept(a, sep, b, i);
    SplitStep(s, sep, i);
    SplitStep(a, sep, i);
  }

  /** Text appended after a string does not move its first separator. */
  lemma FirstOccurrenceKept(a: string, sep: string, b: string, i: nat)
    requires |sep| == 1 && FindFrom(a, sep, 0) == Some(i)
    ensures FindFrom(a + sep + b, sep, 0) == Some(i)
  {
    var s := a + sep + b;
    FindFromSpec(a, sep, 0);
    FindFromSpec(s, sep, 0);
    assert s[i..i + 1] == a[i..i + 1];
    assert OccursAt(s, sep, i);
    forall j | 0 <= j < i ensures !OccursAt(s, sep, j) {
      assert !OccursAt(a, sep, j);
      assert s[j..j + 1] == a[j..j + 1];
    }
  }

  /** The single-character replacement `s.replace(a, b)`, character by character. */
  function MapChar(s: string, a: char, b: char): (r: string)
    ensures |r| == |s|
    ensures forall k :: 0 <= k < |s| ==> r[k] == if s[k] == a then b else s[k]
  {
    if s == [] then [] else [if s[0] == a then b else s[0]] + MapChar(s[1..], a, b)
  }

  /** `s` with every occurrence of `c` deleted (`s.replace(c, '')`). */
  function Remove(s: string, c: char): (r: string)
    ensures c !in r
    ensures forall x :: x in r <==> x in s && x != c
  {
    if s == [] then [] else (if s[0] == c then [] else [s[0]]) + Remove(s[1..], c)
  }

  lemma MapCharAppend(x: string, y: string, a: char, b: char)
    ensures MapChar(x + y, a, b) == MapChar(x, a, b) + MapChar(y, a, b)
  {
    var l, r := MapChar(x + y, a, b), MapChar(x, a, b) + MapChar(y, a, b);
    assert |l| == |r|;
    forall k | 0 <= k < |l| ensures l[k] == r[k] {
      if k < |x| { assert (x + y)[k] == x[k]; } else { assert (x + y)[k] == y[k - |x|]; }
    }
  }

  lemma RemoveAppend(x: string, y: string, c: char)
    ensures Remove(x + y, c) == Remove(x, c) + Remove(y, c)
  {
    if x == [] {
      assert x + y == y;
    } else {
      assert (x + y)[1..] == x[1..] + y;
      RemoveAppend(x[1..], y, c);
    }
  }

  /** A string without the character `a` is its own single-character replacement. */
  lemma MapCharAbsent(s: string, a: char, b: char)
    requires a !in s
    ensures MapChar(s, a, b) == s
  {
  }

  /** A string without `c` is unchanged by deleting `c`. */
  lemma {:induction false} RemoveAbsent(s: string, c: char)
    requires c !in s
    ensures Remove(s, c) == s
  {
    if s != [] {
      assert c !in s[1..];
      RemoveAbsent(s[1..], c);
    }
  }

  lemma NoOccurrenceOfChar(s: string, c: char)
    requires !Contains(s, [c])
    ensures c !in s
  {
    if c in s {
      var k :| 0 <= k < |s| && s[k] == c;
      assert s[k..k + 1] == [c];
      assert OccursAt(s, [c], k);
    }
  }

  lemma CharAbsentNotContained(s: string, c: char)
    requires c !in s
    ensures !Contains(s, [c])
  {
    forall j | 0 <= j <= |s| ensures !OccursAt(s, [c], j) {
      if j < |s| {
        assert s[j..j + 1] == [s[j]];
      }
    }
  }

  /** Python's `replace` of one character by another is `MapChar`. */
  lemma {:induction false} ReplaceCharIsMapChar(s: string, a: char, b: char)
    ensures ReplaceAll(s, [a], [b]) == MapChar(s, a, b)
    decreases |s|
  {
    FindFromSpec(s, [a], 0);
    match FindFrom(s, [a], 0)
    case None =>
      NoOccurrenceOfChar(s, a);
      MapCharAbsent(s, a, b);
    case Some(i) =>
      var rest := s[i + 1..];
      ReplaceStep(s, [a], [b], i);
      ReplaceCharIsMapChar(rest, a, b);
      MapCharAt(s, a, b, i);
  }

  /** Replacing in a string whose first `a` is at `i`. */
  lemma MapCharAt(s: string, a: char, b: char, i: nat)
    requires OccursAt(s, [a], i) && !Contains(s[..i], [a])
    ensures MapChar(s, a, b) == s[..i] + [b] + MapChar(s[i + 1..], a, b)
  {
    assert s[i..i + 1][0] == s[i];
    NoOccurrenceOfChar(s[..i], a);
    var l, r := MapChar(s, a, b), s[..i] + [b] + MapChar(s[i + 1..], a, b);
    forall k | 0 <= k < |s| ensures l[k] == r[k] {
      if k < i {
        assert s[..i][k] == s[k];
      } else if k > i {
        assert s[i + 1..][k - i - 1] == s[k];
      }
    }
  }

  /** Python's `replace` of one character by the empty string is `Remove`. */
  lemma {:induction false} ReplaceCharByNothing(s: string, c: char)
    ensures ReplaceAll(s, [c], "") == Remove(s, c)
    decreases |s|
  {
    FindFromSpec(s, [c], 0);
    match FindFrom(s, [c], 0)
    case None =>
      NoOccurrenceOfChar(s, c);
      RemoveAbsent(s, c);
    case Some(i) =>
      var rest := s[i + 1..];
      ReplaceStep(s, [c], "", i);
      ReplaceCharByNothing(rest, c);
      RemoveAt(s, c, i);
  }

  /** Deleting from a string whose first `c` is at `i`. */
  lemma RemoveAt(s: string, c: char, i: nat)
    requires OccursAt(s, [c], i) && !Contains(s[..i], [c])
    ensures Remove(s, c) == s[..i] + Remove(s[i + 1..], c)
  {
    var pre, rest := s[..i], s[i + 1..];
    assert s == pre + ([c] + rest) by { assert s[i..i + 1][0] == s[i]; }
    assert Remove(pre, c) == pre by { NoOccurrenceOfChar(pre, c); RemoveAbsent(pre, c); }
    assert Remove([c] + rest, c) == Remove(rest, c) by { assert ([c] + rest)[1..] == rest; }
    RemoveAppend(pre, [c] + rest, c);
  }

  predicate IsDigit(c: char) {
    '0' <= c <= '9'
  }

  predicate IsUpper(c: char) {
    'A' <= c <= 'Z'
  }

  predicate IsLower(c: char) {
    'a' <= c <= 'z'
  }

  /** An ASCII letter: the characters `str.title` treats as cased. */
  predicate IsLetter(c: char) {
    IsUpper(c) || IsLower(c)
  }

  function ToLower(c: char): char {
    if IsUpper(c) then (c as int + 32) as char else c
  }

  function ToUpper(c: char): char {
    if IsLower(c) then (c as int - 32) as char else c
  }

  /** `s.lower()` on ASCII letters. */
  function Lower(s: string): (r: string)
    ensures |r| == |s|
    ensures forall k :: 0 <= k < |s| ==> r[k] == ToLower(s[k])
  {
    if s == [] then [] else [ToLower(s[0])] + Lower(s[1..])
  }

  /** `str.title`: a letter is upper-cased when the character before it is not a
      letter, and lower-cased otherwise. */
  function TitleFrom(s: string, afterLetter: bool): (r: string)
    ensures |r| == |s|
  {
    if s == [] then []
    else if IsLetter(s[0]) then
      [if afterLetter then ToLower(s[0]) else ToUpper(s[0])] + TitleFrom(s[1..], true)
    else [s[0]] + TitleFrom(s[1..], false)
  }

  function Title(s: string): (r: string)
  {
    TitleFrom(s, false)
  }

  /** Title-casing ignores the case the letters had before. */
  lemma {:induction false} TitleOfLower(s: string, afterLetter: bool)
    ensures TitleFrom(Lower(s), afterLetter) == TitleFrom(s, afterLetter)
  {
    if s != [] {
      assert Lower(s)[1..] == Lower(s[1..]);
      TitleOfLower(s[1..], true);
      TitleOfLower(s[1..], false);
    }
  }

  /** Lower-casing does not touch a non-letter, so it commutes with swapping
      two non-letters. */
  lemma LowerMapChar(s: string, a: char, b: char)
    requires !IsLetter(a) && !IsLetter(b)
    ensures Lower(MapChar(s, a, b)) == MapChar(Lower(s), a, b)
  {
  }

  /** Swapping a character for one and back gives back the string when the
      second character did not occur. */
  lemma MapCharBack(s: string, a: char, b: char)
    requires b !in s
    ensures MapChar(MapChar(s, a, b), b, a) == s
  {
  }

  function DigitValue(c: char): (d: nat)
    requires IsDigit(c)
    ensures d < 10
  {
    c as int - '0' as int
  }

  /** The value of a string of decimal digits. */
  function DigitsValue(s: string): (n: nat)
    requires forall c :: c in s ==> IsDigit(c)
  {
    if s == [] then 0 else DigitsValue(s[..|s| - 1]) * 10 + DigitValue(s[|s| - 1])
  }

  /** The decimal numeral of `n` (no sign, no leading zero). */
  function Numeral(n: nat): (s: string)
    ensures |s| > 0 && forall c :: c in s ==> IsDigit(c)
  {
    if n < 10 then [('0' as int + n) as char] else Numeral(n / 10) + [('0' as int + n % 10) as char]
  }

  /** Numerals read back as their value. */
  lemma {:induction false} NumeralValue(n: nat)
    ensures DigitsValue(Numeral(n)) == n
  {
    if n >= 10 {
      NumeralValue(n / 10);
      var s := Numeral(n);
      assert s[..|s| - 1] == Numeral(n / 10);
    }
  }

  /** The characters `str.isspace` accepts, which `str.strip` and `int`
      skip: the ASCII controls 9 to 13 and 28 to 31, the space, and the
      Unicode spaces and separators. */
  predicate IsSpace(c: char) {
    || '\U{9}' <= c <= '\U{D}' || '\U{1C}' <= c <= '\U{20}'
    || c == '\U{85}' || c == '\U{A0}' || c == '\U{1680}'
    || '\U{2000}' <= c <= '\U{200A}' || c == '\U{2028}' || c == '\U{2029}'
    || c == '\U{202F}' || c == '\U{205F}' || c == '\U{3000}'
  }

  /** `s.strip()`: no space at either end, and nothing but spaces removed. */
  function Strip(s: string): (r: string)
    ensures |r| <= |s|
    ensures |r| > 0 ==> !IsSpace(r[0]) && !IsSpace(r[|r| - 1])
    ensures (forall c :: c in s ==> !IsSpace(c)) ==> r == s
  {
    if s == [] then []
    else if IsSpace(s[0]) then Strip(s[1..])
    else if IsSpace(s[|s| - 1]) then Strip(s[..|s| - 1])
    else s
  }

  predicate AllDigits(s: string) {
    |s| > 0 && forall c :: c in s ==> IsDigit(c)
  }

  /** The digits `int` reads: decimal digits, with single underscores
      allowed between two of them. */
  predicate Numeric(s: string) {
    && |s| > 0 && IsDigit(s[0]) && IsDigit(s[|s| - 1])
    && (forall c :: c in s ==> IsDigit(c) || c == '_')
    && forall k :: 0 <= k < |s| - 1 ==> !(s[k] == '_' && s[k + 1] == '_')
  }

  /** The value of such digits: the underscores do not count. */
  function NumericValue(s: string): nat
    requires forall c :: c in s ==> IsDigit(c) || c == '_'
  {
    DigitsValue(Remove(s, '_'))
  }

  /** `int(s)` for a string: surrounding spaces, an optional sign and at
      least one decimal digit, with single underscores between digits;
      anything else raises `ValueError`. */
  function PyInt(s: string): (r: Option<int>)
  {
    ReadInt(Strip(s))
  }

  /** What `int` makes of the text once the spaces are stripped. */
  function ReadInt(t: string): Option<int>
  {
    if |t| > 0 && (t[0] == '-' || t[0] == '+') then
      if Numeric(t[1..]) then Some(if t[0] == '-' then -(NumericValue(t[1..]) as int) else NumericValue(t[1..]))
      else None
    else if Numeric(t) then Some(NumericValue(t))
    else None
  }

  /** The decimal numeral of any integer, with `-` before a negative one. */
  function Signed(n: int): (s: string)
    ensures |s| > 0 && (s[0] == '-' || IsDigit(s[0])) && IsDigit(s[|s| - 1])
  {
    var digits := Numeral(if n < 0 then -n else n);
    assert digits[|digits| - 1] in digits && digits[0] in digits;
    if n < 0 then "-" + digits else digits
  }

  /** `int(str(n)) == n`, with any spaces around the numeral. */
  lemma PyIntSigned(n: int, pre: string, post: string)
    requires forall c :: c in pre + post ==> IsSpace(c)
    ensures PyInt(pre + Signed(n) + post) == Some(n)
  {
    StripSpaces(pre, Signed(n), post);
    ReadSigned(n);
  }

  lemma ReadSigned(n: int)
    ensures ReadInt(Signed(n)) == Some(n)
  {
    if n < 0 {
      assert Signed(n) == "-" + Numeral(-n);
      NumeralValue(-n);
      ReadNegative(Numeral(-n));
    } else {
      assert Signed(n) == Numeral(n);
      NumeralValue(n);
      ReadDigits(Numeral(n));
    }
  }

  /** Digits alone read as their decimal value. */
  lemma ReadDigits(d: string)
    requires AllDigits(d)
    ensures ReadInt(d) == Some(DigitsValue(d))
  {
    DigitsNumeric(d);
  }

  /** A minus sign before digits negates their value. */
  lemma ReadNegative(d: string)
    requires AllDigits(d)
    ensures ReadInt("-" + d) == Some(-(DigitsValue(d) as int))
  {
    assert ("-" + d)[0] == '-' && ("-" + d)[1..] == d;
    DigitsNumeric(d);
  }

  /** Plain digits are read as their decimal value. */
  lemma DigitsNumeric(d: string)
    requires AllDigits(d)
    ensures Numeric(d) && NumericValue(d) == DigitsValue(d)
  {
    assert d[0] in d && d[|d| - 1] in d;
    RemoveAbsent(d, '_');
  }

  /** An underscore between two runs of digits is skipped:
      `int("1_000") == int("1000")`. */
  lemma PyIntUnderscore(a: string, b: string)
    requires AllDigits(a) && AllDigits(b)
    ensures PyInt(a + "_" + b) == PyInt(a + b) == Some(DigitsValue(a + b))
  {
    var s := a + "_" + b;
    UnderscoreNumeric(a, b);
    assert Strip(s) == s by { NoSpaceIn(s); }
    assert s[0] == a[0] && a[0] in a;
    assert AllDigits(a + b);
    assert Strip(a + b) == a + b by { NoSpaceIn(a + b); }
    ReadDigits(a + b);
  }

  /** Digits and underscores are not spaces. */
  lemma NoSpaceIn(s: string)
    requires forall c :: c in s ==> IsDigit(c) || c == '_'
    ensures forall c :: c in s ==> !IsSpace(c)
  {
  }

  lemma UnderscoreNumeric(a: string, b: string)
    requires AllDigits(a) && AllDigits(b)
    ensures Numeric(a + "_" + b) && NumericValue(a + "_" + b) == DigitsValue(a + b)
  {
    SingleUnderscore(a, b);
    RemoveUnderscore(a, b);
  }

  lemma SingleUnderscore(a: string, b: string)
    requires AllDigits(a) && AllDigits(b)
    ensures Numeric(a + "_" + b)
  {
    var s := a + "_" + b;
    assert a[0] in a && b[|b| - 1] in b;
    forall k | 0 <= k < |s| - 1 ensures !(s[k] == '_' && s[k + 1] == '_') {
      if k < |a| {
        assert s[k] == a[k] && a[k] in a;
      } else {
        assert s[k + 1] == b[k - |a|] && b[k - |a|] in b;
      }
    }
  }

  lemma RemoveUnderscore(a: string, b: string)
    requires AllDigits(a) && AllDigits(b)
    ensures Remove(a + "_" + b, '_') == a + b
  {
    assert '_' !in a && '_' !in b;
    RemoveAbsent(a, '_');
    RemoveAbsent(b, '_');
    assert Remove("_", '_') == [];
    RemoveAppend(a, "_", '_');
    assert Remove(a + "_", '_') == a;
    RemoveAppend(a + "_", b, '_');
  }

  /** Stripping keeps a middle part with no space at either end. */
  lemma {:induction false} StripSpaces(pre: string, mid: string, post: string)
    requires forall c :: c in pre + post ==> IsSpace(c)
    requires |mid| > 0 && !IsSpace(mid[0]) && !IsSpace(mid[|mid| - 1])
    ensures Strip(pre + mid + post) == mid
    decreases |pre| + |post|
  {
    var s := pre + mid + post;
    if pre != [] {
      assert pre[0] in pre + post;
      assert s[1..] == pre[1..] + mid + post;
      StripSpaces(pre[1..], mid, post);
    } else if post != [] {
      assert post[|post| - 1] in pre + post;
      assert s[..|s| - 1] == pre + mid + post[..|post| - 1];
      StripSpaces(pre, mid, post[..|post| - 1]);
    } else {
      assert s == mid;
    }
  }

  /** A string with no digit is never read as an integer. */
  lemma PyIntNeedsDigit(s: string)
    requires forall c :: c in s ==> !IsDigit(c)
    ensures PyInt(s) == None
  {
    var t := Strip(s);
    StripPart(s);
    if |t| > 0 && (t[0] == '-' || t[0] == '+') {
      assert !AllDigits(t[1..]) by {
        if |t[1..]| > 0 {
          assert t[1..][0] in t;
        }
      }
    } else {
      assert !AllDigits(t) by {
        if |t| > 0 {
          assert t[0] in t;
        }
      }
    }
  }

  /** Every character kept by `Strip` was in the string. */
  lemma {:induction false} StripPart(s: string)
    ensures forall c :: c in Strip(s) ==> c in s
  {
    if s != [] {
      if IsSpace(s[0]) {
        StripPart(s[1..]);
      } else if IsSpace(s[|s| - 1]) {
        StripPart(s[..|s| - 1]);
      }
    }
  }

  function Reverse<T>(s: seq<T>): (r: seq<T>)
    ensures |r| == |s|
    ensures forall k :: 0 <= k < |s| ==> r[k] == s[|s| - 1 - k]
  {
    if s == [] then [] else Reverse(s[1..]) + [s[0]]
  }
}
