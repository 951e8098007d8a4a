/** The Python string operations the solvers' parsers are built from:
    `str.split(sep)`, `"sep".join(...)`, `str.strip()`, `str.strip(chars)`,
    `str.replace(c, "")`, the `int(...)` constructor on text, and the
    comprehension filter `[l for l in lines if l]`. */
module Text {
  import opened Results

  // ---------------------------------------------------------------------
  // Searching and splitting
  // ---------------------------------------------------------------------

  /** `sep` occurs in `s` starting at index `i`. */
  predicate OccursAt(s: string, sep: string, i: nat) {
    i + |sep| <= |s| && s[i..i + |sep|] == sep
  }

  /** `sep` occurs nowhere in `s`. */
  ghost predicate Free(s: string, sep: string) {
    forall i: nat :: !OccursAt(s, sep, i)
  }

  /** The leftmost occurrence of `sep` in `s` at or after `from`. */
  function Find(s: string, sep: string, from: nat): (r: Option<nat>)
    ensures r.Some? ==> from <= r.value && OccursAt(s, sep, r.value)
    ensures forall j: nat :: from <= j && (r.None? || j < r.value) ==> !OccursAt(s, sep, j)
    decreases |s| - from
  {
    if from + |sep| > |s| then None
    else if s[from..from + |sep|] == sep then Some(from)
    else Find(s, sep, from + 1)
  }

  /** A prefix of `s` that ends before an index where nothing occurs is free too. */
  lemma PrefixFree(s: string, sep: string, i: nat)
    requires sep != [] && i <= |s|
    requires forall j: nat :: j < i ==> !OccursAt(s, sep, j)
    ensures Free(s[..i], sep)
  {
    forall j: nat ensures !OccursAt(s[..i], sep, j) {
      if OccursAt(s[..i], sep, j) {
        assert s[..i][j..j + |sep|] == s[j..j + |sep|];
        assert OccursAt(s, sep, j);
      }
    }
  }

  /** `s.split(sep)`: the pieces between the leftmost non-overlapping
      occurrences of `sep`, scanning left to right. Consecutive separators
      give empty pieces; there is always at least one piece. */
  function Split(s: string, sep: string): (parts: seq<string>)
    requires sep != []
    ensures |parts| >= 1
    decreases |s|
  {
    match Find(s, sep, 0)
    case None => [s]
    case Some(i) => [s[..i]] + Split(s[i + |sep|..], sep)
  }

  /** No piece of a split contains the separator. */
  lemma {:induction false} SplitPiecesFree(s: string, sep: string)
    requires sep != []
    ensures forall k :: 0 <= k < |Split(s, sep)| ==> Free(Split(s, sep)[k], sep)
    decreases |s|
  {
    match Find(s, sep, 0)
    case None =>
      PrefixFree(s, sep, |s|);
      assert s[..|s|] == s;
    case Some(i) =>
      PrefixFree(s, sep, i);
      SplitPiecesFree(s[i + |sep|..], sep);
  }

  /** `sep.join(parts)`. */
  function Join(parts: seq<string>, sep: string): string {
    if |parts| == 0 then []
    else if |parts| == 1 then parts[0]
    else parts[0] + sep + Join(parts[1..], sep)
  }

  /** Splitting loses nothing: joining the pieces back gives the text. */
  lemma {:induction false} JoinSplit(s: string, sep: string)
    requires sep != []
    ensures Join(Split(s, sep), sep) == s
    decreases |s|
  {
    match Find(s, sep, 0)
    case None =>
    case Some(i) =>
      var rest := s[i + |sep|..];
      var tail := Split(rest, sep);
      JoinSplit(rest, sep);
      var parts := Split(s, sep);
      assert parts == [s[..i]] + tail;
      assert parts[1..] == tail;
      assert Join(parts, sep) == s[..i] + sep + Join(tail, sep);
      assert s[i..i + |sep|] == sep;
      assert s == s[..i] + s[i..i + |sep|] + rest;
  }

  /** With a one-character separator that no piece contains, splitting the
      joined text gives the pieces back. */
  lemma {:induction false} SplitJoin(parts: seq<string>, sep: string)
    requires |sep| == 1 && |parts| >= 1
    requires forall k :: 0 <= k < |parts| ==> sep[0] !in parts[k]
    ensures Split(Join(parts, sep), sep) == parts
  {
    var s := Join(parts, sep);
    if |parts| == 1 {
      match Find(s, sep, 0)
      case None =>
      case Some(i) =>
        assert false;
    } else {
      var p := parts[0];
      var tail := Join(parts[1..], sep);
      assert s == p + sep + tail;
      assert OccursAt(s, sep, |p|) by {
        assert s[|p|..|p| + 1] == sep;
      }
      match Find(s, sep, 0)
      case None =>
        assert false;
      case Some(i) =>
        if i < |p| {
          assert false;
        }
        assert i == |p|;
        assert s[..i] == p;
        assert s[i + 1..] == tail;
        SplitJoin(parts[1..], sep);
        assert parts == [p] + parts[1..];
    }
  }

  /** `s.index(c)`: the first position of `c` in `s`; `None` stands for
      the ValueError raised when there is none. */
  function IndexOf(s: string, c: char): (r: Option<nat>)
    ensures r.Some? ==> r.value < |s| && s[r.value] == c && c !in s[..r.value]
    ensures r.None? <==> c !in s
  {
    if s == [] then None
    else if s[0] == c then Some(0)
    else match IndexOf(s[1..], c)
      case None => None
      case Some(i) =>
        assert s[..i + 1] == [s[0]] + s[1..][..i];
        Some(i + 1)
  }

  /** A one-character separator occurs exactly where that character is. */
  lemma FreeOfChar(s: string, c: char)
    requires Free(s, [c])
    ensures c !in s
  {
    if c in s {
      var i :| 0 <= i < |s| && s[i] == c;
      assert s[i..i + 1] == [c];
      assert OccursAt(s, [c], i);
    }
  }

  /** `[l for l in lines if l]`: the non-empty lines, in order. */
  function NonEmpty(lines: seq<string>): (rows: seq<string>)
    ensures forall i :: 0 <= i < |rows| ==> rows[i] != [] && rows[i] in lines
    ensures forall l :: l in lines && l != [] ==> l in rows
  {
    if lines == [] then []
    else
      var rest := NonEmpty(lines[1..]);
      assert forall l :: l in lines[1..] ==> l in lines;
      assert lines == [lines[0]] + lines[1..];
      if lines[0] == [] then rest else [lines[0]] + rest
  }

  /** The filter keeps the order and the count of the lines: it
      distributes over concatenation, drops a single empty line and keeps a
      single non-empty one. */
  lemma {:induction false} NonEmptyAppend(a: seq<string>, b: seq<string>, l: string)
    ensures NonEmpty(a + b) == NonEmpty(a) + NonEmpty(b)
    ensures NonEmpty([l]) == if l == [] then [] else [l]
  {
    if a == [] {
      assert a + b == b;
    } else {
      assert (a + b)[0] == a[0] && (a + b)[1..] == a[1..] + b;
      NonEmptyAppend(a[1..], b, l);
    }
    assert [l][1..] == [];
  }

  /** A list with no empty line is kept whole. */
  lemma {:induction false} NonEmptyKeeps(lines: seq<string>)
    requires forall i :: 0 <= i < |lines| ==> lines[i] != []
    ensures NonEmpty(lines) == lines
  {
    if lines != [] {
      NonEmptyKeeps(lines[1..]);
    }
  }

  /** `[parse(l) for l in lines if l]` taken one line at a time: an empty
      line adds nothing, and a non-empty one is converted after the lines
      before it. */
  lemma ParseNonEmptySnoc<T, E>(front: seq<string>, line: string, parse: string -> Result<T, E>)
    ensures line == [] ==> ParseEach(NonEmpty(front + [line]), parse) == ParseEach(NonEmpty(front), parse)
    ensures line != [] ==> ParseEach(NonEmpty(front + [line]), parse) == ParseEach(NonEmpty(front) + [line], parse)
  {
    NonEmptyAppend(front, [line], line);
    if line == [] {
      assert NonEmpty(front) + [] == NonEmpty(front);
    }
  }

  /** The same step with the lines so far converted: an empty line keeps
      the values, a good line appends its value and a bad line is the error. */
  lemma ParseNonEmptyStep<T, E>(front: seq<string>, line: string, parse: string -> Result<T, E>)
    requires ParseEach(NonEmpty(front), parse).Ok?
    ensures line == [] ==> ParseEach(NonEmpty(front + [line]), parse) == ParseEach(NonEmpty(front), parse)
    ensures line != [] && parse(line).Ok? ==>
              ParseEach(NonEmpty(front + [line]), parse) == Ok(ParseEach(NonEmpty(front), parse).value + [parse(line).value])
    ensures line != [] && parse(line).Err? ==> ParseEach(NonEmpty(front + [line]), parse) == Err(parse(line).error)
  {
    ParseNonEmptySnoc(front, line, parse);
    ParseEachSnoc(NonEmpty(front), line, parse);
  }

  /** Once the lines so far fail, the lines after them change nothing. */
  lemma ParseNonEmptyErr<T, E>(front: seq<string>, more: seq<string>, parse: string -> Result<T, E>)
    requires ParseEach(NonEmpty(front), parse).Err?
    ensures ParseEach(NonEmpty(front + more), parse) == ParseEach(NonEmpty(front), parse)
  {
    NonEmptyAppend(front, more, []);
    ParseEachErr(NonEmpty(front), NonEmpty(more), parse);
  }

  // ---------------------------------------------------------------------
  // Stripping and removing characters
  // ---------------------------------------------------------------------

  /** The characters `str.strip()` with no argument removes: Python's
      whitespace class, the characters for which `str.isspace()` holds.
      `int()` skips a slightly smaller set, `NumeralSpace`. */
  function Whitespace(): set<char> {
    {' ', '\t', '\n', '\r', '\U{B}', '\U{C}', '\U{1C}', '\U{1D}', '\U{1E}', '\U{1F}', '\U{85}', '\U{A0}',
     '\U{1680}', '\U{2000}', '\U{2001}', '\U{2002}', '\U{2003}', '\U{2004}', '\U{2005}', '\U{2006}',
     '\U{2007}', '\U{2008}', '\U{2009}', '\U{200A}', '\U{2028}', '\U{2029}', '\U{202F}', '\U{205F}',
     '\U{3000}'}
  }

  predicate IsSpace(c: char) {
    c in Whitespace()
  }

  /** `s.lstrip(cs)`. */
  function TrimStart(s: string, cs: set<char>): string {
    if s != [] && s[0] in cs then TrimStart(s[1..], cs) else s
  }

  /** `s.rstrip(cs)`. */
  function TrimEnd(s: string, cs: set<char>): string {
    if s != [] && s[|s| - 1] in cs then TrimEnd(s[..|s| - 1], cs) else s
  }

  /** What `lstrip` leaves is a suffix that does not start with one of
      `cs`, and it cut off only characters of `cs`. */
  lemma {:induction false} TrimStartSpec(s: string, cs: set<char>)
    ensures |TrimStart(s, cs)| <= |s| && TrimStart(s, cs) == s[|s| - |TrimStart(s, cs)|..]
    ensures TrimStart(s, cs) == [] || TrimStart(s, cs)[0] !in cs
    ensures forall k :: 0 <= k < |s| - |TrimStart(s, cs)| ==> s[k] in cs
  {
    if s != [] && s[0] in cs {
      var r := TrimStart(s[1..], cs);
      TrimStartSpec(s[1..], cs);
      assert TrimStart(s, cs) == r;
      assert s[1..][|s| - 1 - |r|..] == s[|s| - |r|..];
      forall k | 0 <= k < |s| - |r| ensures s[k] in cs {
        if k > 0 {
          assert s[k] == s[1..][k - 1];
        }
      }
    }
  }

  /** What `rstrip` leaves is a prefix that does not end with one of
      `cs`, and it cut off only characters of `cs`. */
  lemma {:induction false} TrimEndSpec(s: string, cs: set<char>)
    ensures |TrimEnd(s, cs)| <= |s| && TrimEnd(s, cs) == s[..|TrimEnd(s, cs)|]
    ensures TrimEnd(s, cs) == [] || TrimEnd(s, cs)[|TrimEnd(s, cs)| - 1] !in cs
    ensures forall k :: |TrimEnd(s, cs)| <= k < |s| ==> s[k] in cs
  {
    if s != [] && s[|s| - 1] in cs {
      var r := TrimEnd(s[..|s| - 1], cs);
      TrimEndSpec(s[..|s| - 1], cs);
      assert TrimEnd(s, cs) == r;
      assert s[..|s| - 1][..|r|] == s[..|r|];
      forall k | |r| <= k < |s| ensures s[k] in cs {
        if k < |s| - 1 {
          assert s[k] == s[..|s| - 1][k];
        }
      }
    }
  }

  /** `r` is the slice of `s` at `i` and everything around it belongs to `cs`. */
  ghost predicate StrippedAt(s: string, r: string, cs: set<char>, i: int) {
    && 0 <= i <= |s| - |r| && r == s[i..i + |r|]
    && (forall k :: 0 <= k < i ==> s[k] in cs)
    && (forall k :: i + |r| <= k < |s| ==> s[k] in cs)
  }

  /** `s.strip(chars)`. */
  function StripChars(s: string, cs: set<char>): string {
    TrimEnd(TrimStart(s, cs), cs)
  }

  /** What `strip` leaves is a slice of `s` that neither starts nor ends
      with one of `cs`, and everything cut off belongs to `cs`. */
  lemma StripCharsSpec(s: string, cs: set<char>)
    ensures var r := StripChars(s, cs);
            && (r == [] || (r[0] !in cs && r[|r| - 1] !in cs))
            && StrippedAt(s, r, cs, |s| - |TrimStart(s, cs)|)
  {
    var t := TrimStart(s, cs);
    TrimStartSpec(s, cs);
    TrimEndSpec(t, cs);
  }

  /** `s.strip()`: the unique slice of `s` that has only whitespace around
      it and neither starts nor ends with whitespace. */
  function Strip(s: string): (r: string)
    ensures r == [] || (!IsSpace(r[0]) && !IsSpace(r[|r| - 1]))
    ensures exists i :: StrippedAt(s, r, Whitespace(), i)
  {
    StripCharsSpec(s, Whitespace());
    StripChars(s, Whitespace())
  }

  /** A line is blank (`not line.strip()`) exactly when it is all whitespace. */
  lemma BlankIffAllSpace(s: string)
    ensures Strip(s) == [] <==> forall k :: 0 <= k < |s| ==> IsSpace(s[k])
  {
    var t := TrimStart(s, Whitespace());
    TrimStartSpec(s, Whitespace());
    TrimEndSpec(t, Whitespace());
    if forall k :: 0 <= k < |s| ==> IsSpace(s[k]) {
      if t != [] {
        assert false;
      }
    }
  }

  /** `s.replace(c, "")` for a single character `c`. */
  function RemoveChar(s: string, c: char): (r: string)
    ensures forall k :: 0 <= k < |r| ==> r[k] != c
  {
    if s == [] then []
    else if s[0] == c then RemoveChar(s[1..], c)
    else [s[0]] + RemoveChar(s[1..], c)
  }

  /** `replace` keeps every other character, as often as it occurs. */
  lemma {:induction false} RemoveCharCounts(s: string, c: char)
    ensures multiset(RemoveChar(s, c)) == multiset(s)[c := 0]
  {
    if s != [] {
      assert s == [s[0]] + s[1..];
      RemoveCharCounts(s[1..], c);
    }
  }

  /** `replace` works character by character and keeps the order: it
      distributes over concatenation, drops `c` itself and keeps any other
      single character. */
  lemma {:induction false} RemoveCharAppend(a: string, b: string, c: char, x: char)
    ensures RemoveChar(a + b, c) == RemoveChar(a, c) + RemoveChar(b, c)
    ensures RemoveChar([x], c) == if x == c then [] else [x]
  {
    if a == [] {
      assert a + b == b;
    } else {
      assert (a + b)[0] == a[0] && (a + b)[1..] == a[1..] + b;
      RemoveCharAppend(a[1..], b, c, x);
    }
    assert [x][1..] == [];
  }

  // ---------------------------------------------------------------------
  // Integers
  // ---------------------------------------------------------------------

  predicate IsDigit(c: char) {
    '0' <= c <= '9'
  }

  /** A non-empty run of ASCII digits. */
  predicate IsNumeral(s: string) {
    |s| > 0 && forall k :: 0 <= k < |s| ==> IsDigit(s[k])
  }

  function DigitValue(c: char): nat
    requires IsDigit(c)
  {
    c as int - '0' as int
  }

  function DigitsValue(ds: string): nat
    requires forall k :: 0 <= k < |ds| ==> IsDigit(ds[k])
  {
    if ds == [] then 0
    else 10 * DigitsValue(ds[..|ds| - 1]) + DigitValue(ds[|ds| - 1])
  }

  /** The characters `int()` skips around a numeral. An ASCII character
      is skipped only when it is one of the six C-locale spaces (space, tab,
      line feed, vertical tab, form feed, carriage return), so the four
      ASCII separators U+001C to U+001F, which `str.isspace()` accepts, make
      `int()` fail; a non-ASCII character is skipped when `str.isspace()`
      holds for it. */
  function NumeralSpace(): set<char> {
    Whitespace() - {'\U{1C}', '\U{1D}', '\U{1E}', '\U{1F}'}
  }

  /** Text made only of characters `int()` skips. */
  ghost predicate Padding(p: string) {
    forall k :: 0 <= k < |p| ==> p[k] in NumeralSpace()
  }

  /** A non-empty run of digits, possibly after one sign. */
  predicate SignedNumeral(t: string) {
    IsNumeral(t) || (|t| > 0 && (t[0] == '-' || t[0] == '+') && IsNumeral(t[1..]))
  }

  /** The integer a signed numeral denotes. */
  function SignedValue(t: string): int
    requires SignedNumeral(t)
  {
    if IsNumeral(t) then DigitsValue(t)
    else if t[0] == '-' then -(DigitsValue(t[1..]) as int)
    else DigitsValue(t[1..])
  }

  /** `s` is a signed numeral denoting `v` with only padding around it. */
  ghost predicate PaddedNumeral(s: string, v: int) {
    exists i, j :: 0 <= i < j <= |s| && Padding(s[..i]) && Padding(s[j..])
                   && SignedNumeral(s[i..j]) && v == SignedValue(s[i..j])
  }

  /** `int(s)` on text: a signed numeral with only `NumeralSpace` around it;
      anything else is a ValueError (None). */
  function ParseInt(s: string): (r: Option<int>)
    ensures r.Some? ==> PaddedNumeral(s, r.value)
  {
    var t := StripChars(s, NumeralSpace());
    StripCharsSpec(s, NumeralSpace());
    if SignedNumeral(t) then
      var i := |s| - |TrimStart(s, NumeralSpace())|;
      assert Padding(s[..i]) && Padding(s[i + |t|..]) && t == s[i..i + |t|];
      Some(SignedValue(t))
    else None
  }

  function ShowNat(n: nat): (s: string)
    ensures IsNumeral(s)
  {
    if n < 10 then ['0' + n as char]
    else ShowNat(n / 10) + ['0' + (n % 10) as char]
  }

  /** `str(n)` for an integer: a minus sign exactly for a negative `n`,
      then a run of digits. */
  function Show(n: int): (s: string)
    ensures |s| > 0 && (s[0] == '-' <==> n < 0)
    ensures IsNumeral(if n < 0 then s[1..] else s)
  {
    if n < 0 then "-" + ShowNat(-n) else ShowNat(n)
  }

  lemma {:induction false} ShowNatValue(n: nat)
    ensures DigitsValue(ShowNat(n)) == n
  {
    if n >= 10 {
      ShowNatValue(n / 10);
      var s := ShowNat(n);
      assert s[..|s| - 1] == ShowNat(n / 10);
    }
  }

  lemma StripNoop(s: string, cs: set<char>)
    requires s != [] && s[0] !in cs && s[|s| - 1] !in cs
    ensures StripChars(s, cs) == s
  {
    assert TrimStart(s, cs) == s;
    assert TrimEnd(s, cs) == s;
  }

  /** A numeral, possibly after a minus sign, has nothing around it for
      `int()` to skip. */
  lemma StripSigned(t: string)
    requires |t| > 0 && (t[0] == '-' || IsDigit(t[0])) && IsDigit(t[|t| - 1])
    ensures StripChars(t, NumeralSpace()) == t
  {
    assert t[0] !in NumeralSpace();
    assert t[|t| - 1] !in NumeralSpace();
    StripNoop(t, NumeralSpace());
  }

  lemma ParseNonNegative(t: string)
    requires IsNumeral(t)
    ensures ParseInt(t) == Some(DigitsValue(t))
  {
    StripSigned(t);
  }

  lemma ParseNegative(t: string)
    requires |t| > 1 && t[0] == '-' && IsNumeral(t[1..])
    ensures ParseInt(t) == Some(-(DigitsValue(t[1..]) as int))
  {
    assert t[|t| - 1] == t[1..][|t| - 2];
    assert IsDigit(t[|t| - 1]);
    StripSigned(t);
    assert !IsNumeral(t) by { assert !IsDigit(t[0]); }
  }

  /** Skipping leading padding leaves what follows it. */
  lemma {:induction false} TrimStartPadding(p: string, u: string)
    requires Padding(p) && (u == [] || u[0] !in NumeralSpace())
    ensures TrimStart(p + u, NumeralSpace()) == u
  {
    if p == [] {
      assert p + u == u;
    } else {
      assert (p + u)[1..] == p[1..] + u;
      TrimStartPadding(p[1..], u);
    }
  }

  /** Skipping trailing padding leaves what precedes it. */
  lemma {:induction false} TrimEndPadding(u: string, p: string)
    requires Padding(p) && u != [] && u[|u| - 1] !in NumeralSpace()
    ensures TrimEnd(u + p, NumeralSpace()) == u
  {
    if p == [] {
      assert u + p == u;
    } else {
      assert (u + p)[..|u + p| - 1] == u + p[..|p| - 1];
      TrimEndPadding(u, p[..|p| - 1]);
    }
  }

  /** Conversely, `int()` accepts every signed numeral with padding on
      either side, and reads the numeral's value. */
  lemma ParseIntPadded(pre: string, t: string, post: string)
    requires Padding(pre) && Padding(post) && SignedNumeral(t)
    ensures ParseInt(pre + t + post) == Some(SignedValue(t))
  {
    assert t[0] !in NumeralSpace();
    assert t[|t| - 1] !in NumeralSpace() by {
      if !IsNumeral(t) {
        assert t[|t| - 1] == t[1..][|t| - 2];
      }
    }
    assert pre + t + post == pre + (t + post);
    TrimStartPadding(pre, t + post);
    TrimEndPadding(t, post);
  }

  /** Reading back what `str` printed gives the same integer. */
  lemma ParseShow(n: int)
    ensures ParseInt(Show(n)) == Some(n)
  {
    var m := if n < 0 then -n else n;
    var digits := ShowNat(m);
    ShowNatValue(m);
    if n < 0 {
      var s := "-" + digits;
      assert s[1..] == digits;
      ParseNegative(s);
    } else {
      ParseNonNegative(digits);
    }
  }
}
