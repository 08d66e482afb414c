/** The parts of Python's `str` that the server and the command line use:
    `strip`, `upper`, `startswith`/`endswith`, `split(sep)`, `sep.join`
    and the decimal rendering of an `int` inside an f-string.
    Whitespace and case are the ASCII ones. */
module Text {

  /** Python's `str.isspace` restricted to ASCII: tab, line feed, vertical
      tab, form feed, carriage return, the four separators 0x1C..0x1F and space. */
  predicate IsSpace(c: char) {
    9 <= c as int <= 13 || 28 <= c as int <= 32
  }

  predicate AllSpace(s: string) {
    forall i :: 0 <= i < |s| ==> IsSpace(s[i])
  }

  /** `s.lstrip()`: the longest suffix of `s` that does not start with whitespace. */
  function TrimLeft(s: string): (r: string)
    ensures |r| <= |s| && r == s[|s| - |r|..]
    ensures AllSpace(s[..|s| - |r|])
    ensures r == [] || !IsSpace(r[0])
    decreases |s|
  {
    if s != [] && IsSpace(s[0]) then
      var r := TrimLeft(s[1..]);
      assert s[..|s| - |r|] == [s[0]] + s[1..][..|s| - 1 - |r|];
      r
    else s
  }

  /** `s.rstrip()`: the longest prefix of `s` that does not end with whitespace. */
  function TrimRight(s: string): (r: string)
    ensures |r| <= |s| && r == s[..|r|]
    ensures AllSpace(s[|r|..])
    ensures r == [] || !IsSpace(r[|r| - 1])
    decreases |s|
  {
    if s != [] && IsSpace(s[|s| - 1]) then
      var init := s[..|s| - 1];
      var r := TrimRight(init);
      assert s[|r|..] == init[|r|..] + [s[|s| - 1]];
      r
    else s
  }

  /** A character that is not whitespace survives `rstrip`, and so does
      everything before it. */
  lemma {:induction false} TrimRightKeeps(s: string, j: nat)
    requires j < |s| && !IsSpace(s[j])
    ensures j < |TrimRight(s)|
    decreases |s|
  {
    if IsSpace(s[|s| - 1]) {
      TrimRightKeeps(s[..|s| - 1], j);
    }
  }

  /** `r` is the slice of `s` starting at `k`, with only whitespace before
      and after it. */
  predicate Framed(s: string, k: nat, r: string) {
    k + |r| <= |s| && r == s[k..k + |r|] && AllSpace(s[..k]) && AllSpace(s[k + |r|..])
  }

  /** `s.strip()`: `s` without its leading and trailing whitespace. */
  function Strip(s: string): (r: string)
    ensures r == [] <==> AllSpace(s)
    ensures r != [] ==> !IsSpace(r[0]) && !IsSpace(r[|r| - 1])
    ensures exists k: nat :: Framed(s, k, r)
  {
    var left := TrimLeft(s);
    var r := TrimRight(left);
    StripFacts(s, |s| - |left|, left, r);
    r
  }

  /** What the two trims leave: a slice of `s` framed by whitespace, empty
      exactly when `s` is blank. */
  lemma StripFacts(s: string, k: nat, left: string, r: string)
    requires k <= |s| && left == s[k..] && AllSpace(s[..k])
    requires left == [] || !IsSpace(left[0])
    requires |r| <= |left| && r == left[..|r|] && AllSpace(left[|r|..])
    ensures r == [] <==> AllSpace(s)
    ensures Framed(s, k, r)
  {
    assert s[k + |r|..] == left[|r|..];
    if r == [] {
      assert s == s[..k] + left;
      AllSpaceConcat(s[..k], left);
    }
    if left != [] {
      assert !IsSpace(s[k]);
    }
  }

  lemma AllSpaceConcat(a: string, b: string)
    requires AllSpace(a) && AllSpace(b)
    ensures AllSpace(a + b)
  {
  }

  /** A character absent from a string is absent from its slices. */
  lemma SliceKeepsAbsence(s: string, k: nat, n: nat, c: char)
    requires c !in s && k + n <= |s|
    ensures c !in s[k..k + n]
  {
    var t := s[k..k + n];
    forall j | 0 <= j < |t| ensures t[j] != c {
      assert t[j] == s[k + j];
    }
  }

  /** Stripping never introduces a character. */
  lemma StripKeepsAbsence(s: string, c: char)
    requires c !in s
    ensures c !in Strip(s)
  {
    var left := TrimLeft(s);
    SliceKeepsAbsence(s, |s| - |left|, |left|, c);
    assert left == s[|s| - |left|..|s|];
    SliceKeepsAbsence(left, 0, |TrimRight(left)|, c);
  }

  /** Stripping twice is stripping once. */
  lemma StripIdempotent(s: string)
    ensures Strip(Strip(s)) == Strip(s)
  {
    var r := Strip(s);
    assert TrimLeft(r) == r;
    assert TrimRight(r) == r;
  }

  function UpperChar(c: char): char {
    if 'a' <= c <= 'z' then (c as int - 32) as char else c
  }

  /** `s.upper()` on ASCII letters; every other character is kept. */
  function Upper(s: string): (r: string)
    ensures |r| == |s|
  {
    seq(|s|, i requires 0 <= i < |s| => UpperChar(s[i]))
  }

  predicate StartsWith(s: string, prefix: string) {
    |prefix| <= |s| && s[..|prefix|] == prefix
  }

  predicate EndsWith(s: string, suffix: string) {
    |suffix| <= |s| && s[|s| - |suffix|..] == suffix
  }

  /** `s.split(sep)`: the pieces between occurrences of `sep`, empty pieces
      included, so there is always one more piece than separators. */
  function Split(s: string, sep: char): (parts: seq<string>)
    ensures |parts| >= 1
    ensures forall i :: 0 <= i < |parts| ==> sep !in parts[i]
    decreases |s|
  {
    if s == [] then [[]]
    else
      var rest := Split(s[1..], sep);
      if s[0] == sep then [[]] + rest
      else [[s[0]] + rest[0]] + rest[1..]
  }

  /** There is one more piece than there are separators. */
  lemma {:induction false} SplitCount(s: string, sep: char)
    ensures |Split(s, sep)| == multiset(s)[sep] + 1
    decreases |s|
  {
    if s != [] {
      SplitCount(s[1..], sep);
      assert s == [s[0]] + s[1..];
    }
  }

  /** `sep.join(parts)`. */
  function Join(parts: seq<string>, sep: char): string
    decreases |parts|
  {
    if |parts| == 0 then []
    else if |parts| == 1 then parts[0]
    else parts[0] + [sep] + Join(parts[1..], sep)
  }

  /** Joining the pieces of a split gives back the original text. */
  lemma {:induction false} JoinSplit(s: string, sep: char)
    ensures Join(Split(s, sep), sep) == s
    decreases |s|
  {
    if s != [] {
      var rest := Split(s[1..], sep);
      JoinSplit(s[1..], sep);
      assert s == [s[0]] + s[1..];
      if s[0] == sep {
        assert Split(s, sep) == [[]] + rest;
      } else {
        var head := [s[0]] + rest[0];
        assert Split(s, sep) == [head] + rest[1..];
        if |rest| > 1 {
          assert ([head] + rest[1..])[1..] == rest[1..];
          assert Join(rest, sep) == rest[0] + [sep] + Join(rest[1..], sep);
        }
      }
    }
  }

  /** A text without the separator is a single piece. */
  lemma {:induction false} SplitWithoutSep(s: string, sep: char)
    requires sep !in s
    ensures Split(s, sep) == [s]
    decreases |s|
  {
    if s != [] {
      SplitWithoutSep(s[1..], sep);
      assert s == [s[0]] + s[1..];
    }
  }

  /** One step of `Split`: the first character either ends the first piece
      or joins it. */
  lemma SplitCons(c: char, t: string, sep: char)
    ensures Split([c] + t, sep) == if c == sep then [[]] + Split(t, sep)
                                   else [[c] + Split(t, sep)[0]] + Split(t, sep)[1..]
  {
    assert ([c] + t)[1..] == t;
  }

  /** Splitting at one separator splits each side independently. */
  lemma {:induction false} SplitAppend(a: string, b: string, sep: char)
    ensures Split(a + [sep] + b, sep) == Split(a, sep) + Split(b, sep)
    decreases |a|
  {
    if a == [] {
      SplitCons(sep, b, sep);
      assert a + [sep] + b == [sep] + b;
    } else {
      SplitAppend(a[1..], b, sep);
      SplitAppendStep(a, b, sep);
    }
  }

  /** The inductive step of SplitAppend, for a first character `a[0]`. */
  lemma SplitAppendStep(a: string, b: string, sep: char)
    requires a != []
    requires Split(a[1..] + [sep] + b, sep) == Split(a[1..], sep) + Split(b, sep)
    ensures Split(a + [sep] + b, sep) == Split(a, sep) + Split(b, sep)
  {
    var c, t := a[0], a[1..] + [sep] + b;
    assert a + [sep] + b == [c] + t;
    assert a == [c] + a[1..];
    SplitConsParts(c, t, Split(a[1..], sep), Split(b, sep), sep);
    SplitCons(c, a[1..], sep);
  }

  lemma SplitConsParts(c: char, t: string, ra: seq<string>, rb: seq<string>, sep: char)
    requires ra != [] && Split(t, sep) == ra + rb
    ensures Split([c] + t, sep) == if c == sep then [[]] + ra + rb
                                   else [[c] + ra[0]] + ra[1..] + rb
  {
    SplitCons(c, t, sep);
    if c != sep {
      assert (ra + rb)[1..] == ra[1..] + rb;
    }
  }

  /** Splitting a join of separator-free pieces gives back the pieces. */
  lemma {:induction false} SplitJoin(parts: seq<string>, sep: char)
    requires |parts| >= 1
    requires forall i :: 0 <= i < |parts| ==> sep !in parts[i]
    ensures Split(Join(parts, sep), sep) == parts
    decreases |parts|
  {
    SplitWithoutSep(parts[0], sep);
    if |parts| > 1 {
      SplitJoin(parts[1..], sep);
      SplitAppend(parts[0], Join(parts[1..], sep), sep);
      assert parts == [parts[0]] + parts[1..];
    }
  }

  predicate IsDigit(c: char) {
    '0' <= c <= '9'
  }

  predicate AllDigits(s: string) {
    forall i :: 0 <= i < |s| ==> IsDigit(s[i])
  }

  /** The number a string of decimal digits denotes. */
  function DecimalValue(s: string): nat
    requires AllDigits(s)
    decreases |s|
  {
    if s == [] then 0
    else 10 * DecimalValue(s[..|s| - 1]) + (s[|s| - 1] as int - '0' as int)
  }

  /** `f"{n}"` for a non-negative `n`: the shortest decimal digit string
      denoting `n`. */
  function Decimal(n: nat): (s: string)
    ensures |s| >= 1 && AllDigits(s)
    ensures DecimalValue(s) == n
    ensures s[0] == '0' ==> n == 0
    decreases n
  {
    var last := [('0' as int + n % 10) as char];
    if n < 10 then last
    else
      var s := Decimal(n / 10) + last;
      assert s[..|s| - 1] == Decimal(n / 10);
      s
  }
}
