/**
 * The pieces of Go's `strings` and `strconv` packages that the chess and PGN code
 * relies on, over strings whose characters stand for single bytes.
 */
module Text {

  /** Length of the longest prefix of `s` whose elements all satisfy `p`. */
  function Span<T>(s: seq<T>, p: T -> bool): (n: nat)
    ensures n <= |s|
    ensures forall k :: 0 <= k < n ==> p(s[k])
    ensures n < |s| ==> !p(s[n])
  {
    if s == [] || !p(s[0]) then 0 else 1 + Span(s[1..], p)
  }

  /** The three facts of Span's contract pin its value down. */
  lemma SpanUnique<T>(s: seq<T>, p: T -> bool, n: nat)
    requires n <= |s|
    requires forall k :: 0 <= k < n ==> p(s[k])
    requires n < |s| ==> !p(s[n])
    ensures Span(s, p) == n
  {
  }

  /** Index of the last element of `s` that satisfies `p`, or -1 when none does. */
  function LastIndex<T>(s: seq<T>, p: T -> bool): (k: int)
    ensures -1 <= k < |s|
    ensures k >= 0 ==> p(s[k])
    ensures forall j :: k < j < |s| ==> !p(s[j])
  {
    if s == [] then -1
    else if p(s[|s| - 1]) then |s| - 1
    else LastIndex(s[..|s| - 1], p)
  }

  /** Appending one element moves the last match there exactly when it matches. */
  lemma LastIndexSnoc<T>(s: seq<T>, x: T, p: T -> bool)
    ensures LastIndex(s + [x], p) == if p(x) then |s| else LastIndex(s, p)
  {
    assert (s + [x])[..|s|] == s;
  }

  predicate IsDigit(ch: char) { '0' <= ch <= '9' }

  predicate IsUpper(ch: char) { 'A' <= ch <= 'Z' }

  /** ASCII upper-casing, as `unicode.ToUpper` behaves on single bytes that can name a piece. */
  function ToUpper(ch: char): char
  {
    if 'a' <= ch <= 'z' then (ch as int - 32) as char else ch
  }

  /** `strings.Split(s, sep)` for a one-character separator. */
  function Split(s: string, sep: char): (parts: seq<string>)
    ensures |parts| >= 1
    ensures forall i :: 0 <= i < |parts| ==> sep !in parts[i]
    decreases |s|
  {
    var n := Span(s, ch => ch != sep);
    if n == |s| then [s] else [s[..n]] + Split(s[n + 1..], sep)
  }

  /** The first separator, at `n`, ends the first piece; the rest is split on its own. */
  lemma SplitAt(s: string, sep: char, n: nat)
    requires n < |s| && s[n] == sep && sep !in s[..n]
    ensures Split(s, sep) == [s[..n]] + Split(s[n + 1..], sep)
  {
    assert forall k :: 0 <= k < n ==> s[..n][k] == s[k];
    SpanUnique(s, ch => ch != sep, n);
  }

  /** Text holding the separator splits into a first piece and the join of the others. */
  lemma SplitFirst(s: string, sep: char)
    requires sep in s
    ensures var p := Split(s, sep);
      |p| >= 2 && s == p[0] + [sep] + Join(p[1..], sep)
  {
    JoinSplit(s, sep);
  }

  /** `strings.Join(parts, sep)` for a one-character separator. */
  function Join(parts: seq<string>, sep: char): string
  {
    if |parts| == 0 then ""
    else if |parts| == 1 then parts[0]
    else parts[0] + [sep] + Join(parts[1..], sep)
  }

  /** Joining the pieces of a split gives back the original text. */
  lemma {:induction false} JoinSplit(s: string, sep: char)
    ensures Join(Split(s, sep), sep) == s
    decreases |s|
  {
    var n := Span(s, ch => ch != sep);
    if n < |s| {
      var parts := Split(s, sep);
      var rest := Split(s[n + 1..], sep);
      assert parts == [s[..n]] + rest;
      assert parts[0] == s[..n] && parts[1..] == rest && |parts| >= 2;
      JoinSplit(s[n + 1..], sep);
      assert Join(parts, sep) == s[..n] + [sep] + s[n + 1..];
      assert s == s[..n] + [sep] + s[n + 1..];
    }
  }

  /** Splitting a join of separator-free pieces gives the pieces back. */
  lemma {:induction false} SplitJoin(parts: seq<string>, sep: char)
    requires |parts| >= 1
    requires forall i :: 0 <= i < |parts| ==> sep !in parts[i]
    ensures Split(Join(parts, sep), sep) == parts
  {
    var s := Join(parts, sep);
    if |parts| == 1 {
      SpanUnique(s, ch => ch != sep, |s|);
    } else {
      var rest := Join(parts[1..], sep);
      assert s == parts[0] + [sep] + rest;
      SpanUnique(s, ch => ch != sep, |parts[0]|);
      assert s[..|parts[0]|] == parts[0];
      assert s[|parts[0]| + 1..] == rest;
      SplitJoin(parts[1..], sep);
    }
  }

  /** A character that is neither the separator nor in any piece is not in their join. */
  lemma {:induction false} JoinAvoids(parts: seq<string>, sep: char, c: char)
    requires c != sep
    requires forall i :: 0 <= i < |parts| ==> c !in parts[i]
    ensures c !in Join(parts, sep)
  {
    if |parts| > 1 {
      JoinAvoids(parts[1..], sep, c);
    }
  }

  /** `s` with its trailing characters from `cut` removed (`strings.TrimRight`). */
  function TrimRight(s: string, cut: set<char>): (t: string)
    ensures |t| <= |s| && t == s[..|t|]
    ensures t == [] || t[|t| - 1] !in cut
    ensures forall k :: |t| <= k < |s| ==> s[k] in cut
  {
    if s != [] && s[|s| - 1] in cut then TrimRight(s[..|s| - 1], cut) else s
  }

  /** `strings.Trim(s, cutset)`: both ends stripped of characters from `cut`. */
  function Trim(s: string, cut: set<char>): string
  {
    TrimRight(s[Span(s, ch => ch in cut)..], cut)
  }

  /** Trimming text framed by cut characters leaves exactly the frame's content. */
  lemma TrimFramed(pre: string, core: string, post: string, cut: set<char>)
    requires forall k :: 0 <= k < |pre| ==> pre[k] in cut
    requires forall k :: 0 <= k < |post| ==> post[k] in cut
    requires core != [] && core[0] !in cut && core[|core| - 1] !in cut
    ensures Trim(pre + core + post, cut) == core
  {
    var s := pre + core + post;
    SpanUnique(s, ch => ch in cut, |pre|);
    var rest := s[|pre|..];
    assert rest == core + post;
    var t := TrimRight(rest, cut);
    assert rest[|core| - 1] !in cut;
    assert t == rest[..|core|] == core;
  }

  const MaxInt := 0x7fff_ffff_ffff_ffff
  const MinInt := -0x8000_0000_0000_0000

  predicate AllDigits(s: string) { forall k :: 0 <= k < |s| ==> IsDigit(s[k]) }

  /** The value of a string of decimal digits. */
  function DigitsValue(s: string): nat
    requires AllDigits(s)
  {
    if s == [] then 0
    else 10 * DigitsValue(s[..|s| - 1]) + (s[|s| - 1] as int - '0' as int)
  }

  /** The largest uint64: `strconv.ParseUint` stops with this bound at the first digit that passes it. */
  const MaxUint := 0xffff_ffff_ffff_ffff

  /** The leading run of digits. */
  function DigitRun(s: string): (run: string)
    ensures |run| <= |s| && AllDigits(run) && run == s[..|run|]
    ensures |run| < |s| ==> !IsDigit(s[|run|])
  {
    s[..Span(s, IsDigit)]
  }

  /** A magnitude read with the given sign, clamped to the int64 range as `ParseInt` does. */
  function Clamp(negative: bool, n: nat): (v: int)
    ensures MinInt <= v <= MaxInt
    ensures n <= MaxInt ==> v == if negative then -(n as int) else n
  {
    if negative then (if n > -MinInt then MinInt else -(n as int))
    else (if n > MaxInt then MaxInt else n)
  }

  /**
   * `strconv.Atoi` on a 64-bit platform, keeping only the returned value. After an
   * optional sign the digits are read in order, as `ParseUint` does: once the digits
   * read so far exceed the largest uint64 the result is the int64 bound of the sign,
   * whatever follows; a non-digit met before that, or no digit at all, gives 0; a
   * number that fits in a uint64 is clamped to the int64 range. (For inputs shorter
   * than 19 bytes Go takes a fast path that gives the same value.)
   */
  function Atoi(s: string): (v: int)
    ensures MinInt <= v <= MaxInt
  {
    var negative := |s| > 0 && s[0] == '-';
    var digits := if |s| > 0 && (s[0] == '+' || s[0] == '-') then s[1..] else s;
    var run := DigitRun(digits);
    if digits == [] || (DigitsValue(run) <= MaxUint && |run| < |digits|) then 0
    else Clamp(negative, DigitsValue(run))
  }

  /** Digits whose value passes the largest uint64 give the bound of the sign, whatever follows them. */
  lemma AtoiOverflow(d: string, t: string)
    requires AllDigits(d) && DigitsValue(d) > MaxUint
    requires t == [] || !IsDigit(t[0])
    ensures Atoi(d + t) == MaxInt && Atoi("-" + d + t) == MinInt
  {
    DigitRunOf(d, t);
    assert ("-" + d + t)[1..] == d + t;
    assert d != [] && (d + t)[0] == d[0];
  }

  function Pow10(n: nat): nat { if n == 0 then 1 else 10 * Pow10(n - 1) }

  /** n nines are one less than the n-th power of ten. */
  lemma {:induction false} NinesValue(n: nat)
    ensures AllDigits(seq(n, _ => '9')) && DigitsValue(seq(n, _ => '9')) + 1 == Pow10(n)
  {
    if n > 0 {
      var s := seq(n, _ => '9');
      assert s[..n - 1] == seq(n - 1, _ => '9');
      NinesValue(n - 1);
    }
  }

  /** Twenty nines pass the largest uint64, so the trailing "x" is never read. */
  lemma AtoiTwentyNines()
    ensures Atoi("99999999999999999999x") == MaxInt
  {
    var d := seq(20, _ => '9');
    NinesValue(20);
    assert Pow10(5) == 100000;
    assert Pow10(10) == 10000000000;
    assert Pow10(15) == 1000000000000000;
    assert Pow10(20) == 100000000000000000000;
    assert d + "x" == "99999999999999999999x";
    AtoiOverflow(d, "x");
  }

  /** Digits that fit in a uint64 followed by a non-digit are not a number: 0. */
  lemma AtoiSyntax(d: string, t: string, negative: bool)
    requires d != [] && AllDigits(d) && DigitsValue(d) <= MaxUint
    requires t != [] && !IsDigit(t[0])
    ensures Atoi(if negative then "-" + d + t else d + t) == 0
  {
    DigitRunOf(d, t);
    assert ("-" + d + t)[1..] == d + t;
    assert (d + t)[0] == d[0];
  }

  /** The digit run of digits followed by a non-digit is those digits. */
  lemma DigitRunOf(d: string, t: string)
    requires AllDigits(d)
    requires t == [] || !IsDigit(t[0])
    ensures DigitRun(d + t) == d
  {
    var s := d + t;
    forall k | 0 <= k < |d| ensures IsDigit(s[k]) {
      assert s[k] == d[k];
    }
    if t != [] {
      assert s[|d|] == t[0];
    }
    SpanUnique(s, IsDigit, |d|);
    assert s[..|d|] == d;
  }

  /** Decimal rendering of a natural number, without leading zeros. */
  function Decimal(n: nat): (s: string)
    ensures s != [] && AllDigits(s)
    ensures s[0] != '0' || n == 0
  {
    if n < 10 then [('0' as int + n) as char]
    else Decimal(n / 10) + [('0' as int + n % 10) as char]
  }

  lemma {:induction false} DecimalValue(n: nat)
    ensures DigitsValue(Decimal(n)) == n
  {
    if n >= 10 {
      var s := Decimal(n);
      assert s[..|s| - 1] == Decimal(n / 10);
      DecimalValue(n / 10);
    }
  }

  /** Atoi reads back every int that Decimal renders, with or without a minus sign. */
  lemma AtoiDecimal(n: nat)
    requires n <= MaxInt
    ensures Atoi(Decimal(n)) == n
    ensures Atoi("-" + Decimal(n)) == -(n as int)
  {
    DecimalValue(n);
    DigitRunOf(Decimal(n), []);
    assert Decimal(n) + [] == Decimal(n);
    assert ("-" + Decimal(n))[1..] == Decimal(n);
  }
}
