/** Decimal integers as text: Python's `str(int)`/`int(str)` and C++'s `std::to_string`/`std::stoi`. */
module Decimal {
  import opened Wrappers
  import opened Text

  const INT_MIN: int := -0x8000_0000
  const INT_MAX: int := 0x7fff_ffff

  predicate IsDigit(c: char) { '0' <= c <= '9' }

  predicate AllDigits(s: string)
  {
    forall k :: 0 <= k < |s| ==> IsDigit(s[k])
  }

  function DigitVal(c: char): (v: nat)
    requires IsDigit(c)
    ensures v < 10
  {
    (c as int) - ('0' as int)
  }

  function DigitChar(v: nat): (c: char)
    requires v < 10
    ensures IsDigit(c) && DigitVal(c) == v
  {
    ('0' as int + v) as char
  }

  /** The number a run of decimal digits denotes, most significant first. */
  function Value(d: string): nat
    requires AllDigits(d)
    decreases |d|
  {
    if |d| == 0 then 0 else Value(d[..|d| - 1]) * 10 + DigitVal(d[|d| - 1])
  }

  /** The decimal digits of `n`, without leading zeros. */
  function NatToString(n: nat): (s: string)
    ensures |s| > 0 && AllDigits(s)
    ensures Value(s) == n
    ensures |s| > 1 ==> s[0] != '0'
    decreases n
  {
    if n < 10 then
      [DigitChar(n)]
    else
      var p := NatToString(n / 10);
      var s := p + [DigitChar(n % 10)];
      assert s[..|s| - 1] == p;
      s
  }

  /** `str(n)` and `std::to_string(n)`: a minus sign for negative numbers, then the digits. */
  function IntToString(n: int): (s: string)
    ensures |s| > 0 && IsDigit(s[|s| - 1])
    ensures s[0] == '-' || IsDigit(s[0])
  {
    if n < 0 then "-" + NatToString(-n) else NatToString(n)
  }

  /** An optional sign followed by one or more digits, and nothing else. */
  function SignedDigits(t: string): (r: Option<int>)
    ensures r.Some? ==> |t| > 0
  {
    if |t| > 0 && (t[0] == '+' || t[0] == '-') then
      var d := t[1..];
      if |d| > 0 && AllDigits(d) then Some(if t[0] == '-' then 0 - Value(d) else Value(d)) else None
    else if |t| > 0 && AllDigits(t) then
      Some(Value(t))
    else
      None
  }

  /** Python's `int(s)` on a string: surrounding whitespace, an optional sign and ASCII digits;
   *  `None` stands for the `ValueError` it raises otherwise. */
  function PyInt(s: string): (r: Option<int>)
    ensures r.Some? ==> |Trim(s, PY_SPACE)| > 0
  {
    SignedDigits(Trim(s, PY_SPACE))
  }

  /** `int(str(n)) == n`. */
  lemma PyIntOfString(n: int)
    ensures PyInt(IntToString(n)) == Some(n)
  {
    var s := IntToString(n);
    DigitOrSignNotSpace(s[0]);
    DigitOrSignNotSpace(s[|s| - 1]);
    TrimFixed(s, PY_SPACE);
    if n < 0 {
      assert s[1..] == NatToString(-n);
    }
  }

  lemma DigitOrSignNotSpace(c: char)
    requires IsDigit(c) || c == '-'
    ensures c !in PY_SPACE
  {
  }

  /** The end of the run of digits starting at `a`. */
  function DigitRun(s: string, a: nat): (e: nat)
    requires a <= |s|
    ensures a <= e <= |s|
    ensures AllDigits(s[a..e])
    ensures e < |s| ==> !IsDigit(s[e])
    decreases |s| - a
  {
    if a < |s| && IsDigit(s[a]) then DigitRun(s, a + 1) else a
  }

  /** Where `std::stoi` and `iss >> n` look in `t`: the first non-whitespace index `b`, the run
   *  of digits `c..e` after an optional sign, and the signed value of those digits. */
  datatype Field = Field(b: nat, c: nat, e: nat, v: int)

  function NumberField(t: string): (f: Field)
    ensures f.b <= f.c <= f.e <= |t| && (f.c == f.b || f.c == f.b + 1)
    ensures f.b < |t| ==> t[f.b] !in C_SPACE
    ensures f.e < |t| ==> !IsDigit(t[f.e])
  {
    var b := SkipLead(t, C_SPACE, 0);
    var c := if b < |t| && (t[b] == '+' || t[b] == '-') then b + 1 else b;
    var e := DigitRun(t, c);
    Field(b, c, e, if c == b + 1 && t[b] == '-' then 0 - Value(t[c..e]) else Value(t[c..e]))
  }

  /** `std::stoi(s)` in base 10: leading whitespace, an optional sign, then the longest run of
   *  digits; the characters after the run are ignored. `None` stands for the exception it throws
   *  when there is no digit or the value does not fit an `int`. */
  function CStoi(s: string): (r: Option<int>)
    ensures r.Some? ==> INT_MIN <= r.value <= INT_MAX
  {
    var f := NumberField(s);
    if f.e == f.c then None
    else if INT_MIN <= f.v <= INT_MAX then Some(f.v) else None
  }

  /** `std::stoi` reads back `std::to_string` for every `int`, whatever non-digit text follows. */
  lemma CStoiOfString(n: int, rest: string)
    requires INT_MIN <= n <= INT_MAX
    requires |rest| > 0 ==> !IsDigit(rest[0])
    ensures CStoi(IntToString(n) + rest) == Some(n)
  {
    var d := IntToString(n);
    var s := d + rest;
    assert s[0..|d|] == d;
    FieldOfString(s, 0, n);
  }

  /** The number field of a text that holds `std::to_string(n)` after some whitespace. */
  lemma FieldOfString(t: string, b: nat, n: int)
    requires b + |IntToString(n)| <= |t|
    requires forall k :: 0 <= k < b ==> t[k] in C_SPACE
    requires t[b..b + |IntToString(n)|] == IntToString(n)
    requires b + |IntToString(n)| < |t| ==> !IsDigit(t[b + |IntToString(n)|])
    ensures var f := NumberField(t); f.b == b && f.e == b + |IntToString(n)| && f.c < f.e && f.v == n
  {
    var d := IntToString(n);
    var e := b + |d|;
    assert t[b] == d[0];
    SkipLeadSuffix(t, C_SPACE, 0, b);
    DigitOrSignNotSpace(d[0]);
    if n < 0 {
      var u := NatToString(-n);
      assert d == "-" + u;
      assert t[b + 1..e] == u;
      DigitRunAt(t, b + 1, e);
    } else {
      assert t[b..e] == d;
      DigitRunAt(t, b, e);
    }
  }

  lemma {:induction false} DigitRunAt(s: string, a: nat, e: nat)
    requires a <= e <= |s|
    requires AllDigits(s[a..e])
    requires e < |s| ==> !IsDigit(s[e])
    ensures DigitRun(s, a) == e
    decreases e - a
  {
    if a < e {
      assert IsDigit(s[a..e][0]);
      assert s[a + 1..e] == s[a..e][1..];
      DigitRunAt(s, a + 1, e);
    }
  }

  /** Text after the number is ignored: `std::stoi("12abc")` is 12. */
  lemma CStoiIgnoresTail()
    ensures CStoi("12abc") == Some(12)
    ensures CStoi("abc") == None
  {
    assert NatToString(1) == "1";
    assert IntToString(12) == "12";
    assert IntToString(12) + "abc" == "12abc";
    CStoiOfString(12, "abc");
  }

  // ---------------------------------------------------------------- `stream >> n` for an `int`

  /** What `iss >> n` does with an `int` read from index `a` (C++11 and later). */
  datatype IntRead =
    | NoInput              // only whitespace is left: the read fails and `n` keeps its value
    | Failed               // no digit: `n` becomes 0 and the stream fails
    | OutOfRange(v: int)   // the digits overflow: `n` becomes INT_MAX or INT_MIN, the stream fails
    | Read(v: int, next: nat)  // `n` becomes `v` and the stream goes on at `next`

  function ReadInt(s: string, a: nat): (r: IntRead)
    requires a <= |s|
    ensures r.Read? ==> a < r.next <= |s| && INT_MIN <= r.v <= INT_MAX
    ensures r.Read? && r.next < |s| ==> !IsDigit(s[r.next])
    ensures r.OutOfRange? ==> r.v == INT_MIN || r.v == INT_MAX
  {
    var f := NumberField(s[a..]);
    if f.b == |s| - a then NoInput
    else if f.e == f.c then Failed
    else if f.v < INT_MIN then OutOfRange(INT_MIN)
    else if f.v > INT_MAX then OutOfRange(INT_MAX)
    else Read(f.v, a + f.e)
  }

  /** The value the `int` holds after the read, given the one it held before. */
  function Extracted(before: int, r: IntRead): (n: int)
    ensures r.NoInput? ==> n == before
    ensures r.Failed? ==> n == 0
    ensures r.OutOfRange? || r.Read? ==> n == r.v
  {
    match r
    case NoInput => before
    case Failed => 0
    case OutOfRange(v) => v
    case Read(v, _) => v
  }

  /** `iss >> n` reads back what `std::to_string` wrote after some whitespace, and stops at the
   *  first non-digit after it. */
  lemma ReadIntOfString(s: string, a: nat, b: nat, n: int)
    requires INT_MIN <= n <= INT_MAX
    requires a <= b && b + |IntToString(n)| <= |s|
    requires forall k :: a <= k < b ==> s[k] in C_SPACE
    requires s[b..b + |IntToString(n)|] == IntToString(n)
    requires b + |IntToString(n)| < |s| ==> !IsDigit(s[b + |IntToString(n)|])
    ensures ReadInt(s, a) == Read(n, b + |IntToString(n)|)
  {
    var t := s[a..];
    var e := b + |IntToString(n)|;
    assert t[b - a..e - a] == s[b..e];
    FieldOfString(t, b - a, n);
  }
}
