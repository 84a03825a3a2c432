/** Values and string helpers shared by the models: optional and failing
    results, decimal digits, and the whitespace rules of JavaScript's
    `String.prototype.trim`. */
module Common {

  datatype Option<T> = None | Some(value: T) {
    function GetOr(default: T): T {
      match this
      case Some(v) => v
      case None => default
    }
  }

  /** A computation that either yields a value or throws an `Error` with a message. */
  datatype Result<T> = Success(value: T) | Failure(error: string)

  predicate StartsWith(s: string, prefix: string) {
    |prefix| <= |s| && s[..|prefix|] == prefix
  }

  /** Dropping the head of a concatenation drops the head of its left part. */
  lemma TailOfAppend<T>(a: seq<T>, b: seq<T>)
    requires a != []
    ensures (a + b)[0] == a[0] && (a + b)[1..] == a[1..] + b
  {
  }

  lemma DropAll<T>(s: seq<T>)
    ensures s[|s|..] == []
  {
  }

  lemma DropNone<T>(s: seq<T>)
    ensures s[0..] == s
  {
  }

  lemma PrefixOfSuffix<T>(s: seq<T>, k: nat, n: nat)
    requires k + n <= |s|
    ensures s[k..][..n] == s[k..k + n]
  {
  }

  lemma AppendAssoc<T>(a: seq<T>, b: seq<T>, c: seq<T>)
    ensures a + (b + c) == (a + b) + c
  {
  }

  /** Index of the first occurrence of `c` in `s`. */
  function FirstIndex(s: string, c: char): (k: nat)
    requires c in s
    ensures k < |s| && s[k] == c && c !in s[..k]
  {
    if s[0] == c then 0 else 1 + FirstIndex(s[1..], c)
  }

  /** The first occurrence is the only position holding `c` with no `c` before it. */
  lemma FirstIndexAt(s: string, c: char, p: nat)
    requires p < |s| && s[p] == c && c !in s[..p]
    ensures FirstIndex(s, c) == p
  {
  }

  // ---------------------------------------------------------------------------
  // Decimal digits

  predicate IsDigit(c: char) { '0' <= c <= '9' }

  predicate AllDigits(s: string) {
    forall i :: 0 <= i < |s| ==> IsDigit(s[i])
  }

  function DigitChar(d: nat): (c: char)
    requires d < 10
    ensures IsDigit(c) && c as int - '0' as int == d
  {
    ('0' as int + d) as char
  }

  function Pow10(k: nat): nat {
    if k == 0 then 1 else 10 * Pow10(k - 1)
  }

  /** The integer a string of decimal digits denotes, most significant digit first;
      the empty string denotes 0. */
  function DigitsValue(s: string): nat
    requires AllDigits(s)
  {
    if s == [] then 0
    else DigitsValue(s[..|s| - 1]) * 10 + (s[|s| - 1] as int - '0' as int)
  }

  /** The shortest decimal rendering of `n`, as `String(n)` gives it. */
  function Decimal(n: nat): (s: string)
    ensures 1 <= |s| && AllDigits(s)
    ensures |s| > 1 ==> s[0] != '0'
  {
    if n < 10 then [DigitChar(n)] else Decimal(n / 10) + [DigitChar(n % 10)]
  }

  lemma {:induction false} DecimalRoundTrip(n: nat)
    ensures DigitsValue(Decimal(n)) == n
  {
    if n >= 10 {
      var s := Decimal(n);
      assert s[..|s| - 1] == Decimal(n / 10);
      DecimalRoundTrip(n / 10);
    }
  }

  lemma DecimalInjective(m: nat, n: nat)
    requires Decimal(m) == Decimal(n)
    ensures m == n
  {
    DecimalRoundTrip(m);
    DecimalRoundTrip(n);
  }

  lemma {:induction false} DigitsValueAppend(a: string, b: string)
    requires AllDigits(a) && AllDigits(b)
    ensures AllDigits(a + b)
    ensures DigitsValue(a + b) == DigitsValue(a) * Pow10(|b|) + DigitsValue(b)
  {
    if b != [] {
      var ab := a + b;
      assert ab[..|ab| - 1] == a + b[..|b| - 1];
      DigitsValueAppend(a, b[..|b| - 1]);
      ShiftDigit(DigitsValue(a), Pow10(|b| - 1), DigitsValue(b[..|b| - 1]), b[|b| - 1] as int - '0' as int);
    } else {
      assert a + b == a;
    }
  }

  /** Appending one digit `d` to a number whose value is `x * p + y` multiplies every
      part by ten. */
  lemma ShiftDigit(x: int, p: int, y: int, d: int)
    ensures (x * p + y) * 10 + d == x * (p * 10) + (y * 10 + d)
  {
  }

  /** `String(i)` for an integer: a minus sign before the digits of a negative value. */
  function IntText(i: int): (s: string)
    ensures 1 <= |s|
    ensures i < 0 <==> s[0] == '-'
  {
    if i < 0 then "-" + Decimal(-i) else Decimal(i)
  }

  lemma IntTextInjective(i: int, j: int)
    requires IntText(i) == IntText(j)
    ensures i == j
  {
    if i < 0 {
      assert Decimal(-i) == IntText(i)[1..] == IntText(j)[1..] == Decimal(-j);
      DecimalInjective(-i, -j);
    } else {
      DecimalInjective(i, j);
    }
  }

  // ---------------------------------------------------------------------------
  // JavaScript whitespace and trim

  /** WhiteSpace and LineTerminator code points of ECMAScript (section 12.2 and 12.3
      of ECMA-262): the characters that `trim` removes and that `\s` matches. */
  predicate IsWhitespace(c: char)
    ensures c as int < 0x80 ==> (IsWhitespace(c) <==> c == ' ' || '\t' <= c <= '\r')
  {
    var n := c as int;
    n == 0x09 || n == 0x0A || n == 0x0B || n == 0x0C || n == 0x0D || n == 0x20
    || n == 0xA0 || n == 0x1680 || (0x2000 <= n <= 0x200A)
    || n == 0x2028 || n == 0x2029 || n == 0x202F || n == 0x205F
    || n == 0x3000 || n == 0xFEFF
  }

  /** `s.trimStart()`: the input with its leading whitespace cut off. */
  function TrimStart(s: string): (r: string)
    ensures r == [] || !IsWhitespace(r[0])
    ensures |r| <= |s| && r == s[|s| - |r|..]
    ensures forall i :: 0 <= i < |s| - |r| ==> IsWhitespace(s[i])
  {
    if s != [] && IsWhitespace(s[0]) then
      var r := TrimStart(s[1..]);
      assert r == s[1..][|s| - 1 - |r|..] == s[|s| - |r|..];
      r
    else
      assert s == s[0..];
      s
  }

  function TrimEnd(s: string): (r: string)
    ensures r == [] || !IsWhitespace(r[|r| - 1])
    ensures |r| <= |s| && r == s[..|r|]
    ensures forall i :: |r| <= i < |s| ==> IsWhitespace(s[i])
  {
    if s != [] && IsWhitespace(s[|s| - 1]) then TrimEnd(s[..|s| - 1]) else s
  }

  /** `s.trim()`: leading and trailing whitespace removed. */
  function Trim(s: string): (r: string)
    ensures r == [] || (!IsWhitespace(r[0]) && !IsWhitespace(r[|r| - 1]))
  {
    TrimEnd(TrimStart(s))
  }

  /** Trimming removes only whitespace: the result is the slice of the input that starts
      after its leading whitespace, and everything outside that slice is whitespace. */
  lemma TrimCutsOnlyWhitespace(s: string)
    ensures LeadingWhitespace(s) + |Trim(s)| <= |s|
    ensures Trim(s) == s[LeadingWhitespace(s)..LeadingWhitespace(s) + |Trim(s)|]
    ensures forall i :: 0 <= i < LeadingWhitespace(s) ==> IsWhitespace(s[i])
    ensures forall i :: LeadingWhitespace(s) + |Trim(s)| <= i < |s| ==> IsWhitespace(s[i])
  {
    var t := TrimStart(s);
    assert Trim(s) == TrimEnd(t) && LeadingWhitespace(s) == |s| - |t|;
    TrimEndInside(s, t);
  }

  /** Trimming the end of a suffix `t` of `s` leaves a slice of `s`, and what it cuts off
      is whitespace at the end of `s`. */
  lemma TrimEndInside(s: string, t: string)
    requires |t| <= |s| && t == s[|s| - |t|..]
    ensures TrimEnd(t) == s[|s| - |t|..|s| - |t| + |TrimEnd(t)|]
    ensures forall i :: |s| - |t| + |TrimEnd(t)| <= i < |s| ==> IsWhitespace(s[i])
  {
    var k, r := |s| - |t|, TrimEnd(t);
    assert r == s[k..][..|r|];
    PrefixOfSuffix(s, k, |r|);
    forall i | k + |r| <= i < |s|
      ensures IsWhitespace(s[i])
    {
      assert s[i] == t[i - k];
    }
  }

  /** How many characters of whitespace `s` starts with. */
  function LeadingWhitespace(s: string): (k: nat)
    ensures k <= |s|
  {
    |s| - |TrimStart(s)|
  }

  /** A string that neither starts nor ends with whitespace is its own trim. */
  lemma TrimOfTrimmed(s: string)
    requires s == [] || (!IsWhitespace(s[0]) && !IsWhitespace(s[|s| - 1]))
    ensures Trim(s) == s
  {
  }

  /** Decimal renderings have no whitespace to trim. */
  lemma TrimDecimal(n: nat)
    ensures Trim(Decimal(n)) == Decimal(n)
  {
    var s := Decimal(n);
    assert IsDigit(s[0]) && IsDigit(s[|s| - 1]);
    TrimOfTrimmed(s);
  }
}
