/** Characters and strings: ASCII digits, zero-padded number formatting, the
    number fields that `strptime` accepts, Python's `str.split` on a separator,
    and Python's lexicographic ordering of strings. */
module Text {
  import opened Wrappers

  predicate IsDigit(c: char) { '0' <= c <= '9' }

  function DigitChar(n: int): (c: char)
    requires 0 <= n <= 9
    ensures IsDigit(c)
  {
    ('0' as int + n) as char
  }

  function DigitValue(c: char): (n: int)
    requires IsDigit(c)
    ensures 0 <= n <= 9
  {
    c as int - '0' as int
  }

  predicate AllDigits(s: string) { forall i :: 0 <= i < |s| ==> IsDigit(s[i]) }

  /** `n` written with exactly two digits, zero-padded (`%02d`). */
  function TwoDigits(n: int): (s: string)
    requires 0 <= n <= 99
    ensures |s| == 2 && AllDigits(s)
  {
    [DigitChar(n / 10), DigitChar(n % 10)]
  }

  /** `n` written with exactly four digits, zero-padded (`%04d`). */
  function FourDigits(n: int): (s: string)
    requires 0 <= n <= 9999
    ensures |s| == 4 && AllDigits(s)
  {
    TwoDigits(n / 100) + TwoDigits(n % 100)
  }

  /** The value of a string of exactly `|s|` ASCII digits. */
  function DigitsValue(s: string): (n: int)
    requires AllDigits(s)
    ensures 0 <= n
    decreases |s|
  {
    if s == [] then 0
    else DigitsValue(s[..|s| - 1]) * 10 + DigitValue(s[|s| - 1])
  }

  /** A `strptime` number field of one or two digits (`%m`, `%H`, `%M`, `%S`,
      and the digit forms of `%d`), accepted when its value lies in `lo..hi`. */
  function NumField(s: string, lo: int, hi: int): (r: Option<int>)
    ensures r.Some? ==> lo <= r.value <= hi
  {
    if (|s| == 1 || |s| == 2) && AllDigits(s) && lo <= DigitsValue(s) <= hi
    then Some(DigitsValue(s)) else None
  }

  /** A field of exactly `width` digits (`%y` has two, `%Y` four). */
  function FixedField(s: string, width: nat): (r: Option<int>)
    ensures r.Some? ==> 0 <= r.value
  {
    if |s| == width && AllDigits(s) then Some(DigitsValue(s)) else None
  }

  lemma TwoDigitsValue(n: int)
    requires 0 <= n <= 99
    ensures DigitsValue(TwoDigits(n)) == n
  {
    var s := TwoDigits(n);
    assert s[..1] == [s[0]];
    assert DigitsValue(s[..1]) == DigitValue(s[0]) by {
      assert [s[0]][..0] == [];
    }
  }

  lemma FourDigitsValue(n: int)
    requires 0 <= n <= 9999
    ensures DigitsValue(FourDigits(n)) == n
  {
    var hi, lo := TwoDigits(n / 100), TwoDigits(n % 100);
    var s := hi + lo;
    TwoDigitsValue(n / 100);
    assert s[..3] == hi + [lo[0]];
    assert (hi + [lo[0]])[..2] == hi;
    assert s[..3][..2] == hi;
  }

  /** Every two-digit formatting is read back by a one-or-two-digit field. */
  lemma NumFieldOfTwoDigits(n: int, lo: int, hi: int)
    requires 0 <= n <= 99 && lo <= n <= hi
    ensures NumField(TwoDigits(n), lo, hi) == Some(n)
  {
    TwoDigitsValue(n);
  }

  // ---------------------------------------------------------------------------
  // str.split(sep)
  // ---------------------------------------------------------------------------

  /** Python's `s.split(sep)`: the pieces between non-overlapping occurrences of
      `sep`, found from the left. */
  function Split(s: string, sep: string): (r: seq<string>)
    requires |sep| > 0
    ensures |r| >= 1
    decreases |s|
  {
    if |s| < |sep| then [s]
    else if s[..|sep|] == sep then [""] + Split(s[|sep|..], sep)
    else
      var rest := Split(s[1..], sep);
      [[s[0]] + rest[0]] + rest[1..]
  }

  predicate Avoids(s: string, c: char) { forall i :: 0 <= i < |s| ==> s[i] != c }

  /** A string without the separator's first character is not split. */
  lemma {:induction false} SplitWhole(t: string, sep: string)
    requires |sep| > 0 && Avoids(t, sep[0])
    ensures Split(t, sep) == [t]
    decreases |t|
  {
    if |t| >= |sep| {
      assert t[..|sep|][0] != sep[0];
      SplitWhole(t[1..], sep);
      assert [t[0]] + t[1..] == t;
    }
  }

  /** Splitting `a + sep + t`, where `a` cannot hold the separator, cuts off `a`. */
  lemma {:induction false} SplitCons(a: string, sep: string, t: string)
    requires |sep| > 0 && Avoids(a, sep[0])
    ensures Split(a + sep + t, sep) == [a] + Split(t, sep)
    decreases |a|
  {
    var s := a + sep + t;
    if a == [] {
      assert s == sep + t;
      assert s[..|sep|] == sep;
      assert s[|sep|..] == t;
    } else {
      assert s[..|sep|][0] == a[0];
      assert s[1..] == a[1..] + sep + t;
      SplitCons(a[1..], sep, t);
      assert [a[0]] + a[1..] == a;
    }
  }

  // ---------------------------------------------------------------------------
  // Python's ordering of str: lexicographic by code point.
  // ---------------------------------------------------------------------------

  predicate StrLe(a: string, b: string)
    decreases |a|
  {
    if a == [] then true
    else if b == [] then false
    else if a[0] != b[0] then a[0] < b[0]
    else StrLe(a[1..], b[1..])
  }

  predicate StrLt(a: string, b: string) { StrLe(a, b) && a != b }

  lemma {:induction false} StrLeRefl(a: string)
    ensures StrLe(a, a)
    decreases |a|
  {
    if a != [] { StrLeRefl(a[1..]); }
  }

  lemma {:induction false} StrLeTotal(a: string, b: string)
    ensures StrLe(a, b) || StrLe(b, a)
    decreases |a|
  {
    if a != [] && b != [] && a[0] == b[0] { StrLeTotal(a[1..], b[1..]); }
  }

  lemma {:induction false} StrLeTrans(a: string, b: string, c: string)
    requires StrLe(a, b) && StrLe(b, c)
    ensures StrLe(a, c)
    decreases |a|
  {
    if a != [] && b != [] && c != [] && a[0] == b[0] && b[0] == c[0] {
      StrLeTrans(a[1..], b[1..], c[1..]);
    }
  }

  lemma {:induction false} StrLeAntisym(a: string, b: string)
    requires StrLe(a, b) && StrLe(b, a)
    ensures a == b
    decreases |a|
  {
    if a != [] {
      StrLeAntisym(a[1..], b[1..]);
      assert a == [a[0]] + a[1..] && b == [b[0]] + b[1..];
    }
  }

  /** On zero-padded two-digit strings the string order is the numeric order. */
  lemma TwoDigitsOrder(m: int, n: int)
    requires 0 <= m <= 99 && 0 <= n <= 99
    ensures StrLe(TwoDigits(m), TwoDigits(n)) <==> m <= n
  {
    var a, b := TwoDigits(m), TwoDigits(n);
    assert a[1..][1..] == [] && b[1..][1..] == [];
    assert a[1..][0] == a[1] && b[1..][0] == b[1];
    assert StrLe(a[1..], b[1..]) <==> a[1] <= b[1];
  }
}
