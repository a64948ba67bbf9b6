/**
 * The handful of java.lang.String / Integer behaviours the point-of-sale
 * program leans on, stated over `string` (= seq<char>) and unbounded `int`:
 * `trim`, `Integer.parseInt`, `Integer.toString`, `String.format("%02d")`,
 * `String.compareTo`, `String.split` (with and without a limit) and the
 * 32-bit wrap-around of `int` addition.
 */
module JavaText {
  import opened Wrappers

  const MinInt32: int := -0x8000_0000
  const MaxInt32: int := 0x7fff_ffff

  predicate IsInt32(x: int) { MinInt32 <= x <= MaxInt32 }

  /**
   * Java `int` arithmetic: the mathematical value brought back into 32 bits
   * by adding or removing multiples of 2^32.
   */
  function Wrap32(x: int): (r: int)
    ensures IsInt32(r)
    ensures IsInt32(x) ==> r == x
    decreases if x < MinInt32 then MinInt32 - x else if x > MaxInt32 then x - MaxInt32 else 0
  {
    if x < MinInt32 then Wrap32(x + 0x1_0000_0000)
    else if x > MaxInt32 then Wrap32(x - 0x1_0000_0000)
    else x
  }

  lemma Wrap32Step(x: int)
    ensures Wrap32(x + 0x1_0000_0000) == Wrap32(x)
  {
  }

  /** Adding any multiple of 2^32 does not change the wrapped value. */
  lemma {:induction false} Wrap32Shift(x: int, k: int)
    ensures Wrap32(x + k * 0x1_0000_0000) == Wrap32(x)
    decreases if k < 0 then -k else k
  {
    if k > 0 {
      Wrap32Shift(x, k - 1);
      Wrap32Step(x + (k - 1) * 0x1_0000_0000);
    } else if k < 0 {
      Wrap32Shift(x, k + 1);
      Wrap32Step(x + k * 0x1_0000_0000);
    }
  }

  /** The wrapped value differs from the mathematical one by a multiple of 2^32. */
  lemma {:induction false} Wrap32Offset(x: int)
    ensures exists m :: Wrap32(x) == x + m * 0x1_0000_0000
    decreases if x < MinInt32 then MinInt32 - x else if x > MaxInt32 then x - MaxInt32 else 0
  {
    if x < MinInt32 {
      Wrap32Offset(x + 0x1_0000_0000);
      var m :| Wrap32(x + 0x1_0000_0000) == x + 0x1_0000_0000 + m * 0x1_0000_0000;
      assert Wrap32(x) == x + (m + 1) * 0x1_0000_0000;
    } else if x > MaxInt32 {
      Wrap32Offset(x - 0x1_0000_0000);
      var m :| Wrap32(x - 0x1_0000_0000) == x - 0x1_0000_0000 + m * 0x1_0000_0000;
      assert Wrap32(x) == x + (m - 1) * 0x1_0000_0000;
    } else {
      assert Wrap32(x) == x + 0 * 0x1_0000_0000;
    }
  }

  /** Euclidean remainder by 2^32 is determined by any quotient/remainder split. */
  lemma Mod32Unique(w: int, d: int, r: int)
    requires w == d * 0x1_0000_0000 + r && 0 <= r < 0x1_0000_0000
    ensures w % 0x1_0000_0000 == r
  {
    var d' := w / 0x1_0000_0000;
    assert w == d' * 0x1_0000_0000 + w % 0x1_0000_0000;
    assert (d - d') * 0x1_0000_0000 == w % 0x1_0000_0000 - r;
  }

  /** The two's-complement reading: `Wrap32` agrees with the remainder formula. */
  lemma Wrap32IsRemainder(x: int)
    ensures Wrap32(x) == (x + 0x8000_0000) % 0x1_0000_0000 - 0x8000_0000
  {
    Wrap32Offset(x);
    var m :| Wrap32(x) == x + m * 0x1_0000_0000;
    Mod32Unique(x + 0x8000_0000, -m, Wrap32(x) + 0x8000_0000);
  }

  /** Wrapping the running sum at every step is the same as wrapping once at the end. */
  lemma Wrap32AddAbsorb(a: int, b: int)
    ensures Wrap32(Wrap32(a) + b) == Wrap32(a + b)
  {
    Wrap32Offset(a);
    var m :| Wrap32(a) == a + m * 0x1_0000_0000;
    Wrap32Shift(a + b, m);
  }

  // ---------------------------------------------------------------- digits

  predicate IsDigit(c: char) { '0' <= c <= '9' }

  predicate AllDigits(s: string) { forall k :: 0 <= k < |s| ==> IsDigit(s[k]) }

  function DigitChar(d: nat): (c: char)
    requires d < 10
    ensures IsDigit(c)
  {
    ('0' as int + d) as char
  }

  /** The value of a string of decimal digits, most significant first. */
  function DigitsValue(s: string): nat
    requires AllDigits(s)
  {
    if s == [] then 0
    else
      var last := s[|s| - 1];
      assert IsDigit(last);
      DigitsValue(s[..|s| - 1]) * 10 + (last as int - '0' as int)
  }

  /** `Integer.toString` of a non-negative value: no sign, no leading zero. */
  function NatToString(n: nat): (s: string)
    decreases n
  {
    if n < 10 then [DigitChar(n)] else NatToString(n / 10) + [DigitChar(n % 10)]
  }

  /** `Integer.toString` / string concatenation of an `int`. */
  function IntToString(n: int): string {
    if n < 0 then "-" + NatToString(-n) else NatToString(n)
  }

  lemma {:induction false} NatToStringDigits(n: nat)
    ensures |NatToString(n)| >= 1
    ensures AllDigits(NatToString(n))
    ensures DigitsValue(NatToString(n)) == n
    ensures n < 10 <==> |NatToString(n)| == 1
    decreases n
  {
    if n >= 10 {
      NatToStringDigits(n / 10);
      var p := NatToString(n / 10);
      var s := NatToString(n);
      assert s == p + [DigitChar(n % 10)];
      assert s[..|s| - 1] == p;
    }
  }

  /** `String.format("%02d", n)`: at least two characters, zero-padded. */
  function Format02(n: int): (r: string)
    ensures |r| >= 2
    ensures 0 <= n < 100 ==> |r| == 2 && AllDigits(r)
  {
    NatToStringDigits(if n < 0 then -n else n);
    var d := IntToString(n);
    if |d| < 2 then "0" + d else d
  }

  /** `%02d` of 0..99 reads back as its value. */
  lemma Format02Value(n: int)
    requires 0 <= n < 100
    ensures DigitsValue(Format02(n)) == n
  {
    NatToStringDigits(n);
    var d := NatToString(n);
    if n < 10 {
      var r := "0" + d;
      assert r[..1] == "0";
      assert DigitsValue("0") == 0;
    }
  }

  function Pow10(n: nat): (r: nat)
    ensures r >= 1
  {
    if n == 0 then 1 else 10 * Pow10(n - 1)
  }

  /** A string of `n` digits is worth less than `10^n`. */
  lemma {:induction false} DigitsValueBound(s: string)
    requires AllDigits(s)
    ensures DigitsValue(s) < Pow10(|s|)
  {
    if s != [] {
      var init := s[..|s| - 1];
      DigitsValueBound(init);
      assert DigitsValue(init) + 1 <= Pow10(|init|);
      assert DigitsValue(s) <= DigitsValue(init) * 10 + 9;
    }
  }

  function FirstDigit(s: string): nat
    requires s != [] && IsDigit(s[0])
  {
    s[0] as int - '0' as int
  }

  lemma ShiftTen(d: int, p: int, x: int, last: int)
    ensures (d * p + x) * 10 + last == d * (10 * p) + (x * 10 + last)
  {
  }

  /** The value of a non-empty digit string, peeling its last digit. */
  lemma DigitsValueLast(s: string)
    requires AllDigits(s) && s != []
    ensures AllDigits(s[..|s| - 1])
    ensures DigitsValue(s) == DigitsValue(s[..|s| - 1]) * 10 + (s[|s| - 1] as int - '0' as int)
  {
  }

  /** Reading a digit string from the front: the first digit weighs `10^(n-1)`. */
  lemma {:induction false} DigitsValueFront(s: string)
    requires AllDigits(s) && s != []
    ensures DigitsValue(s) == FirstDigit(s) * Pow10(|s| - 1) + DigitsValue(s[1..])
  {
    if |s| == 1 {
      assert s[..0] == [];
      assert s[1..] == [];
    } else {
      var init := s[..|s| - 1];
      var tail := s[1..];
      DigitsValueLast(s);
      DigitsValueLast(tail);
      DigitsValueFront(init);
      assert init[1..] == tail[..|tail| - 1];
      assert tail[|tail| - 1] == s[|s| - 1];
      assert FirstDigit(init) == FirstDigit(s);
      ShiftTen(FirstDigit(s), Pow10(|s| - 2), DigitsValue(init[1..]), s[|s| - 1] as int - '0' as int);
    }
  }

  /** Appending zeros multiplies the value by a power of ten. */
  function Zeros(n: nat): (r: string)
    ensures |r| == n && AllDigits(r)
  {
    if n == 0 then [] else Zeros(n - 1) + "0"
  }

  lemma {:induction false} ZerosValue(n: nat)
    ensures DigitsValue(Zeros(n)) == 0
  {
    if n > 0 {
      ZerosValue(n - 1);
      assert Zeros(n)[..n - 1] == Zeros(n - 1);
    }
  }

  /** Leading zeros do not change the value. */
  lemma {:induction false} LeadingZerosValue(n: nat, s: string)
    requires AllDigits(s)
    ensures AllDigits(Zeros(n) + s)
    ensures DigitsValue(Zeros(n) + s) == DigitsValue(s)
  {
    var t := Zeros(n) + s;
    assert forall k :: 0 <= k < |t| ==> IsDigit(t[k]) by {
      forall k | 0 <= k < |t| ensures IsDigit(t[k]) {
        if k < n { assert t[k] == Zeros(n)[k]; } else { assert t[k] == s[k - n]; }
      }
    }
    if s == [] {
      assert t == Zeros(n);
      ZerosValue(n);
    } else {
      var init := s[..|s| - 1];
      LeadingZerosValue(n, init);
      assert t[..|t| - 1] == Zeros(n) + init;
      assert t[|t| - 1] == s[|s| - 1];
    }
  }

  /** `Integer.toString` of `n` with `10^k <= n < 10^(k+1)` has exactly `k + 1` digits. */
  lemma {:induction false} NatToStringLength(n: nat, k: nat)
    requires Pow10(k) <= n < Pow10(k + 1)
    ensures |NatToString(n)| == k + 1
    decreases n
  {
    if k > 0 {
      assert Pow10(k) == 10 * Pow10(k - 1);
      assert Pow10(k + 1) == 10 * Pow10(k);
      NatToStringLength(n / 10, k - 1);
    } else {
      assert Pow10(1) == 10;
    }
  }

  /** A value below `10^k` (with `k >= 1`) prints in at most `k` digits. */
  lemma {:induction false} NatToStringShort(n: nat, k: nat)
    requires k >= 1 && n < Pow10(k)
    ensures |NatToString(n)| <= k
    decreases n
  {
    if n >= 10 {
      assert Pow10(k) == 10 * Pow10(k - 1);
      assert Pow10(1) == 10;
      NatToStringShort(n / 10, k - 1);
    }
  }

  // ---------------------------------------------------------------- trim

  /** `String.trim()` drops every leading and trailing character `<= ' '`. */
  function TrimStart(s: string): (r: string)
    ensures |r| <= |s| && r == s[|s| - |r|..]
    ensures r != [] ==> r[0] > ' '
    ensures forall k :: 0 <= k < |s| - |r| ==> s[k] <= ' '
  {
    if s != [] && s[0] <= ' ' then TrimStart(s[1..]) else s
  }

  function TrimEnd(s: string): (r: string)
    ensures |r| <= |s| && r == s[..|r|]
    ensures r != [] ==> r[|r| - 1] > ' '
    ensures forall k :: |r| <= k < |s| ==> s[k] <= ' '
  {
    if s != [] && s[|s| - 1] <= ' ' then TrimEnd(s[..|s| - 1]) else s
  }

  /** `String.trim()`: `TrimStart`, then `TrimEnd`; `TrimIsMiddle` says what is left. */
  function Trim(s: string): (r: string)
    ensures r != [] ==> r[0] > ' ' && r[|r| - 1] > ' '
  {
    TrimEnd(TrimStart(s))
  }

  /**
   * The trimmed text is the slice of `s` left once every character `<= ' '`
   * at either end is gone; it starts after the leading run `TrimStart` drops.
   */
  lemma {:induction false} TrimIsMiddle(s: string)
    ensures var r, i := Trim(s), |s| - |TrimStart(s)|;
      && i + |r| <= |s| && r == s[i..i + |r|]
      && (forall k :: 0 <= k < i ==> s[k] <= ' ')
      && (forall k :: i + |r| <= k < |s| ==> s[k] <= ' ')
  {
    var t := TrimStart(s);
    PrefixOfSuffix(s, t, TrimEnd(t));
  }

  /** A prefix `r` of a suffix `t` of `s` is a slice of `s`, and what follows `r` in `t` ends `s`. */
  lemma PrefixOfSuffix(s: string, t: string, r: string)
    requires |t| <= |s| && t == s[|s| - |t|..]
    requires |r| <= |t| && r == t[..|r|]
    requires forall k :: |r| <= k < |t| ==> t[k] <= ' '
    ensures var i := |s| - |t|;
      && i + |r| <= |s| && r == s[i..i + |r|]
      && forall k :: i + |r| <= k < |s| ==> s[k] <= ' '
  {
    var i := |s| - |t|;
    forall k | i + |r| <= k < |s| ensures s[k] <= ' ' {
      assert s[k] == t[k - i];
    }
  }

  /** A string with no white space at either end is its own trim. */
  lemma TrimNoop(s: string)
    requires s != [] ==> s[0] > ' ' && s[|s| - 1] > ' '
    ensures Trim(s) == s
  {
    assert TrimStart(s) == s;
    assert TrimEnd(s) == s;
  }

  // ---------------------------------------------------------------- Integer.parseInt

  /**
   * `Integer.parseInt(t)` (radix 10): an optional `+` or `-`, then at least
   * one digit, and the value must fit in 32 bits; anything else throws
   * NumberFormatException, modelled as None.
   */
  function ParseInt(t: string): (r: Option<int>)
    ensures r.Some? ==> IsInt32(r.value)
    ensures r.Some? ==> t != [] && (IsDigit(t[0]) || t[0] == '-' || t[0] == '+')
  {
    var signed := |t| > 0 && (t[0] == '-' || t[0] == '+');
    var digits := if signed then t[1..] else t;
    if |digits| == 0 || !AllDigits(digits) then None
    else
      var v: int := if |t| > 0 && t[0] == '-' then 0 - (DigitsValue(digits) as int) else DigitsValue(digits);
      if IsInt32(v) then Some(v) else None
  }

  /** `Integer.parseInt` reads back what `Integer.toString` wrote. */
  lemma ParseIntOfIntToString(n: int)
    requires IsInt32(n)
    ensures ParseInt(IntToString(n)) == Some(n)
  {
    var m: nat := if n < 0 then -n else n;
    NatToStringDigits(m);
    if n < 0 {
      assert IntToString(n)[1..] == NatToString(m);
    }
  }

  /** The lenient `parseIntSafe(s, def)`: `Integer.parseInt(s.trim())`, or `def` on failure. */
  function ParseIntSafe(s: string, def: int): (r: int)
    ensures ParseInt(Trim(s)).Some? ==> r == ParseInt(Trim(s)).value
    ensures ParseInt(Trim(s)).None? ==> r == def
  {
    ParseInt(Trim(s)).GetOr(def)
  }

  lemma ParseIntSafeOfIntToString(n: int, def: int)
    requires IsInt32(n)
    ensures ParseIntSafe(IntToString(n), def) == n
  {
    var m: nat := if n < 0 then -n else n;
    NatToStringDigits(m);
    TrimNoop(IntToString(n));
    ParseIntOfIntToString(n);
  }

  // ---------------------------------------------------------------- compareTo

  /** `a.compareTo(b) <= 0`: the first differing character decides, else the shorter string. */
  predicate LexLe(a: string, b: string) {
    if a == [] then true
    else if b == [] then false
    else if a[0] != b[0] then a[0] < b[0]
    else LexLe(a[1..], b[1..])
  }

  /** `a.compareTo(b) < 0`. */
  predicate LexLess(a: string, b: string) { !LexLe(b, a) }

  lemma {:induction false} LexLeTotal(a: string, b: string)
    ensures LexLe(a, b) || LexLe(b, a)
  {
    if a != [] && b != [] && a[0] == b[0] {
      LexLeTotal(a[1..], b[1..]);
    }
  }

  lemma {:induction false} LexLeTransitive(a: string, b: string, c: string)
    requires LexLe(a, b) && LexLe(b, c)
    ensures LexLe(a, c)
  {
    if a != [] && b != [] && c != [] && a[0] == b[0] == c[0] {
      LexLeTransitive(a[1..], b[1..], c[1..]);
    }
  }

  lemma {:induction false} LexLeAntisymmetric(a: string, b: string)
    requires LexLe(a, b) && LexLe(b, a)
    ensures a == b
  {
    if a != [] && b != [] {
      LexLeAntisymmetric(a[1..], b[1..]);
      assert a == [a[0]] + a[1..];
      assert b == [b[0]] + b[1..];
    }
  }

  lemma {:induction false} LexLeReflexive(a: string)
    ensures LexLe(a, a)
  {
    if a != [] {
      LexLeReflexive(a[1..]);
    }
  }

  /**
   * Strings that start with pieces of equal length compare by those pieces
   * first, and by what follows only when the pieces are equal.
   */
  lemma {:induction false} LexLeConcat(a1: string, b1: string, a2: string, b2: string)
    requires |a1| == |a2|
    ensures LexLe(a1 + b1, a2 + b2) <==> if a1 == a2 then LexLe(b1, b2) else LexLe(a1, a2)
  {
    if a1 == [] {
      assert a1 + b1 == b1 && a2 + b2 == b2;
    } else {
      assert (a1 + b1)[0] == a1[0] && (a2 + b2)[0] == a2[0];
      assert (a1 + b1)[1..] == a1[1..] + b1;
      assert (a2 + b2)[1..] == a2[1..] + b2;
      if a1[0] == a2[0] {
        LexLeConcat(a1[1..], b1, a2[1..], b2);
        assert a1 == [a1[0]] + a1[1..] && a2 == [a2[0]] + a2[1..];
      }
    }
  }

  lemma DigitOrder(da: nat, db: nat, p: nat, x: nat, y: nat)
    requires da < db && x < p && y < p
    ensures da * p + x < db * p + y
  {
    var k := db - da - 1;
    assert db * p == da * p + p + k * p;
    assert k * p >= 0;
  }

  /** Digit strings of equal length compare as the numbers they spell. */
  lemma {:induction false} LexLeDigits(a: string, b: string)
    requires AllDigits(a) && AllDigits(b) && |a| == |b|
    ensures LexLe(a, b) <==> DigitsValue(a) <= DigitsValue(b)
  {
    if a != [] {
      DigitsValueFront(a);
      DigitsValueFront(b);
      DigitsValueBound(a[1..]);
      DigitsValueBound(b[1..]);
      var p := Pow10(|a| - 1);
      if a[0] == b[0] {
        LexLeDigits(a[1..], b[1..]);
      } else if a[0] < b[0] {
        DigitOrder(FirstDigit(a), FirstDigit(b), p, DigitsValue(a[1..]), DigitsValue(b[1..]));
      } else {
        DigitOrder(FirstDigit(b), FirstDigit(a), p, DigitsValue(b[1..]), DigitsValue(a[1..]));
      }
    }
  }

  /** Equal-length digit strings are equal exactly when their values are. */
  lemma DigitsEqual(a: string, b: string)
    requires AllDigits(a) && AllDigits(b) && |a| == |b|
    ensures a == b <==> DigitsValue(a) == DigitsValue(b)
  {
    LexLeDigits(a, b);
    LexLeDigits(b, a);
    if LexLe(a, b) && LexLe(b, a) {
      LexLeAntisymmetric(a, b);
    }
  }

  // ---------------------------------------------------------------- split

  /** `sep` occurs in `s` starting at position `k`. */
  predicate MatchAt(s: string, k: int, sep: string) {
    0 <= k && k + |sep| <= |s| && forall j :: 0 <= j < |sep| ==> s[k + j] == sep[j]
  }

  /** Position of the first occurrence of a non-empty literal `sep` in `s`. */
  function IndexOf(s: string, sep: string): (r: Option<nat>)
    requires |sep| > 0
    ensures r.Some? ==> MatchAt(s, r.value, sep) && s[r.value..r.value + |sep|] == sep
    ensures r.Some? ==> forall k :: 0 <= k < r.value ==> !MatchAt(s, k, sep)
    ensures r.None? ==> forall k :: 0 <= k <= |s| - |sep| ==> !MatchAt(s, k, sep)
    decreases |s|
  {
    if |s| < |sep| then None
    else if MatchAt(s, 0, sep) then
      assert s[..|sep|] == sep;
      Some(0)
    else match IndexOf(s[1..], sep)
      case None =>
        assert forall k :: 1 <= k <= |s| - |sep| ==> (MatchAt(s, k, sep) <==> MatchAt(s[1..], k - 1, sep));
        None
      case Some(i) =>
        assert forall k :: 1 <= k <= i + 1 ==> (MatchAt(s, k, sep) <==> MatchAt(s[1..], k - 1, sep));
        assert s[i + 1..i + 1 + |sep|] == s[1..][i..i + |sep|];
        Some(i + 1)
  }

  /** Every piece between occurrences of `sep`, left to right, nothing dropped. */
  function SplitAll(s: string, sep: string): (r: seq<string>)
    requires |sep| > 0
    ensures |r| >= 1
    decreases |s|
  {
    match IndexOf(s, sep)
    case None => [s]
    case Some(i) => [s[..i]] + SplitAll(s[i + |sep|..], sep)
  }

  /** Glue pieces back together with `sep` between them. */
  function Join(parts: seq<string>, sep: string): string
    requires |parts| >= 1
  {
    if |parts| == 1 then parts[0] else parts[0] + sep + Join(parts[1..], sep)
  }

  lemma {:induction false} JoinSplitAll(s: string, sep: string)
    requires |sep| > 0
    ensures Join(SplitAll(s, sep), sep) == s
    decreases |s|
  {
    match IndexOf(s, sep)
    case None =>
    case Some(i) =>
      var rest := s[i + |sep|..];
      var parts := SplitAll(s, sep);
      assert parts == [s[..i]] + SplitAll(rest, sep);
      assert parts[1..] == SplitAll(rest, sep);
      JoinSplitAll(rest, sep);
      assert Join(parts, sep) == s[..i] + sep + rest;
      assert s == s[..i] + s[i..i + |sep|] + rest;
  }

  function DropTrailingEmpty(parts: seq<string>): (r: seq<string>)
    ensures |r| <= |parts| && r == parts[..|r|]
    ensures r != [] ==> r[|r| - 1] != []
    ensures forall k :: |r| <= k < |parts| ==> parts[k] == []
  {
    if parts != [] && parts[|parts| - 1] == [] then DropTrailingEmpty(parts[..|parts| - 1]) else parts
  }

  /**
   * `s.split(sep)` for a literal separator and limit 0: when `sep` does not
   * occur the answer is `[s]`; otherwise all pieces with trailing empty
   * pieces removed (a leading empty piece stays).
   */
  function JavaSplit(s: string, sep: string): (r: seq<string>)
    requires |sep| > 0
    ensures IndexOf(s, sep).None? ==> r == [s]
  {
    if IndexOf(s, sep).None? then [s] else DropTrailingEmpty(SplitAll(s, sep))
  }

  /**
   * `s.split(sep, limit)` with `limit >= 1`: at most `limit` pieces, the last
   * one holding the rest of the input; empty pieces are kept.
   */
  function JavaSplitLimit(s: string, sep: string, limit: nat): (r: seq<string>)
    requires |sep| > 0 && limit >= 1
    ensures 1 <= |r| <= limit
    decreases limit
  {
    if limit == 1 then [s]
    else match IndexOf(s, sep)
      case None => [s]
      case Some(i) => [s[..i]] + JavaSplitLimit(s[i + |sep|..], sep, limit - 1)
  }

  lemma {:induction false} JoinSplitLimit(s: string, sep: string, limit: nat)
    requires |sep| > 0 && limit >= 1
    ensures Join(JavaSplitLimit(s, sep, limit), sep) == s
    decreases limit
  {
    if limit > 1 && IndexOf(s, sep).Some? {
      var i := IndexOf(s, sep).value;
      var rest := s[i + |sep|..];
      JoinSplitLimit(rest, sep, limit - 1);
      var tail := JavaSplitLimit(rest, sep, limit - 1);
      assert JavaSplitLimit(s, sep, limit) == [s[..i]] + tail;
      assert s == s[..i] + s[i..i + |sep|] + rest;
    }
  }

  /** `sep` occurs nowhere in `s`. */
  predicate Free(s: string, sep: string)
    requires |sep| > 0
  {
    forall k :: 0 <= k <= |s| - |sep| ==> !MatchAt(s, k, sep)
  }

  /** A one-character separator that does not occur in `a` is found right after it. */
  lemma IndexOfAfterFree(a: string, c: char, b: string)
    requires c !in a
    ensures IndexOf(a + [c] + b, [c]) == Some(|a|)
  {
    var s := a + [c] + b;
    assert MatchAt(s, |a|, [c]);
    forall k | 0 <= k < |a| ensures !MatchAt(s, k, [c]) {
      assert a[k] in a;
      assert s[k + 0] == a[k] != [c][0];
    }
  }

  lemma IndexOfFreeChar(a: string, c: char)
    requires c !in a
    ensures IndexOf(a, [c]) == None
  {
    forall k | 0 <= k < |a| ensures !MatchAt(a, k, [c]) {
      assert a[k] in a;
      assert a[k + 0] != [c][0];
    }
  }

  /** `split` cuts at the first occurrence of a one-character separator. */
  lemma SplitAtFirst(a: string, c: char, b: string)
    requires c !in a
    ensures SplitAll(a + [c] + b, [c]) == [a] + SplitAll(b, [c])
  {
    var s := a + [c] + b;
    IndexOfAfterFree(a, c, b);
    assert s[..|a|] == a && s[|a| + 1..] == b;
  }

  /** `split(sep, limit)` with room for more than one part cuts at the first separator. */
  lemma SplitLimitAtFirst(a: string, c: char, b: string, limit: nat)
    requires c !in a && limit >= 2
    ensures JavaSplitLimit(a + [c] + b, [c], limit) == [a] + JavaSplitLimit(b, [c], limit - 1)
  {
    var s := a + [c] + b;
    IndexOfAfterFree(a, c, b);
    assert s[..|a|] == a && s[|a| + 1..] == b;
  }

  /** Every piece `SplitAll` cuts at a one-character separator is free of it. */
  lemma {:induction false} SplitAllPiecesFree(s: string, c: char, k: nat)
    requires k < |SplitAll(s, [c])|
    ensures c !in SplitAll(s, [c])[k]
    decreases |s|
  {
    match IndexOf(s, [c])
    case None =>
      forall j | 0 <= j < |s| ensures s[j] != c {
        assert !MatchAt(s, j, [c]);
      }
    case Some(i) =>
      var parts := SplitAll(s, [c]);
      assert parts == [s[..i]] + SplitAll(s[i + 1..], [c]);
      if k == 0 {
        forall j | 0 <= j < i ensures s[..i][j] != c {
          assert !MatchAt(s, j, [c]);
        }
      } else {
        assert parts[k] == SplitAll(s[i + 1..], [c])[k - 1];
        SplitAllPiecesFree(s[i + 1..], c, k - 1);
      }
  }

  /** Every piece `split` returns for a one-character separator is free of it. */
  lemma JavaSplitPiecesFree(s: string, c: char, k: nat)
    requires k < |JavaSplit(s, [c])|
    ensures c !in JavaSplit(s, [c])[k]
  {
    if IndexOf(s, [c]).None? {
      assert SplitAll(s, [c]) == [s];
    }
    SplitAllPiecesFree(s, c, k);
  }
}
