/**
 * Amounts. The program keeps totals in `double` and writes them with
 * `String.format(Locale.US, "%.2f", x)`; here an amount is a whole number of
 * cents, `FormatCents` is that formatting and `ParseCentsSafe` is the lenient
 * `parseDoubleSafe(s, def)` restricted to decimal notation with at most two
 * fraction digits.
 */
module Money {
  import opened Wrappers
  import opened JavaText

  /** `String.format(Locale.US, "%.2f", cents / 100.0)`. */
  function FormatCents(cents: int): string {
    if cents < 0 then "-" + Unsigned(-cents) else Unsigned(cents)
  }

  /** The digits of a non-negative amount: whole units, a point, two cent digits. */
  function Unsigned(a: nat): string {
    NatToString(a / 100) + "." + Format02(a % 100)
  }

  /** The value of an optional fraction of at most two digits, in cents. */
  function FractionCents(frac: string): nat
    requires AllDigits(frac) && |frac| <= 2
  {
    if |frac| == 0 then 0 else if |frac| == 1 then DigitsValue(frac) * 10 else DigitsValue(frac)
  }

  /** The text before and after the first `.` (all of it and nothing when there is none). */
  function SplitAtPoint(body: string): (string, string) {
    match IndexOf(body, ".")
    case None => (body, "")
    case Some(i) => (body[..i], body[i + 1..])
  }

  /** Integer and fraction digits as cents, when they form a number `parseDouble` accepts. */
  function DecimalCents(intPart: string, frac: string): Option<int> {
    if AllDigits(intPart) && AllDigits(frac) && |intPart| + |frac| >= 1 && |frac| <= 2 then
      Some(DigitsValue(intPart) * 100 + FractionCents(frac))
    else None
  }

  /**
   * `Double.parseDouble(t)` for `[+|-] digits [. digits]`, at least one digit
   * and at most two after the point, as cents; None for everything else.
   */
  function ParseCents(t: string): (r: Option<int>)
    ensures r.Some? ==> t != []
  {
    var signed := |t| > 0 && (t[0] == '-' || t[0] == '+');
    var parts := SplitAtPoint(if signed then t[1..] else t);
    match DecimalCents(parts.0, parts.1)
    case None => None
    case Some(v) => Some(if signed && t[0] == '-' then -v else v)
  }

  /** `parseDoubleSafe(s, def)`: the trimmed text's value, or `def` when it does not parse. */
  function ParseCentsSafe(s: string, def: int): (r: int)
    ensures ParseCents(Trim(s)).Some? ==> r == ParseCents(Trim(s)).value
    ensures ParseCents(Trim(s)).None? ==> r == def
  {
    ParseCents(Trim(s)).GetOr(def)
  }

  lemma SplitDigitsAtPoint(ip: string, fp: string)
    requires AllDigits(ip)
    ensures SplitAtPoint(ip + "." + fp) == (ip, fp)
  {
    var body := ip + "." + fp;
    assert '.' !in ip by {
      forall k | 0 <= k < |ip| ensures ip[k] != '.' { assert IsDigit(ip[k]); }
    }
    IndexOfAfterFree(ip, '.', fp);
    assert body[..|ip|] == ip;
    assert body[|ip| + 1..] == fp;
  }

  /** The unsigned text splits at its point into digits worth the amount. */
  lemma UnsignedValue(a: nat)
    ensures DecimalCents(SplitAtPoint(Unsigned(a)).0, SplitAtPoint(Unsigned(a)).1) == Some(a)
  {
    var ip := NatToString(a / 100);
    var fp := Format02(a % 100);
    NatToStringDigits(a / 100);
    SplitDigitsAtPoint(ip, fp);
    Format02Value(a % 100);
    assert FractionCents(fp) == a % 100;
  }

  /** The unsigned text starts and ends with a digit. */
  lemma UnsignedEnds(a: nat)
    ensures IsDigit(Unsigned(a)[0]) && IsDigit(Unsigned(a)[|Unsigned(a)| - 1])
  {
    var ip := NatToString(a / 100);
    var fp := Format02(a % 100);
    NatToStringDigits(a / 100);
    var body := ip + "." + fp;
    assert body[0] == ip[0] && body[|body| - 1] == fp[1];
  }

  /** Reading an unsigned body, and the same body after a minus sign. */
  lemma ParseSignedBody(body: string, a: nat)
    requires body != [] && IsDigit(body[0])
    requires DecimalCents(SplitAtPoint(body).0, SplitAtPoint(body).1) == Some(a)
    ensures ParseCents(body) == Some(a)
    ensures ParseCents("-" + body) == Some(-(a as int))
  {
    assert ("-" + body)[1..] == body;
  }

  /** What `%.2f` writes, `parseDoubleSafe` reads back to the cent. */
  lemma ParseFormatCents(cents: int, def: int)
    ensures ParseCentsSafe(FormatCents(cents), def) == cents
  {
    var a: nat := if cents < 0 then -cents else cents;
    var body := Unsigned(a);
    UnsignedValue(a);
    UnsignedEnds(a);
    ParseSignedBody(body, a);
    var t := FormatCents(cents);
    if cents < 0 {
      assert t == "-" + body;
      assert t[|t| - 1] == body[|body| - 1];
    } else {
      assert t == body;
    }
    TrimNoop(t);
  }
}
