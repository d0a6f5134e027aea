/**
 * The strings the sales report uses as map keys, and why no two different things share one.
 */
module SalesKeys {
  import opened Wrappers
  import opened Calendar

  function DigitChar(d: int): (c: char)
    requires 0 <= d < 10
    ensures '0' <= c <= '9'
  {
    '0' + d as char
  }

  /** `String(n)` of an integer. */
  function Decimal(n: int): (s: string)
    ensures s != "" && ':' !in s && 'x' !in s && '-' !in s[1..]
    ensures s[0] == '-' <==> n < 0
    decreases n < 0, if n < 0 then -n else n
  {
    if n < 0 then "-" + Decimal(-n)
    else if n < 10 then [DigitChar(n)]
    else Decimal(n / 10) + [DigitChar(n % 10)]
  }

  lemma {:induction false} DecimalIsInjective(a: int, b: int)
    requires Decimal(a) == Decimal(b)
    ensures a == b
    decreases a < 0, if a < 0 then -a else a
  {
    var s := Decimal(a);
    assert (a >= 10 ==> |s| >= 2) && (b >= 10 ==> |s| >= 2);
    if a < 0 {
      assert s[1..] == Decimal(-a) && s[1..] == Decimal(-b);
      DecimalIsInjective(-a, -b);
    } else if a >= 10 && b >= 10 {
      assert s[..|s| - 1] == Decimal(a / 10) && s[..|s| - 1] == Decimal(b / 10);
      DecimalIsInjective(a / 10, b / 10);
      assert s[|s| - 1] == DigitChar(a % 10) == DigitChar(b % 10);
    }
  }

  /** `String(n).padStart(2, '0')` of a month or a day of the month. */
  function Pad2(n: int): (s: string)
    requires 0 <= n < 100
    ensures |s| == 2
  {
    if n < 10 then "0" + Decimal(n)
    else
      assert Decimal(n / 10) == [DigitChar(n / 10)];
      Decimal(n)
  }

  lemma Pad2IsInjective(a: int, b: int)
    requires 0 <= a < 100 && 0 <= b < 100 && Pad2(a) == Pad2(b)
    ensures a == b
  {
    Pad2Digits(a);
    Pad2Digits(b);
  }

  lemma Pad2Digits(n: int)
    requires 0 <= n < 100
    ensures Pad2(n) == [DigitChar(n / 10), DigitChar(n % 10)]
  {
    assert Decimal(n / 10) == [DigitChar(n / 10)];
  }

  /** `dayKey`, of a local day number. */
  function DayKey(day: int): string {
    DayRoundTrip(day);
    var d := DateOf(day);
    Decimal(d.year) + "-" + Pad2(d.month) + "-" + Pad2(d.day)
  }

  /** Two days never share a key. */
  lemma DayKeyIsInjective(a: int, b: int)
    requires DayKey(a) == DayKey(b)
    ensures a == b
  {
    DayRoundTrip(a);
    DayRoundTrip(b);
    var s, d, e := DayKey(a), DateOf(a), DateOf(b);
    var n := |s| - 6;
    assert s[..n] == Decimal(d.year) && s[n + 1..n + 3] == Pad2(d.month) && s[n + 4..] == Pad2(d.day);
    assert s[..n] == Decimal(e.year) && s[n + 1..n + 3] == Pad2(e.month) && s[n + 4..] == Pad2(e.day);
    DecimalIsInjective(d.year, e.year);
    Pad2IsInjective(d.month, e.month);
    Pad2IsInjective(d.day, e.day);
  }

  // ----- reading a key back -----

  function ReadDigits(s: string): int {
    if s == "" then 0 else 10 * ReadDigits(s[..|s| - 1]) + (s[|s| - 1] as int - '0' as int)
  }

  function ReadInt(s: string): int { if s != "" && s[0] == '-' then -ReadDigits(s[1..]) else ReadDigits(s) }

  /** `String(n)` is the decimal notation of `n`. */
  lemma {:induction false} DecimalReads(n: int)
    ensures ReadInt(Decimal(n)) == n
    decreases n < 0, if n < 0 then -n else n
  {
    var s := Decimal(n);
    if n < 0 {
      DecimalReads(-n);
      assert s[1..] == Decimal(-n);
    } else if n >= 10 {
      DecimalReads(n / 10);
      assert s[..|s| - 1] == Decimal(n / 10);
    } else {
      assert s[..0] == "" && ReadDigits(s[..0]) == 0;
    }
  }

  lemma Pad2Reads(n: int)
    requires 0 <= n < 100
    ensures ReadInt(Pad2(n)) == n
  {
    var s := Pad2(n);
    Pad2Digits(n);
    assert s[..1][..0] == "" && ReadDigits("") == 0;
    assert ReadDigits(s[..1]) == n / 10;
  }

  /** The key of a date shows its year, its month and its day, in this order. */
  lemma DayKeyReads(d: Date, day: int)
    requires ValidDate(d) && day == CivilDays(d.year, d.month, d.day)
    ensures
      var s := DayKey(day);
      var n := |s| - 6;
      && n > 0 && s[n] == '-' && s[n + 3] == '-'
      && ReadInt(s[..n]) == d.year && ReadInt(s[n + 1..n + 3]) == d.month && ReadInt(s[n + 4..]) == d.day
  {
    DayNumberIsCivil(d);
    DateRoundTrip(d);
    var s := DayKey(day);
    var n := |s| - 6;
    assert s[..n] == Decimal(d.year) && s[n + 1..n + 3] == Pad2(d.month) && s[n + 4..] == Pad2(d.day);
    DecimalReads(d.year);
    Pad2Reads(d.month);
    Pad2Reads(d.day);
  }

  /** A product as an order names it: the row may be gone, and its name may have changed since. */
  datatype Product = Product(id: Option<int>, name: string)

  function IdText(id: Option<int>): string {
    if id.None? then "x" else Decimal(id.value)
  }

  /** The `${productId ?? 'x'}:${productName}` key. */
  function ProductKey(p: Product): string { IdText(p.id) + ":" + p.name }

  lemma {:induction false} SplitAtColon(a: string, b: string, x: string, y: string)
    requires ':' !in a && ':' !in b && a + ":" + x == b + ":" + y
    ensures a == b && x == y
  {
    var s := a + ":" + x;
    assert s[|a|] == ':' && s[|b|] == ':';
    assert s[..|a|] == a && s[..|b|] == b && s[|a| + 1..] == x && s[|b| + 1..] == y;
  }

  /** Two different (id, name) pairs never share a key, whatever the names contain. */
  lemma ProductKeyIsInjective(p: Product, q: Product)
    requires ProductKey(p) == ProductKey(q)
    ensures p == q
  {
    SplitAtColon(IdText(p.id), IdText(q.id), p.name, q.name);
    if p.id.Some? && q.id.Some? {
      DecimalIsInjective(p.id.value, q.id.value);
    }
  }
}
