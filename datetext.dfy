/** Text of dates and counts: reading the feed's `dd/mm/yyyy` dates the way
    `pd.to_datetime(format='%d/%m/%Y')` does, reading counts the way
    `astype(int)` does, and writing the `YYYY/MM/DD` animation-frame key of
    `strftime('%Y/%m/%d')`. */
module DateText {
  import opened Wrappers
  import opened Calendar

  predicate IsDigit(c: char) {
    '0' <= c <= '9'
  }

  function DigitValue(c: char): (v: nat)
    requires IsDigit(c)
  {
    c as int - '0' as int
  }

  function Digit(v: nat): (c: char)
    requires v < 10
    ensures IsDigit(c) && DigitValue(c) == v
  {
    ('0' as int + v) as char
  }

  predicate AllDigits(s: string) {
    forall i :: 0 <= i < |s| ==> IsDigit(s[i])
  }

  /** The number a string of decimal digits denotes. */
  function DigitsValue(s: string): (v: nat)
    requires AllDigits(s)
  {
    if |s| == 0 then 0
    else DigitsValue(s[..|s| - 1]) * 10 + DigitValue(s[|s| - 1])
  }

  // ---------------------------------------------------------------- counts

  /** An optional sign and at least one decimal digit: the count texts
      Python's `int()` reads. */
  predicate CountSyntax(s: string) {
    |s| > 0 && (if s[0] == '-' || s[0] == '+' then |s| > 1 && AllDigits(s[1..]) else AllDigits(s))
  }

  /** The integer a count text denotes, before any width limit. */
  function SignedValue(s: string): (v: int)
    requires CountSyntax(s)
  {
    var v: int := if s[0] == '-' || s[0] == '+' then DigitsValue(s[1..]) else DigitsValue(s);
    if s[0] == '-' then -v else v
  }

  /** The values numpy's int64 holds. */
  predicate InInt64(v: int) {
    -0x8000_0000_0000_0000 <= v < 0x8000_0000_0000_0000
  }

  /** `astype(int)` on a count cell: the text is read as `int()` reads it and
      stored in an int64; text of another shape raises ValueError and a
      value outside int64 raises OverflowError, both modelled as None. */
  function ParseCount(s: string): (r: Option<int>)
    ensures r.Some? <==> CountSyntax(s) && InInt64(SignedValue(s))
    ensures r.Some? ==> r.value == SignedValue(s) && InInt64(r.value)
  {
    var v: Option<int> :=
      if |s| > 0 && (s[0] == '-' || s[0] == '+') then
        var body := s[1..];
        if |body| > 0 && AllDigits(body) then
          var n: int := DigitsValue(body);
          Some(if s[0] == '-' then -n else n)
        else None
      else if |s| > 0 && AllDigits(s) then Some(DigitsValue(s))
      else None;
    if v.Some? && InInt64(v.value) then v else None
  }

  /** Decimal digits of a natural number, without leading zeros. */
  function NatText(n: nat): (s: string)
    ensures |s| > 0 && AllDigits(s)
  {
    if n < 10 then [Digit(n)] else NatText(n / 10) + [Digit(n % 10)]
  }

  /** Decimal text of an integer, as the feed writes counts. */
  function CountText(n: int): (s: string)
  {
    if n < 0 then "-" + NatText(-n) else NatText(n)
  }

  lemma {:induction false} NatTextValue(n: nat)
    ensures DigitsValue(NatText(n)) == n
  {
    if n >= 10 {
      NatTextValue(n / 10);
      var s := NatText(n / 10) + [Digit(n % 10)];
      assert s[..|s| - 1] == NatText(n / 10);
    }
  }

  /** Every integer written in decimal reads back as itself when int64
      holds it, and overflows otherwise. */
  lemma CountRoundTrip(n: int)
    ensures ParseCount(CountText(n)) == if InInt64(n) then Some(n) else None
  {
    var s := CountText(n);
    if n < 0 {
      NatTextValue(-n);
      assert s[0] == '-' && s[1..] == NatText(-n);
      assert CountSyntax(s) && SignedValue(s) == n;
    } else {
      NatTextValue(n);
      assert IsDigit(s[0]);
      assert CountSyntax(s) && SignedValue(s) == n;
    }
  }

  // ---------------------------------------------------------- reading dates

  /** The first position at or after `from` holding c. */
  function IndexOf(s: string, c: char, from: nat): (r: Option<nat>)
    ensures r.Some? ==> from <= r.value < |s| && s[r.value] == c
    ensures r.Some? ==> forall i :: from <= i < r.value ==> s[i] != c
    ensures r.None? ==> forall i :: from <= i < |s| ==> s[i] != c
    decreases |s| - from
  {
    if from >= |s| then None
    else if s[from] == c then Some(from)
    else IndexOf(s, c, from + 1)
  }

  /** strptime's `%d`: `3[01]|[12]\d|0[1-9]|[1-9]| [1-9]`. */
  function DayToken(t: string): (r: Option<nat>)
    ensures r.Some? ==> 1 <= r.value <= 31
  {
    if |t| == 1 && '1' <= t[0] <= '9' then Some(DigitValue(t[0]))
    else if |t| == 2 && t[0] == ' ' && '1' <= t[1] <= '9' then Some(DigitValue(t[1]))
    else if |t| == 2 && t[0] == '0' && '1' <= t[1] <= '9' then Some(DigitValue(t[1]))
    else if |t| == 2 && (t[0] == '1' || t[0] == '2') && IsDigit(t[1]) then Some(10 * DigitValue(t[0]) + DigitValue(t[1]))
    else if |t| == 2 && t[0] == '3' && (t[1] == '0' || t[1] == '1') then Some(30 + DigitValue(t[1]))
    else None
  }

  /** strptime's `%m`: `1[0-2]|0[1-9]|[1-9]`. */
  function MonthToken(t: string): (r: Option<nat>)
    ensures r.Some? ==> 1 <= r.value <= 12
  {
    if |t| == 1 && '1' <= t[0] <= '9' then Some(DigitValue(t[0]))
    else if |t| == 2 && t[0] == '0' && '1' <= t[1] <= '9' then Some(DigitValue(t[1]))
    else if |t| == 2 && t[0] == '1' && '0' <= t[1] <= '2' then Some(10 + DigitValue(t[1]))
    else None
  }

  /** strptime's `%Y`: exactly four digits. */
  function YearToken(t: string): (r: Option<nat>)
    ensures r.Some? ==> r.value <= 9999
  {
    if |t| == 4 && AllDigits(t) then
      Some(1000 * DigitValue(t[0]) + 100 * DigitValue(t[1]) + 10 * DigitValue(t[2]) + DigitValue(t[3]))
    else None
  }

  /** The three `/`-separated fields of a date cell; the tokens hold no `/`,
      so the first two slashes end the day and month fields. */
  function Fields(s: string): (r: Option<(string, string, string)>)
  {
    match IndexOf(s, '/', 0)
    case None => None
    case Some(i) =>
      match IndexOf(s, '/', i + 1)
      case None => None
      case Some(j) => Some((s[..i], s[i + 1..j], s[j + 1..]))
  }

  /** The strptime step of `pd.to_datetime(cell, format='%d/%m/%Y')` at day
      precision: the day number of the date, or None where pandas raises
      (text not in the format, a day the month does not have, or a date
      outside the range of `Timestamp`). */
  function ParseDate(s: string): (r: Option<int>)
    ensures r.Some? ==> InTimestampRange(r.value)
    ensures r.Some? ==> exists d :: Valid(d) && Ordinal(d) == r.value
  {
    match Fields(s)
    case None => None
    case Some((dt, mt, yt)) =>
      match (DayToken(dt), MonthToken(mt), YearToken(yt))
      case (Some(d), Some(m), Some(y)) =>
        var date := Date(y, m, d);
        if Valid(date) && InTimestampRange(Ordinal(date)) then Some(Ordinal(date)) else None
      case _ => None
  }

  /** The spellings pandas reads as a missing date (its `nat_strings`). */
  predicate NaTText(s: string) {
    s == "NaT" || s == "nat" || s == "NAT" || s == "nan" || s == "NaN" || s == "NAN"
  }

  /** A converted date cell: a day number, or NaT. */
  datatype DateValue = Day(n: int) | NaT

  /** `pd.to_datetime(cell, format='%d/%m/%Y')`: NaT for the missing-date
      spellings, otherwise the parsed day, and None where pandas raises. */
  function ToDatetime(s: string): (r: Option<DateValue>)
    ensures r == Some(NaT) <==> NaTText(s)
    ensures r.None? <==> !NaTText(s) && ParseDate(s).None?
    ensures r.Some? && r.value.Day? ==> ParseDate(s) == Some(r.value.n) && InTimestampRange(r.value.n)
  {
    if NaTText(s) then Some(NaT)
    else
      match ParseDate(s)
      case None => None
      case Some(n) => Some(Day(n))
  }

  /** Two zero-padded digits of 0 .. 99. */
  function Pad2(v: nat): (s: string)
    requires v < 100
    ensures |s| == 2 && AllDigits(s)
  {
    [Digit(v / 10), Digit(v % 10)]
  }

  /** Four zero-padded digits of 0 .. 9999. */
  function Pad4(v: nat): (s: string)
    requires v < 10000
    ensures |s| == 4 && AllDigits(s)
  {
    Pad2(v / 100) + Pad2(v % 100)
  }

  /** The zero-padded `dd/mm/yyyy` text the feed writes for a date. */
  function FeedText(d: Date): (s: string)
    requires Valid(d) && d.year <= 9999
    ensures |s| == 10
  {
    Pad2(d.day) + "/" + Pad2(d.month) + "/" + Pad4(d.year)
  }

  /** Splitting a cell at its two slashes gives back its three fields. */
  lemma FieldsOf(a: string, b: string, c: string)
    requires '/' !in a && '/' !in b
    ensures Fields(a + "/" + b + "/" + c) == Some((a, b, c))
  {
    var s := a + "/" + b + "/" + c;
    assert forall i :: 0 <= i < |a| ==> s[i] == a[i];
    assert s[|a|] == '/';
    assert IndexOf(s, '/', 0) == Some(|a|);
    assert forall i :: |a| + 1 <= i < |a| + 1 + |b| ==> s[i] == b[i - |a| - 1];
    assert s[|a| + 1 + |b|] == '/';
    assert IndexOf(s, '/', |a| + 1) == Some(|a| + 1 + |b|);
    assert s[..|a|] == a;
    assert s[|a| + 1..|a| + 1 + |b|] == b;
    assert s[|a| + 2 + |b|..] == c;
  }

  lemma PaddedTokens(d: Date)
    requires Valid(d) && d.year <= 9999
    ensures DayToken(Pad2(d.day)) == Some(d.day)
    ensures MonthToken(Pad2(d.month)) == Some(d.month)
    ensures YearToken(Pad4(d.year)) == Some(d.year)
    ensures '/' !in Pad2(d.day) && '/' !in Pad2(d.month)
  {
    var y := Pad4(d.year);
    assert y[0] == Digit(d.year / 100 / 10) && y[1] == Digit(d.year / 100 % 10);
    assert y[2] == Digit(d.year % 100 / 10) && y[3] == Digit(d.year % 100 % 10);
  }

  /** The feed's own spelling of every date pandas can hold reads back as
      that date. */
  lemma FeedTextRoundTrip(d: Date)
    requires Valid(d) && InTimestampRange(Ordinal(d))
    ensures d.year <= 9999 && ParseDate(FeedText(d)) == Some(Ordinal(d))
  {
    FromOrdinalOfOrdinal(d);
    TimestampYears(Ordinal(d));
    PaddedTokens(d);
    FieldsOf(Pad2(d.day), Pad2(d.month), Pad4(d.year));
  }

  /** A cell in the feed's fixed shape: ten characters, `/` at positions 2
      and 5, ASCII digits elsewhere. */
  predicate Canonical(s: string) {
    |s| == 10 && s[2] == '/' && s[5] == '/'
    && forall i :: 0 <= i < 10 && i != 2 && i != 5 ==> IsDigit(s[i])
  }

  /** A canonical cell is its three fixed-width fields joined by slashes. */
  lemma CanonicalFields(s: string)
    requires Canonical(s)
    ensures AllDigits(s[..2]) && AllDigits(s[3..5]) && AllDigits(s[6..]) && |s[6..]| == 4
    ensures Fields(s) == Some((s[..2], s[3..5], s[6..]))
  {
    assert s == s[..2] + "/" + s[3..5] + "/" + s[6..];
    FieldsOf(s[..2], s[3..5], s[6..]);
  }

  /** A two-digit field is the padded spelling of its value. */
  lemma TwoDigits(t: string, v: nat)
    requires |t| == 2 && AllDigits(t) && v < 100
    requires v == 10 * DigitValue(t[0]) + DigitValue(t[1])
    ensures t == Pad2(v)
  {
  }

  lemma FourDigits(t: string, v: nat)
    requires |t| == 4 && AllDigits(t) && YearToken(t) == Some(v)
    ensures t == Pad4(v)
  {
    TwoDigits(t[..2], v / 100);
    TwoDigits(t[2..], v % 100);
    assert t == t[..2] + t[2..];
  }

  /** A canonical cell that parses is the feed's spelling of its date. */
  lemma CanonicalIsFeedText(s: string)
    requires Canonical(s) && ParseDate(s).Some?
    ensures 1 <= ParseDate(s).value
    ensures FromOrdinal(ParseDate(s).value).year <= 9999
    ensures s == FeedText(FromOrdinal(ParseDate(s).value))
  {
    CanonicalFields(s);
    var dt, mt, yt := s[..2], s[3..5], s[6..];
    var date := Date(YearToken(yt).value, MonthToken(mt).value, DayToken(dt).value);
    assert ParseDate(s) == Some(Ordinal(date));
    FromOrdinalOfOrdinal(date);
    TwoDigits(dt, date.day);
    TwoDigits(mt, date.month);
    FourDigits(yt, date.year);
    assert s == dt + "/" + mt + "/" + yt;
  }

  /** Two canonical cells that parse to the same day are the same text. */
  lemma CanonicalInjective(s: string, t: string)
    requires Canonical(s) && Canonical(t) && ParseDate(s).Some?
    ensures ParseDate(s) == ParseDate(t) <==> s == t
  {
    CanonicalIsFeedText(s);
    if ParseDate(t).Some? {
      CanonicalIsFeedText(t);
    }
  }

  /** A cell made of three tokens naming a Timestamp date parses to it. */
  lemma ParseOfTokens(a: string, b: string, c: string, date: Date)
    requires '/' !in a && '/' !in b
    requires DayToken(a) == Some(date.day) && MonthToken(b) == Some(date.month) && YearToken(c) == Some(date.year)
    requires Valid(date) && InTimestampRange(Ordinal(date))
    ensures ParseDate(a + "/" + b + "/" + c) == Some(Ordinal(date))
  {
    FieldsOf(a, b, c);
  }

  /** A cell that splits into fields is those fields joined by its first
      two slashes, and the first two fields hold no slash. */
  lemma FieldsJoin(s: string)
    requires Fields(s).Some?
    ensures var (a, b, c) := Fields(s).value;
      s == a + "/" + b + "/" + c && '/' !in a && '/' !in b
  {
    var i := IndexOf(s, '/', 0).value;
    var j := IndexOf(s, '/', i + 1).value;
    assert s == s[..i] + "/" + s[i + 1..j] + "/" + s[j + 1..];
  }

  /** The converse of ParseOfTokens: every text ParseDate accepts is a day,
      a month and a year token joined by two slashes naming a valid date in
      the Timestamp range, and it parses to that date; all other text is
      rejected. */
  lemma ParsedTextIsTokens(s: string)
    requires ParseDate(s).Some?
    ensures Fields(s).Some?
    ensures var (a, b, c) := Fields(s).value;
      s == a + "/" + b + "/" + c && '/' !in a && '/' !in b
      && DayToken(a).Some? && MonthToken(b).Some? && YearToken(c).Some?
      && var date := Date(YearToken(c).value, MonthToken(b).value, DayToken(a).value);
         Valid(date) && InTimestampRange(Ordinal(date)) && ParseDate(s) == Some(Ordinal(date))
  {
    FieldsJoin(s);
  }

  /** Without the canonical shape two different texts can name one day: a
      day of the month below 10 written without its leading zero reads as
      the same day as the feed's padded spelling. */
  lemma UnpaddedDaySameDate(d: Date)
    requires Valid(d) && InTimestampRange(Ordinal(d)) && d.day < 10
    ensures d.year <= 9999
    ensures [Digit(d.day)] + "/" + Pad2(d.month) + "/" + Pad4(d.year) != FeedText(d)
    ensures ParseDate([Digit(d.day)] + "/" + Pad2(d.month) + "/" + Pad4(d.year)) == ParseDate(FeedText(d)) == Some(Ordinal(d))
  {
    FeedTextRoundTrip(d);
    PaddedTokens(d);
    var u := [Digit(d.day)];
    assert DayToken(u) == Some(d.day);
    ParseOfTokens(u, Pad2(d.month), Pad4(d.year), d);
    assert |u + "/" + Pad2(d.month) + "/" + Pad4(d.year)| == 9;
  }

  // ---------------------------------------------------------- writing dates

  /** Python string comparison: lexicographic by character, a proper prefix
      coming first. */
  predicate LexLess(a: string, b: string)
    decreases |a|
  {
    if |a| == 0 then |b| > 0
    else if |b| == 0 then false
    else if a[0] != b[0] then a[0] < b[0]
    else LexLess(a[1..], b[1..])
  }

  /** `strftime('%Y/%m/%d')` of a date whose fields fit their widths. */
  function SlashedText(d: Date): (s: string)
    requires 0 <= d.year < 10000 && 0 <= d.month < 100 && 0 <= d.day < 100
    ensures |s| == 10
  {
    Pad4(d.year) + ("/" + (Pad2(d.month) + ("/" + Pad2(d.day))))
  }

  /** `strftime('%Y/%m/%d')` of day n: its year, month and day fields, read
      back in the feed's day-first order, name day n again. */
  function DateString(n: int): (s: string)
    requires InTimestampRange(n)
    ensures |s| == 10 && s[4] == '/' && s[7] == '/'
    ensures forall i | 0 <= i < 10 && i != 4 && i != 7 :: IsDigit(s[i])
    ensures ParseDate(s[8..] + "/" + s[5..7] + "/" + s[..4]) == Some(n)
  {
    TimestampYears(n);
    var d := FromOrdinal(n);
    var s := SlashedText(d);
    assert s[8..] == Pad2(d.day) && s[5..7] == Pad2(d.month) && s[..4] == Pad4(d.year);
    FeedTextRoundTrip(d);
    s
  }

  lemma {:induction false} LexConcat(p: string, q: string, p': string, q': string)
    requires |p| == |p'|
    ensures LexLess(p + q, p' + q') <==> LexLess(p, p') || (p == p' && LexLess(q, q'))
    decreases |p|
  {
    if |p| > 0 {
      assert (p + q)[0] == p[0] && (p' + q')[0] == p'[0];
      assert (p + q)[1..] == p[1..] + q;
      assert (p' + q')[1..] == p'[1..] + q';
      LexConcat(p[1..], q, p'[1..], q');
      if p[0] == p'[0] {
        assert p == p' <==> p[1..] == p'[1..];
      }
    } else {
      assert p + q == q && p' + q' == q';
    }
  }

  lemma Pad2Order(a: nat, b: nat)
    requires a < 100 && b < 100
    ensures LexLess(Pad2(a), Pad2(b)) <==> a < b
    ensures Pad2(a) == Pad2(b) <==> a == b
  {
    var s, t := Pad2(a), Pad2(b);
    assert s[1..] == [s[1]] && t[1..] == [t[1]];
    assert LexLess([s[1]], [t[1]]) <==> s[1] < t[1] by {
      assert [s[1]][1..] == [];
    }
    if s == t {
      assert s[0] == t[0] && s[1] == t[1];
    }
  }

  lemma Pad4Order(a: nat, b: nat)
    requires a < 10000 && b < 10000
    ensures LexLess(Pad4(a), Pad4(b)) <==> a < b
    ensures Pad4(a) == Pad4(b) <==> a == b
  {
    LexConcat(Pad2(a / 100), Pad2(a % 100), Pad2(b / 100), Pad2(b % 100));
    Pad2Order(a / 100, b / 100);
    Pad2Order(a % 100, b % 100);
    if Pad4(a) == Pad4(b) {
      assert Pad4(a)[..2] == Pad2(a / 100) && Pad4(b)[..2] == Pad2(b / 100);
      assert Pad4(a)[2..] == Pad2(a % 100) && Pad4(b)[2..] == Pad2(b % 100);
    }
  }

  /** Year, month and day written at fixed widths sort as text exactly as
      the dates sort, and distinct dates are written differently. */
  lemma SlashedTextOrder(a: Date, b: Date)
    requires 0 <= a.year < 10000 && 0 <= a.month < 100 && 0 <= a.day < 100
    requires 0 <= b.year < 10000 && 0 <= b.month < 100 && 0 <= b.day < 100
    ensures LexLess(SlashedText(a), SlashedText(b)) <==> Before(a, b)
    ensures SlashedText(a) == SlashedText(b) <==> a == b
  {
    Pad4Order(a.year, b.year);
    Pad2Order(a.month, b.month);
    Pad2Order(a.day, b.day);
    var sa := "/" + Pad2(a.day);
    var sb := "/" + Pad2(b.day);
    LexConcat("/", Pad2(a.day), "/", Pad2(b.day));
    assert !LexLess("/", "/");
    var ma := "/" + (Pad2(a.month) + sa);
    var mb := "/" + (Pad2(b.month) + sb);
    LexConcat(Pad2(a.month), sa, Pad2(b.month), sb);
    LexConcat("/", Pad2(a.month) + sa, "/", Pad2(b.month) + sb);
    LexConcat(Pad4(a.year), ma, Pad4(b.year), mb);
    if SlashedText(a) == SlashedText(b) {
      var s, t := SlashedText(a), SlashedText(b);
      assert s[..4] == Pad4(a.year) && t[..4] == Pad4(b.year);
      assert s[5..7] == Pad2(a.month) && t[5..7] == Pad2(b.month);
      assert s[8..] == Pad2(a.day) && t[8..] == Pad2(b.day);
    }
  }

  /** Frame keys sort as text exactly as their days sort in time, and each
      day has its own key. */
  lemma DateStringOrder(m: int, n: int)
    requires InTimestampRange(m) && InTimestampRange(n)
    ensures LexLess(DateString(m), DateString(n)) <==> m < n
    ensures DateString(m) == DateString(n) <==> m == n
  {
    TimestampYears(m);
    TimestampYears(n);
    var a, b := FromOrdinal(m), FromOrdinal(n);
    SlashedTextOrder(a, b);
    OrdinalOrder(a, b);
  }
}
