/** Receipt timestamps and file names of cli/src/receipts.rs, and the order in which they sort. */
module ReceiptNames {
  import opened Sequences
  import opened Calendar

  // ----- decimal formatting -----

  function Digit(n: nat): char
    requires n < 10
  {
    '0' + (n as char)
  }

  function Decimal(n: nat): string {
    if n < 10 then [Digit(n)] else Decimal(n / 10) + [Digit(n % 10)]
  }

  function Zeros(k: nat): string {
    if k == 0 then "" else "0" + Zeros(k - 1)
  }

  /** `{n:0w}`: at least `w` digits. */
  function Pad(n: nat, w: nat): string {
    var s := Decimal(n);
    if |s| < w then Zeros(w - |s|) + s else s
  }

  /** The last `w` digits. */
  function Fixed(n: nat, w: nat): (s: string)
    ensures |s| == w
  {
    if w == 0 then "" else Fixed(n / 10, w - 1) + [Digit(n % 10)]
  }

  function Pow10(w: nat): nat {
    if w == 0 then 1 else 10 * Pow10(w - 1)
  }

  lemma {:induction false} FixedZero(w: nat)
    ensures Fixed(0, w) == Zeros(w)
  {
    if w > 0 {
      FixedZero(w - 1);
      ZerosSnoc(w - 1);
    }
  }

  lemma {:induction false} ZerosSnoc(k: nat)
    ensures Zeros(k) + "0" == "0" + Zeros(k) && |Zeros(k)| == k
  {
    if k > 0 {
      ZerosSnoc(k - 1);
      assert "0" + Zeros(k - 1) + "0" == "0" + (Zeros(k - 1) + "0");
    }
  }

  /** A number that fits is padded to exactly `w` digits. */
  lemma PadDigit(n: nat, w: nat)
    requires n < 10 && w > 0
    ensures Pad(n, w) == Fixed(n, w)
  {
    FixedZero(w - 1);
    ZerosSnoc(w - 1);
  }

  lemma PadMore(n: nat, w: nat)
    requires n >= 10 && w > 1 && Pad(n / 10, w - 1) == Fixed(n / 10, w - 1)
    ensures Pad(n, w) == Fixed(n, w)
  {
    var s := Decimal(n / 10);
    if |s| < w - 1 {
      Assoc(Zeros(w - 1 - |s|), s, [Digit(n % 10)]);
    }
  }

  lemma {:induction false} PadFits(n: nat, w: nat)
    requires n < Pow10(w) && w > 0
    ensures Pad(n, w) == Fixed(n, w)
    decreases w
  {
    if n < 10 {
      PadDigit(n, w);
    } else {
      PadFits(n / 10, w - 1);
      PadMore(n, w);
    }
  }

  lemma {:induction false} Pow10Rises(v: nat, w: nat)
    requires v <= w
    ensures 0 < Pow10(v) <= Pow10(w)
    decreases w
  {
    if v < w {
      Pow10Rises(v, w - 1);
    } else if w > 0 {
      Pow10Rises(w - 1, w - 1);
    }
  }

  /** A number has w digits when it lies between the powers of ten. */
  lemma {:induction false} DecimalWidth(n: nat)
    ensures |Decimal(n)| > 0 && n < Pow10(|Decimal(n)|) && (n > 0 ==> Pow10(|Decimal(n)| - 1) <= n)
  {
    if n >= 10 {
      DecimalWidth(n / 10);
    }
  }

  /** How many digits a year is written with. */
  function YearWidth(y: nat): nat {
    if y < 10000 then 4 else 1 + YearWidth(y / 10)
  }

  lemma {:induction false} YearWidthIs(y: nat)
    requires y >= 1000
    ensures YearWidth(y) == |Decimal(y)|
  {
    if y >= 10000 {
      YearWidthIs(y / 10);
    } else {
      assert |Decimal(y / 1000)| == 1;
      assert |Decimal(y / 100)| == 2;
      assert |Decimal(y / 10)| == 3;
    }
  }

  lemma YearText(y: nat)
    ensures YearWidth(y) >= 4 && y < Pow10(YearWidth(y)) && Pad(y, 4) == Fixed(y, YearWidth(y))
  {
    Widths();
    if y < 10000 {
      PadFits(y, 4);
    } else {
      DecimalWidth(y);
      YearWidthIs(y);
      var w := |Decimal(y)|;
      if w <= 4 {
        Pow10Rises(w, 4);
      }
      PadFits(y, w);
    }
  }

  /** Later years are not written shorter. */
  lemma {:induction false} WidthRises(y: nat, z: nat)
    requires y <= z
    ensures YearWidth(y) <= YearWidth(z)
  {
    YearText(z);
    if y >= 10000 {
      WidthRises(y / 10, z / 10);
    }
  }

  lemma Widths()
    ensures Pow10(2) == 100 && Pow10(4) == 10000
  {
    assert Pow10(1) == 10;
    assert Pow10(3) == 10 * Pow10(2);
  }

  /** A number without its last k digits. */
  function Dropped(n: nat, k: nat): nat
    decreases k
  {
    if k == 0 then n else Dropped(n / 10, k - 1)
  }

  lemma {:induction false} FixedSplit(n: nat, w: nat, k: nat)
    ensures Fixed(n, w + k) == Fixed(Dropped(n, k), w) + Fixed(n, k)
    decreases k
  {
    if k == 0 {
      assert Fixed(n, w) + "" == Fixed(n, w);
    } else {
      FixedSplit(n / 10, w, k - 1);
      Assoc(Fixed(Dropped(n, k), w), Fixed(n / 10, k - 1), [Digit(n % 10)]);
    }
  }

  lemma {:induction false} DroppedFits(n: nat, w: nat, k: nat)
    requires n < Pow10(w + k)
    ensures Dropped(n, k) < Pow10(w)
    decreases k
  {
    if k > 0 {
      DroppedFits(n / 10, w, k - 1);
    }
  }

  lemma OneMore(a: nat, w: nat, b: nat)
    requires b < 10
    ensures Fixed(a, w) + [Digit(b)] == Fixed(10 * a + b, w + 1)
  {
  }

  lemma TwoDigits(b: nat)
    requires b < 100
    ensures Fixed(b, 2) == [Digit(b / 10)] + [Digit(b % 10)]
  {
    OneMore(0, 0, b / 10);
    OneMore(b / 10, 1, b % 10);
    assert Fixed(0, 0) + [Digit(b / 10)] == [Digit(b / 10)];
  }

  /** Appending a two-digit field. */
  lemma TwoMore(a: nat, w: nat, b: nat)
    requires b < 100
    ensures Fixed(a, w) + Fixed(b, 2) == Fixed(100 * a + b, w + 2)
  {
    TwoDigits(b);
    Assoc(Fixed(a, w), [Digit(b / 10)], [Digit(b % 10)]);
    OneMore(a, w, b / 10);
    OneMore(10 * a + b / 10, w + 1, b % 10);
  }

  // ----- lexicographic order -----

  predicate LexLess(a: string, b: string) {
    b != "" && (a == "" || a[0] < b[0] || (a[0] == b[0] && LexLess(a[1..], b[1..])))
  }

  lemma {:induction false} LexPrefix(p: string, a: string, b: string)
    requires LexLess(a, b)
    ensures LexLess(p + a, p + b)
  {
    if p == "" {
      assert p + a == a && p + b == b;
    } else {
      LexPrefix(p[1..], a, b);
      assert (p + a)[1..] == p[1..] + a && (p + b)[1..] == p[1..] + b;
    }
  }

  lemma {:induction false} LexExtend(a: string, b: string, x: string, y: string)
    requires |a| == |b| && LexLess(a, b)
    ensures LexLess(a + x, b + y)
  {
    if a[0] == b[0] {
      assert (a + x)[1..] == a[1..] + x && (b + y)[1..] == b[1..] + y;
      if LexLess(a[1..], b[1..]) {
        LexExtend(a[1..], b[1..], x, y);
      }
    }
  }

  lemma {:induction false} LexAsymmetric(a: string, b: string)
    requires LexLess(a, b)
    ensures !LexLess(b, a)
  {
    if a != "" && a[0] == b[0] {
      LexAsymmetric(a[1..], b[1..]);
    }
  }

  /** Equal-width numbers sort as numbers. */
  lemma {:induction false} FixedOrder(a: nat, b: nat, w: nat)
    requires a < b < Pow10(w)
    ensures LexLess(Fixed(a, w), Fixed(b, w))
    decreases w
  {
    if a / 10 < b / 10 {
      FixedOrder(a / 10, b / 10, w - 1);
      LexExtend(Fixed(a / 10, w - 1), Fixed(b / 10, w - 1), [Digit(a % 10)], [Digit(b % 10)]);
    } else {
      assert LexLess([Digit(a % 10)], [Digit(b % 10)]);
      LexPrefix(Fixed(a / 10, w - 1), [Digit(a % 10)], [Digit(b % 10)]);
    }
  }

  // ----- timestamps -----

  /** Hours, minutes and seconds of a second of the day, read as one number of six digits. */
  function TimeNumber(ofDay: nat): nat {
    (100 * (ofDay / 3600) + ofDay % 3600 / 60) * 100 + ofDay % 60
  }

  lemma ClockFields(x: nat)
    requires x < 86400
    ensures x / 3600 < 24 && x % 3600 / 60 < 60 && x == 3600 * (x / 3600) + 60 * (x % 3600 / 60) + x % 60
  {
    var h, r := x / 3600, x % 3600;
    Quotient(x, 60, 60 * h + r / 60);
  }

  lemma ClockOrder(h: nat, m: nat, s: nat, h': nat, m': nat, s': nat)
    requires m < 60 && s < 60 && m' < 60 && s' < 60 && 3600 * h + 60 * m + s < 3600 * h' + 60 * m' + s'
    ensures 10000 * h + 100 * m + s < 10000 * h' + 100 * m' + s'
  {
    if h == h' && m < m' {
      assert 100 * m + 100 <= 100 * m';
    }
  }

  lemma TimeOrder(x: nat, y: nat)
    requires x < y < 86400
    ensures TimeNumber(x) < TimeNumber(y) < 1000000
  {
    ClockFields(x);
    ClockFields(y);
    ClockOrder(x / 3600, x % 3600 / 60, x % 60, y / 3600, y % 3600 / 60, y % 60);
  }

  /** Year, month and day, read as one number of eight digits. */
  function DateNumber(date: Date): int {
    (100 * date.y + date.m) * 100 + date.d
  }

  lemma DateOrder(a: Date, b: Date)
    requires ValidDate(a) && ValidDate(b) && Earlier(a, b)
    ensures DateNumber(a) < DateNumber(b)
  {
  }

  /** `{y:04}` of a signed year: the sign counts toward the width. */
  function PadYear(y: int): string {
    if y >= 0 then Pad(y, 4) else "-" + Pad(-y, 3)
  }

  /** The date and the time of day as a timestamp writes them. */
  function DayText(date: Date): string
    requires ValidDate(date)
  {
    PadYear(date.y) + "-" + Pad(date.m, 2) + "-" + Pad(date.d, 2)
  }

  function ClockText(ofDay: nat): string {
    Pad(ofDay / 3600, 2) + ":" + Pad(ofDay % 3600 / 60, 2) + ":" + Pad(ofDay % 60, 2)
  }

  /** `YYYY-MM-DDTHH:MM:SSZ`, the `date-time` of RFC 3339 section 5.6 in UTC. */
  function Iso(date: Date, ofDay: nat): string
    requires ValidDate(date)
  {
    DayText(date) + "T" + ClockText(ofDay) + "Z"
  }

  // ----- the stamp of `save`: a chain of string replacements -----

  /** `s.replace(c, "")`. */
  function Without(s: string, c: char): string {
    if s == "" then "" else (if s[0] == c then "" else [s[0]]) + Without(s[1..], c)
  }

  /** `s.replace(c, "d")`. */
  function Swap(s: string, c: char, d: char): string {
    if s == "" then "" else [if s[0] == c then d else s[0]] + Swap(s[1..], c, d)
  }

  /** `s.split(c).next()`. */
  function Before(s: string, c: char): string {
    if s == "" || s[0] == c then "" else [s[0]] + Before(s[1..], c)
  }

  /** `s.trim_end_matches(c)`. */
  function TrimEnd(s: string, c: char): string {
    if s == "" || s[|s| - 1] != c then s else TrimEnd(s[..|s| - 1], c)
  }

  function Stamp(iso: string): string {
    TrimEnd(Before(Swap(Without(Without(iso, ':'), '-'), 'T', '-'), '.'), 'Z')
  }

  function FileName(iso: string, id: string): string {
    Stamp(iso) + "-" + id + ".json"
  }

  /** The three replacements, a character at a time. */
  function SqueezeChar(c: char): string {
    if c == ':' || c == '-' then "" else if c == 'T' then "-" else [c]
  }

  function Squeeze(s: string): string {
    if s == "" then "" else SqueezeChar(s[0]) + Squeeze(s[1..])
  }

  lemma ConsTail(c: char, s: string)
    ensures ([c] + s)[1..] == s && ([c] + s)[0] == c && "" + s == s
  {
  }

  lemma {:induction false} SqueezeIs(s: string)
    ensures Swap(Without(Without(s, ':'), '-'), 'T', '-') == Squeeze(s)
  {
    if s != "" {
      SqueezeIs(s[1..]);
      var c, rest := s[0], Without(s[1..], ':');
      var more := Without(rest, '-');
      ConsTail(c, rest);
      ConsTail(c, more);
      ConsTail(c, Squeeze(s[1..]));
      if c == ':' {
        assert Without(s, ':') == rest;
      } else if c == '-' {
        assert Without(s, ':') == [c] + rest;
        assert Without([c] + rest, '-') == more;
      } else {
        assert Without(s, ':') == [c] + rest;
        assert Without([c] + rest, '-') == [c] + more;
        assert Swap([c] + more, 'T', '-') == [if c == 'T' then '-' else c] + Swap(more, 'T', '-');
      }
    }
  }

  lemma {:induction false} SqueezeAppend(a: string, b: string)
    ensures Squeeze(a + b) == Squeeze(a) + Squeeze(b)
  {
    if a == "" {
      assert a + b == b;
      assert Squeeze(a) + Squeeze(b) == Squeeze(b);
    } else {
      SqueezeAppend(a[1..], b);
      assert (a + b)[0] == a[0] && (a + b)[1..] == a[1..] + b;
      Assoc(SqueezeChar(a[0]), Squeeze(a[1..]), Squeeze(b));
    }
  }

  predicate AllDigits(s: string) {
    forall i :: 0 <= i < |s| ==> '0' <= s[i] <= '9'
  }

  lemma {:induction false} FixedDigits(n: nat, w: nat)
    ensures AllDigits(Fixed(n, w))
  {
    if w > 0 {
      FixedDigits(n / 10, w - 1);
    }
  }

  lemma {:induction false} SqueezeDigits(s: string)
    requires AllDigits(s)
    ensures Squeeze(s) == s
  {
    if s != "" {
      SqueezeDigits(s[1..]);
    }
  }

  lemma {:induction false} BeforeAbsent(s: string, c: char)
    requires c !in s
    ensures Before(s, c) == s
  {
    if s != "" {
      assert s[0] in s;
      BeforeAbsent(s[1..], c);
    }
  }

  /** A field of fixed width goes through the replacements unchanged; what follows it is squeezed. */
  lemma SqueezeField(p: string, q: string, n: nat, w: nat, sep: string)
    requires Squeeze(p) == q
    ensures Squeeze(p + Fixed(n, w) + sep) == q + Fixed(n, w) + Squeeze(sep)
  {
    SqueezeAppend(p, Fixed(n, w));
    SqueezeAppend(p + Fixed(n, w), sep);
    FixedDigits(n, w);
    SqueezeDigits(Fixed(n, w));
  }

  lemma SqueezeSeparators()
    ensures Squeeze("") == "" && Squeeze("-") == "" && Squeeze(":") == "" && Squeeze("T") == "-" && Squeeze("Z") == "Z"
  {
    assert "-"[1..] == "" && ":"[1..] == "" && "T"[1..] == "" && "Z"[1..] == "";
  }

  lemma TwoFields(p: string, q: string, a: nat, b: nat, sep: string)
    requires Squeeze(sep) == "" && Squeeze(p) == q
    ensures Squeeze(p + Fixed(a, 2) + sep + Fixed(b, 2)) == q + Fixed(a, 2) + Fixed(b, 2)
  {
    SqueezeField(p, q, a, 2, sep);
    assert q + Fixed(a, 2) + "" == q + Fixed(a, 2);
    SqueezeField(p + Fixed(a, 2) + sep, q + Fixed(a, 2), b, 2, "");
    assert p + Fixed(a, 2) + sep + Fixed(b, 2) + "" == p + Fixed(a, 2) + sep + Fixed(b, 2);
    assert q + Fixed(a, 2) + Fixed(b, 2) + Squeeze("") == q + Fixed(a, 2) + Fixed(b, 2);
  }

  lemma FirstField(n: nat, w: nat, sep: string)
    requires Squeeze(sep) == ""
    ensures Squeeze(Fixed(n, w) + sep) == Fixed(n, w)
  {
    SqueezeAppend(Fixed(n, w), sep);
    FixedDigits(n, w);
    SqueezeDigits(Fixed(n, w));
    Empties(Fixed(n, w));
  }

  lemma ThreeFields(a: nat, w: nat, b: nat, c: nat, sep: string, n: nat)
    requires b < 100 && c < 100 && Squeeze(sep) == "" && n == (100 * a + b) * 100 + c
    ensures Squeeze(Fixed(a, w) + sep + Fixed(b, 2) + sep + Fixed(c, 2)) == Fixed(n, w + 4)
  {
    FirstField(a, w, sep);
    TwoFields(Fixed(a, w) + sep, Fixed(a, w), b, c, sep);
    TwoMore(a, w, b);
    TwoMore(100 * a + b, w + 2, c);
  }

  lemma DayFields(date: Date)
    requires ValidDate(date) && date.y >= 0
    ensures DayText(date) == Fixed(date.y, YearWidth(date.y)) + "-" + Fixed(date.m, 2) + "-" + Fixed(date.d, 2)
  {
    YearText(date.y);
    Widths();
    PadFits(date.m, 2);
    PadFits(date.d, 2);
  }

  lemma DaySqueezed(date: Date)
    requires ValidDate(date) && date.y >= 0
    ensures DateNumber(date) >= 0 && Squeeze(DayText(date)) == Fixed(DateNumber(date), YearWidth(date.y) + 4)
  {
    DayFields(date);
    SqueezeSeparators();
    ThreeFields(date.y, YearWidth(date.y), date.m, date.d, "-", DateNumber(date));
  }

  lemma ClockParts(ofDay: nat)
    requires ofDay < 86400
    ensures
      var h, m, s := ofDay / 3600, ofDay % 3600 / 60, ofDay % 60;
      m < 60 && ClockText(ofDay) == Fixed(h, 2) + ":" + Fixed(m, 2) + ":" + Fixed(s, 2)
  {
    ClockFields(ofDay);
    Widths();
    PadFits(ofDay / 3600, 2);
    PadFits(ofDay % 3600 / 60, 2);
    PadFits(ofDay % 60, 2);
  }

  lemma ClockSqueezed(ofDay: nat)
    requires ofDay < 86400
    ensures Squeeze(ClockText(ofDay)) == Fixed(TimeNumber(ofDay), 6)
  {
    ClockParts(ofDay);
    SqueezeSeparators();
    ThreeFields(ofDay / 3600, 2, ofDay % 3600 / 60, ofDay % 60, ":", TimeNumber(ofDay));
  }

  lemma TrimOne(body: string, tail: string)
    requires AllDigits(tail) && tail != ""
    ensures TrimEnd(body + tail + "Z", 'Z') == body + tail
  {
    var s := body + tail;
    assert (s + "Z")[..|s|] == s;
    assert s[|s| - 1] == tail[|tail| - 1];
    assert TrimEnd(s, 'Z') == s;
  }

  lemma IsoSqueezed(day: string, clock: string)
    ensures Squeeze(day + "T" + clock + "Z") == Squeeze(day) + "-" + Squeeze(clock) + "Z"
  {
    SqueezeSeparators();
    SqueezeAppend(day + "T" + clock, "Z");
    SqueezeAppend(day + "T", clock);
    SqueezeAppend(day, "T");
  }

  lemma NoDot(a: string, b: string)
    requires AllDigits(a) && AllDigits(b)
    ensures '.' !in a + "-" + b + "Z"
  {
  }

  /** The stamp: date number, dash, time number. */
  lemma StampOf(date: Date, ofDay: nat)
    requires ValidDate(date) && date.y >= 0 && ofDay < 86400
    ensures DateNumber(date) >= 0
    ensures Stamp(Iso(date, ofDay))
         == Fixed(DateNumber(date), YearWidth(date.y) + 4) + "-" + Fixed(TimeNumber(ofDay), 6)
  {
    SqueezeIs(Iso(date, ofDay));
    IsoSqueezed(DayText(date), ClockText(ofDay));
    DaySqueezed(date);
    ClockSqueezed(ofDay);
    var head, tail := Fixed(DateNumber(date), YearWidth(date.y) + 4), Fixed(TimeNumber(ofDay), 6);
    FixedDigits(DateNumber(date), YearWidth(date.y) + 4);
    FixedDigits(TimeNumber(ofDay), 6);
    NoDot(head, tail);
    BeforeAbsent(head + "-" + tail + "Z", '.');
    TrimOne(head + "-", tail);
  }

  // ----- names sort by time -----

  /** The timestamp of a number of seconds since the epoch. */
  function TimestampOf(secs: nat): (iso: string)
    requires ValidDate(YmdFromEpochDays(secs / 86400))
  {
    Iso(YmdFromEpochDays(secs / 86400), secs % 86400)
  }

  /** The date, in UTC, of a number of seconds since the epoch. */
  function DateOf(secs: nat): Date {
    CivilFromDays(secs / 86400)
  }

  /** The year fits the 32 bits the source gives it. */
  predicate YearFits(secs: nat) {
    DateOf(secs).y < 0x8000_0000
  }

  lemma YearsFrom1970(days: nat)
    ensures CivilFromDays(days).y >= 1970
  {
    EpochIs1970();
    if days > 0 {
      ConversionMonotone(0, days);
    }
  }

  lemma DateOfSecond(secs: nat)
    requires YearFits(secs)
    ensures ValidDate(DateOf(secs)) && DateOf(secs).y >= 1970 && DateOf(secs) == YmdFromEpochDays(secs / 86400)
  {
    CivilIsValid(secs / 86400);
    NarrowingExact(CivilFromDays(secs / 86400));
    YearsFrom1970(secs / 86400);
  }

  lemma TimestampIs(secs: nat)
    requires YearFits(secs)
    ensures ValidDate(DateOf(secs)) && DateOf(secs).y >= 0 && ValidDate(YmdFromEpochDays(secs / 86400))
    ensures TimestampOf(secs) == Iso(DateOf(secs), secs % 86400)
  {
    DateOfSecond(secs);
  }

  lemma SixDigits()
    ensures Pow10(6) == 1000000
  {
    Widths();
    assert Pow10(5) == 10 * Pow10(4);
  }

  lemma DateNumberFits(date: Date)
    requires ValidDate(date) && date.y >= 0
    ensures 0 <= DateNumber(date) < Pow10(YearWidth(date.y) + 4)
  {
    var w := YearWidth(date.y);
    YearText(date.y);
    assert Pow10(w + 1) == 10 * Pow10(w);
    assert Pow10(w + 2) == 10 * Pow10(w + 1);
    assert Pow10(w + 3) == 10 * Pow10(w + 2);
    assert Pow10(w + 4) == 10 * Pow10(w + 3);
  }

  lemma DigitsFollowed(n: nat, k: nat, y: string)
    requires k > 0
    ensures |Fixed(n, k) + y| > 0 && '0' <= (Fixed(n, k) + y)[0] <= '9'
  {
    FixedDigits(n, k);
    assert (Fixed(n, k) + y)[0] == Fixed(n, k)[0];
  }

  /** A number followed by a dash sorts before a longer one just when it is no larger than that one's leading
      digits. */
  lemma LongerNumber(d: nat, e: nat, n: nat, k: nat, x: string, y: string)
    requires k > 0 && d < Pow10(n) && e < Pow10(n + k)
    ensures LexLess(Fixed(d, n) + ("-" + x), Fixed(e, n + k) + y) <==> d <= Dropped(e, k)
  {
    var lead := Dropped(e, k);
    FixedSplit(e, n, k);
    DroppedFits(e, n, k);
    Assoc(Fixed(lead, n), Fixed(e, k), y);
    var rest := Fixed(e, k) + y;
    if d < lead {
      FixedOrder(d, lead, n);
      LexExtend(Fixed(d, n), Fixed(lead, n), "-" + x, rest);
    } else if d == lead {
      DigitsFollowed(e, k, y);
      assert ("-" + x)[0] == '-';
      LexPrefix(Fixed(d, n), "-" + x, rest);
    } else {
      FixedOrder(lead, d, n);
      LexExtend(Fixed(lead, n), Fixed(d, n), rest, "-" + x);
      LexAsymmetric(Fixed(lead, n) + rest, Fixed(d, n) + ("-" + x));
    }
  }

  lemma SameWidthNumbers(d: nat, t: nat, e: nat, u: nat, n: nat, x: string, y: string)
    requires (d < e < Pow10(n)) || (d == e && t < u < Pow10(6))
    ensures LexLess(Fixed(d, n) + ("-" + Fixed(t, 6) + x), Fixed(e, n) + ("-" + Fixed(u, 6) + y))
  {
    if d == e {
      FixedOrder(t, u, 6);
      LexExtend(Fixed(t, 6), Fixed(u, 6), x, y);
      LexPrefix("-", Fixed(t, 6) + x, Fixed(u, 6) + y);
      Assoc("-", Fixed(t, 6), x);
      Assoc("-", Fixed(u, 6), y);
      LexPrefix(Fixed(d, n), "-" + Fixed(t, 6) + x, "-" + Fixed(u, 6) + y);
    } else {
      FixedOrder(d, e, n);
      LexExtend(Fixed(d, n), Fixed(e, n), "-" + Fixed(t, 6) + x, "-" + Fixed(u, 6) + y);
    }
  }

  /** What a file name is made of: date number, dash, time number, and the id. */
  function NumbersText(d: nat, w: nat, t: nat, id: string): string {
    Fixed(d, w) + ("-" + Fixed(t, 6) + ("-" + id + ".json"))
  }

  function NameText(date: Date, ofDay: nat, id: string): string
    requires ValidDate(date) && date.y >= 0
  {
    NumbersText(DateNumber(date), YearWidth(date.y) + 4, TimeNumber(ofDay), id)
  }

  lemma NameOf(date: Date, ofDay: nat, id: string)
    requires ValidDate(date) && date.y >= 0 && ofDay < 86400
    ensures FileName(Iso(date, ofDay), id) == NameText(date, ofDay, id)
  {
    StampOf(date, ofDay);
    NameParts(Stamp(Iso(date, ofDay)), Fixed(DateNumber(date), YearWidth(date.y) + 4), Fixed(TimeNumber(ofDay), 6), id);
  }

  lemma NameParts(stamp: string, d: string, t: string, id: string)
    requires stamp == d + "-" + t
    ensures stamp + "-" + id + ".json" == d + ("-" + t + ("-" + id + ".json"))
  {
  }

  lemma NumbersIff(d: nat, t: nat, e: nat, u: nat, n: nat, k: nat, x: string, y: string)
    requires d < Pow10(n) && e < Pow10(n + k) && (k == 0 ==> d < e || (d == e && t < u < Pow10(6)))
    ensures LexLess(Fixed(d, n) + ("-" + Fixed(t, 6) + x), Fixed(e, n + k) + ("-" + Fixed(u, 6) + y))
       <==> d <= Dropped(e, k)
  {
    if k > 0 {
      Assoc("-", Fixed(t, 6), x);
      LongerNumber(d, e, n, k, Fixed(t, 6) + x, "-" + Fixed(u, 6) + y);
    } else {
      SameWidthNumbers(d, t, e, u, n, x, y);
    }
  }

  lemma MomentNumbers(p: Date, a: nat, q: Date, b: nat)
    requires ValidDate(p) && ValidDate(q) && a < 86400 && b < 86400 && (Earlier(p, q) || (p == q && a < b))
    ensures DateNumber(p) < DateNumber(q) || (DateNumber(p) == DateNumber(q)
            && TimeNumber(a) < TimeNumber(b) < Pow10(6))
    ensures p.y <= q.y
  {
    SixDigits();
    if p == q {
      TimeOrder(a, b);
    } else {
      DateOrder(p, q);
    }
  }

  lemma MomentsFit(p: Date, a: nat, q: Date, b: nat)
    requires ValidDate(p) && ValidDate(q) && p.y >= 0 && q.y >= 0 && a < 86400 && b < 86400
    requires Earlier(p, q) || (p == q && a < b)
    ensures YearWidth(p.y) <= YearWidth(q.y)
    ensures 0 <= DateNumber(p) < Pow10(YearWidth(p.y) + 4) && 0 <= DateNumber(q) < Pow10(YearWidth(q.y) + 4)
    ensures DateNumber(p) < DateNumber(q) || (DateNumber(p) == DateNumber(q)
            && TimeNumber(a) < TimeNumber(b) < Pow10(6))
  {
    MomentNumbers(p, a, q, b);
    WidthRises(p.y, q.y);
    DateNumberFits(p);
    DateNumberFits(q);
  }

  lemma NumberedIff(d: nat, t: nat, e: nat, u: nat, v: nat, w: nat, x: string, y: string)
    requires v <= w && d < Pow10(v + 4) && e < Pow10(w + 4) && (d < e || (d == e && t < u < Pow10(6)))
    ensures LexLess(NumbersText(d, v + 4, t, x), NumbersText(e, w + 4, u, y)) <==> d <= Dropped(e, w - v)
  {
    NumbersIff(d, t, e, u, v + 4, w - v, "-" + x + ".json", "-" + y + ".json");
  }

  /** The condition under which the name of an earlier date sorts before that of a later one. */
  predicate Sortable(p: Date, q: Date) {
    p.y >= 0 && q.y >= 0 && YearWidth(p.y) <= YearWidth(q.y) && DateNumber(p) >= 0 && DateNumber(q) >= 0
    && DateNumber(p) <= Dropped(DateNumber(q), YearWidth(q.y) - YearWidth(p.y))
  }

  /** The numbers by which a moment is named, and the width of its year. */
  ghost predicate Numbered(p: Date, a: nat, d: nat, t: nat, v: nat) {
    ValidDate(p) && p.y >= 0 && d == DateNumber(p) && t == TimeNumber(a) && v == YearWidth(p.y)
  }

  lemma SortableTie(p: Date, a: nat, d: nat, t: nat, v: nat, q: Date, b: nat, e: nat, u: nat, w: nat)
    requires Numbered(p, a, d, t, v) && Numbered(q, b, e, u, w) && v <= w
    ensures Sortable(p, q) <==> d <= Dropped(e, w - v)
  {
  }

  lemma NameTie(p: Date, a: nat, d: nat, t: nat, v: nat, x: string)
    requires Numbered(p, a, d, t, v)
    ensures NameText(p, a, x) == NumbersText(d, v + 4, t, x)
  {
  }

  lemma MomentsIff(
    p: Date, a: nat, d: nat, t: nat, v: nat, x: string, q: Date, b: nat, e: nat, u: nat, w: nat, y: string)
    requires Numbered(p, a, d, t, v) && Numbered(q, b, e, u, w)
    requires v <= w && d < Pow10(v + 4) && e < Pow10(w + 4) && (d < e || (d == e && t < u < Pow10(6)))
    ensures LexLess(NameText(p, a, x), NameText(q, b, y)) <==> Sortable(p, q)
  {
    NumberedIff(d, t, e, u, v, w, x, y);
    SortableTie(p, a, d, t, v, q, b, e, u, w);
    NameTie(p, a, d, t, v, x);
    NameTie(q, b, e, u, w, y);
  }

  lemma TextsIff(p: Date, a: nat, q: Date, b: nat, x: string, y: string)
    requires ValidDate(p) && ValidDate(q) && p.y >= 0 && q.y >= 0 && a < 86400 && b < 86400
    requires Earlier(p, q) || (p == q && a < b)
    ensures LexLess(NameText(p, a, x), NameText(q, b, y)) <==> Sortable(p, q)
  {
    MomentsFit(p, a, q, b);
    MomentsIff(p, a, DateNumber(p), TimeNumber(a), YearWidth(p.y), x,
               q, b, DateNumber(q), TimeNumber(b), YearWidth(q.y), y);
  }

  lemma DayAndSecond(a: nat, b: nat)
    requires a < b
    ensures a / 86400 < b / 86400 || (a / 86400 == b / 86400 && a % 86400 < b % 86400)
  {
  }

  lemma SecondsInOrder(a: nat, b: nat)
    requires a < b
    ensures Earlier(DateOf(a), DateOf(b)) || (DateOf(a) == DateOf(b) && a % 86400 < b % 86400)
  {
    DayAndSecond(a, b);
    if a / 86400 < b / 86400 {
      ConversionMonotone(a / 86400, b / 86400);
    }
  }

  /** The file name of a receipt saved at a second. */
  function NameAt(secs: nat, id: string): string
    requires ValidDate(YmdFromEpochDays(secs / 86400))
  {
    FileName(TimestampOf(secs), id)
  }

  lemma NameAtIs(secs: nat, id: string)
    requires YearFits(secs)
    ensures ValidDate(DateOf(secs)) && DateOf(secs).y >= 0 && ValidDate(YmdFromEpochDays(secs / 86400))
    ensures NameAt(secs, id) == NameText(DateOf(secs), secs % 86400, id)
  {
    TimestampIs(secs);
    NameOf(DateOf(secs), secs % 86400, id);
  }

  /** A later second has a later file name, whatever the ids, if and only if the earlier date, read as a number, is
      no larger than the later one without the digits its year has more. */
  lemma NamesInOrderIff(a: nat, b: nat, x: string, y: string)
    requires a < b && YearFits(a) && YearFits(b)
    ensures ValidDate(YmdFromEpochDays(a / 86400)) && ValidDate(YmdFromEpochDays(b / 86400))
    ensures LexLess(NameAt(a, x), NameAt(b, y)) <==> Sortable(DateOf(a), DateOf(b))
  {
    NameAtIs(a, x);
    NameAtIs(b, y);
    SecondsInOrder(a, b);
    TextsIff(DateOf(a), a % 86400, DateOf(b), b % 86400, x, y);
  }

  /** In particular when both years have equally many digits. */
  lemma NamesInOrder(a: nat, b: nat, x: string, y: string)
    requires a < b && YearFits(a) && YearFits(b) && DateOf(a).y >= 0 && DateOf(b).y >= 0
    requires YearWidth(DateOf(a).y) == YearWidth(DateOf(b).y)
    ensures ValidDate(YmdFromEpochDays(a / 86400)) && ValidDate(YmdFromEpochDays(b / 86400))
    ensures LexLess(NameAt(a, x), NameAt(b, y))
  {
    NamesInOrderIff(a, b, x, y);
    DateOfSecond(a);
    DateOfSecond(b);
    SecondsInOrder(a, b);
    SameWidthSorts(DateOf(a), DateOf(b));
  }

  lemma SameWidthSorts(p: Date, q: Date)
    requires ValidDate(p) && ValidDate(q) && p.y >= 0 && q.y >= 0 && (Earlier(p, q) || p == q)
    requires YearWidth(p.y) == YearWidth(q.y)
    ensures Sortable(p, q)
  {
    if p != q {
      DateOrder(p, q);
    }
  }

  lemma TurnWidths()
    ensures YearWidth(9999) == 4 && YearWidth(10000) == 5 && Dropped(100000101, 1) == 10000010
  {
    assert Decimal(10000) == Decimal(1000) + "0" && Decimal(1000) == Decimal(100) + "0";
    assert Decimal(100) == Decimal(10) + "0" && Decimal(10) == Decimal(1) + "0";
    assert Dropped(10000010, 0) == 10000010;
  }

  lemma TextsTurnAround(x: string, y: string)
    ensures !LexLess(NameText(Date(9999, 12, 31), 86399, x), NameText(Date(10000, 1, 1), 0, y))
  {
    TurnWidths();
    TextsIff(Date(9999, 12, 31), 86399, Date(10000, 1, 1), 0, x, y);
  }

  /** The last second of the year 9999 and the next one: their names sort the other way round. */
  lemma NamesTurnAround(x: string, y: string)
    ensures
      var p, q := Date(9999, 12, 31), Date(10000, 1, 1);
      && ValidDate(p) && ValidDate(q) && NextDay(p) == q
      && !LexLess(FileName(Iso(p, 86399), x), FileName(Iso(q, 0), y))
  {
    NameOf(Date(9999, 12, 31), 86399, x);
    NameOf(Date(10000, 1, 1), 0, y);
    TextsTurnAround(x, y);
  }

  /** A saved receipt: the second it was stamped with, and its id. */
  datatype Saved = Saved(secs: nat, id: string)

  /** The listing order: file names descending. */
  ghost predicate ListedDescending(files: seq<Saved>) {
    && (forall i :: 0 <= i < |files| ==> ValidDate(YmdFromEpochDays(files[i].secs / 86400)))
    && (forall i, j :: 0 <= i < j < |files| ==>
          !LexLess(NameAt(files[i].secs, files[i].id), NameAt(files[j].secs, files[j].id)))
  }

  /** The year of a receipt has so many digits. */
  predicate StampedIn(f: Saved, width: nat) {
    YearFits(f.secs) && DateOf(f.secs).y >= 0 && YearWidth(DateOf(f.secs).y) == width
  }

  /** Sorting file names in descending order lists receipts newest first, up to ties within a second, as long as
      their years have equally many digits. */
  lemma NewestFirst(files: seq<Saved>, width: nat, i: nat, j: nat)
    requires ListedDescending(files) && i < j < |files|
    requires forall k :: 0 <= k < |files| ==> StampedIn(files[k], width)
    ensures files[i].secs >= files[j].secs
  {
    assert StampedIn(files[i], width) && StampedIn(files[j], width);
    if files[i].secs < files[j].secs {
      NamesInOrder(files[i].secs, files[j].secs, files[i].id, files[j].id);
    }
  }
}
