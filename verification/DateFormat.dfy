/** The text of `format_date`, `yyyy-MM-dd'T'HH:mm`. */
module DateFormat {
  import opened Calendar
  import opened Decimals

  function Zeros(n: int): string {
    if n <= 0 then "" else "0" + Zeros(n - 1)
  }

  /** `{n:0width}`: zero-padded to `width` characters, the sign of a negative number included. */
  function Padded(n: int, width: int): string {
    if n < 0 then "-" + Zeros(width - 1 - |Decimal(-n)|) + Decimal(-n)
    else Zeros(width - |Decimal(n)|) + Decimal(n)
  }

  function Clock(f: Fields): string {
    Padded(f.hour, 2) + (":" + Padded(f.minute, 2))
  }

  function Print(f: Fields): string {
    Padded(f.date.year, 4) + ("-" + (Padded(f.date.month, 2) + ("-" + (Padded(f.date.day, 2) + ("T" + Clock(f))))))
  }

  /** `format_date`. */
  function FormatDate(epochMs: int): string {
    Print(DateFields(epochMs))
  }

  /** String order, by the first difference. */
  predicate Less(s: string, t: string) {
    t != "" && (s == "" || s[0] < t[0] || (s[0] == t[0] && Less(s[1..], t[1..])))
  }

  function Pow10(k: nat): nat {
    if k == 0 then 1 else 10 * Pow10(k - 1)
  }

  /** The last `width` decimal digits of `n`. */
  function Fixed(n: nat, width: nat): string {
    if width == 0 then "" else Fixed(n / 10, width - 1) + [Digit(n % 10)]
  }

  lemma {:induction false} ZeroFixed(width: nat)
    ensures Fixed(0, width) == Zeros(width)
  {
    if width > 0 {
      ZeroFixed(width - 1);
      ZerosSnoc(width - 1);
    }
  }

  lemma {:induction false} ZerosSnoc(n: nat)
    ensures Zeros(n) + "0" == Zeros(n + 1)
  {
    if n > 0 {
      ZerosSnoc(n - 1);
    }
  }

  /** A number that fits is padded to exactly `width` digits. */
  lemma {:induction false} PaddedIsFixed(n: nat, width: nat)
    requires width > 0 && n < Pow10(width)
    ensures Padded(n, width) == Fixed(n, width)
  {
    if n < 10 {
      ZeroFixed(width - 1);
    } else {
      var tens, last := Decimal(n / 10), [Digit(n % 10)];
      PaddedIsFixed(n / 10, width - 1);
      assert Decimal(n) == tens + last;
      var zeros := Zeros(width - 1 - |tens|);
      assert Padded(n, width) == zeros + (tens + last);
      assert Fixed(n, width) == (zeros + tens) + last;
    }
  }

  /** Fixed-width digits compare as numbers, and then by what follows. */
  lemma {:induction false} FixedOrder(n: nat, m: nat, width: nat, s: string, t: string)
    requires n < Pow10(width) && m < Pow10(width)
    ensures Less(Fixed(n, width) + s, Fixed(m, width) + t) <==> n < m || (n == m && Less(s, t))
  {
    if width == 0 {
      assert Fixed(n, width) + s == s && Fixed(m, width) + t == t;
    } else {
      var x, y := [Digit(n % 10)] + s, [Digit(m % 10)] + t;
      FixedOrder(n / 10, m / 10, width - 1, x, y);
      assert Fixed(n, width) + s == Fixed(n / 10, width - 1) + x;
      assert Fixed(m, width) + t == Fixed(m / 10, width - 1) + y;
      assert x[1..] == s && y[1..] == t;
    }
  }

  lemma FieldOrder(n: nat, m: nat, width: nat, s: string, t: string)
    requires width > 0 && n < Pow10(width) && m < Pow10(width)
    ensures Less(Padded(n, width) + s, Padded(m, width) + t) <==> n < m || (n == m && Less(s, t))
  {
    PaddedIsFixed(n, width);
    PaddedIsFixed(m, width);
    FixedOrder(n, m, width, s, t);
  }

  lemma CharOrder(c: char, s: string, t: string)
    ensures Less([c] + s, [c] + t) <==> Less(s, t)
  {
    assert ([c] + s)[1..] == s && ([c] + t)[1..] == t;
  }

  predicate FourDigitYear(f: Fields) {
    0 <= f.date.year <= 9_999
  }

  lemma ClockOrder(a: Fields, b: Fields)
    requires IsMinute(a) && IsMinute(b)
    ensures Less(Clock(a), Clock(b)) <==> a.hour < b.hour || (a.hour == b.hour && a.minute < b.minute)
  {
    assert Pow10(2) == 100;
    FieldOrder(a.minute, b.minute, 2, "", "");
    assert Padded(a.minute, 2) + "" == Padded(a.minute, 2) && Padded(b.minute, 2) + "" == Padded(b.minute, 2);
    CharOrder(':', Padded(a.minute, 2), Padded(b.minute, 2));
    FieldOrder(a.hour, b.hour, 2, ":" + Padded(a.minute, 2), ":" + Padded(b.minute, 2));
  }

  /** For four-digit years, string order of the printed fields is time order. */
  lemma {:induction false} PrintOrder(a: Fields, b: Fields)
    requires IsMinute(a) && IsMinute(b) && FourDigitYear(a) && FourDigitYear(b)
    ensures Less(Print(a), Print(b)) <==> Earlier(a, b)
  {
    assert Pow10(2) == 100 && Pow10(4) == 10_000;
    ClockOrder(a, b);
    var s, t := "T" + Clock(a), "T" + Clock(b);
    CharOrder('T', Clock(a), Clock(b));
    FieldOrder(a.date.day, b.date.day, 2, s, t);
    s, t := Padded(a.date.day, 2) + s, Padded(b.date.day, 2) + t;
    CharOrder('-', s, t);
    s, t := "-" + s, "-" + t;
    FieldOrder(a.date.month, b.date.month, 2, s, t);
    s, t := Padded(a.date.month, 2) + s, Padded(b.date.month, 2) + t;
    CharOrder('-', s, t);
    FieldOrder(a.date.year, b.date.year, 4, "-" + s, "-" + t);
  }

  lemma {:induction false} FixedValue(n: nat, width: nat)
    requires n < Pow10(width)
    ensures |Fixed(n, width)| == width && AllDigits(Fixed(n, width)) && ValueOf(Fixed(n, width)) == n
  {
    if width > 0 {
      FixedValue(n / 10, width - 1);
      var tens := Fixed(n / 10, width - 1);
      assert Fixed(n, width) == tens + [Digit(n % 10)];
      assert (tens + [Digit(n % 10)])[..|tens|] == tens;
    }
  }

  lemma PaddedValue(n: nat, width: nat)
    requires width > 0 && n < Pow10(width)
    ensures |Padded(n, width)| == width && AllDigits(Padded(n, width)) && ValueOf(Padded(n, width)) == n
  {
    PaddedIsFixed(n, width);
    FixedValue(n, width);
  }

  /** The text at some place is `width` digits that make `n`. */
  predicate Shows(text: string, from: nat, width: nat, n: int) {
    && from + width <= |text| && AllDigits(text[from..from + width])
    && ValueOf(text[from..from + width]) == n
  }

  /** For four-digit years the text is exactly the year, month, day, hour and minute in their places. */
  lemma {:induction false} PrintPlaces(f: Fields)
    requires IsMinute(f) && FourDigitYear(f)
    ensures var t := Print(f);
            && |t| == 16 && t[4] == '-' && t[7] == '-' && t[10] == 'T' && t[13] == ':'
            && Shows(t, 0, 4, f.date.year) && Shows(t, 5, 2, f.date.month) && Shows(t, 8, 2, f.date.day)
            && Shows(t, 11, 2, f.hour) && Shows(t, 14, 2, f.minute)
  {
    assert Pow10(2) == 100 && Pow10(4) == 10_000;
    var year, month, day := Padded(f.date.year, 4), Padded(f.date.month, 2), Padded(f.date.day, 2);
    var hour, minute := Padded(f.hour, 2), Padded(f.minute, 2);
    PaddedValue(f.date.year, 4);
    PaddedValue(f.date.month, 2);
    PaddedValue(f.date.day, 2);
    PaddedValue(f.hour, 2);
    PaddedValue(f.minute, 2);
    PlacesOf(year, month, day, hour, minute);
  }

  lemma PlacesOf(year: string, month: string, day: string, hour: string, minute: string)
    requires |year| == 4 && |month| == 2 && |day| == 2 && |hour| == 2 && |minute| == 2
    ensures var t := year + ("-" + (month + ("-" + (day + ("T" + (hour + (":" + minute)))))));
            && |t| == 16 && t[4] == '-' && t[7] == '-' && t[10] == 'T' && t[13] == ':'
            && t[0..4] == year && t[5..7] == month && t[8..10] == day && t[11..13] == hour && t[14..16] == minute
  {
  }

  /** A negative year is a minus sign and its amount, padded to the same width in all. */
  lemma PaddedNegative(n: int, width: int)
    requires n < 0
    ensures Padded(n, width) == "-" + Padded(-n, width - 1)
  {
  }

  /** For years 0 to 9999, texts compare as the minutes of the epoch milliseconds do. */
  lemma {:induction false} FormatOrder(a: int, b: int)
    requires FourDigitYear(DateFields(a)) && FourDigitYear(DateFields(b))
    ensures Less(FormatDate(a), FormatDate(b)) <==> a / 60_000 < b / 60_000
    ensures FormatDate(a) == FormatDate(b) <==> a / 60_000 == b / 60_000
  {
    FieldsRecoverMinute(a);
    FieldsRecoverMinute(b);
    PrintOrder(DateFields(a), DateFields(b));
    PrintOrder(DateFields(b), DateFields(a));
    MinuteNumberOrder(DateFields(a), DateFields(b));
    MinuteNumberOrder(DateFields(b), DateFields(a));
    LessIrreflexive(FormatDate(a));
  }

  lemma {:induction false} LessIrreflexive(s: string)
    ensures !Less(s, s)
  {
    if s != "" {
      LessIrreflexive(s[1..]);
    }
  }
}
