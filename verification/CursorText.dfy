/** The text inside a cursor: the JSON object with a position's instant in
    ISO 8601 form and its identifier as a UUID (`_encode_cursor`, `_decode_cursor`). */
module CursorText {
  import opened Wrappers
  import opened Base64Cursor

  // ---------------------------------------------------------------- numbers in digits

  function Power(base: nat, n: nat): (r: nat)
    requires base > 0
    ensures r > 0
  {
    if n == 0 then 1 else base * Power(base, n - 1)
  }

  function Digit(d: nat): char
    requires d < 16
  {
    if d < 10 then '0' + d as char else 'a' + (d - 10) as char
  }

  function DigitValue(c: char): Option<nat> {
    if '0' <= c <= '9' then Some((c - '0') as nat) else
    if 'a' <= c <= 'f' then Some((c - 'a') as nat + 10) else None
  }

  /** `n` in `width` digits, leading zeros included. */
  function Digits(n: nat, width: nat, base: nat): (s: string)
    requires 1 < base <= 16
    ensures |s| == width
    decreases width
  {
    if width == 0 then "" else Digits(n / base, width - 1, base) + [Digit(n % base)]
  }

  function Number(s: string, base: nat): Option<nat> {
    if s == "" then Some(0) else
    match (Number(s[..|s| - 1], base), DigitValue(s[|s| - 1]))
    case (Some(n), Some(d)) => if d < base then Some(n * base + d) else None
    case _ => None
  }

  lemma DigitHasValue(d: nat)
    requires d < 16
    ensures DigitValue(Digit(d)) == Some(d) && Digit(d) < 128 as char
  {
  }

  /** A number that fits its width is read back from its digits. */
  lemma {:induction false} NumberOfDigits(n: nat, width: nat, base: nat)
    requires 1 < base <= 16 && n < Power(base, width)
    ensures Number(Digits(n, width, base), base) == Some(n)
    decreases width
  {
    if width == 0 {
    } else {
      hide *;
      QuotientInPower(n, width, base);
      NumberOfDigits(n / base, width - 1, base);
      LastDigit(n, width, base);
    }
  }

  lemma QuotientInPower(n: nat, width: nat, base: nat)
    requires 1 < base <= 16 && width > 0 && n < Power(base, width)
    ensures n / base < Power(base, width - 1)
  {
    PowerNext(base, width);
    hide Power;
    QuotientFits(n, base, Power(base, width - 1));
  }

  lemma LastDigit(n: nat, width: nat, base: nat)
    requires 1 < base <= 16 && width > 0 && Number(Digits(n / base, width - 1, base), base) == Some(n / base)
    ensures Number(Digits(n, width, base), base) == Some(n)
  {
    hide Number, Digits, Digit;
    DigitsNext(n, width, base);
    Division(n, base);
    NumberAppends(Digits(n / base, width - 1, base), n % base, base);
  }

  lemma PowerNext(base: nat, width: nat)
    requires base > 0 && width > 0
    ensures Power(base, width) == base * Power(base, width - 1)
  {
  }

  lemma DigitsNext(n: nat, width: nat, base: nat)
    requires 1 < base <= 16 && width > 0
    ensures n % base < 16 && Digits(n, width, base) == Digits(n / base, width - 1, base) + [Digit(n % base)]
  {
  }

  lemma NumberAppends(s: string, d: nat, base: nat)
    requires d < base <= 16
    ensures Number(s, base).Some? ==> Number(s + [Digit(d)], base) == Some(Number(s, base).value * base + d)
  {
    DigitHasValue(d);
    assert (s + [Digit(d)])[..|s|] == s;
  }

  lemma Division(n: nat, base: nat)
    requires base > 0
    ensures n / base * base + n % base == n && n % base < base
  {
  }

  lemma QuotientFits(n: nat, base: nat, p: nat)
    requires base > 0 && n < base * p
    ensures n / base < p
  {
    Division(n, base);
    Smaller(n / base, p, base);
  }

  lemma Smaller(q: nat, p: nat, base: nat)
    requires base > 0 && q * base < base * p
    ensures q < p
  {
    var gap := q - p;
    assert gap * base == q * base - base * p;
  }

  lemma {:induction false} DigitsAreAscii(n: nat, width: nat, base: nat)
    requires 1 < base <= 16
    ensures Ascii(Digits(n, width, base))
    decreases width
  {
    if width == 0 {
    } else {
      DigitsAreAscii(n / base, width - 1, base);
      DigitHasValue(n % base);
    }
  }

  // ---------------------------------------------------------------- the calendar

  predicate Leap(year: nat) {
    year % 4 == 0 && (year % 100 != 0 || year % 400 == 0)
  }

  function YearLength(year: nat): nat {
    if Leap(year) then 366 else 365
  }

  function MonthLength(year: nat, month: nat): nat {
    if month == 2 then (if Leap(year) then 29 else 28) else
    if month in {4, 6, 9, 11} then 30 else 31
  }

  /** Days from the first day of the year 1 to that of this year. */
  function DaysBeforeYear(year: nat): nat
    requires year > 0
  {
    if year == 1 then 0 else DaysBeforeYear(year - 1) + YearLength(year - 1)
  }

  function DaysBeforeMonth(year: nat, month: nat): nat
    requires month > 0
  {
    if month == 1 then 0 else DaysBeforeMonth(year, month - 1) + MonthLength(year, month - 1)
  }

  /** The Gregorian calendar, extended to the past: a leap year in every fourth
      year, save in full centuries, save in every fourth century. */
  lemma {:induction false} YearsAreGregorian(year: nat)
    requires year > 0
    ensures var past := year - 1; DaysBeforeYear(year) == 365 * past + past / 4 - past / 100 + past / 400
  {
    if year == 1 {
    } else {
      YearsAreGregorian(year - 1);
      var last := year - 2;
      NextQuotient(last, 4);
      NextQuotient(last, 100);
      NextQuotient(last, 400);
      LeapRule(year - 1);
      hide Leap;
    }
  }

  lemma LeapRule(year: nat)
    ensures (if Leap(year) then 1 else 0) == (if year % 4 == 0 then 1 else 0) - (if year % 100 == 0 then 1 else 0) +
      (if year % 400 == 0 then 1 else 0)
  {
    Divides(year, 100, 4);
    Divides(year, 400, 100);
  }

  lemma Divides(n: nat, d: nat, e: nat)
    requires e > 0 && d > 0 && d % e == 0
    ensures n % d == 0 ==> n % e == 0
  {
    if n % d == 0 {
      Division(n, d);
      Division(d, e);
      UniqueQuotient(n, e, n / d * (d / e), 0);
    }
  }

  lemma NextQuotient(n: nat, d: nat)
    requires d > 0
    ensures (n + 1) / d == n / d + if (n + 1) % d == 0 then 1 else 0
  {
    Division(n, d);
    Division(n + 1, d);
    var q, r := n / d, n % d;
    if r == d - 1 {
      UniqueQuotient(n + 1, d, q + 1, 0);
    } else {
      UniqueQuotient(n + 1, d, q, r + 1);
    }
  }

  lemma UniqueQuotient(n: nat, d: nat, q: nat, r: nat)
    requires d > 0 && n == q * d + r && r < d
    ensures n / d == q && n % d == r
  {
    Division(n, d);
    var gap := n / d - q;
    assert gap * d == r - n % d;
  }

  datatype Date = Date(year: nat, month: nat, day: nat)

  predicate IsDate(d: Date) {
    0 < d.year <= 9999 && 0 < d.month <= 12 && 0 < d.day <= MonthLength(d.year, d.month)
  }

  function Ordinal(d: Date): nat
    requires IsDate(d)
  {
    DaysBeforeYear(d.year) + DaysBeforeMonth(d.year, d.month) + d.day - 1
  }

  /** The year into which the day falls, searched from `year` on. */
  function YearFrom(year: nat, day: nat): (r: nat)
    requires year > 0 && DaysBeforeYear(year) <= day
    ensures r >= year && DaysBeforeYear(r) <= day < DaysBeforeYear(r) + YearLength(r)
    decreases day - DaysBeforeYear(year)
  {
    if day < DaysBeforeYear(year) + YearLength(year) then year else YearFrom(year + 1, day)
  }

  function MonthFrom(year: nat, month: nat, day: nat): (r: nat)
    requires 0 < month <= 12 && DaysBeforeMonth(year, month) <= day < YearLength(year)
    ensures month <= r <= 12 && DaysBeforeMonth(year, r) <= day < DaysBeforeMonth(year, r) + MonthLength(year, r)
    decreases 12 - month
  {
    YearHasTwelveMonths(year);
    if day < DaysBeforeMonth(year, month) + MonthLength(year, month) then month else MonthFrom(year, month + 1, day)
  }

  lemma YearHasTwelveMonths(year: nat)
    ensures DaysBeforeMonth(year, 12) + MonthLength(year, 12) == YearLength(year)
  {
    var march := DaysBeforeMonth(year, 3);
    assert DaysBeforeMonth(year, 2) == 31;
    assert march == 31 + MonthLength(year, 2);
    assert DaysBeforeMonth(year, 4) == march + 31;
    assert DaysBeforeMonth(year, 5) == march + 61;
    assert DaysBeforeMonth(year, 6) == march + 92;
    assert DaysBeforeMonth(year, 7) == march + 122;
    assert DaysBeforeMonth(year, 8) == march + 153;
    assert DaysBeforeMonth(year, 9) == march + 184;
    assert DaysBeforeMonth(year, 10) == march + 214;
    assert DaysBeforeMonth(year, 11) == march + 245;
    assert DaysBeforeMonth(year, 12) == march + 275;
  }

  function DateOf(day: nat): (d: Date)
    requires day < END_OF_DAYS
    ensures IsDate(d) && Ordinal(d) == day
  {
    var year := YearFrom(1, day);
    YearsGrow(year);
    var rest := day - DaysBeforeYear(year);
    var month := MonthFrom(year, 1, rest);
    Date(year, month, rest - DaysBeforeMonth(year, month) + 1)
  }

  /** The last day that a date can name is the last one of the year 9999. */
  const END_OF_DAYS: nat := DaysBeforeYear(10000)

  lemma {:induction false} YearsGrow(year: nat)
    requires year > 0
    ensures year >= 10000 ==> DaysBeforeYear(year) >= END_OF_DAYS
  {
    if year <= 10000 {
    } else {
      YearsGrow(year - 1);
    }
  }

  // ---------------------------------------------------------------- instants

  const SECOND: nat := 1_000_000
  const MINUTE: nat := 60 * SECOND
  const HOUR: nat := 60 * MINUTE
  const WHOLE_DAY: nat := 24 * HOUR

  /** The time of a day, its fraction in microseconds. */
  datatype Clock = Clock(hour: nat, minute: nat, second: nat, micro: nat)

  predicate IsClock(c: Clock) {
    c.hour < 24 && c.minute < 60 && c.second < 60 && c.micro < SECOND
  }

  function Micros(c: Clock): nat {
    c.hour * HOUR + c.minute * MINUTE + c.second * SECOND + c.micro
  }

  function ClockOf(t: nat): (c: Clock)
    requires t < WHOLE_DAY
    ensures IsClock(c) && Micros(c) == t
  {
    var seconds := t / SECOND;
    var minutes := seconds / 60;
    Clock(minutes / 60, minutes % 60, seconds % 60, t % SECOND)
  }

  // ---------------------------------------------------------------- the texts

  /** `datetime.isoformat()` of an instant in UTC: the fraction is left out when it is zero. */
  function Iso(d: Date, c: Clock): string {
    IsoDate(d) + "T" + IsoClock(c) + (if c.micro == 0 then "" else "." + Digits(c.micro, 6, 10)) + "+00:00"
  }

  function IsoDate(d: Date): (s: string)
    ensures |s| == 10
  {
    Digits(d.year, 4, 10) + "-" + Digits(d.month, 2, 10) + "-" + Digits(d.day, 2, 10)
  }

  function IsoClock(c: Clock): (s: string)
    ensures |s| == 8
  {
    Digits(c.hour, 2, 10) + ":" + Digits(c.minute, 2, 10) + ":" + Digits(c.second, 2, 10)
  }

  function ReadDate(s: string): Option<Date>
    requires |s| == 10
  {
    match (Number(s[..4], 10), Number(s[5..7], 10), Number(s[8..], 10))
    case (Some(y), Some(m), Some(d)) =>
      if s[4] == '-' && s[7] == '-' && IsDate(Date(y, m, d)) then Some(Date(y, m, d)) else None
    case _ => None
  }

  function ReadClock(s: string, fraction: string): Option<Clock>
    requires |s| == 8
  {
    match (Number(s[..2], 10), Number(s[3..5], 10), Number(s[6..], 10), Number(fraction, 10))
    case (Some(h), Some(m), Some(x), Some(f)) =>
      if s[2] == ':' && s[5] == ':' && IsClock(Clock(h, m, x, f)) then Some(Clock(h, m, x, f)) else None
    case _ => None
  }

  /** The reader on the two shapes that the writer uses. */
  function ReadIso(s: string): Option<(Date, Clock)> {
    if !((|s| == 25 || |s| == 32) && s[10] == 'T' && s[|s| - 6..] == "+00:00") then None else
    if |s| == 32 && s[19] != '.' then None else
    match (ReadDate(s[..10]), ReadClock(s[11..19], if |s| == 32 then s[20..26] else ""))
    case (Some(d), Some(c)) => Some((d, c))
    case _ => None
  }

  lemma Powers()
    ensures Power(10, 2) == 100 && Power(10, 4) == 10000 && Power(10, 6) == 1000000
  {
    assert Power(10, 1) == 10 && Power(10, 3) == 1000 && Power(10, 5) == 100000;
  }

  lemma DateRoundTrip(d: Date)
    requires IsDate(d)
    ensures ReadDate(IsoDate(d)) == Some(d)
  {
    Powers();
    hide Digits, Number, Power;
    NumberOfDigits(d.year, 4, 10);
    NumberOfDigits(d.month, 2, 10);
    NumberOfDigits(d.day, 2, 10);
    var s := IsoDate(d);
    assert s[..4] == Digits(d.year, 4, 10) && s[5..7] == Digits(d.month, 2, 10) && s[8..] == Digits(d.day, 2, 10);
  }

  lemma ClockRoundTrip(c: Clock)
    requires IsClock(c)
    ensures ReadClock(IsoClock(c), if c.micro == 0 then "" else Digits(c.micro, 6, 10)) == Some(c)
  {
    Powers();
    NothingIsZero();
    hide Digits, Number, Power;
    NumberOfDigits(c.hour, 2, 10);
    NumberOfDigits(c.minute, 2, 10);
    NumberOfDigits(c.second, 2, 10);
    NumberOfDigits(c.micro, 6, 10);
    var s := IsoClock(c);
    assert s[..2] == Digits(c.hour, 2, 10) && s[3..5] == Digits(c.minute, 2, 10) && s[6..] == Digits(c.second, 2, 10);
  }

  lemma NothingIsZero()
    ensures Number("", 10) == Some(0)
  {
  }

  lemma IsoParts(d: Date, c: Clock)
    ensures var s := Iso(d, c);
      |s| == (if c.micro == 0 then 25 else 32) && s[..10] == IsoDate(d) && s[10] == 'T' && s[11..19] == IsoClock(c) &&
      s[|s| - 6..] == "+00:00" && (c.micro != 0 ==> s[19] == '.' && s[20..26] == Digits(c.micro, 6, 10))
  {
    hide Digits, IsoDate, IsoClock;
  }

  lemma IsoRoundTrip(d: Date, c: Clock)
    requires IsDate(d) && IsClock(c)
    ensures ReadIso(Iso(d, c)) == Some((d, c))
  {
    IsoParts(d, c);
    DateRoundTrip(d);
    ClockRoundTrip(c);
    hide Iso, Digits, IsoDate, IsoClock, ReadDate, ReadClock;
  }

  // ---------------------------------------------------------------- identifiers

  /** `str(uuid)`: 32 hexadecimal digits in five groups. */
  function Uuid(id: nat): (s: string)
    ensures |s| == 36
  {
    var h := Digits(id, 32, 16);
    h[..8] + "-" + h[8..12] + "-" + h[12..16] + "-" + h[16..20] + "-" + h[20..]
  }

  function ReadUuid(s: string): Option<nat>
    requires |s| == 36
  {
    if s[8] == s[13] == s[18] == s[23] == '-' then Number(s[..8] + s[9..13] + s[14..18] + s[19..23] + s[24..], 16)
      else None
  }

  const IDS: nat := Power(16, 32)

  lemma UuidRoundTrip(id: nat)
    requires id < IDS
    ensures ReadUuid(Uuid(id)) == Some(id)
  {
    hide Number, Digits, Power;
    NumberOfDigits(id, 32, 16);
    UuidGroups(Digits(id, 32, 16), Uuid(id));
  }

  lemma UuidGroups(h: string, s: string)
    requires |h| == 32 && s == h[..8] + "-" + h[8..12] + "-" + h[12..16] + "-" + h[16..20] + "-" + h[20..]
    ensures |s| == 36 && s[8] == s[13] == s[18] == s[23] == '-'
    ensures s[..8] + s[9..13] + s[14..18] + s[19..23] + s[24..] == h
  {
    assert s[..8] == h[..8] && s[9..13] == h[8..12] && s[14..18] == h[12..16];
    assert s[19..23] == h[16..20] && s[24..] == h[20..];
  }

  // ---------------------------------------------------------------- positions

  /** A position in a listing: the sort instant, in microseconds from the
      first day of the year 1 in UTC, then the record's identifier. */
  datatype AnyPosition = Position(at: int, id: nat)

  /** Instants that a timestamp column and a `datetime` can hold, and 128-bit identifiers. */
  type Position = p: AnyPosition | 0 <= p.at < END_OF_DAYS * WHOLE_DAY && p.id < IDS witness FirstPosition()

  function FirstPosition(): (p: AnyPosition)
    ensures 0 <= p.at < END_OF_DAYS * WHOLE_DAY && p.id < IDS
  {
    SomeDays();
    Position(0, 0)
  }

  lemma SomeDays()
    ensures END_OF_DAYS > 0
  {
    assert DaysBeforeYear(2) == 365;
    assert END_OF_DAYS == DaysBeforeYear(9999) + YearLength(9999);
  }

  lemma InstantFits(at: int)
    requires 0 <= at < END_OF_DAYS * WHOLE_DAY
    ensures 0 <= at / WHOLE_DAY < END_OF_DAYS
  {
  }

  const OPENING := "{\"at\":\""
  const MIDDLE := "\",\"id\":\""
  const CLOSING := "\"}"

  /** `json.dumps({"at": ..., "id": ...}, separators=(",", ":"))`; no character needs escaping. */
  function Write(p: Position): string {
    InstantFits(p.at);
    OPENING + Iso(DateOf(p.at / WHOLE_DAY), ClockOf(p.at % WHOLE_DAY)) + MIDDLE + Uuid(p.id) + CLOSING
  }

  /** The reader of JSON, instants and identifiers: texts in the writer's own
      form are read here, `other` stands for every other text it may accept. */
  function Read(s: string, other: string -> Option<Position>): Option<Position> {
    var n := |s| - 53;
    if n != 25 && n != 32 then other(s) else
    if s[..7] != OPENING || s[7 + n..15 + n] != MIDDLE || s[51 + n..] != CLOSING then other(s) else
    match (ReadIso(s[7..7 + n]), ReadUuid(s[15 + n..51 + n]))
    case (Some((d, c)), Some(id)) =>
      if id < IDS && IsDate(d) && IsClock(c) && Instant(d, c) < END_OF_DAYS * WHOLE_DAY
      then Some(Position(Instant(d, c), id)) else other(s)
    case _ => other(s)
  }

  function Instant(d: Date, c: Clock): nat
    requires IsDate(d)
  {
    SinceEpoch(Ordinal(d), Micros(c))
  }

  function SinceEpoch(day: nat, micros: nat): nat {
    day * WHOLE_DAY + micros
  }

  lemma WriteParts(iso: string, uuid: string)
    requires |iso| == 25 || |iso| == 32
    requires |uuid| == 36
    ensures var s, n := OPENING + iso + MIDDLE + uuid + CLOSING, |iso|;
      |s| == n + 53 && s[..7] == OPENING && s[7..7 + n] == iso && s[7 + n..15 + n] == MIDDLE &&
      s[15 + n..51 + n] == uuid && s[51 + n..] == CLOSING
  {
    assert |OPENING| == 7 && |MIDDLE| == 8 && |CLOSING| == 2;
    hide OPENING, MIDDLE, CLOSING;
  }

  lemma InstantOf(at: int)
    requires 0 <= at < END_OF_DAYS * WHOLE_DAY
    ensures 0 <= at / WHOLE_DAY < END_OF_DAYS && Instant(DateOf(at / WHOLE_DAY), ClockOf(at % WHOLE_DAY)) == at
  {
    InstantFits(at);
    hide *;
    Division(at, WHOLE_DAY);
    InstantSum(at / WHOLE_DAY, at % WHOLE_DAY);
  }

  lemma InstantSum(day: nat, t: nat)
    requires day < END_OF_DAYS && t < WHOLE_DAY
    ensures Instant(DateOf(day), ClockOf(t)) == day * WHOLE_DAY + t
  {
    hide DateOf, ClockOf, Ordinal, Micros;
    assert SinceEpoch(day, t) == day * WHOLE_DAY + t;
  }

  /** What was written is read back, whatever other texts the reader accepts. */
  lemma WriteRoundTrip(p: Position, other: string -> Option<Position>)
    ensures Read(Write(p), other) == Some(p)
  {
    InstantFits(p.at);
    var d, c := DateOf(p.at / WHOLE_DAY), ClockOf(p.at % WHOLE_DAY);
    IsoParts(d, c);
    IsoRoundTrip(d, c);
    UuidRoundTrip(p.id);
    InstantOf(p.at);
    WriteParts(Iso(d, c), Uuid(p.id));
    hide Iso, Uuid, ReadIso, ReadUuid, DateOf, ClockOf, Instant, OPENING, MIDDLE, CLOSING, IDS, END_OF_DAYS;
  }

  // ---------------------------------------------------------------- bytes

  function ToBytes(s: string): seq<byte>
    requires Ascii(s)
  {
    seq(|s|, i requires 0 <= i < |s| => s[i] as int as byte)
  }

  function FromBytes(b: seq<byte>): string {
    seq(|b|, i requires 0 <= i < |b| => b[i] as char)
  }

  lemma BytesRoundTrip(s: string)
    requires Ascii(s)
    ensures FromBytes(ToBytes(s)) == s
  {
  }

  lemma AsciiAdds(a: string, b: string)
    requires Ascii(a) && Ascii(b)
    ensures Ascii(a + b)
  {
  }

  lemma IsoIsAscii(d: Date, c: Clock)
    ensures Ascii(Iso(d, c))
  {
    DigitsAreAscii(d.year, 4, 10);
    DigitsAreAscii(d.month, 2, 10);
    DigitsAreAscii(d.day, 2, 10);
    DigitsAreAscii(c.hour, 2, 10);
    DigitsAreAscii(c.minute, 2, 10);
    DigitsAreAscii(c.second, 2, 10);
    DigitsAreAscii(c.micro, 6, 10);
    hide Digits;
    assert Ascii(IsoDate(d)) && Ascii(IsoClock(c));
    hide IsoDate, IsoClock;
  }

  lemma UuidIsAscii(id: nat)
    ensures Ascii(Uuid(id))
  {
    DigitsAreAscii(id, 32, 16);
    var h := Digits(id, 32, 16);
    assert Ascii(h[..8]) && Ascii(h[8..12]) && Ascii(h[12..16]) && Ascii(h[16..20]) && Ascii(h[20..]);
    hide Digits, Ascii;
    AsciiJoins(h[..8], h[8..12]);
    AsciiJoins(h[..8] + "-" + h[8..12], h[12..16]);
    AsciiJoins(h[..8] + "-" + h[8..12] + "-" + h[12..16], h[16..20]);
    AsciiJoins(h[..8] + "-" + h[8..12] + "-" + h[12..16] + "-" + h[16..20], h[20..]);
  }

  lemma AsciiJoins(a: string, b: string)
    requires Ascii(a) && Ascii(b)
    ensures Ascii(a + "-" + b)
  {
  }

  lemma FrameIsAscii()
    ensures Ascii(OPENING) && Ascii(MIDDLE) && Ascii(CLOSING)
  {
  }

  lemma WriteIsAscii(p: Position)
    ensures Ascii(Write(p))
  {
    InstantFits(p.at);
    hide Iso, Uuid, DateOf, ClockOf, END_OF_DAYS, IDS, OPENING, MIDDLE, CLOSING, Ascii;
    var iso, uuid := Iso(DateOf(p.at / WHOLE_DAY), ClockOf(p.at % WHOLE_DAY)), Uuid(p.id);
    IsoIsAscii(DateOf(p.at / WHOLE_DAY), ClockOf(p.at % WHOLE_DAY));
    UuidIsAscii(p.id);
    FrameIsAscii();
    AsciiAdds(OPENING, iso);
    AsciiAdds(OPENING + iso, MIDDLE);
    AsciiAdds(OPENING + iso + MIDDLE, uuid);
    AsciiAdds(OPENING + iso + MIDDLE + uuid, CLOSING);
  }

  // ---------------------------------------------------------------- cursors

  datatype CursorError = InvalidCursor

  function EncodeCursor(p: Position): string {
    WriteIsAscii(p);
    EncodeText(ToBytes(Write(p)))
  }

  /** No cursor is no position; a cursor that does not decode or read is refused. */
  function DecodeCursor(value: Option<string>,
                        other: string -> Option<Position>): Result<Option<Position>, CursorError> {
    match value
    case None => Ok(None)
    case Some(s) =>
      match DecodeText(s)
      case None => Err(InvalidCursor)
      case Some(bytes) =>
        match Read(FromBytes(bytes), other)
        case None => Err(InvalidCursor)
        case Some(p) => Ok(Some(p))
  }

  /** A cursor read back is the position it was made from. */
  lemma CursorRoundTrip(p: Position, other: string -> Option<Position>)
    ensures DecodeCursor(Some(EncodeCursor(p)), other) == Ok(Some(p))
  {
    WriteIsAscii(p);
    TextRoundTrip(ToBytes(Write(p)));
    BytesRoundTrip(Write(p));
    WriteRoundTrip(p, other);
    hide DecodeText, EncodeText, Write, Read, ToBytes, FromBytes;
  }

  /** Different positions have different cursors. */
  lemma CursorsAreDistinct(p: Position, q: Position)
    ensures EncodeCursor(p) == EncodeCursor(q) ==> p == q
  {
    hide EncodeCursor, DecodeCursor;
    CursorRoundTrip(p, _ => None);
    CursorRoundTrip(q, _ => None);
  }

  lemma {:induction false} ZeroDigits(width: nat, base: nat)
    requires 1 < base <= 16
    ensures Digits(0, width, base) == seq(width, i => '0')
    decreases width
  {
    if width == 0 {
    } else {
      ZeroDigits(width - 1, base);
    }
  }

  lemma SmallDigits()
    ensures Digits(2024, 4, 10) == "2024" && Digits(2, 2, 10) == "02" && Digits(29, 2, 10) == "29"
  {
    DigitsNext(2024, 4, 10);
    DigitsNext(202, 3, 10);
    DigitsNext(20, 2, 10);
    DigitsNext(2, 2, 10);
    DigitsNext(29, 2, 10);
    DigitsNext(2, 1, 10);
    DigitsNext(0, 1, 10);
    hide Digits;
    assert Digits(2, 1, 10) == "2" && Digits(0, 1, 10) == "0" by { OneDigit(2); OneDigit(0); }
  }

  lemma OneDigit(d: nat)
    requires d < 10
    ensures Digits(d, 1, 10) == [Digit(d)]
  {
    DigitsNext(d, 1, 10);
    hide Digits, Digit;
    assert d / 10 == 0 && d % 10 == d;
  }

  lemma SampleClock()
    ensures IsoClock(Clock(0, 0, 0, 1)) == "00:00:00"
  {
    ZeroDigits(2, 10);
    hide Digits;
  }

  lemma SampleDate()
    ensures IsoDate(Date(2024, 2, 29)) == "2024-02-29"
  {
    SmallDigits();
    hide Digits;
  }

  /** The first microsecond of a leap day, as `isoformat` writes it. */
  lemma SampleText()
    ensures Iso(Date(2024, 2, 29), Clock(0, 0, 0, 1)) == "2024-02-29T00:00:00.000001+00:00"
    ensures IsDate(Date(2024, 2, 29)) && !IsDate(Date(2023, 2, 29))
  {
    SampleDate();
    SampleClock();
    SampleFraction();
    LeapDay();
    hide Digits, IsoDate, IsoClock, IsDate;
  }

  lemma SampleFraction()
    ensures Digits(1, 6, 10) == "000001"
  {
    ZeroDigits(5, 10);
    DigitsNext(1, 6, 10);
    hide Digits;
  }

  lemma LeapDay()
    ensures IsDate(Date(2024, 2, 29)) && !IsDate(Date(2023, 2, 29))
  {
  }

  /** The text of the second microsecond that a date can name, and of an
      identifier with a hexadecimal digit, and the frame around them. */
  lemma SampleCursor()
    ensures END_OF_DAYS > 0 && 1 < WHOLE_DAY
    ensures Iso(DateOf(0), ClockOf(1)) == "0001-01-01T00:00:00.000001+00:00"
    ensures Uuid(10) == "00000000-0000-0000-0000-00000000000a"
    ensures OPENING == "{\"at\":\"" && MIDDLE == "\",\"id\":\"" && CLOSING == "\"}"
  {
    FrameIs();
    hide *;
    SomeDays();
    FirstClock();
    FirstDate();
    FirstIso();
    SampleUuid();
  }

  lemma FrameIs()
    ensures OPENING == "{\"at\":\"" && MIDDLE == "\",\"id\":\"" && CLOSING == "\"}"
  {
  }

  lemma FirstClock()
    ensures 1 < WHOLE_DAY && ClockOf(1) == Clock(0, 0, 0, 1)
  {
  }

  lemma FirstIso()
    ensures Iso(Date(1, 1, 1), Clock(0, 0, 0, 1)) == "0001-01-01T00:00:00.000001+00:00"
  {
    SampleClock();
    SampleFraction();
    FirstIsoDate();
    hide Digits, IsoDate, IsoClock;
  }

  lemma FirstDate()
    requires END_OF_DAYS > 0
    ensures DateOf(0) == Date(1, 1, 1)
  {
    hide YearFrom, MonthFrom, YearLength, MonthLength, DaysBeforeYear, DaysBeforeMonth, END_OF_DAYS, IsDate, Ordinal;
    FirstYear();
    FirstMonth();
  }

  lemma FirstYear()
    ensures DaysBeforeYear(1) == 0 && YearFrom(1, 0) == 1
  {
  }

  lemma FirstMonth()
    ensures DaysBeforeMonth(1, 1) == 0 && YearLength(1) == 365 && MonthFrom(1, 1, 0) == 1
  {
  }

  lemma FirstIsoDate()
    ensures IsoDate(Date(1, 1, 1)) == "0001-01-01"
  {
    ZeroDigits(3, 10);
    ZeroDigits(1, 10);
    DigitsNext(1, 4, 10);
    DigitsNext(1, 2, 10);
    hide Digits;
  }

  lemma SampleGroups(h: string)
    requires h == Digits(10, 32, 16)
    ensures h[..8] == "00000000" && h[8..12] == h[12..16] == h[16..20] == "0000" && h[20..] == "00000000000a"
  {
    ZeroDigits(31, 16);
    DigitsNext(10, 32, 16);
    hide Digits;
  }

  lemma SampleUuid()
    ensures Uuid(10) == "00000000-0000-0000-0000-00000000000a"
  {
    hide Digits;
    SampleGroups(Digits(10, 32, 16));
  }
}
