/** The decoded request envelope (request.go) and its accessors. */
module Request {
  import opened Wrappers
  import opened Json

  datatype Application = Application(applicationID: string)

  /** Go's `Attributes` struct; its only field is named `String`. */
  datatype Attributes = Attributes(strings: map<string, JsonValue>)

  datatype User = User(userID: string)

  datatype EchoSession = EchoSession(
    isNew: bool,
    sessionID: string,
    application: Application,
    attributes: Attributes,
    user: User)

  datatype EchoSlot = EchoSlot(name: string, value: string)

  /** A nil `Slots` map of the source is the empty map here. */
  datatype EchoIntent = EchoIntent(name: string, slots: map<string, EchoSlot>)

  datatype EchoReqBody = EchoReqBody(
    reqType: string,
    requestID: string,
    timestamp: string,
    intent: EchoIntent,
    reason: string)

  datatype EchoRequest = EchoRequest(version: string, session: EchoSession, request: EchoReqBody)

  const IntentRequestType := "IntentRequest"
  const SlotNotFound := "Slot name not found."

  // ---------------------------------------------------------------------------
  // Timestamps in the layout "2006-01-02T15:04:05Z"
  // ---------------------------------------------------------------------------

  /** A calendar instant in UTC, to the second. */
  datatype DateTime = DateTime(year: int, month: int, day: int, hour: int, minute: int, second: int)

  predicate IsLeapYear(year: int)
  {
    year % 4 == 0 && (year % 100 != 0 || year % 400 == 0)
  }

  function DaysIn(month: int, year: int): int
  {
    if month == 2 then (if IsLeapYear(year) then 29 else 28)
    else if month == 4 || month == 6 || month == 9 || month == 11 then 30
    else 31
  }

  /** The instants the layout can express: a four-digit year and every field
      in the range the parser accepts. */
  predicate ValidDateTime(t: DateTime)
  {
    && 0 <= t.year <= 9999
    && 1 <= t.month <= 12
    && 1 <= t.day <= DaysIn(t.month, t.year)
    && 0 <= t.hour < 24
    && 0 <= t.minute < 60
    && 0 <= t.second < 60
  }

  predicate IsDigit(c: char)
  {
    '0' <= c <= '9'
  }

  predicate AllDigits(s: string)
  {
    forall i | 0 <= i < |s| :: IsDigit(s[i])
  }

  function DigitValue(c: char): int
  {
    c as int - '0' as int
  }

  function DigitChar(d: int): char
    requires 0 <= d < 10
  {
    (d + '0' as int) as char
  }

  /** The number a string of decimal digits spells, most significant first. */
  function Decimal(s: string): int
  {
    if s == [] then 0 else 10 * Decimal(s[..|s| - 1]) + DigitValue(s[|s| - 1])
  }

  function Pow10(n: nat): nat
  {
    if n == 0 then 1 else 10 * Pow10(n - 1)
  }

  /** The last `n` decimal digits of `v`, zero-padded on the left. */
  function Pad(v: nat, n: nat): (s: string)
    ensures |s| == n
  {
    if n == 0 then [] else Pad(v / 10, n - 1) + [DigitChar(v % 10)]
  }

  /** The fixed shape of the layout: digits where the layout has digits and
      the literal separators `-`, `T`, `:` and `Z` where it has them. */
  predicate MatchesLayout(s: string)
  {
    && |s| == 20
    && AllDigits(s[0..4]) && s[4] == '-'
    && AllDigits(s[5..7]) && s[7] == '-'
    && AllDigits(s[8..10]) && s[10] == 'T'
    && AllDigits(s[11..13]) && s[13] == ':'
    && AllDigits(s[14..16]) && s[16] == ':'
    && AllDigits(s[17..19]) && s[19] == 'Z'
  }

  /** `time.Parse("2006-01-02T15:04:05Z", s)`: None for the parse error. */
  function ParseTimestamp(s: string): (t: Option<DateTime>)
    ensures t.Some? ==> MatchesLayout(s) && ValidDateTime(t.value)
  {
    if !MatchesLayout(s) then None
    else
      var t := DateTime(Decimal(s[0..4]), Decimal(s[5..7]), Decimal(s[8..10]),
                        Decimal(s[11..13]), Decimal(s[14..16]), Decimal(s[17..19]));
      if ValidDateTime(t) then Some(t) else None
  }

  /** Writes an instant in the layout. */
  function FormatTimestamp(t: DateTime): (s: string)
    requires ValidDateTime(t)
  {
    Pad(t.year, 4) + "-" + Pad(t.month, 2) + "-" + Pad(t.day, 2) + "T"
      + Pad(t.hour, 2) + ":" + Pad(t.minute, 2) + ":" + Pad(t.second, 2) + "Z"
  }

  /** The days before year `k` of a 400-year era, counted from its start. */
  function DaysBeforeYearOfEra(k: int): int
  {
    k * 365 + k / 4 - k / 100
  }

  /** The days before the year that starts on 1 March of `y`, counted from
      1 March of year 0. Counting years from March puts the leap day last. */
  function DaysBeforeMarchYear(y: int): int
  {
    var era := y / 400;
    era * 146097 + DaysBeforeYearOfEra(y - era * 400)
  }

  /** Days from 1970-01-01 to the given date of the proleptic Gregorian calendar. */
  function DaysSinceEpoch(year: int, month: int, day: int): int
  {
    var marchYear := if month <= 2 then year - 1 else year;
    var monthsSinceMarch := if month > 2 then month - 3 else month + 9;
    var dayOfMarchYear := (153 * monthsSinceMarch + 2) / 5 + day - 1;
    DaysBeforeMarchYear(marchYear) + dayOfMarchYear - 719468
  }

  /** Seconds since the Unix epoch, as `Time.Unix()` gives them. */
  function UnixSeconds(t: DateTime): int
  {
    DaysSinceEpoch(t.year, t.month, t.day) * 86400 + t.hour * 3600 + t.minute * 60 + t.second
  }

  /** `VerifyTimestamp(seconds)`: the request time parses and the time elapsed
      since it, in nanoseconds as `time.Since` measures it, is strictly below
      `seconds` seconds. `nowNanos` is the wall clock in Unix nanoseconds. */
  predicate VerifyTimestamp(r: EchoRequest, seconds: int, nowNanos: int)
  {
    match ParseTimestamp(r.request.timestamp)
    case None => false
    case Some(t) => nowNanos - UnixSeconds(t) * 1_000_000_000 < seconds * 1_000_000_000
  }

  // ---------------------------------------------------------------------------
  // Accessors
  // ---------------------------------------------------------------------------

  predicate VerifyAppID(r: EchoRequest, myAppID: string)
  {
    r.session.application.applicationID == myAppID
  }

  function GetSessionID(r: EchoRequest): string
  {
    r.session.sessionID
  }

  function GetUserID(r: EchoRequest): string
  {
    r.session.user.userID
  }

  function GetRequestType(r: EchoRequest): string
  {
    r.request.reqType
  }

  function AllSlots(r: EchoRequest): map<string, EchoSlot>
  {
    r.request.intent.slots
  }

  /** The intent's name for an intent request, the request type otherwise. */
  function GetIntentName(r: EchoRequest): (name: string)
    ensures GetRequestType(r) == IntentRequestType ==> name == r.request.intent.name
    ensures GetRequestType(r) != IntentRequestType ==> name == GetRequestType(r)
  {
    if GetRequestType(r) == IntentRequestType then r.request.intent.name else GetRequestType(r)
  }

  /** The slot's value and no error when the slot exists; the empty string
      and an error otherwise. */
  function GetSlotValue(r: EchoRequest, slotName: string): (res: (string, Option<string>))
    ensures res.1.None? <==> slotName in AllSlots(r)
    ensures slotName in AllSlots(r) ==> res.0 == AllSlots(r)[slotName].value
    ensures slotName !in AllSlots(r) ==> res == ("", Some(SlotNotFound))
  {
    if slotName in r.request.intent.slots then (r.request.intent.slots[slotName].value, None)
    else ("", Some(SlotNotFound))
  }

  // ---------------------------------------------------------------------------
  // Properties
  // ---------------------------------------------------------------------------

  /** Exactly one application identifier passes the check: the one the
      envelope declares. */
  lemma AppIDMatchIsExact(r: EchoRequest, id: string, other: string)
    ensures VerifyAppID(r, r.session.application.applicationID)
    ensures VerifyAppID(r, id) && VerifyAppID(r, other) ==> id == other
  {
  }

  /** A timestamp that does not parse (outside the layout, or naming no real
      instant) never passes,
      however large the bound. */
  lemma MalformedTimestampRejected(r: EchoRequest, seconds: int, nowNanos: int)
    requires ParseTimestamp(r.request.timestamp).None?
    ensures !VerifyTimestamp(r, seconds, nowNanos)
  {
  }

  /** Read on a clock of whole seconds plus a fraction, the bound is strict in
      whole seconds: an age of `seconds - 1` passes, an age of `seconds` fails. */
  lemma TimestampBoundInSeconds(r: EchoRequest, seconds: int, nowSeconds: int, fraction: int)
    requires 0 <= fraction < 1_000_000_000
    ensures VerifyTimestamp(r, seconds, nowSeconds * 1_000_000_000 + fraction)
        <==> (ParseTimestamp(r.request.timestamp).Some?
              && nowSeconds - UnixSeconds(ParseTimestamp(r.request.timestamp).value) < seconds)
  {
    match ParseTimestamp(r.request.timestamp)
    case None =>
    case Some(t) =>
      var age := nowSeconds - UnixSeconds(t);
      assert nowSeconds * 1_000_000_000 + fraction - UnixSeconds(t) * 1_000_000_000
          == age * 1_000_000_000 + fraction;
      if age < seconds {
        assert age * 1_000_000_000 <= (seconds - 1) * 1_000_000_000;
      } else {
        assert age * 1_000_000_000 >= seconds * 1_000_000_000;
      }
  }

  /** There is no lower bound: a timestamp later than the clock always passes. */
  lemma FutureTimestampAccepted(r: EchoRequest, seconds: int, nowNanos: int)
    requires ParseTimestamp(r.request.timestamp).Some?
    requires nowNanos < UnixSeconds(ParseTimestamp(r.request.timestamp).value) * 1_000_000_000
    requires 0 <= seconds
    ensures VerifyTimestamp(r, seconds, nowNanos)
  {
  }

  /** Every slot value `AllSlots` lists can be looked up by its key. */
  lemma SlotLookupAgreesWithAllSlots(r: EchoRequest)
    ensures forall s :: s in AllSlots(r).Values ==> exists k :: k in AllSlots(r) && GetSlotValue(r, k).0 == s.value
  {
    forall s | s in AllSlots(r).Values
      ensures exists k :: k in AllSlots(r) && GetSlotValue(r, k).0 == s.value
    {
      var k :| k in AllSlots(r) && AllSlots(r)[k] == s;
      assert GetSlotValue(r, k).0 == s.value;
    }
  }

  // ---------------------------------------------------------------------------
  // The timestamp layout: parsing and formatting are inverse
  // ---------------------------------------------------------------------------

  lemma {:induction false} DecimalOfPad(v: nat, n: nat)
    requires v < Pow10(n)
    ensures AllDigits(Pad(v, n)) && Decimal(Pad(v, n)) == v
  {
    if n > 0 {
      DecimalOfPad(v / 10, n - 1);
      var s := Pad(v, n);
      assert s[..n - 1] == Pad(v / 10, n - 1);
    }
  }

  lemma {:induction false} PadOfDecimal(s: string)
    requires AllDigits(s)
    ensures 0 <= Decimal(s) < Pow10(|s|) && Pad(Decimal(s), |s|) == s
  {
    if s != [] {
      var front := s[..|s| - 1];
      PadOfDecimal(front);
      assert s == front + [s[|s| - 1]];
    }
  }

  /** Every instant the layout can express is written and read back unchanged. */
  lemma {:induction false} ParseFormatRoundTrip(t: DateTime)
    requires ValidDateTime(t)
    ensures ParseTimestamp(FormatTimestamp(t)) == Some(t)
  {
    var s := FormatTimestamp(t);
    DecimalOfPad(t.year, 4);
    DecimalOfPad(t.month, 2);
    DecimalOfPad(t.day, 2);
    DecimalOfPad(t.hour, 2);
    DecimalOfPad(t.minute, 2);
    DecimalOfPad(t.second, 2);
    var date := Pad(t.year, 4) + "-" + Pad(t.month, 2) + "-" + Pad(t.day, 2) + "T";
    var time := Pad(t.hour, 2) + ":" + Pad(t.minute, 2) + ":" + Pad(t.second, 2) + "Z";
    assert s == date + time;
    assert s[..11] == date && s[11..] == time;
    assert s[0..4] == date[0..4] == Pad(t.year, 4);
    assert s[5..7] == date[5..7] == Pad(t.month, 2);
    assert s[8..10] == date[8..10] == Pad(t.day, 2);
    assert s[11..13] == time[0..2] == Pad(t.hour, 2);
    assert s[14..16] == time[3..5] == Pad(t.minute, 2);
    assert s[17..19] == time[6..8] == Pad(t.second, 2);
  }

  /** Every string the parser accepts is the layout of the instant it reads:
      the parser accepts one spelling per instant. */
  lemma {:induction false} FormatParseRoundTrip(s: string)
    requires ParseTimestamp(s).Some?
    ensures FormatTimestamp(ParseTimestamp(s).value) == s
  {
    var t := ParseTimestamp(s).value;
    PadOfDecimal(s[0..4]);
    PadOfDecimal(s[5..7]);
    PadOfDecimal(s[8..10]);
    PadOfDecimal(s[11..13]);
    PadOfDecimal(s[14..16]);
    PadOfDecimal(s[17..19]);
    var date := s[..11];
    var time := s[11..];
    assert date == s[0..4] + "-" + s[5..7] + "-" + s[8..10] + "T";
    assert time == s[11..13] + ":" + s[14..16] + ":" + s[17..19] + "Z";
    assert s == date + time;
  }

  /** The day after a valid date: the next day of the month, the first of
      the next month, or the first of January of the next year. */
  function NextDay(year: int, month: int, day: int): (int, int, int)
  {
    if day < DaysIn(month, year) then (year, month, day + 1)
    else if month < 12 then (year, month + 1, 1)
    else (year + 1, 1, 1)
  }

  /** Whole eras do not change a remainder by 4 or by 100. */
  lemma ModuloWithinEra(z: int)
    ensures z % 4 == (z % 400) % 4 && z % 100 == (z % 400) % 100
  {
    var era := z / 400;
    var rest := z % 400;
    var fours := 100 * era + rest / 4;
    var hundreds := 4 * era + rest / 100;
    assert z == 400 * era + rest;
    assert rest == 4 * (rest / 4) + rest % 4;
    assert rest == 100 * (rest / 100) + rest % 100;
    assert z == 4 * fours + rest % 4;
    assert z == 100 * hundreds + rest % 100;
  }

  lemma YearOfEraStep(k: int)
    requires 0 <= k < 399
    ensures DaysBeforeYearOfEra(k + 1) - DaysBeforeYearOfEra(k)
         == 365 + (if (k + 1) % 4 == 0 then 1 else 0) - (if (k + 1) % 100 == 0 then 1 else 0)
  {
  }

  /** The year from 1 March of `y` to the end of February of `y + 1` has 366
      days exactly when `y + 1` is a leap year. */
  lemma MarchYearLength(y: int)
    ensures DaysBeforeMarchYear(y + 1) - DaysBeforeMarchYear(y) == if IsLeapYear(y + 1) then 366 else 365
  {
    var era := y / 400;
    var yoe := y % 400;
    ModuloWithinEra(y + 1);
    if yoe < 399 {
      assert (y + 1) / 400 == era && (y + 1) % 400 == yoe + 1;
      assert DaysBeforeMarchYear(y + 1) == era * 146097 + DaysBeforeYearOfEra(yoe + 1);
      YearOfEraStep(yoe);
    } else {
      assert (y + 1) / 400 == era + 1 && (y + 1) % 400 == 0;
      assert DaysBeforeMarchYear(y + 1) == (era + 1) * 146097;
      assert DaysBeforeYearOfEra(399) == 145731;
    }
  }

  /** Counting days is the calendar: for every valid date, the next day is
      exactly one day later, across month ends, year ends and leap days. With
      `EpochIsSecondZero` this pins `UnixSeconds` to the count of seconds
      since 1970-01-01T00:00:00Z. */
  lemma NextDayIsOneDayLater(year: int, month: int, day: int)
    requires 1 <= month <= 12 && 1 <= day <= DaysIn(month, year)
    ensures var (y, m, d) := NextDay(year, month, day);
      DaysSinceEpoch(y, m, d) == DaysSinceEpoch(year, month, day) + 1
  {
    if day == DaysIn(month, year) && month == 2 {
      MarchYearLength(year - 1);
    }
  }

  /** The Unix epoch is second zero. */
  lemma EpochIsSecondZero()
    ensures UnixSeconds(DateTime(1970, 1, 1, 0, 0, 0)) == 0
  {
  }

  /** A leap day counts: noon of 29 February 2016 is 1456747200. */
  lemma LeapDayExample()
    ensures ValidDateTime(DateTime(2016, 2, 29, 12, 0, 0))
    ensures UnixSeconds(DateTime(2016, 2, 29, 12, 0, 0)) == 1456747200
  {
  }

  /** 29 February outside a leap year is no instant the parser accepts. */
  lemma NoLeapDayIn2015()
    ensures !ValidDateTime(DateTime(2015, 2, 29, 0, 0, 0))
  {
  }

}
