/**
 * The criteria string `check_for_replies` hands to the IMAP SEARCH command
 * (section 6.4.4 of RFC 3501): the FROM key with the recipient's address and, once
 * an email has been sent, the SINCE key with the calendar date of that send written
 * as a `date-text` of section 9 of RFC 3501 (`date-day "-" date-month "-" date-year`).
 */
module SearchCriteria {
  import opened Wrappers
  import opened Calendar

  /** `date-month` of section 9 of RFC 3501, which is also what `%b` gives in the C locale. */
  const MonthNames: seq<string> :=
    ["Jan", "Feb", "Mar", "Apr", "May", "Jun", "Jul", "Aug", "Sep", "Oct", "Nov", "Dec"]

  function Pow10(width: nat): (p: nat)
    ensures p >= 1
  {
    if width == 0 then 1 else 10 * Pow10(width - 1)
  }

  function DigitChar(n: int): (c: char)
    requires 0 <= n <= 9
    ensures '0' <= c <= '9'
  {
    (48 + n) as char
  }

  function DigitValue(c: char): (r: Option<int>)
    ensures r.Some? <==> '0' <= c <= '9'
    ensures r.Some? ==> 0 <= r.value <= 9 && DigitChar(r.value) == c
  {
    if '0' <= c <= '9' then Some(c as int - 48) else None
  }

  /** `n` in exactly `width` decimal digits, zero-padded on the left (`%d` is 2, `%Y` is 4). */
  function Decimal(n: nat, width: nat): (s: string)
    requires n < Pow10(width)
    ensures |s| == width
  {
    if width == 0 then "" else Decimal(n / 10, width - 1) + [DigitChar(n % 10)]
  }

  /** The number a non-empty string of decimal digits spells; `None` for anything else. */
  function ParseDecimal(s: string): (r: Option<nat>)
    ensures r.Some? ==> r.value < Pow10(|s|)
  {
    if s == [] then Some(0)
    else match (ParseDecimal(s[..|s| - 1]), DigitValue(s[|s| - 1]))
      case (Some(high), Some(low)) => Some(10 * high + low)
      case _ => None
  }

  lemma {:induction false} DecimalRoundTrip(n: nat, width: nat)
    requires n < Pow10(width)
    ensures ParseDecimal(Decimal(n, width)) == Some(n)
  {
    if width > 0 {
      var s := Decimal(n, width);
      DecimalRoundTrip(n / 10, width - 1);
      assert s[..|s| - 1] == Decimal(n / 10, width - 1);
    }
  }

  lemma {:induction false} ParseDecimalCanonical(s: string, n: nat)
    requires ParseDecimal(s) == Some(n)
    ensures n < Pow10(|s|) && Decimal(n, |s|) == s
  {
    if s != [] {
      var high := ParseDecimal(s[..|s| - 1]).value;
      var low := DigitValue(s[|s| - 1]).value;
      ParseDecimalCanonical(s[..|s| - 1], high);
      assert n / 10 == high && n % 10 == low;
      assert s == s[..|s| - 1] + [s[|s| - 1]];
    }
  }

  /** Month number (1 = January) of an abbreviation, searching `MonthNames` from index `from`. */
  function MonthNumber(name: string, from: nat := 0): (r: Option<int>)
    requires from <= 12
    ensures r.Some? ==> from < r.value <= 12 && MonthNames[r.value - 1] == name
    decreases 12 - from
  {
    if from == 12 then None
    else if MonthNames[from] == name then Some(from + 1)
    else MonthNumber(name, from + 1)
  }

  lemma {:induction false} MonthNumberOfName(m: int, from: nat := 0)
    requires from < m <= 12
    ensures MonthNumber(MonthNames[m - 1], from) == Some(m)
    decreases m - from
  {
    if from < m - 1 {
      assert MonthNames[from] != MonthNames[m - 1] by {
        var a, b := MonthNames[from], MonthNames[m - 1];
        assert a[0] != b[0] || a[1] != b[1] || a[2] != b[2];
      }
      MonthNumberOfName(m, from + 1);
    }
  }

  /** The date as `strftime("%d-%b-%Y")` writes it: `date-text` of section 9 of RFC 3501. */
  function DateText(d: Date): (s: string)
    requires ValidDate(d)
    ensures |s| == 11
  {
    Decimal(d.day, 2) + "-" + MonthNames[d.month - 1] + "-" + Decimal(d.year, 4)
  }

  /** Reads back a `dd-Mon-yyyy` date-text; `None` unless it names a valid date. */
  function ParseDateText(s: string): (r: Option<Date>)
    ensures r.Some? ==> ValidDate(r.value)
  {
    if |s| != 11 || s[2] != '-' || s[6] != '-' then None
    else match (ParseDecimal(s[..2]), MonthNumber(s[3..6]), ParseDecimal(s[7..]))
      case (Some(day), Some(month), Some(year)) =>
        if ValidDate(Date(year, month, day)) then Some(Date(year, month, day)) else None
      case _ => None
  }

  /** Where the fields of a date-text sit. */
  lemma DateTextSlices(d: Date)
    requires ValidDate(d)
    ensures var s := DateText(d);
      s[..2] == Decimal(d.day, 2) && s[2] == '-' && s[3..6] == MonthNames[d.month - 1]
      && s[6] == '-' && s[7..] == Decimal(d.year, 4)
  {
  }

  /** A text whose three fields read as the day, month and year of a valid date parses to it. */
  lemma ParseDateTextOfFields(s: string, d: Date)
    requires ValidDate(d) && |s| == 11 && s[2] == '-' && s[6] == '-'
    requires ParseDecimal(s[..2]) == Some(d.day) && MonthNumber(s[3..6]) == Some(d.month)
    requires ParseDecimal(s[7..]) == Some(d.year)
    ensures ParseDateText(s) == Some(d)
  {
  }

  lemma DateTextRoundTrip(d: Date)
    requires ValidDate(d)
    ensures ParseDateText(DateText(d)) == Some(d)
  {
    DateTextSlices(d);
    DecimalRoundTrip(d.day, 2);
    DecimalRoundTrip(d.year, 4);
    MonthNumberOfName(d.month);
    ParseDateTextOfFields(DateText(d), d);
  }

  /** An 11-character text with dashes at 2 and 6 is its three fields joined by dashes. */
  lemma DateTextFields(s: string)
    requires |s| == 11 && s[2] == '-' && s[6] == '-'
    ensures s == s[..2] + "-" + s[3..6] + "-" + s[7..]
  {
    assert s == s[..2] + [s[2]] + s[3..6] + [s[6]] + s[7..];
  }

  lemma DateTextCanonical(s: string, d: Date)
    requires ParseDateText(s) == Some(d)
    ensures DateText(d) == s
  {
    ParseDecimalCanonical(s[..2], d.day);
    ParseDecimalCanonical(s[7..], d.year);
    DateTextFields(s);
  }

  /** The FROM key with the address between quotes. */
  function FromKey(recipient: string): (s: string)
    ensures |s| == |recipient| + 7
  {
    "FROM \"" + recipient + "\""
  }

  /** The SINCE key with the date-text between quotes. */
  function SinceKey(d: Date): (s: string)
    requires ValidDate(d)
    ensures |s| == 20
  {
    " SINCE \"" + DateText(d) + "\""
  }

  /** The SINCE key of the date of the last send, or nothing before the first send. */
  function SinceKeys(lastSent: Option<Timestamp>): string {
    match lastSent
    case None => ""
    case Some(t) => SinceKey(DateOf(t))
  }

  /** `FROM "<recipient>"`, followed by ` SINCE "<dd-Mon-YYYY>"` once an email has been sent. */
  function Criteria(recipient: string, lastSent: Option<Timestamp>): (s: string)
    ensures |s| >= |recipient| + 7 && s[..|recipient| + 7] == "FROM \"" + recipient + "\""
    ensures lastSent.None? <==> |s| == |recipient| + 7
  {
    FromKey(recipient) + SinceKeys(lastSent)
  }

  /** What a criteria string asks the server for: mail from `sender`, on or after `since` when given. */
  datatype Query = Query(sender: string, since: Option<Date>)

  /** Index of the first `"` in `s` at or after `i`. */
  function QuoteAt(s: string, i: nat): (r: Option<nat>)
    requires i <= |s|
    ensures r.Some? ==> i <= r.value < |s| && s[r.value] == '"'
    ensures r.Some? ==> forall k :: i <= k < r.value ==> s[k] != '"'
    decreases |s| - i
  {
    if i == |s| then None else if s[i] == '"' then Some(i) else QuoteAt(s, i + 1)
  }

  /** Reads a criteria string of the shape `Criteria` builds back into the query it stands for. */
  function ParseCriteria(s: string): (r: Option<Query>)
  {
    if |s| < 7 || s[..6] != "FROM \"" then None
    else match QuoteAt(s, 6)
      case None => None
      case Some(j) =>
        var rest := s[j + 1..];
        if rest == [] then Some(Query(s[6..j], None))
        else if |rest| == 20 && rest[..8] == " SINCE \"" && rest[19] == '"' then
          match ParseDateText(rest[8..19])
          case Some(d) => Some(Query(s[6..j], Some(d)))
          case None => None
        else None
  }

  lemma {:induction false} QuoteAfter(s: string, i: nat, j: nat)
    requires i <= j < |s| && s[j] == '"'
    requires forall k :: i <= k < j ==> s[k] != '"'
    ensures QuoteAt(s, i) == Some(j)
    decreases j - i
  {
    if i < j {
      QuoteAfter(s, i + 1, j);
    }
  }

  /** The quoted address of the FROM key ends at the first `"` after it. */
  lemma FromKeyParts(recipient: string, suffix: string)
    requires '"' !in recipient
    ensures var s := FromKey(recipient) + suffix;
      |s| >= 7 && s[..6] == "FROM \"" && QuoteAt(s, 6) == Some(|recipient| + 6)
      && s[6..|recipient| + 6] == recipient && s[|recipient| + 7..] == suffix
  {
    var s := FromKey(recipient) + suffix;
    var j := |recipient| + 6;
    assert s[6..j] == recipient;
    QuoteAfter(s, 6, j);
  }

  /** The criteria name the recipient and the date of the last send, and nothing else,
      as long as the address holds no `"` (the source writes it between quotes unescaped). */
  lemma CriteriaRoundTrip(recipient: string, lastSent: Option<Timestamp>)
    requires '"' !in recipient
    ensures ParseCriteria(Criteria(recipient, lastSent))
         == Some(Query(recipient, if lastSent.Some? then Some(DateOf(lastSent.value)) else None))
  {
    match lastSent
    case None =>
      FromKeyParts(recipient, "");
    case Some(t) =>
      SinceKeyRoundTrip(recipient, DateOf(t));
  }

  lemma SinceKeyRoundTrip(recipient: string, d: Date)
    requires '"' !in recipient && ValidDate(d)
    ensures ParseCriteria(FromKey(recipient) + SinceKey(d)) == Some(Query(recipient, Some(d)))
  {
    var text := DateText(d);
    var suffix := SinceKey(d);
    FromKeyParts(recipient, suffix);
    assert suffix[..8] == " SINCE \"" && suffix[8..19] == text && suffix[19] == '"';
    DateTextRoundTrip(d);
  }

  /**
   * SINCE of section 6.4.4 of RFC 3501: messages whose date, with time and timezone
   * disregarded, is on or after `since`. Here a message's date is a `Timestamp` on the
   * same clock as the controller's.
   */
  predicate ArrivedSince(arrival: Timestamp, since: Date) {
    DayNumber(arrival) >= DaysFromCivil(since)
  }

  /** A message that arrived after the last send, on the controller's clock, passes the day-granular SINCE bound. */
  lemma SinceKeepsLaterMessages(arrival: Timestamp, lastSent: Timestamp)
    requires arrival > lastSent
    ensures ArrivedSince(arrival, DateOf(lastSent))
  {
    assert DayNumber(arrival) >= DayNumber(lastSent);
  }

  /** ... but it lets through mail of the same day sent before the last send, which the
      strict comparison of the scan must then reject: 2024-01-01 09:00 against 10:00. */
  lemma SinceAdmitsEarlierSameDayMessage()
    ensures var lastSent, arrival := 1704103200, 1704099600;
      arrival < lastSent && ArrivedSince(arrival, DateOf(lastSent))
      && DateOf(lastSent) == Date(2024, 1, 1)
  {
    assert DayNumber(1704103200) == 19723 == DayNumber(1704099600);
    NewYear2024();
  }
}

