/**
 * The notification bell and drop-down panel: relative time labels, type
 * icons, the unread badge, and what a click on an item or its delete
 * button does to the notification state.
 */
module NotificationList {
  import opened Wrappers
  import Text
  import NotificationState

  const MinuteMs := 60000
  const HourMs := 3600000
  const DayMs := 86400000

  /** The relative label the panel shows for an age of `diff` milliseconds. */
  datatype TimeLabel = JustNow | MinutesAgo(minutes: int) | HoursAgo(hours: int) | DaysAgo(days: int) | CalendarDate

  /**
   * `formatTime`: floor the age to whole minutes, hours and days and pick the
   * first bucket that fits; ages of a week or more show a calendar date.
   * Ages below one minute, including negative ones (a clock ahead of the
   * viewer's), read as "just now".
   */
  function FormatTime(diff: int): (r: TimeLabel)
    ensures r.JustNow? <==> diff < MinuteMs
    ensures r.MinutesAgo? ==> 1 <= r.minutes < 60 && r.minutes * MinuteMs <= diff < (r.minutes + 1) * MinuteMs
    ensures r.HoursAgo? ==> 1 <= r.hours < 24 && r.hours * HourMs <= diff < (r.hours + 1) * HourMs
    ensures r.DaysAgo? ==> 1 <= r.days < 7 && r.days * DayMs <= diff < (r.days + 1) * DayMs
    ensures r.CalendarDate? <==> diff >= 7 * DayMs
  {
    var minutes := diff / MinuteMs;
    var hours := diff / HourMs;
    var days := diff / DayMs;
    if minutes < 1 then JustNow
    else if minutes < 60 then MinutesAgo(minutes)
    else if hours < 24 then HoursAgo(hours)
    else if days < 7 then DaysAgo(days)
    else CalendarDate
  }

  function Rank(l: TimeLabel): nat {
    match l
    case JustNow => 0
    case MinutesAgo(_) => 1
    case HoursAgo(_) => 2
    case DaysAgo(_) => 3
    case CalendarDate => 4
  }

  /** An older notification never gets a label of a finer bucket than a newer one. */
  lemma FormatTimeMonotone(d1: int, d2: int)
    requires d1 <= d2
    ensures Rank(FormatTime(d1)) <= Rank(FormatTime(d2))
    ensures FormatTime(d1).MinutesAgo? && FormatTime(d2).MinutesAgo? ==> FormatTime(d1).minutes <= FormatTime(d2).minutes
  {
  }

  /** The Russian text of a relative label; `None` for the calendar date, which is locale formatting. */
  function Render(l: TimeLabel): (r: Option<string>)
    ensures r.None? <==> l.CalendarDate?
    ensures l.JustNow? ==> r == Some("Только что")
    ensures l.MinutesAgo? ==> r == Some(Text.IntToString(l.minutes) + " мин. назад")
    ensures l.HoursAgo? ==> r == Some(Text.IntToString(l.hours) + " ч. назад")
    ensures l.DaysAgo? ==> r == Some(Text.IntToString(l.days) + " д. назад")
  {
    match l
    case JustNow => Some("Только что")
    case MinutesAgo(m) => Some(Text.IntToString(m) + " мин. назад")
    case HoursAgo(h) => Some(Text.IntToString(h) + " ч. назад")
    case DaysAgo(d) => Some(Text.IntToString(d) + " д. назад")
    case CalendarDate => None
  }

  /** The number a minutes label shows reads back, with `parseInt`, as the floored age it came from. */
  lemma RenderedAgeReadsBack(diff: int)
    requires MinuteMs <= diff < HourMs
    ensures var r := Render(FormatTime(diff));
            r.Some? && Text.ParseInt(r.value) == Some(diff / MinuteMs)
  {
    var m := diff / MinuteMs;
    assert 1 <= m < 60;
    assert FormatTime(diff) == MinutesAgo(m);
    NumeralThenSuffix(m, " мин. назад");
  }

  /** `parseInt` stops at the first non-digit, so a rendered count followed by a space-led suffix reads back. */
  lemma NumeralThenSuffix(n: nat, suffix: string)
    requires |suffix| > 0 && suffix[0] == ' '
    ensures Text.ParseInt(Text.IntToString(n) + suffix) == Some(n)
  {
    var numeral := Text.NatToString(n);
    Text.NatToStringValue(n);
    DigitsThenRest(numeral, suffix);
  }

  /** A scan over a digit run followed by a non-digit reads exactly the run. */
  lemma DigitsThenRest(digits: string, rest: string)
    requires digits != [] && Text.AllDigits(digits)
    requires rest == [] || !Text.IsDigit(rest[0])
    ensures Text.ParseInt(digits + rest) == Some(Text.DigitsValue(digits))
  {
    var s := digits + rest;
    assert s[0] == digits[0];
    assert Text.SkipSpace(Text.Js, s) == s;
    assert Text.Unsigned(s) == s;
    LeadingDigitsPrefix(digits, rest);
  }

  lemma {:induction false} LeadingDigitsPrefix(digits: string, rest: string)
    requires Text.AllDigits(digits) && (rest == [] || !Text.IsDigit(rest[0]))
    ensures Text.LeadingDigits(digits + rest) == digits
  {
    if digits != [] {
      assert (digits + rest)[1..] == digits[1..] + rest;
      LeadingDigitsPrefix(digits[1..], rest);
    } else {
      assert digits + rest == rest;
    }
  }

  /** `getNotificationIcon`: a mark per known type, the information sign for anything else. */
  function Icon(kind: string): (r: string)
    ensures kind == "success" <==> r == "✓"
    ensures kind == "warning" <==> r == "⚠"
    ensures kind == "error" <==> r == "✕"
    ensures r == "ℹ" <==> kind !in {"success", "warning", "error"}
  {
    if kind == "success" then "✓"
    else if kind == "warning" then "⚠"
    else if kind == "error" then "✕"
    else "ℹ"
  }

  /** The badge on the bell: hidden at 0, the count up to 99, "99+" beyond. */
  function Badge(count: int): (r: Option<string>)
    ensures r.None? <==> count <= 0
  {
    if count <= 0 then None
    else if count > 99 then Some("99+")
    else Some(Text.IntToString(count))
  }

  /** A shown numeric badge reads back as the exact count; a saturated one means more than 99. */
  lemma BadgeReadsBack(count: int)
    requires count > 0
    ensures Badge(count) == Some("99+") <==> count > 99
    ensures count <= 99 ==> Text.ParseInt(Badge(count).value) == Some(count)
  {
    if count <= 99 {
      Text.ScanIntToString(Text.Js, count);
      assert Text.IntToString(count)[0] != '9' || Text.IntToString(count) != "99+";
    }
  }

  /** One rendered row of the panel. */
  datatype Row = Row(id: int, unreadDot: bool, icon: string, title: string, message: string, age: TimeLabel)

  /** The panel body: the empty placeholder, or one row per entry in list order. */
  datatype Body = NoNotifications | Rows(rows: seq<Row>)

  /** The panel's header buttons: mark-all only with a positive counter, clear-all only with a non-empty list. */
  datatype Header = Header(showMarkAll: bool, showClearAll: bool)

  function HeaderOf(s: NotificationState.State): (h: Header)
    ensures h.showMarkAll <==> s.unreadCount > 0
    ensures h.showClearAll <==> |s.entries| > 0
  {
    Header(s.unreadCount > 0, |s.entries| > 0)
  }

  /**
   * The list body for the context's state at client time `now`; the age of
   * an entry is taken from its client timestamp.
   */
  function BodyOf(s: NotificationState.State, now: int): (b: Body)
    ensures b.NoNotifications? <==> s.entries == []
    ensures b.Rows? ==> |b.rows| == |s.entries|
    ensures b.Rows? ==> forall i :: 0 <= i < |s.entries| ==>
      b.rows[i] == Row(s.entries[i].id, !s.entries[i].read, Icon(s.entries[i].kind), s.entries[i].title,
                       s.entries[i].message, FormatTime(now - s.entries[i].timestamp))
  {
    if s.entries == [] then NoNotifications
    else Rows(seq(|s.entries|, i requires 0 <= i < |s.entries| =>
      var e := s.entries[i];
      Row(e.id, !e.read, Icon(e.kind), e.title, e.message, FormatTime(now - e.timestamp))))
  }

  /** The number of unread dots in a body. */
  function Dots(rows: seq<Row>): nat {
    if rows == [] then 0 else (if rows[0].unreadDot then 1 else 0) + Dots(rows[1..])
  }

  /** The unread dots count the truly unread entries, so an exact counter equals the number of dots shown. */
  lemma {:induction false} DotsCountUnread(s: NotificationState.State, now: int)
    requires s.entries != []
    ensures Dots(BodyOf(s, now).rows) == NotificationState.UnreadIn(s.entries)
  {
    DotsOf(BodyOf(s, now).rows, s.entries, now);
  }

  lemma {:induction false} DotsOf(rows: seq<Row>, es: seq<NotificationState.Entry>, now: int)
    requires |rows| == |es|
    requires forall i :: 0 <= i < |es| ==> rows[i].unreadDot == !es[i].read
    ensures Dots(rows) == NotificationState.UnreadIn(es)
  {
    if rows != [] {
      DotsOf(rows[1..], es[1..], now);
    }
  }

  /** `handleNotificationClick`: only an unread item is marked read. */
  function Click(s: NotificationState.State, e: NotificationState.Entry): (r: NotificationState.State)
    ensures e.read ==> r == s
    ensures !e.read ==> r == NotificationState.MarkAsRead(s, e.id)
  {
    if !e.read then NotificationState.MarkAsRead(s, e.id) else s
  }

  /** `handleDelete`: remove the item through the context. */
  function Delete(s: NotificationState.State, id: int): (r: NotificationState.State)
    ensures forall e :: e in r.entries <==> e in s.entries && e.id != id
  {
    NotificationState.ClearNotification(s, id)
  }

  /**
   * Clicking a row the panel shows keeps an exact counter exact (under
   * distinct ids): the click guard is what protects the counter from the
   * unconditional decrement of `markAsRead`.
   */
  lemma ClickKeepsExact(s: NotificationState.State, e: NotificationState.Entry)
    requires NotificationState.Exact(s) && NotificationState.UniqueIds(s.entries)
    requires e in s.entries
    ensures NotificationState.Exact(Click(s, e))
  {
    if !e.read {
      var i :| 0 <= i < |s.entries| && s.entries[i] == e;
      assert NotificationState.HasUnreadId(s.entries, e.id);
      NotificationState.MarkAsReadExactIff(s, e.id);
    }
  }

  /** Deleting a row keeps an exact counter exact (under distinct ids). */
  lemma DeleteKeepsExact(s: NotificationState.State, id: int)
    requires NotificationState.Exact(s) && NotificationState.UniqueIds(s.entries)
    ensures NotificationState.Exact(Delete(s, id))
  {
    NotificationState.ClearKeepsCounter(s, id);
  }
}
