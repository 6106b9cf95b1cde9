/** The booking page of the pension site (src/pages/BookingSystemPage.tsx): the six-week
    calendar grid, month navigation, the two-slot date-range selector, the values derived
    from the selection (highlighting predicates, nights, the end date sent to the server)
    and the guard that runs before a booking request is sent.

    Dates are `Gregorian.Date` values standing for local-midnight `Date` objects; comparing
    two such `Date`s compares their time values, which for valid dates agrees with calendar
    order (`Gregorian.DayNumberOrder`), so `<` on dates is `LexBefore` here. */
module BookingCalendar {
  import opened Wrappers
  import opened Gregorian
  import Text
  import LocalStorage

  // ---------------------------------------------------------------------------------------
  // Calendar grid
  // ---------------------------------------------------------------------------------------

  /** The fixed number of cells: six weeks of seven days. */
  const GridSize: nat := 42

  /** Number of trailing days of the previous month shown before the first of `ym`. */
  function Lead(ym: YearMonth): (n: int)
    requires ValidMonth(ym)
    ensures 0 <= n <= 6
  {
    Weekday(FirstOfMonth(ym))
  }

  /** Cell `k` of the grid for `ym`: trailing days of the previous month, then every day of
      the month, then leading days of the next month. */
  function CellAt(ym: YearMonth, k: int): (d: Date)
    requires ValidMonth(ym) && 0 <= k < GridSize
    ensures Valid(d)
  {
    var lead := Lead(ym);
    var dim := DaysInMonth(ym.year, ym.month);
    if k < lead then
      var prev := PrevMonth(ym.year, ym.month);
      Date(prev.year, prev.month, DaysInMonth(prev.year, prev.month) - lead + 1 + k)
    else if k < lead + dim then
      Date(ym.year, ym.month, k - lead + 1)
    else
      var next := NextMonth(ym.year, ym.month);
      Date(next.year, next.month, k - lead - dim + 1)
  }

  /** The 42 cells shown for month `ym`, in display order. */
  function MonthGrid(ym: YearMonth): (g: seq<Date>)
    requires ValidMonth(ym)
    ensures |g| == GridSize
    ensures forall k :: 0 <= k < GridSize ==> g[k] == CellAt(ym, k)
  {
    seq(GridSize, k requires 0 <= k < GridSize => CellAt(ym, k))
  }

  /** The grid built by the render body: the three `for` loops that push the previous month's
      trailing days, the current month's days and enough of the next month's days to reach 42. */
  method BuildGrid(currentDate: Date) returns (allDays: seq<Date>)
    requires Valid(currentDate)
    ensures allDays == MonthGrid(YearMonth(currentDate.year, currentDate.month))
  {
    var ym := YearMonth(currentDate.year, currentDate.month);
    var firstDayOfMonth := FirstOfMonth(ym);
    var lastDayOfMonth := DaysInMonth(ym.year, ym.month);
    var prev := PrevMonth(ym.year, ym.month);
    var prevMonthLastDay := DaysInMonth(prev.year, prev.month);
    var lead := Weekday(firstDayOfMonth);

    var prevMonthDays: seq<Date> := [];
    var i := lead;
    while i > 0
      invariant 0 <= i <= lead
      invariant |prevMonthDays| == lead - i
      invariant forall k :: 0 <= k < |prevMonthDays| ==> prevMonthDays[k] == CellAt(ym, k)
    {
      prevMonthDays := prevMonthDays + [Date(prev.year, prev.month, prevMonthLastDay - i + 1)];
      i := i - 1;
    }

    var currentMonthDays: seq<Date> := [];
    i := 1;
    while i <= lastDayOfMonth
      invariant 1 <= i <= lastDayOfMonth + 1
      invariant |currentMonthDays| == i - 1
      invariant forall k :: 0 <= k < |currentMonthDays| ==> currentMonthDays[k] == CellAt(ym, lead + k)
    {
      currentMonthDays := currentMonthDays + [Date(ym.year, ym.month, i)];
      i := i + 1;
    }

    var next := NextMonth(ym.year, ym.month);
    var nextMonthDays: seq<Date> := [];
    var remainingDays := GridSize - (|prevMonthDays| + |currentMonthDays|);
    i := 1;
    while i <= remainingDays
      invariant 1 <= i <= remainingDays + 1
      invariant |nextMonthDays| == i - 1
      invariant forall k :: 0 <= k < |nextMonthDays| ==>
        nextMonthDays[k] == CellAt(ym, lead + lastDayOfMonth + k)
    {
      nextMonthDays := nextMonthDays + [Date(next.year, next.month, i)];
      i := i + 1;
    }

    allDays := prevMonthDays + currentMonthDays + nextMonthDays;
    forall k | 0 <= k < GridSize
      ensures allDays[k] == CellAt(ym, k)
    {
      if k < lead {
        assert allDays[k] == prevMonthDays[k];
      } else if k < lead + lastDayOfMonth {
        assert allDays[k] == currentMonthDays[k - lead];
      } else {
        assert allDays[k] == nextMonthDays[k - lead - lastDayOfMonth];
      }
    }
  }

  /** The first of the month sits at index `Lead(ym)` (the weekday of the 1st), the whole
      month follows it, and at least five days of the next month pad the end. */
  lemma GridHoldsMonth(ym: YearMonth)
    requires ValidMonth(ym)
    ensures MonthGrid(ym)[Lead(ym)] == FirstOfMonth(ym)
    ensures forall day :: 1 <= day <= DaysInMonth(ym.year, ym.month) ==>
      MonthGrid(ym)[Lead(ym) + day - 1] == Date(ym.year, ym.month, day)
    ensures GridSize - Lead(ym) - DaysInMonth(ym.year, ym.month) >= 5
  {
  }

  /** The leading block is the last `Lead(ym)` days of the previous month in ascending order,
      and the trailing block counts up from the first of the next month. */
  lemma GridPadding(ym: YearMonth)
    requires ValidMonth(ym)
    ensures var prev := PrevMonth(ym.year, ym.month);
      forall k :: 0 <= k < Lead(ym) ==>
        MonthGrid(ym)[k] == Date(prev.year, prev.month, DaysInMonth(prev.year, prev.month) - Lead(ym) + 1 + k)
    ensures var next := NextMonth(ym.year, ym.month);
      var tail := Lead(ym) + DaysInMonth(ym.year, ym.month);
      forall k :: tail <= k < GridSize ==> MonthGrid(ym)[k] == Date(next.year, next.month, k - tail + 1)
  {
  }

  /** Consecutive cells are consecutive calendar days, across both month boundaries. */
  lemma GridConsecutive(ym: YearMonth)
    requires ValidMonth(ym)
    ensures forall k :: 0 <= k < GridSize - 1 ==> MonthGrid(ym)[k + 1] == NextDay(MonthGrid(ym)[k])
  {
    var g := MonthGrid(ym);
    var lead := Lead(ym);
    var dim := DaysInMonth(ym.year, ym.month);
    forall k | 0 <= k < GridSize - 1
      ensures g[k + 1] == NextDay(g[k])
    {
      if k + 1 == lead {
        NextDayAfterPrevMonth(ym);
      } else if k + 1 == lead + dim {
        assert g[k] == LastOfMonth(ym);
      }
    }
  }

  /** Day numbers grow by exactly one per cell. */
  lemma {:induction false} GridDayNumbers(ym: YearMonth, k: int)
    requires ValidMonth(ym) && 0 <= k < GridSize
    ensures DayNumber(MonthGrid(ym)[k]) == DayNumber(MonthGrid(ym)[0]) + k
  {
    if k > 0 {
      GridDayNumbers(ym, k - 1);
      GridConsecutive(ym);
      NextDayNumber(MonthGrid(ym)[k - 1]);
    }
  }

  /** Column `k % 7` of the grid is the weekday of the date shown in cell `k` (Sunday first). */
  lemma GridColumnsAreWeekdays(ym: YearMonth)
    requires ValidMonth(ym)
    ensures forall k :: 0 <= k < GridSize ==> Weekday(MonthGrid(ym)[k]) == k % 7
  {
    var g := MonthGrid(ym);
    var lead := Lead(ym);
    GridHoldsMonth(ym);
    GridDayNumbers(ym, lead);
    forall k | 0 <= k < GridSize
      ensures Weekday(g[k]) == k % 7
    {
      GridDayNumbers(ym, k);
      ColumnArithmetic(DayNumber(g[0]), lead, k);
    }
  }

  lemma ColumnArithmetic(n0: int, lead: int, k: int)
    requires 0 <= lead <= 6 && 0 <= k
    requires (n0 + lead + 6) % 7 == lead
    ensures (n0 + k + 6) % 7 == k % 7
  {
  }

  // ---------------------------------------------------------------------------------------
  // Month navigation
  // ---------------------------------------------------------------------------------------

  /** `handlePrevMonth`: the first of the previous month. */
  function PrevMonthStart(d: Date): (r: Date)
    requires Valid(d)
    ensures Valid(r) && r.day == 1
    ensures 12 * r.year + r.month == 12 * d.year + d.month - 1
  {
    FirstOfMonth(PrevMonth(d.year, d.month))
  }

  /** `handleNextMonth`: the first of the next month. */
  function NextMonthStart(d: Date): (r: Date)
    requires Valid(d)
    ensures Valid(r) && r.day == 1
    ensures 12 * r.year + r.month == 12 * d.year + d.month + 1
  {
    FirstOfMonth(NextMonth(d.year, d.month))
  }

  /** Going forward then back (or back then forward) returns to the same displayed month. */
  lemma NavigationRoundTrip(d: Date)
    requires Valid(d)
    ensures PrevMonthStart(NextMonthStart(d)) == FirstOfMonth(YearMonth(d.year, d.month))
    ensures NextMonthStart(PrevMonthStart(d)) == FirstOfMonth(YearMonth(d.year, d.month))
  {
  }

  // ---------------------------------------------------------------------------------------
  // Date-range selection
  // ---------------------------------------------------------------------------------------

  /** The two state slots `selectedStartDate` and `selectedEndDate`. */
  datatype Selection = Selection(start: Option<Date>, end: Option<Date>)

  const NoSelection := Selection(None, None)

  /** Every date held in the slots is a real calendar day. */
  predicate DatesValid(sel: Selection) {
    (sel.start.Some? ==> Valid(sel.start.value)) && (sel.end.Some? ==> Valid(sel.end.value))
  }

  /** The range invariant: an end date is only ever held together with an earlier start date. */
  predicate RangeOk(sel: Selection) {
    sel.end.Some? ==> sel.start.Some? && LexBefore(sel.start.value, sel.end.value)
  }

  /** `isPastDate`: strictly before today's midnight. */
  predicate IsPastDate(d: Date, today: Date) {
    LexBefore(d, today)
  }

  /** `handleDateClick(d)` with today's date `today`: the new contents of the two slots. */
  function Click(sel: Selection, d: Date, today: Date): (r: Selection)
    ensures IsPastDate(d, today) ==> r == sel
    ensures !IsPastDate(d, today) ==> (r.start == Some(d) || r.end == Some(d))
    ensures !IsPastDate(d, today) ==>
      (r.end.Some? <==> sel.start.Some? && sel.end.None? && LexBefore(sel.start.value, d))
    ensures !IsPastDate(d, today) && r.end.Some? ==> r.start == sel.start && r.end == Some(d)
  {
    if IsPastDate(d, today) then sel
    else if sel.start.None? || sel.end.Some? then Selection(Some(d), None)
    else if LexBefore(sel.start.value, d) then Selection(sel.start, Some(d))
    else Selection(Some(d), None)
  }

  /** One click keeps the range invariant and the validity of the held dates. */
  lemma ClickKeepsRange(sel: Selection, d: Date, today: Date)
    requires RangeOk(sel)
    ensures RangeOk(Click(sel, d, today))
    ensures DatesValid(sel) && Valid(d) ==> DatesValid(Click(sel, d, today))
  {
  }

  /** The selection after a sequence of clicks, each with the day it happened on. */
  function Clicks(sel: Selection, clicks: seq<(Date, Date)>): Selection
    decreases |clicks|
  {
    if |clicks| == 0 then sel
    else Clicks(Click(sel, clicks[0].0, clicks[0].1), clicks[1..])
  }

  /** After any click sequence from the empty selection, an end date implies an earlier start. */
  lemma {:induction false} ClicksKeepRange(sel: Selection, clicks: seq<(Date, Date)>)
    requires RangeOk(sel)
    ensures RangeOk(Clicks(sel, clicks))
    decreases |clicks|
  {
    if |clicks| > 0 {
      ClickKeepsRange(sel, clicks[0].0, clicks[0].1);
      ClicksKeepRange(Click(sel, clicks[0].0, clicks[0].1), clicks[1..]);
    }
  }

  /** `isSelected`: inclusive range test when both slots are set, the start alone otherwise. */
  predicate IsSelected(sel: Selection, d: Date) {
    if sel.start.None? then false
    else if sel.end.Some? then !LexBefore(d, sel.start.value) && !LexBefore(sel.end.value, d)
    else d == sel.start.value
  }

  /** `isStartDate`. */
  predicate IsStartDate(sel: Selection, d: Date) {
    sel.start == Some(d)
  }

  /** `isEndDate`. */
  predicate IsEndDate(sel: Selection, d: Date) {
    sel.end == Some(d)
  }

  /** `isInRange`: strictly between start and end. */
  predicate IsInRange(sel: Selection, d: Date) {
    sel.start.Some? && sel.end.Some? && LexBefore(sel.start.value, d) && LexBefore(d, sel.end.value)
  }

  /** The selected cells are exactly the two endpoints and the cells in range; the endpoints
      are never in range. */
  lemma SelectionHighlighting(sel: Selection, d: Date)
    requires RangeOk(sel)
    ensures IsSelected(sel, d) <==> IsStartDate(sel, d) || IsEndDate(sel, d) || IsInRange(sel, d)
    ensures IsStartDate(sel, d) || IsEndDate(sel, d) ==> !IsInRange(sel, d)
  {
  }

  /** The nights shown by `getDateDisplay`: none without a start, one for a lone start date,
      otherwise the day difference between end and start. */
  function Nights(sel: Selection): (r: Option<nat>)
    requires DatesValid(sel) && RangeOk(sel)
    ensures r.Some? <==> sel.start.Some?
    ensures r.Some? ==> r.value >= 1
  {
    if sel.start.None? then None
    else if sel.end.None? then Some(1)
    else
      DayNumberOrder(sel.start.value, sel.end.value);
      Some(DayNumber(sel.end.value) - DayNumber(sel.start.value))
  }

  /** `getEndDateForAPI`: the end date, else the day after the start, else nothing. */
  function EndDateForApi(sel: Selection): (r: Option<Date>)
    requires DatesValid(sel)
    ensures r.Some? <==> sel.start.Some? || sel.end.Some?
    ensures r.Some? ==> Valid(r.value)
    ensures sel.end.Some? ==> r == sel.end
    ensures sel.end.None? && sel.start.Some? ==> r == Some(NextDay(sel.start.value))
    ensures RangeOk(sel) && sel.start.Some? ==> LexBefore(sel.start.value, r.value)
  {
    if sel.end.Some? then sel.end
    else if sel.start.Some? then Some(NextDay(sel.start.value))
    else None
  }

  /** The nights displayed are the nights requested: the day distance from the start to the
      end date sent to the server. */
  lemma NightsMatchRequest(sel: Selection)
    requires DatesValid(sel) && RangeOk(sel) && sel.start.Some?
    ensures Nights(sel).value == DayNumber(EndDateForApi(sel).value) - DayNumber(sel.start.value)
  {
    if sel.end.None? {
      NextDayNumber(sel.start.value);
    }
  }

  /** Two scenarios: 10 to 13 August 2025 is three nights; a lone 10 August asks the server
      for the range ending on 11 August. */
  lemma BookingScenarios()
    ensures Nights(Selection(Some(Date(2025, 8, 10)), Some(Date(2025, 8, 13)))) == Some(3)
    ensures EndDateForApi(Selection(Some(Date(2025, 8, 10)), None)) == Some(Date(2025, 8, 11))
  {
  }

  /** `getDateDisplay`, with the `ko-KR` "month long, day numeric" formatting as `format`. */
  function DateDisplay(sel: Selection, format: Date -> string): (r: string)
    requires DatesValid(sel) && RangeOk(sel)
    ensures sel.start.None? ==> r == "날짜를 선택해주세요"
    ensures sel.start.Some? && sel.end.None? ==> r == format(sel.start.value) + " (1박)"
    ensures sel.start.Some? && sel.end.Some? ==>
      r == format(sel.start.value) + " ~ " + format(sel.end.value) +
           " (" + Text.NatToString(Nights(sel).value) + "박)"
  {
    if sel.start.None? then "날짜를 선택해주세요"
    else
      var startDateStr := format(sel.start.value);
      if sel.end.None? then startDateStr + " (1박)"
      else
        var nights := Nights(sel).value;
        startDateStr + " ~ " + format(sel.end.value) + " (" + Text.NatToString(nights) + "박)"
  }

  // ---------------------------------------------------------------------------------------
  // Requests
  // ---------------------------------------------------------------------------------------

  /** The guest-count choices offered by the select; "" is the unselected placeholder. */
  const GuestOptions: seq<string> := ["6", "7", "8", "9", "10", "11", "12", "13", "14", "15"]

  predicate GuestChoice(g: string) {
    g == "" || g in GuestOptions
  }

  /** `Number(guestCount)` for a chosen option: the number whose decimal numeral is `g`. */
  function Headcount(g: string): (n: nat)
    requires g in GuestOptions
    ensures 6 <= n <= 15
    ensures Text.NatToString(n) == g
  {
    GuestOptionValue(g);
    Text.DecimalValue(g)
  }

  lemma GuestOptionValue(g: string)
    requires g in GuestOptions
    ensures Text.AllDigits(g) && 6 <= Text.DecimalValue(g) <= 15
  {
    if |g| == 2 {
      assert g[..1] == "1";
      assert Text.DecimalValue("1") == 1;
    }
  }

  /** `handleCheckAvailability`: with a start date, the (start, end) pair sent as query
      parameters; without one, no request. */
  function AvailabilityQuery(sel: Selection): (r: Option<(Date, Date)>)
    requires DatesValid(sel) && RangeOk(sel)
    ensures r.Some? <==> sel.start.Some?
    ensures r.Some? ==> r.value.0 == sel.start.value && LexBefore(r.value.0, r.value.1)
    ensures r.Some? ==> Some(r.value.1) == EndDateForApi(sel)
    ensures r.Some? && sel.end.None? ==> r.value.1 == NextDay(sel.start.value)
    ensures r.Some? && sel.end.Some? ==> r.value.1 == sel.end.value
  {
    if sel.start.None? then None
    else Some((sel.start.value, EndDateForApi(sel).value))
  }

  /** The body of the booking POST. */
  datatype BookingRequest = BookingRequest(startDate: Date, endDate: Date, headcount: nat)

  /** What one press of the reserve button does. */
  datatype BookingAction =
    | Ignored                                         // a request is already in flight
    | MissingInfo                                     // alert: no date or no guest count
    | LoginRequired                                   // alert, then `onLoginClick()`
    | Submit(request: BookingRequest, token: string)  // POST with the bearer token

  datatype GuardResult = GuardResult(loading: bool, action: BookingAction)

  /** `handleBooking` up to the POST, given the `loading` flag, the slots, the guest count and
      the stored token. Every path that gets past the first test leaves `loading` true. */
  function BookingGuard(loading: bool, sel: Selection, guestCount: string, token: Option<string>): (r: GuardResult)
    requires DatesValid(sel) && RangeOk(sel) && GuestChoice(guestCount)
    ensures r.loading
    ensures loading ==> r.action == Ignored
    ensures r.action.Submit? <==> !loading && sel.start.Some? && guestCount != "" && LocalStorage.Truthy(token)
    ensures r.action == MissingInfo <==> !loading && (sel.start.None? || guestCount == "")
    ensures r.action == LoginRequired <==>
      !loading && sel.start.Some? && guestCount != "" && !LocalStorage.Truthy(token)
    ensures r.action.Submit? ==>
      r.action.token == token.value &&
      r.action.request.startDate == sel.start.value &&
      Some(r.action.request.endDate) == EndDateForApi(sel) &&
      LexBefore(r.action.request.startDate, r.action.request.endDate) &&
      guestCount in GuestOptions && r.action.request.headcount == Headcount(guestCount) &&
      6 <= r.action.request.headcount <= 15
  {
    if loading then GuardResult(true, Ignored)
    else if sel.start.None? || guestCount == "" then GuardResult(true, MissingInfo)
    else
      var request := BookingRequest(sel.start.value, EndDateForApi(sel).value, Headcount(guestCount));
      if !LocalStorage.Truthy(token) then GuardResult(true, LoginRequired)
      else GuardResult(true, Submit(request, token.value))
  }

  /** As coded, an early return leaves `loading` set, so once the alert for missing
      information has been shown every later press is ignored, even with a complete form. */
  lemma MissingInfoLocksBooking(sel: Selection, guests: string, token: Option<string>,
                                sel2: Selection, guests2: string, token2: Option<string>)
    requires DatesValid(sel) && RangeOk(sel) && GuestChoice(guests)
    requires DatesValid(sel2) && RangeOk(sel2) && GuestChoice(guests2)
    requires BookingGuard(false, sel, guests, token).action == MissingInfo
    ensures BookingGuard(BookingGuard(false, sel, guests, token).loading, sel2, guests2, token2).action == Ignored
  {
  }

  // ---------------------------------------------------------------------------------------
  // The page's state
  // ---------------------------------------------------------------------------------------

  class BookingSystemPage {
    var currentDate: Date
    var selectedStartDate: Option<Date>
    var selectedEndDate: Option<Date>
    var guestCount: string
    var loading: bool

    function Sel(): Selection
      reads this
    {
      Selection(selectedStartDate, selectedEndDate)
    }

    ghost predicate Valid()
      reads this
    {
      Gregorian.Valid(currentDate) && DatesValid(Sel()) && RangeOk(Sel()) && GuestChoice(guestCount)
    }

    /** The page as mounted on day `today`: today's month shown, nothing selected. */
    constructor (today: Date)
      requires Gregorian.Valid(today)
      ensures Valid()
      ensures currentDate == today && Sel() == NoSelection && guestCount == "" && !loading
    {
      currentDate := today;
      selectedStartDate, selectedEndDate := None, None;
      guestCount := "";
      loading := false;
    }

    /** The cells rendered for the displayed month. */
    method Grid() returns (allDays: seq<Date>)
      requires Valid()
      ensures allDays == MonthGrid(YearMonth(currentDate.year, currentDate.month))
    {
      allDays := BuildGrid(currentDate);
    }

    method HandlePrevMonth()
      requires Valid()
      modifies this`currentDate
      ensures Valid()
      ensures currentDate == PrevMonthStart(old(currentDate))
    {
      var ym := PrevMonth(currentDate.year, currentDate.month);
      currentDate := Date(ym.year, ym.month, 1);
    }

    method HandleNextMonth()
      requires Valid()
      modifies this`currentDate
      ensures Valid()
      ensures currentDate == NextMonthStart(old(currentDate))
    {
      var ym := NextMonth(currentDate.year, currentDate.month);
      currentDate := Date(ym.year, ym.month, 1);
    }

    /** `handleDateClick(date)`, clicked on day `today`. */
    method HandleDateClick(date: Date, today: Date)
      requires Valid() && Gregorian.Valid(date)
      modifies this`selectedStartDate, this`selectedEndDate
      ensures Valid()
      ensures Sel() == Click(old(Sel()), date, today)
    {
      ClickKeepsRange(Sel(), date, today);
      if LexBefore(date, today) {
        return;
      }
      if selectedStartDate.None? || selectedEndDate.Some? {
        selectedStartDate := Some(date);
        selectedEndDate := None;
      } else {
        if LexBefore(selectedStartDate.value, date) {
          selectedEndDate := Some(date);
        } else {
          selectedStartDate := Some(date);
          selectedEndDate := None;
        }
      }
    }

    /** The guest-count select's `onChange`. */
    method SetGuestCount(value: string)
      requires Valid() && GuestChoice(value)
      modifies this`guestCount
      ensures Valid() && guestCount == value
    {
      guestCount := value;
    }

    /** `handleBooking` up to the POST, with the store's contents at the moment of the press. */
    method HandleBooking(store: map<string, string>) returns (action: BookingAction)
      requires Valid()
      modifies this`loading
      ensures Valid()
      ensures GuardResult(loading, action) ==
              BookingGuard(old(loading), Sel(), guestCount, LocalStorage.GetItem(store, "jwt"))
    {
      if loading {
        return Ignored;
      }
      loading := true;
      if selectedStartDate.None? || guestCount == "" {
        return MissingInfo;
      }
      var endDate := EndDateForApi(Sel());
      assert endDate.Some?;
      var body := BookingRequest(selectedStartDate.value, endDate.value, Headcount(guestCount));
      var token := LocalStorage.GetItem(store, "jwt");
      if !LocalStorage.Truthy(token) {
        return LoginRequired;
      }
      action := Submit(body, token.value);
    }

    /** The last statement of `handleBooking`, reached once the POST it issued has settled
        (success alert and redirect, or failure alert). */
    method BookingSettled()
      requires Valid()
      modifies this`loading
      ensures Valid() && !loading
    {
      loading := false;
    }
  }
}
