/**
 * Which stretch of time each digest of one profile covers
 * (packages/digest/src/build.ts). Times are milliseconds, windows are
 * half-open, and an urgent digest has an empty window at its event's time.
 */
module DigestWindows {
  import opened Wrappers
  import Calendar

  const HOUR_MS := 3_600_000
  const DAY_MS := 24 * HOUR_MS
  const FIRST_RUN_MS := 7 * DAY_MS
  const FIRST_RUN_FALLBACK_MS := 30 * DAY_MS
  const MAX_WINDOW_MS := 30 * DAY_MS

  datatype Channel = Telegram | Email | WebOnly

  datatype Window = Window(start: int, end: int)

  /**
   * A digest row and the events its cards are made from. The table does not
   * tell monthly reports from other rows and nothing reads `isMonthly` when it
   * builds; the mark is there to speak about the rows.
   */
  datatype Digest = Digest(window: Window, channel: Channel, reported: set<nat>, isMonthly: bool)

  /** `wantsEmail` is the chosen channel; an email may be paused and a chat may be missing. */
  datatype Delivery = Delivery(wantsEmail: bool, isEmailPaused: bool, hasChat: bool)

  function ChannelFor(d: Delivery): Channel {
    if d.wantsEmail then (if d.isEmailPaused then WebOnly else Email)
    else if d.hasChat then Telegram else WebOnly
  }

  /** The channel that was chosen, unless it is paused or has no chat; then the web only. */
  ghost predicate GoesTo(delivery: Delivery, channel: Channel) {
    && (channel == Email <==> delivery.wantsEmail && !delivery.isEmailPaused)
    && (channel == Telegram <==> !delivery.wantsEmail && delivery.hasChat)
  }

  /** The top of the UTC hour. */
  function HourOf(t: int): int {
    t - t % HOUR_MS
  }

  predicate IsRegular(d: Digest) {
    d.window.start != d.window.end
  }

  /** A weekly or daily digest: neither urgent nor a monthly report. */
  predicate IsPeriod(d: Digest) {
    IsRegular(d) && !d.isMonthly
  }

  /** The regular row that ends last: `ORDER BY period_end DESC LIMIT 1`. */
  function LastRegular(rows: seq<Digest>): (last: Option<nat>)
    ensures last.Some? ==> last.value < |rows| && IsRegular(rows[last.value])
    ensures forall i :: 0 <= i < |rows| && IsRegular(rows[i]) ==>
      last.Some? && rows[i].window.end <= rows[last.value].window.end
  {
    if rows == [] then None
    else
      var n := |rows| - 1;
      var before := LastRegular(rows[..n]);
      if IsRegular(rows[n]) && (before == None || rows[n].window.end > rows[before.value].window.end)
      then Some(n) else before
  }

  function PreviousEnd(rows: seq<Digest>): Option<int> {
    var last := LastRegular(rows);
    if last.Some? then Some(rows[last.value].window.end) else None
  }

  function Max(a: int, b: int): int {
    if a >= b then a else b
  }

  /** Behind the previous end or, without one, a week or thirty days back; thirty days at the most. */
  function PlanWindow(previousEnd: Option<int>, end: int, isWidened: bool): Window {
    var floor := end - MAX_WINDOW_MS;
    if previousEnd.Some? then Window(Max(previousEnd.value, floor), end)
    else
      var back := if isWidened then FIRST_RUN_FALLBACK_MS else FIRST_RUN_MS;
      Window(Max(end - back, floor), end)
  }

  predicate Within(w: Window, t: int) {
    w.start <= t < w.end
  }

  /** `created` maps events to when they were recorded; `visible` are those with facts about targets not paused. */
  function EventsIn(created: map<nat, int>, visible: set<nat>, w: Window): set<nat> {
    set id | id in visible && id in created && Within(w, created[id])
  }

  predicate HasRow(rows: seq<Digest>, w: Window, channel: Channel) {
    exists i :: 0 <= i < |rows| && rows[i].window == w && rows[i].channel == channel
  }

  function WriteDigest(rows: seq<Digest>, d: Digest): seq<Digest> {
    if HasRow(rows, d.window, d.channel) then rows else rows + [d]
  }

  /** The window a build uses: widened when the first week turns out empty. */
  function ChosenWindow(rows: seq<Digest>, created: map<nat, int>, visible: set<nat>, now: int): Window {
    var week := PlanWindow(PreviousEnd(rows), now, false);
    if PreviousEnd(rows) == None && EventsIn(created, visible, week) == {}
    then PlanWindow(None, now, true) else week
  }

  function BuildPeriod(
    rows: seq<Digest>, created: map<nat, int>, visible: set<nat>, now: int, channel: Channel): seq<Digest>
  {
    var previousEnd := PreviousEnd(rows);
    if previousEnd.Some? && previousEnd.value >= HourOf(now) then rows
    else
      var w := ChosenWindow(rows, created, visible, now);
      WriteDigest(rows, Digest(w, channel, EventsIn(created, visible, w), false))
  }

  /** Nothing for an event that is unknown, not urgent, or may not be shown. */
  function BuildUrgent(
    rows: seq<Digest>, created: map<nat, int>, visible: set<nat>, urgent: set<nat>, id: nat,
    channel: Channel): seq<Digest>
  {
    if id !in created || id !in urgent || id !in visible then rows
    else WriteDigest(rows, Digest(Window(created[id], created[id]), channel, {id}, false))
  }

  /** The row for the window and channel. */
  function FindRow(rows: seq<Digest>, w: Window, channel: Channel): (found: Option<nat>)
    ensures found.Some? ==>
      found.value < |rows| && rows[found.value].window == w && rows[found.value].channel == channel
    ensures found == None ==> !HasRow(rows, w, channel)
  {
    if rows == [] then None
    else
      var n := |rows| - 1;
      var before := FindRow(rows[..n], w, channel);
      if before.Some? then before
      else if rows[n].window == w && rows[n].channel == channel then Some(n) else None
  }

  /** A web-only digest again, for Telegram. One row has the window, so the window names it. */
  function CopyToTelegram(rows: seq<Digest>, w: Window): seq<Digest> {
    var found := FindRow(rows, w, WebOnly);
    if found == None then rows else WriteDigest(rows, rows[found.value].(channel := Telegram))
  }

  /** A calendar month in UTC; months are numbered as in Calendar. */
  function MonthWindow(month: int): (w: Window)
    ensures w.start < w.end
  {
    Calendar.NextMonth(month);
    Window(Calendar.FirstDay(month) * DAY_MS, Calendar.FirstDay(month + 1) * DAY_MS)
  }

  /** The unique index refuses a second report of the same month. */
  function WriteMonthly(rows: seq<Digest>, month: int, reported: set<nat>): seq<Digest> {
    WriteDigest(rows, Digest(MonthWindow(month), WebOnly, reported, true))
  }

  // ---- The store

  /** At most one row for each window and channel. */
  ghost predicate Unique(rows: seq<Digest>) {
    forall i, j :: 0 <= i < j < |rows| ==>
      rows[i].window != rows[j].window || rows[i].channel != rows[j].channel
  }

  /** What a build answers: the digest's row, whether it is new, and how many cards it was given. */
  datatype Built = Built(digest: nat, isNew: bool, channel: Channel, cardCount: nat)

  /** The stored digests of one profile; `cardsFor` is how many cards a set of events makes. */
  class DigestStore {
    var rows: seq<Digest>

    constructor ()
      ensures rows == []
    {
      rows := [];
    }

    method Write(d: Digest, cardsFor: set<nat> -> nat) returns (built: Built)
      modifies this
      ensures rows == WriteDigest(old(rows), d)
      ensures Unique(old(rows)) ==> Unique(rows)
      ensures built.digest < |rows|
      ensures rows[built.digest].window == d.window && rows[built.digest].channel == d.channel == built.channel
      ensures built.isNew <==> !HasRow(old(rows), d.window, d.channel)
      ensures built.isNew ==> rows[built.digest] == d
      ensures built.cardCount == cardsFor(d.reported)
    {
      var existing := FindRow(rows, d.window, d.channel);
      if existing.Some? {
        return Built(existing.value, false, d.channel, cardsFor(d.reported));
      }
      rows := rows + [d];
      return Built(|rows| - 1, true, d.channel, cardsFor(d.reported));
    }

    /**
     * Either a new row at the end, with the cards of its events, or the row
     * that ended in this hour or later, with no cards.
     */
    method BuildPeriodDigest(
      created: map<nat, int>, visible: set<nat>, now: int, delivery: Delivery, cardsFor: set<nat> -> nat)
      returns (built: Built)
      modifies this
      ensures rows == BuildPeriod(old(rows), created, visible, now, ChannelFor(delivery))
      ensures built.isNew <==> rows != old(rows)
      ensures built.channel == ChannelFor(delivery) && GoesTo(delivery, built.channel)
      ensures built.digest < |rows| && IsRegular(rows[built.digest])
      ensures built.isNew ==>
        && built.digest == |old(rows)| && rows[built.digest].channel == built.channel
        && rows[built.digest].window.end == now && built.cardCount == cardsFor(rows[built.digest].reported)
      ensures !built.isNew ==>
        rows[built.digest].window.end >= HourOf(now) && built.cardCount == 0
    {
      hide LastRegular, EventsIn;
      var last := LastRegular(rows);
      var previousEnd := if last.Some? then Some(rows[last.value].window.end) else None;
      if previousEnd.Some? && previousEnd.value >= HourOf(now) {
        return Built(last.value, false, ChannelFor(delivery), 0);
      }
      NewRowIsLater(rows, created, visible, now);
      var window := PlanWindow(previousEnd, now, false);
      var events := EventsIn(created, visible, window);
      if previousEnd == None && events == {} {
        window := PlanWindow(previousEnd, now, true);
        events := EventsIn(created, visible, window);
      }
      assert window == ChosenWindow(rows, created, visible, now);
      built := Write(Digest(window, ChannelFor(delivery), events, false), cardsFor);
    }

    /** No digest at all for an event that is unknown, not urgent or not to be shown. */
    method BuildUrgentDigest(
      created: map<nat, int>, visible: set<nat>, urgent: set<nat>, id: nat, delivery: Delivery,
      cardsFor: set<nat> -> nat) returns (built: Option<Built>)
      modifies this
      ensures rows == BuildUrgent(old(rows), created, visible, urgent, id, ChannelFor(delivery))
      ensures built.Some? <==> id in created && id in urgent && id in visible
      ensures built == None ==> rows == old(rows)
      ensures built.Some? ==> GoesTo(delivery, built.value.channel)
      ensures built.Some? ==>
        && built.value.digest < |rows| && (built.value.isNew <==> rows != old(rows))
        && rows[built.value.digest].window == Window(created[id], created[id])
        && rows[built.value.digest].channel == built.value.channel == ChannelFor(delivery)
    {
      if id !in created || id !in urgent {
        return None;
      }
      if id !in visible {
        return None;
      }
      var answer := Write(Digest(Window(created[id], created[id]), ChannelFor(delivery), {id}, false), cardsFor);
      return Some(answer);
    }
  }

  // ---- Runs

  datatype Op =
    | Record(id: nat, at: int)
    | BuildNow(visible: set<nat>, now: int, delivery: Delivery)
    | SendUrgent(visible: set<nat>, urgent: set<nat>, id: nat, delivery: Delivery)
    | SendToTelegram(window: Window)
    | ReportMonth(month: int, reported: set<nat>)

  datatype State = State(rows: seq<Digest>, created: map<nat, int>)

  const EMPTY := State([], map[])

  function Step(s: State, op: Op): State {
    match op
    case Record(id, at) => if id in s.created then s else s.(created := s.created[id := at])
    case BuildNow(visible, now, delivery) =>
      s.(rows := BuildPeriod(s.rows, s.created, visible, now, ChannelFor(delivery)))
    case SendUrgent(visible, urgent, id, delivery) =>
      s.(rows := BuildUrgent(s.rows, s.created, visible, urgent, id, ChannelFor(delivery)))
    case SendToTelegram(window) => s.(rows := CopyToTelegram(s.rows, window))
    case ReportMonth(month, reported) => s.(rows := WriteMonthly(s.rows, month, reported))
  }

  function Run(s: State, ops: seq<Op>): State
    decreases |ops|
  {
    if ops == [] then s else Run(Step(s, ops[0]), ops[1..])
  }

  /** Two period windows are the same window or have no instant in common, even within an hour. */
  predicate Apart(a: Digest, b: Digest) {
    IsPeriod(a) && IsPeriod(b) ==>
      || a.window == b.window
      || (a.window.end <= b.window.start && HourOf(a.window.end) < HourOf(b.window.end))
      || (b.window.end <= a.window.start && HourOf(b.window.end) < HourOf(a.window.end))
  }

  /** Where a window that is built behind these rows begins. */
  ghost predicate StartsBehind(rows: seq<Digest>, w: Window) {
    && w.end - MAX_WINDOW_MS <= w.start < w.end
    && (forall i :: 0 <= i < |rows| && IsRegular(rows[i]) ==>
          rows[i].window.end <= w.start && rows[i].window.end < HourOf(w.end))
    && (PreviousEnd(rows).Some? ==> w.start == Max(PreviousEnd(rows).value, w.end - MAX_WINDOW_MS))
  }

  /** The row with this window that was built, not copied: its window was chosen behind the rows before it. */
  ghost predicate IsOrigin(rows: seq<Digest>, j: nat, w: Window) {
    j < |rows| && IsPeriod(rows[j]) && rows[j].window == w && StartsBehind(rows[..j], w)
  }

  ghost predicate HasOrigin(rows: seq<Digest>, k: nat)
    requires k < |rows|
  {
    exists j: nat :: j <= k && IsOrigin(rows, j, rows[k].window)
  }

  ghost predicate WindowsOk(rows: seq<Digest>) {
    && (forall i :: 0 <= i < |rows| && IsRegular(rows[i]) ==> rows[i].window.start < rows[i].window.end)
    && (forall i, j :: 0 <= i < |rows| && 0 <= j < |rows| ==> Apart(rows[i], rows[j]))
    && Unique(rows)
  }

  ghost predicate Chained(rows: seq<Digest>) {
    forall k :: 0 <= k < |rows| && IsPeriod(rows[k]) ==> HasOrigin(rows, k)
  }

  ghost predicate Reports(rows: seq<Digest>, created: map<nat, int>) {
    forall i, id :: 0 <= i < |rows| && !rows[i].isMonthly && id in rows[i].reported ==>
      id in created && (IsRegular(rows[i]) ==> Within(rows[i].window, created[id]))
  }

  ghost predicate Valid(s: State) {
    WindowsOk(s.rows) && Chained(s.rows) && Reports(s.rows, s.created)
  }

  lemma NewRowIsLater(rows: seq<Digest>, created: map<nat, int>, visible: set<nat>, now: int)
    requires PreviousEnd(rows).Some? ==> PreviousEnd(rows).value < HourOf(now)
    ensures var w := ChosenWindow(rows, created, visible, now);
      w.end == now && StartsBehind(rows, w) && forall channel :: !HasRow(rows, w, channel)
  {
    hide EventsIn;
  }

  lemma ChainedAppend(rows: seq<Digest>, d: Digest)
    requires Chained(rows)
    requires IsPeriod(d) ==>
      StartsBehind(rows, d.window) || exists j: nat :: IsOrigin(rows, j, d.window)
    ensures Chained(rows + [d])
  {
    hide StartsBehind;
    var rows' := rows + [d];
    forall k | 0 <= k < |rows'| && IsPeriod(rows'[k])
      ensures HasOrigin(rows', k)
    {
      if k == |rows| && StartsBehind(rows, d.window) {
        assert rows'[..k] == rows;
        assert IsOrigin(rows', k, d.window);
      } else {
        assert k < |rows| ==> HasOrigin(rows, k);
        var j: nat :| IsOrigin(rows, j, rows'[k].window) && (k < |rows| ==> j <= k);
        assert rows'[..j] == rows[..j];
        assert IsOrigin(rows', j, rows'[k].window);
      }
    }
  }

  /** What a row must be like to be written without harm. */
  ghost predicate Fits(s: State, d: Digest) {
    && (IsRegular(d) ==> d.window.start < d.window.end)
    && (IsPeriod(d) ==>
          || StartsBehind(s.rows, d.window)
          || exists i :: 0 <= i < |s.rows| && IsPeriod(s.rows[i]) && s.rows[i].window == d.window)
    && (!d.isMonthly ==> forall id :: id in d.reported ==>
          id in s.created && (IsRegular(d) ==> Within(d.window, s.created[id])))
  }

  lemma WriteKeeps(s: State, d: Digest)
    requires Valid(s) && Fits(s, d)
    ensures Valid(s.(rows := WriteDigest(s.rows, d))) && s.rows <= WriteDigest(s.rows, d)
  {
    hide WindowsOk, Chained, Reports, Fits, HasRow;
    if !HasRow(s.rows, d.window, d.channel) {
      WindowsAppend(s, d);
      FittingIsChained(s, d);
      FittingReports(s, d);
    }
  }

  lemma FittingIsChained(s: State, d: Digest)
    requires Chained(s.rows) && Fits(s, d)
    ensures Chained(s.rows + [d])
  {
    hide StartsBehind;
    if IsPeriod(d) && !StartsBehind(s.rows, d.window) {
      var i :| 0 <= i < |s.rows| && IsPeriod(s.rows[i]) && s.rows[i].window == d.window;
      assert HasOrigin(s.rows, i);
    }
    ChainedAppend(s.rows, d);
  }

  lemma FittingReports(s: State, d: Digest)
    requires Reports(s.rows, s.created) && Fits(s, d)
    ensures Reports(s.rows + [d], s.created)
  {
    hide StartsBehind;
  }

  lemma WindowsAppend(s: State, d: Digest)
    requires Valid(s) && Fits(s, d) && !HasRow(s.rows, d.window, d.channel)
    ensures WindowsOk(s.rows + [d])
  {
    hide LastRegular, Chained, Reports, HourOf;
    var rows' := s.rows + [d];
    forall i, j | 0 <= i < |rows'| && 0 <= j < |rows'|
      ensures Apart(rows'[i], rows'[j])
    {
      if IsPeriod(d) && !StartsBehind(s.rows, d.window) {
        var at :| 0 <= at < |s.rows| && IsPeriod(s.rows[at]) && s.rows[at].window == d.window;
        var a, b := if i == |s.rows| then at else i, if j == |s.rows| then at else j;
        assert Apart(s.rows[a], s.rows[b]);
      } else {
        HoursApart(s.rows, d);
        assert i < |s.rows| && j < |s.rows| ==> Apart(s.rows[i], s.rows[j]);
      }
    }
  }

  lemma HoursApart(rows: seq<Digest>, d: Digest)
    requires IsPeriod(d) ==> StartsBehind(rows, d.window)
    ensures Apart(d, d)
    ensures forall i :: 0 <= i < |rows| ==> Apart(rows[i], d) && Apart(d, rows[i])
  {
    hide LastRegular;
  }

  lemma StepKeeps(s: State, op: Op)
    requires Valid(s)
    ensures Valid(Step(s, op))
    ensures forall id :: id in s.created ==> id in Step(s, op).created && Step(s, op).created[id] == s.created[id]
    ensures s.rows <= Step(s, op).rows
  {
    hide Valid, WriteDigest, StartsBehind, ChosenWindow, HourOf, EventsIn, PreviousEnd;
    match op {
      case Record(id, at) => RecordKeeps(s, id, at);
      case BuildNow(visible, now, delivery) =>
        if !(PreviousEnd(s.rows).Some? && PreviousEnd(s.rows).value >= HourOf(now)) {
          BuildFits(s, visible, now, ChannelFor(delivery));
          var w := ChosenWindow(s.rows, s.created, visible, now);
          WriteKeeps(s, Digest(w, ChannelFor(delivery), EventsIn(s.created, visible, w), false));
        }
      case SendUrgent(visible, urgent, id, delivery) =>
        if id in s.created && id in visible && id in urgent {
          WriteKeeps(s, Digest(Window(s.created[id], s.created[id]), ChannelFor(delivery), {id}, false));
        }
      case SendToTelegram(window) =>
        var found := FindRow(s.rows, window, WebOnly);
        if found.Some? {
          CopyFits(s, found.value);
          WriteKeeps(s, s.rows[found.value].(channel := Telegram));
        }
      case ReportMonth(month, reported) =>
        WriteKeeps(s, Digest(MonthWindow(month), WebOnly, reported, true));
    }
  }

  lemma RecordKeeps(s: State, id: nat, at: int)
    requires Valid(s)
    ensures Valid(Step(s, Record(id, at)))
  {
    hide WindowsOk, Chained;
  }

  lemma BuildFits(s: State, visible: set<nat>, now: int, channel: Channel)
    requires PreviousEnd(s.rows).Some? ==> PreviousEnd(s.rows).value < HourOf(now)
    ensures var w := ChosenWindow(s.rows, s.created, visible, now);
      Fits(s, Digest(w, channel, EventsIn(s.created, visible, w), false))
  {
    NewRowIsLater(s.rows, s.created, visible, now);
    hide ChosenWindow, HourOf, LastRegular;
  }

  lemma CopyFits(s: State, i: nat)
    requires Valid(s) && i < |s.rows|
    ensures Fits(s, s.rows[i].(channel := Telegram))
  {
    hide Chained, StartsBehind, Apart;
    var d := s.rows[i].(channel := Telegram);
    assert IsPeriod(d) ==> IsPeriod(s.rows[i]) && s.rows[i].window == d.window;
  }

  lemma {:induction false} RunKeeps(s: State, ops: seq<Op>)
    requires Valid(s)
    ensures Valid(Run(s, ops))
    decreases |ops|
  {
    hide Valid, Step;
    if ops != [] {
      StepKeeps(s, ops[0]);
      RunKeeps(Step(s, ops[0]), ops[1..]);
    }
  }

  lemma ReachableIsValid(ops: seq<Op>)
    ensures Valid(Run(EMPTY, ops))
  {
    assert Valid(EMPTY);
    RunKeeps(EMPTY, ops);
  }

  /**
   * In any run, at any clock readings, two period digests cover the same
   * window or disjoint ones, at most one window ends in any UTC hour, no event
   * is reported in two different windows, and each window was chosen behind
   * every regular row that was there when it was built.
   */
  lemma WindowsNeverOverlap(ops: seq<Op>, i: nat, j: nat)
    requires var s := Run(EMPTY, ops);
      i < |s.rows| && j < |s.rows| && IsPeriod(s.rows[i]) && IsPeriod(s.rows[j])
    ensures var s := Run(EMPTY, ops);
      var a, b := s.rows[i], s.rows[j];
      && a.window.start < a.window.end
      && (a.window == b.window || a.window.end <= b.window.start || b.window.end <= a.window.start)
      && (a.window.end / 3_600_000 == b.window.end / 3_600_000 ==> a.window == b.window)
      && (a.window != b.window ==> a.reported !! b.reported)
      && (a.window == b.window && a.channel == b.channel ==> i == j)
      && HasOrigin(s.rows, i)
  {
    hide Run, HourOf, HasOrigin, WindowsOk, Reports;
    ReachableIsValid(ops);
    var s := Run(EMPTY, ops);
    HourIs(s.rows[i].window.end, s.rows[j].window.end);
    TwoWindows(s.rows, i, j);
    ReportedOnce(s, i, j);
  }

  lemma HourIs(a: int, b: int)
    ensures HourOf(a) == HourOf(b) <==> a / 3_600_000 == b / 3_600_000
  {
  }

  lemma TwoWindows(rows: seq<Digest>, i: nat, j: nat)
    requires WindowsOk(rows) && i < |rows| && j < |rows| && IsPeriod(rows[i]) && IsPeriod(rows[j])
    ensures var a, b := rows[i].window, rows[j].window;
      && a.start < a.end
      && (a == b || a.end <= b.start || b.end <= a.start)
      && (HourOf(a.end) == HourOf(b.end) ==> a == b)
      && (a == b && rows[i].channel == rows[j].channel ==> i == j)
  {
    hide HourOf;
    assert Apart(rows[i], rows[j]);
  }

  lemma ReportedOnce(s: State, i: nat, j: nat)
    requires WindowsOk(s.rows) && Reports(s.rows, s.created)
    requires i < |s.rows| && j < |s.rows| && IsPeriod(s.rows[i]) && IsPeriod(s.rows[j])
    ensures s.rows[i].window != s.rows[j].window ==> s.rows[i].reported !! s.rows[j].reported
  {
    TwoWindows(s.rows, i, j);
    hide WindowsOk, HourOf;
    forall id | id in s.rows[i].reported && id in s.rows[j].reported
      ensures s.rows[i].window == s.rows[j].window
    {
      assert Within(s.rows[i].window, s.created[id]) && Within(s.rows[j].window, s.created[id]);
    }
  }

  // ---- Which events are reported

  lemma {:induction false} RunConcat(s: State, a: seq<Op>, b: seq<Op>)
    ensures Run(s, a + b) == Run(Run(s, a), b)
    decreases |a|
  {
    hide Step;
    if a == [] {
      assert a + b == b;
    } else {
      assert (a + b)[1..] == a[1..] + b;
      RunConcat(Step(s, a[0]), a[1..], b);
    }
  }

  lemma RunAppend(ops: seq<Op>, op: Op)
    ensures Run(EMPTY, ops + [op]) == Step(Run(EMPTY, ops), op)
  {
    hide Step;
    RunConcat(EMPTY, ops, [op]);
    var s := Run(EMPTY, ops);
    assert [op][1..] == [];
    assert Run(Step(s, op), []) == Step(s, op);
  }

  /** Rows are only added and events keep the time they were recorded. */
  lemma {:induction false} RunExtends(s: State, ops: seq<Op>)
    requires Valid(s)
    ensures s.rows <= Run(s, ops).rows
    ensures forall id :: id in s.created ==> id in Run(s, ops).created && Run(s, ops).created[id] == s.created[id]
    decreases |ops|
  {
    hide Valid, Step;
    if ops != [] {
      StepKeeps(s, ops[0]);
      RunExtends(Step(s, ops[0]), ops[1..]);
    }
  }

  /** The operation is a build that adds a row for the window. */
  ghost predicate Builds(s: State, op: Op, w: Window) {
    && op.BuildNow?
    && (PreviousEnd(s.rows).Some? ==> PreviousEnd(s.rows).value < HourOf(op.now))
    && w == ChosenWindow(s.rows, s.created, op.visible, op.now)
  }

  /** The n-th operation is the build that chose the window. */
  ghost predicate BuiltAt(ops: seq<Op>, n: nat, w: Window) {
    n < |ops| && Builds(Run(EMPTY, ops[..n]), ops[n], w)
  }

  /** The row shows what the n-th operation, the build of its window, found. */
  ghost predicate RowFrom(ops: seq<Op>, row: Digest, n: nat) {
    && BuiltAt(ops, n, row.window) && ops[n].BuildNow?
    && row.reported == EventsIn(Run(EMPTY, ops[..n]).created, ops[n].visible, row.window)
  }

  /** Some period row already has the window and shows the events. */
  ghost predicate ShownBefore(rows: seq<Digest>, row: Digest) {
    exists k: nat :: k < |rows| && Shows(rows[k], row)
  }

  predicate Shows(a: Digest, b: Digest) {
    IsPeriod(a) && a.window == b.window && a.reported == b.reported
  }

  lemma WrittenRow(rows: seq<Digest>, d: Digest, i: nat)
    requires i < |WriteDigest(rows, d)| && IsPeriod(WriteDigest(rows, d)[i])
    ensures var row := WriteDigest(rows, d)[i];
      ShownBefore(rows, row) || (row == d && IsPeriod(d))
  {
    hide HasRow;
    if i < |rows| {
      assert Shows(rows[i], WriteDigest(rows, d)[i]);
    }
  }

  lemma OldRow(rows: seq<Digest>, i: nat)
    requires i < |rows| && IsPeriod(rows[i])
    ensures ShownBefore(rows, rows[i])
  {
    assert Shows(rows[i], rows[i]);
  }

  /** A period row after a step shows what one before it shows, or the step built it. */
  lemma RowOfStep(s: State, op: Op, i: nat)
    requires i < |Step(s, op).rows| && IsPeriod(Step(s, op).rows[i])
    ensures var row := Step(s, op).rows[i];
      || ShownBefore(s.rows, row)
      || (Builds(s, op, row.window) && op.BuildNow?
          && row.reported == EventsIn(s.created, op.visible, row.window))
  {
    hide WriteDigest, ChosenWindow, HourOf, EventsIn, PreviousEnd, ShownBefore, FindRow, MonthWindow;
    if Step(s, op).rows == s.rows {
      OldRow(s.rows, i);
    } else {
      match op {
        case BuildNow(visible, now, delivery) =>
          var w := ChosenWindow(s.rows, s.created, visible, now);
          WrittenRow(s.rows, Digest(w, ChannelFor(delivery), EventsIn(s.created, visible, w), false), i);
        case SendUrgent(_, _, id, delivery) =>
          WrittenRow(s.rows, Digest(Window(s.created[id], s.created[id]), ChannelFor(delivery), {id}, false), i);
        case SendToTelegram(window) =>
          var k := FindRow(s.rows, window, WebOnly).value;
          WrittenRow(s.rows, s.rows[k].(channel := Telegram), i);
          CopyShows(s.rows, k, Step(s, op).rows[i]);
        case ReportMonth(month, reported) =>
          WrittenRow(s.rows, Digest(MonthWindow(month), WebOnly, reported, true), i);
        case Record(_, _) =>
      }
    }
  }

  lemma CopyShows(rows: seq<Digest>, k: nat, row: Digest)
    requires k < |rows|
    ensures row == rows[k].(channel := Telegram) && IsPeriod(row) ==> ShownBefore(rows, row)
  {
    assert row == rows[k].(channel := Telegram) && IsPeriod(row) ==> Shows(rows[k], row);
  }

  /** Each period row shows what the build of its window found, also when it is a copy. */
  lemma {:induction false} RowIsBuilt(ops: seq<Op>, i: nat)
    requires i < |Run(EMPTY, ops).rows| && IsPeriod(Run(EMPTY, ops).rows[i])
    ensures exists n: nat :: RowFrom(ops, Run(EMPTY, ops).rows[i], n)
    decreases |ops|
  {
    hide Step, Builds, EventsIn;
    if |ops| > 0 {
      var m := |ops| - 1;
      var before, op := ops[..m], ops[m];
      assert ops == before + [op];
      RunAppend(before, op);
      RowOfStep(Run(EMPTY, before), op, i);
      RowLifts(before, op, Run(EMPTY, ops).rows[i]);
      var s, row := Run(EMPTY, before), Run(EMPTY, ops).rows[i];
      if ShownBefore(s.rows, row) {
        var k: nat :| k < |s.rows| && Shows(s.rows[k], row);
        RowIsBuilt(before, k);
        var n: nat :| RowFrom(before, s.rows[k], n);
        assert RowFrom(before, row, n);
      } else {
        assert ops[..m] == before;
        assert RowFrom(ops, row, m);
      }
    }
  }

  /** What an operation found does not depend on later ones. */
  lemma RowLifts(ops: seq<Op>, op: Op, row: Digest)
    ensures forall n: nat :: RowFrom(ops, row, n) ==> RowFrom(ops + [op], row, n)
  {
    hide Builds, EventsIn, Run;
    forall n: nat | RowFrom(ops, row, n) ensures RowFrom(ops + [op], row, n) {
      assert (ops + [op])[..n] == ops[..n];
    }
  }

  predicate HasWindow(d: Digest, w: Window) {
    IsRegular(d) && d.window == w
  }

  /** A build puts its window into the table. */
  lemma BuildAddsWindow(s: State, op: Op, w: Window)
    requires Builds(s, op, w)
    ensures exists i: nat :: i < |Step(s, op).rows| && HasWindow(Step(s, op).rows[i], w)
  {
    NewRowIsLater(s.rows, s.created, op.visible, op.now);
    hide ChosenWindow, HourOf, EventsIn, PreviousEnd, HasRow;
    assert HasWindow(Step(s, op).rows[|s.rows|], w);
  }

  /** No window is built twice. */
  lemma BuiltOnce(ops: seq<Op>, m: nat, n: nat, w: Window)
    requires BuiltAt(ops, m, w) && BuiltAt(ops, n, w)
    ensures m >= n
  {
    hide Step, Run, Builds, Valid, StartsBehind;
    if m < n {
      var s, later := Run(EMPTY, ops[..m]), Run(EMPTY, ops[..n]);
      var next := Step(s, ops[m]);
      assert ops[..m] + [ops[m]] == ops[..m + 1];
      RunAppend(ops[..m], ops[m]);
      ReachableIsValid(ops[..m + 1]);
      assert ops[..n] == ops[..m + 1] + ops[m + 1..n];
      RunConcat(EMPTY, ops[..m + 1], ops[m + 1..n]);
      RunExtends(next, ops[m + 1..n]);
      BuildAddsWindow(s, ops[m], w);
      var i: nat :| i < |next.rows| && HasWindow(next.rows[i], w);
      assert later.rows[i] == next.rows[i];
      NotBuiltAgain(later, ops[n], w, i);
    }
  }

  lemma NotBuiltAgain(s: State, op: Op, w: Window, i: nat)
    requires i < |s.rows| && IsRegular(s.rows[i]) && s.rows[i].window == w
    ensures !Builds(s, op, w)
  {
    if Builds(s, op, w) {
      NewRowIsLater(s.rows, s.created, op.visible, op.now);
    }
  }

  ghost predicate IsReported(rows: seq<Digest>, id: nat) {
    exists k :: 0 <= k < |rows| && IsPeriod(rows[k]) && id in rows[k].reported
  }

  /**
   * An event recorded at an instant that a period window covers is in a period
   * digest exactly when it had been recorded and could be shown at the moment
   * that window was built. One that can be shown only later is in none, in any
   * run that follows.
   */
  lemma EventIsReportedExactly(ops: seq<Op>, i: nat, id: nat) returns (n: nat)
    requires var s := Run(EMPTY, ops);
      && i < |s.rows| && IsPeriod(s.rows[i])
      && id in s.created && s.rows[i].window.start <= s.created[id] < s.rows[i].window.end
    ensures BuiltAt(ops, n, Run(EMPTY, ops).rows[i].window) && n < |ops| && ops[n].BuildNow?
    ensures IsReported(Run(EMPTY, ops).rows, id) <==>
      id in Run(EMPTY, ops[..n]).created && id in ops[n].visible
  {
    hide Run, Valid, Builds;
    var s := Run(EMPTY, ops);
    RowIsBuilt(ops, i);
    n :| RowFrom(ops, s.rows[i], n);
    CreatedStays(ops, n);
    if IsReported(s.rows, id) {
      var k :| 0 <= k < |s.rows| && IsPeriod(s.rows[k]) && id in s.rows[k].reported;
      ReportedWithin(ops, k, id);
      SameWindow(ops, i, k, s.created[id]);
      RowIsBuilt(ops, k);
      var m: nat :| RowFrom(ops, s.rows[k], m);
      BuiltOnce(ops, m, n, s.rows[i].window);
      BuiltOnce(ops, n, m, s.rows[i].window);
    }
    assert id in Run(EMPTY, ops[..n]).created && id in ops[n].visible ==> id in s.rows[i].reported;
  }

  lemma CreatedStays(ops: seq<Op>, n: nat)
    requires n <= |ops|
    ensures var before, s := Run(EMPTY, ops[..n]), Run(EMPTY, ops);
      forall id :: id in before.created ==> id in s.created && s.created[id] == before.created[id]
  {
    hide Run, Valid;
    assert ops == ops[..n] + ops[n..];
    ReachableIsValid(ops[..n]);
    RunConcat(EMPTY, ops[..n], ops[n..]);
    RunExtends(Run(EMPTY, ops[..n]), ops[n..]);
  }

  /** A period digest shows only events of its window, so an instant that no window covers is in none. */
  lemma ReportedWithin(ops: seq<Op>, k: nat, id: nat)
    requires var s := Run(EMPTY, ops); k < |s.rows| && IsPeriod(s.rows[k]) && id in s.rows[k].reported
    ensures var s := Run(EMPTY, ops); id in s.created && Within(s.rows[k].window, s.created[id])
  {
    hide Run, WindowsOk, Chained;
    ReachableIsValid(ops);
  }

  lemma SameWindow(ops: seq<Op>, i: nat, k: nat, t: int)
    requires var rows := Run(EMPTY, ops).rows;
      && i < |rows| && k < |rows| && IsPeriod(rows[i]) && IsPeriod(rows[k])
      && Within(rows[i].window, t) && Within(rows[k].window, t)
    ensures Run(EMPTY, ops).rows[i].window == Run(EMPTY, ops).rows[k].window
  {
    hide Run, WindowsOk, Chained, Reports, HourOf;
    ReachableIsValid(ops);
    TwoWindows(Run(EMPTY, ops).rows, i, k);
  }

  // ---- Without monthly reports

  ghost predicate NoMonthly(rows: seq<Digest>) {
    forall i :: 0 <= i < |rows| ==> !rows[i].isMonthly
  }

  lemma {:induction false} RunKeepsNoMonthly(s: State, ops: seq<Op>)
    requires NoMonthly(s.rows) && forall i :: 0 <= i < |ops| ==> !ops[i].ReportMonth?
    ensures NoMonthly(Run(s, ops).rows)
    decreases |ops|
  {
    hide PreviousEnd, ChosenWindow, HourOf, EventsIn, HasRow;
    if ops != [] {
      RunKeepsNoMonthly(Step(s, ops[0]), ops[1..]);
    }
  }

  /** The latest end of a regular window before `end`. */
  function EndBefore(rows: seq<Digest>, end: int): (latest: Option<int>)
    ensures latest.Some? ==>
      exists i :: 0 <= i < |rows| && IsRegular(rows[i]) && rows[i].window.end == latest.value < end
    ensures forall i :: 0 <= i < |rows| && IsRegular(rows[i]) && rows[i].window.end < end ==>
      latest.Some? && rows[i].window.end <= latest.value
  {
    if rows == [] then None
    else
      var n := |rows| - 1;
      var before := EndBefore(rows[..n], end);
      assert forall i :: 0 <= i < n ==> rows[..n][i] == rows[i];
      if IsRegular(rows[n]) && rows[n].window.end < end && (before == None || rows[n].window.end > before.value)
      then Some(rows[n].window.end) else before
  }

  lemma LaterOriginEndsLater(rows: seq<Digest>, j: nat, k: nat, w: Window)
    requires j < k && j < |rows| && IsRegular(rows[j]) && IsOrigin(rows, k, w)
    ensures rows[j].window.end < w.end
  {
    hide PreviousEnd;
    assert rows[..k][j] == rows[j];
    HourBelow(w.end);
  }

  /** A period row whose window ends earlier than that of an origin was built before it. */
  lemma BuiltBefore(rows: seq<Digest>, j: nat, i: nat)
    requires WindowsOk(rows) && Chained(rows) && j < |rows| && IsOrigin(rows, j, rows[j].window)
    requires i < |rows| && IsPeriod(rows[i]) && rows[i].window.end < rows[j].window.end
    ensures exists k: nat :: k < j && k <= i && IsOrigin(rows, k, rows[i].window)
  {
    hide StartsBehind, Apart;
    assert HasOrigin(rows, i);
    var k: nat :| k <= i && IsOrigin(rows, k, rows[i].window);
    if k > j {
      LaterOriginEndsLater(rows, j, k, rows[i].window);
    }
  }

  lemma HourBelow(t: int)
    ensures HourOf(t) <= t < HourOf(t) + HOUR_MS
  {
  }

  /**
   * In runs without monthly reports each period window begins where the one
   * before it ended, unless that is more than thirty days back.
   */
  lemma WindowsFollow(ops: seq<Op>, i: nat)
    requires forall k :: 0 <= k < |ops| ==> !ops[k].ReportMonth?
    requires var s := Run(EMPTY, ops); i < |s.rows| && IsPeriod(s.rows[i])
    ensures var rows, w := Run(EMPTY, ops).rows, Run(EMPTY, ops).rows[i].window;
      EndBefore(rows, w.end).Some? ==> w.start == Max(EndBefore(rows, w.end).value, w.end - 30 * 86_400_000)
  {
    hide Run, WindowsOk, Chained, Reports, EndBefore;
    ReachableIsValid(ops);
    RunKeepsNoMonthly(EMPTY, ops);
    FollowsWithoutMonthly(Run(EMPTY, ops).rows, i);
  }

  lemma FollowsWithoutMonthly(rows: seq<Digest>, i: nat)
    requires WindowsOk(rows) && Chained(rows) && NoMonthly(rows) && i < |rows| && IsPeriod(rows[i])
    ensures var w := rows[i].window;
      EndBefore(rows, w.end).Some? ==> w.start == Max(EndBefore(rows, w.end).value, w.end - MAX_WINDOW_MS)
  {
    hide EndBefore, WindowsOk, StartsBehind, PreviousEnd, StartsAtEndOf;
    var w := rows[i].window;
    assert HasOrigin(rows, i);
    var j: nat :| j <= i && IsOrigin(rows, j, w);
    if EndBefore(rows, w.end).Some? {
      var m := EndBeforeRow(rows, w.end);
      SeesEarlier(rows, j, m, w);
      var k: nat :| k < |rows| && StartsAtEndOf(rows, k, w) && rows[m].window.end <= rows[k].window.end;
      StartsAtEndBefore(rows, k, m, w);
    }
  }

  lemma EndBeforeRow(rows: seq<Digest>, end: int) returns (m: nat)
    requires EndBefore(rows, end).Some?
    ensures m < |rows| && IsRegular(rows[m]) && rows[m].window.end == EndBefore(rows, end).value < end
  {
    hide EndBefore;
    m :| m < |rows| && IsRegular(rows[m]) && rows[m].window.end == EndBefore(rows, end).value < end;
  }

  lemma StartsAtEndBefore(rows: seq<Digest>, k: nat, m: nat, w: Window)
    requires StartsAtEndOf(rows, k, w) && EndBefore(rows, w.end).Some?
    requires m < |rows| && rows[m].window.end == EndBefore(rows, w.end).value <= rows[k].window.end
    ensures w.start == Max(EndBefore(rows, w.end).value, w.end - MAX_WINDOW_MS)
  {
    hide EndBefore;
    assert rows[k].window.end <= EndBefore(rows, w.end).value;
  }

  /** The latest end an origin saw when it was built. */
  ghost predicate StartsAtEndOf(rows: seq<Digest>, m: nat, w: Window) {
    && m < |rows| && IsRegular(rows[m]) && rows[m].window.end < w.end
    && w.start == Max(rows[m].window.end, w.end - MAX_WINDOW_MS)
  }

  lemma SeesEarlier(rows: seq<Digest>, j: nat, m: nat, w: Window)
    requires WindowsOk(rows) && Chained(rows) && IsOrigin(rows, j, w)
    requires m < |rows| && IsPeriod(rows[m]) && rows[m].window.end < w.end
    ensures exists k: nat :: k < |rows| && StartsAtEndOf(rows, k, w) && rows[m].window.end <= rows[k].window.end
  {
    hide WindowsOk, Chained, StartsBehind;
    BuiltBefore(rows, j, m);
    var k: nat :| k < j && k <= m && IsOrigin(rows, k, rows[m].window);
    SeenFrom(rows, j, k, w);
  }

  /** An origin's window begins behind the latest regular end before it, which comes before its own end. */
  lemma SeenFrom(rows: seq<Digest>, j: nat, k: nat, w: Window)
    requires IsOrigin(rows, j, w) && k < j && IsRegular(rows[k])
    ensures exists m: nat :: m < |rows| && StartsAtEndOf(rows, m, w) && rows[k].window.end <= rows[m].window.end
  {
    hide LastRegular;
    assert rows[..j][k] == rows[k];
    var last := LastRegular(rows[..j]);
    assert rows[..j][last.value] == rows[last.value];
    HourBelow(w.end);
    assert StartsAtEndOf(rows, last.value, w);
  }

  // ---- Which instants are lost

  /** The first row among those of the period window that ends first after `t`. */
  lemma FirstEndAfter(rows: seq<Digest>, t: int, i: nat) returns (first: nat)
    requires i < |rows| && IsPeriod(rows[i]) && rows[i].window.end > t
    ensures first < |rows| && IsPeriod(rows[first]) && rows[first].window.end > t
    ensures forall k :: 0 <= k < |rows| && IsPeriod(rows[k]) && rows[k].window.end > t ==>
      && rows[first].window.end <= rows[k].window.end
      && (rows[first].window.end == rows[k].window.end ==> first <= k)
  {
    first := i;
    for m := 0 to |rows|
      invariant first < |rows| && IsPeriod(rows[first]) && rows[first].window.end > t
      invariant forall k :: 0 <= k < m && IsPeriod(rows[k]) && rows[k].window.end > t ==>
        && rows[first].window.end <= rows[k].window.end
        && (rows[first].window.end == rows[k].window.end ==> first <= k)
    {
      if IsPeriod(rows[m]) && rows[m].window.end > t
         && (rows[m].window.end < rows[first].window.end
             || (rows[m].window.end == rows[first].window.end && m < first))
      {
        first := m;
      }
    }
  }

  /** A monthly report written before the row ends after `t`. */
  predicate ReportedOver(rows: seq<Digest>, first: nat, t: int)
    requires first <= |rows|
  {
    exists m :: 0 <= m < first && IsRegular(rows[m]) && rows[m].isMonthly && rows[m].window.end > t
  }

  /**
   * What happens to an instant between the first window and the last: the
   * window that ends first after it covers it exactly when that window was
   * built within thirty days of it and no monthly report was written in
   * between that reaches past it.
   */
  lemma NoInstantIsLost(ops: seq<Op>, i: nat, j: nat, t: int) returns (first: nat)
    requires var s := Run(EMPTY, ops);
      && i < |s.rows| && j < |s.rows| && IsPeriod(s.rows[i]) && IsPeriod(s.rows[j])
      && s.rows[i].window.start <= t < s.rows[j].window.end
    ensures var s := Run(EMPTY, ops);
      && first < |s.rows| && IsPeriod(s.rows[first]) && t < s.rows[first].window.end
      && (forall k :: 0 <= k < |s.rows| && IsPeriod(s.rows[k]) && t < s.rows[k].window.end ==>
            s.rows[first].window.end <= s.rows[k].window.end)
      && (s.rows[first].window.start <= t < s.rows[first].window.end <==>
            t >= s.rows[first].window.end - 30 * 86_400_000 && !ReportedOver(s.rows, first, t))
      && (forall k :: 0 <= k < |s.rows| && IsPeriod(s.rows[k]) && s.rows[k].window.start <= t < s.rows[k].window.end ==>
            s.rows[k].window == s.rows[first].window)
  {
    hide Run, WindowsOk, Chained, Reports, ReportedOver, IsOrigin;
    ReachableIsValid(ops);
    var s := Run(EMPTY, ops);
    first := FirstEndAfter(s.rows, t, j);
    FirstIsOrigin(s.rows, first, t);
    CoveredExactly(s.rows, first, i, t);
    forall k | 0 <= k < |s.rows| && IsPeriod(s.rows[k]) && Within(s.rows[k].window, t)
      ensures s.rows[k].window == s.rows[first].window
    {
      OneWindowHolds(s.rows, first, k, t);
    }
  }

  lemma OneWindowHolds(rows: seq<Digest>, first: nat, k: nat, t: int)
    requires WindowsOk(rows) && IsFirstAfter(rows, first, t)
    requires k < |rows| && IsPeriod(rows[k]) && Within(rows[k].window, t)
    ensures rows[k].window == rows[first].window
  {
    hide HourOf;
    assert Apart(rows[k], rows[first]);
  }

  ghost predicate IsFirstAfter(rows: seq<Digest>, first: nat, t: int) {
    && first < |rows| && IsPeriod(rows[first]) && rows[first].window.end > t
    && forall k :: 0 <= k < |rows| && IsPeriod(rows[k]) && rows[k].window.end > t ==>
        && rows[first].window.end <= rows[k].window.end
        && (rows[first].window.end == rows[k].window.end ==> first <= k)
  }

  lemma FirstIsOrigin(rows: seq<Digest>, first: nat, t: int)
    requires Chained(rows) && IsFirstAfter(rows, first, t)
    ensures IsOrigin(rows, first, rows[first].window)
  {
    hide StartsBehind;
    assert HasOrigin(rows, first);
    var j: nat :| j <= first && IsOrigin(rows, j, rows[first].window);
    assert rows[j].window.end == rows[first].window.end;
  }

  lemma CoveredExactly(rows: seq<Digest>, first: nat, i: nat, t: int)
    requires WindowsOk(rows) && Chained(rows) && IsFirstAfter(rows, first, t)
    requires IsOrigin(rows, first, rows[first].window)
    requires i < |rows| && IsPeriod(rows[i]) && rows[i].window.start <= t
    ensures Within(rows[first].window, t) <==>
      t >= rows[first].window.end - MAX_WINDOW_MS && !ReportedOver(rows, first, t)
  {
    hide LastRegular, HourOf, Chained;
    var w := rows[first].window;
    HourBelow(w.end);
    forall m | 0 <= m < first && IsRegular(rows[m])
      ensures rows[m].window.end <= w.start && (rows[m].window.end > t ==> rows[m].isMonthly)
    {
      assert rows[..first][m] == rows[m];
    }
    var last := LastRegular(rows[..first]);
    if last.Some? {
      assert rows[..first][last.value] == rows[last.value];
    } else {
      forall m | 0 <= m < first ensures !IsRegular(rows[m]) {
        assert rows[..first][m] == rows[m];
      }
      StartsFirst(rows, first, i, t);
    }
  }

  /** With no regular row before it, the first window is the earliest there is. */
  lemma StartsFirst(rows: seq<Digest>, first: nat, i: nat, t: int)
    requires WindowsOk(rows) && Chained(rows) && IsFirstAfter(rows, first, t)
    requires IsOrigin(rows, first, rows[first].window)
    requires i < |rows| && IsPeriod(rows[i]) && rows[i].window.start <= t
    requires forall m :: 0 <= m < first ==> !IsRegular(rows[m])
    ensures rows[first].window.start <= t
  {
    hide LastRegular, HourOf, PreviousEnd;
    assert Apart(rows[i], rows[first]);
    if rows[i].window.end < rows[first].window.end {
      BuiltBefore(rows, first, i);
    }
  }

  /**
   * A monthly report is a regular row like any other to the next build: what
   * lies between the last regular end and the end of the month would have
   * been covered without the report, and is not with it.
   */
  lemma MonthlyReportSkips(
    rows: seq<Digest>, m: Digest, created: map<nat, int>, visible: set<nat>, now: int, channel: Channel, t: int)
    requires PreviousEnd(rows).Some? && PreviousEnd(rows).value <= t < m.window.end < HourOf(now)
    requires IsRegular(m) && now - MAX_WINDOW_MS <= t
    ensures exists d, d' ::
      && BuildPeriod(rows, created, visible, now, channel) == rows + [d] && Within(d.window, t)
      && BuildPeriod(rows + [m], created, visible, now, channel) == rows + [m] + [d']
      && d'.window.start >= m.window.end && !Within(d'.window, t)
  {
    hide EventsIn;
    EndAppended(rows, m);
    NewRowIsLater(rows, created, visible, now);
    NewRowIsLater(rows + [m], created, visible, now);
    hide LastRegular, PreviousEnd, HasRow;
    HourBelow(now);
    var w, w' := ChosenWindow(rows, created, visible, now), ChosenWindow(rows + [m], created, visible, now);
    var d := Digest(w, channel, EventsIn(created, visible, w), false);
    var d' := Digest(w', channel, EventsIn(created, visible, w'), false);
    assert BuildPeriod(rows, created, visible, now, channel) == rows + [d] && Within(d.window, t);
    assert BuildPeriod(rows + [m], created, visible, now, channel) == rows + [m] + [d'];
  }

  lemma EndAppended(rows: seq<Digest>, d: Digest)
    ensures PreviousEnd(rows + [d])
      == if IsRegular(d) && (PreviousEnd(rows) == None || d.window.end > PreviousEnd(rows).value)
         then Some(d.window.end) else PreviousEnd(rows)
  {
    assert (rows + [d])[..|rows|] == rows;
  }

  /**
   * A build on 21 January, the January report on 1 February and a build on 5
   * February: the rest of January is in no period window.
   */
  lemma RestOfTheMonthIsLost(ops: seq<Op>, delivery: Delivery, t: int, i: nat)
    requires ops == [BuildNow({}, 20 * DAY_MS, delivery), ReportMonth(Calendar.EPOCH_MONTH, {}),
                     BuildNow({}, 35 * DAY_MS, delivery)]
    requires 20 * DAY_MS <= t < 31 * DAY_MS
    ensures var rows := Run(EMPTY, ops).rows;
      && |rows| == 3 && rows[0].window.end == 20 * DAY_MS && rows[2].window.end == 35 * DAY_MS
      && IsPeriod(rows[0]) && IsPeriod(rows[2])
      && (i < |rows| && IsPeriod(rows[i]) ==> !Within(rows[i].window, t))
  {
    hide BuildPeriod, WriteMonthly, PreviousEnd, Run, ChannelFor;
    var channel := ChannelFor(delivery);
    var report := Digest(Window(0, 31 * DAY_MS), WebOnly, {}, true);
    NothingBefore();
    var first := QuietBuild([], 20 * DAY_MS, channel);
    EndAppended([], first);
    assert [] + [first] == [first] && [first] + [report] == [first, report];
    JanuaryReport(first, report);
    EndAppended([first], report);
    var last := QuietBuild([first, report], 35 * DAY_MS, channel);
    assert [first, report] + [last] == [first, report, last];
    ThreeSteps(ops, delivery, first, report, last);
  }

  lemma ThreeSteps(ops: seq<Op>, delivery: Delivery, first: Digest, report: Digest, last: Digest)
    requires ops == [BuildNow({}, 20 * DAY_MS, delivery), ReportMonth(Calendar.EPOCH_MONTH, {}),
                     BuildNow({}, 35 * DAY_MS, delivery)]
    requires BuildPeriod([], map[], {}, 20 * DAY_MS, ChannelFor(delivery)) == [first]
    requires WriteMonthly([first], Calendar.EPOCH_MONTH, {}) == [first, report]
    requires BuildPeriod([first, report], map[], {}, 35 * DAY_MS, ChannelFor(delivery)) == [first, report, last]
    ensures Run(EMPTY, ops).rows == [first, report, last]
  {
    hide BuildPeriod, WriteMonthly, Run, ChannelFor;
    RunThree(EMPTY, ops);
  }

  /** A build without events covers what lies behind the previous end or, the first time, thirty days. */
  lemma QuietBuild(rows: seq<Digest>, now: int, channel: Channel) returns (d: Digest)
    requires now % DAY_MS == 0
    requires PreviousEnd(rows).Some? ==> now - MAX_WINDOW_MS <= PreviousEnd(rows).value < now
    ensures BuildPeriod(rows, map[], {}, now, channel) == rows + [d]
    ensures d.window.end == now && IsPeriod(d)
    ensures d.window.start == if PreviousEnd(rows) == None then now - MAX_WINDOW_MS else PreviousEnd(rows).value
  {
    assert HourOf(now) == now;
    assert forall w :: EventsIn(map[], {}, w) == {};
    NewRowIsLater(rows, map[], {}, now);
    hide EventsIn, LastRegular, HasRow;
    d := Digest(ChosenWindow(rows, map[], {}, now), channel, {}, false);
  }

  lemma NothingBefore()
    ensures PreviousEnd([]) == None
  {
  }

  lemma JanuaryReport(first: Digest, report: Digest)
    requires first.window.start < 0 && report == Digest(Window(0, 31 * DAY_MS), WebOnly, {}, true)
    ensures WriteMonthly([first], Calendar.EPOCH_MONTH, {}) == [first, report]
  {
    Calendar.NextMonth(Calendar.EPOCH_MONTH);
    assert MonthWindow(Calendar.EPOCH_MONTH) == report.window;
  }

  lemma RunThree(s: State, ops: seq<Op>)
    requires |ops| == 3
    ensures Run(s, ops) == Step(Step(Step(s, ops[0]), ops[1]), ops[2])
  {
    hide Step;
    var s1 := Step(s, ops[0]);
    var s2 := Step(s1, ops[1]);
    var s3 := Step(s2, ops[2]);
    assert ops[1..][1..] == [ops[2]] && [ops[2]][1..] == [];
    assert Run(s3, []) == s3;
    assert Run(s2, [ops[2]]) == Run(s3, []);
    assert Run(s1, ops[1..]) == Run(s2, ops[1..][1..]);
  }

  /** A build does nothing exactly when some regular row, of any kind, ends in this UTC hour or later. */
  lemma BuildIsSilentExactly(
    rows: seq<Digest>, created: map<nat, int>, visible: set<nat>, now: int, channel: Channel)
    ensures BuildPeriod(rows, created, visible, now, channel) == rows <==>
      exists i :: 0 <= i < |rows| && rows[i].window.start != rows[i].window.end
        && rows[i].window.end >= now / 3_600_000 * 3_600_000
  {
    if !(PreviousEnd(rows).Some? && PreviousEnd(rows).value >= HourOf(now)) {
      NewRowIsLater(rows, created, visible, now);
    }
    HourStarts(now);
    hide HourOf;
    assert forall i :: 0 <= i < |rows| ==> (IsRegular(rows[i]) <==> rows[i].window.start != rows[i].window.end);
  }

  lemma HourStarts(t: int)
    ensures HourOf(t) == t / 3_600_000 * 3_600_000
  {
  }

  /** `end` is the latest end of a row that is not urgent. */
  ghost predicate IsLastEnd(rows: seq<Digest>, end: int) {
    && (exists i :: 0 <= i < |rows| && rows[i].window.start != rows[i].window.end && rows[i].window.end == end)
    && forall i :: 0 <= i < |rows| && rows[i].window.start != rows[i].window.end ==> rows[i].window.end <= end
  }

  /** An event that may be shown was recorded at `from` or later, but before `to`. */
  ghost predicate HasEvent(created: map<nat, int>, visible: set<nat>, from: int, to: int) {
    exists id :: id in created && id in visible && from <= created[id] < to
  }

  /**
   * Any other build adds one row that ends now. It begins where the last
   * regular row ended, but at most thirty days back; the first time, seven
   * days back if an event of these days may be shown, else thirty. It reports
   * exactly the events recorded in its window that may be shown.
   */
  lemma BuildCoversExactly(
    rows: seq<Digest>, created: map<nat, int>, visible: set<nat>, now: int, delivery: Delivery)
    requires forall i :: 0 <= i < |rows| && rows[i].window.start != rows[i].window.end ==>
      rows[i].window.end < now / 3_600_000 * 3_600_000
    ensures exists d ::
      && BuildPeriod(rows, created, visible, now, ChannelFor(delivery)) == rows + [d]
      && d.window.end == now && !d.isMonthly && GoesTo(delivery, d.channel)
      && (forall end :: IsLastEnd(rows, end) ==>
            d.window.start == if end >= now - 30 * 86_400_000 then end else now - 30 * 86_400_000)
      && ((forall end :: !IsLastEnd(rows, end)) ==>
            d.window.start
              == now - (if HasEvent(created, visible, now - 7 * 86_400_000, now) then 7 else 30) * 86_400_000)
      && (forall id :: id in d.reported <==> id in created && id in visible && d.window.start <= created[id] < now)
  {
    HourStarts(now);
    assert forall i :: 0 <= i < |rows| ==> (IsRegular(rows[i]) <==> rows[i].window.start != rows[i].window.end);
    NewRowIsLater(rows, created, visible, now);
    LastEndIs(rows);
    FirstWeek(created, visible, now);
    hide HourOf, LastRegular, PreviousEnd, HasRow, IsLastEnd, HasEvent;
    var channel, w := ChannelFor(delivery), ChosenWindow(rows, created, visible, now);
    var d := Digest(w, channel, EventsIn(created, visible, w), false);
    assert BuildPeriod(rows, created, visible, now, channel) == rows + [d];
    assert GoesTo(delivery, d.channel);
  }

  lemma LastEndIs(rows: seq<Digest>)
    ensures forall end :: IsLastEnd(rows, end) <==> PreviousEnd(rows) == Some(end)
  {
    hide LastRegular;
    assert forall i :: 0 <= i < |rows| ==> (IsRegular(rows[i]) <==> rows[i].window.start != rows[i].window.end);
    if PreviousEnd(rows).Some? {
      assert IsLastEnd(rows, PreviousEnd(rows).value);
    }
  }

  lemma FirstWeek(created: map<nat, int>, visible: set<nat>, now: int)
    ensures EventsIn(created, visible, PlanWindow(None, now, false)) == {} <==>
      !HasEvent(created, visible, now - 7 * 86_400_000, now)
  {
    var events := EventsIn(created, visible, PlanWindow(None, now, false));
    if id :| id in created && id in visible && now - 7 * 86_400_000 <= created[id] < now {
      assert id in events;
    }
    assert forall id :: id in events ==> HasEvent(created, visible, now - 7 * 86_400_000, now);
  }

  // ---- How far back

  ghost predicate ShortWindows(rows: seq<Digest>) {
    forall i :: 0 <= i < |rows| && !rows[i].isMonthly ==>
      rows[i].window.end - rows[i].window.start <= MAX_WINDOW_MS
  }

  lemma {:induction false} RunKeepsShort(s: State, ops: seq<Op>)
    requires ShortWindows(s.rows)
    ensures ShortWindows(Run(s, ops).rows)
    decreases |ops|
  {
    hide LastRegular, HourOf, HasRow, EventsIn;
    if ops != [] {
      RunKeepsShort(Step(s, ops[0]), ops[1..]);
    }
  }

  /** However long the pause, no digest but a monthly report reaches back more than thirty days. */
  lemma NeverLongerThanAMonth(ops: seq<Op>, i: nat)
    requires i < |Run(EMPTY, ops).rows| && !Run(EMPTY, ops).rows[i].isMonthly
    ensures var w := Run(EMPTY, ops).rows[i].window; w.end - w.start <= 30 * 86_400_000
  {
    hide Run;
    RunKeepsShort(EMPTY, ops);
  }

  // ---- A second copy for Telegram

  /**
   * A web-only digest gets one copy for Telegram, with its window and events,
   * and the web-only row stays; without such a row, or with the copy made
   * already, nothing happens.
   */
  lemma TelegramCopyExactly(rows: seq<Digest>, w: Window)
    requires Unique(rows)
    ensures var rows' := CopyToTelegram(rows, w);
      if exists i :: 0 <= i < |rows| && rows[i].window == w && rows[i].channel == Telegram then rows' == rows
      else if i :| 0 <= i < |rows| && rows[i].window == w && rows[i].channel == WebOnly
      then rows' == rows + [Digest(w, Telegram, rows[i].reported, rows[i].isMonthly)]
      else rows' == rows
  {
    hide FindRow;
    assert HasRow(rows, w, Telegram) <==>
      exists i :: 0 <= i < |rows| && rows[i].window == w && rows[i].channel == Telegram;
  }

  // ---- Urgent events of one instant

  /**
   * After an urgent event was sent the table has one row for its instant and
   * channel. That row reports it exactly when every row already there for this
   * instant and channel reported it alone: another urgent event of the same
   * instant, sent before, is the one the row reports.
   */
  lemma UrgentIsReportedExactly(
    s: State, visible: set<nat>, urgent: set<nat>, id: nat, channel: Channel) returns (i: nat)
    requires Valid(s) && id in s.created && id in urgent && id in visible
    ensures var at := Window(s.created[id], s.created[id]);
      var rows' := BuildUrgent(s.rows, s.created, visible, urgent, id, channel);
      && i < |rows'| && rows'[i].window == at && rows'[i].channel == channel
      && (forall k :: 0 <= k < |rows'| && rows'[k].window == at && rows'[k].channel == channel ==> k == i)
      && (rows'[i].reported == {id} <==>
            forall k :: 0 <= k < |s.rows| && s.rows[k].window == at && s.rows[k].channel == channel ==>
              s.rows[k].reported == {id})
  {
    var at := Window(s.created[id], s.created[id]);
    var d := Digest(at, channel, {id}, false);
    WriteKeeps(s, d);
    hide Chained, Reports, Apart, StartsBehind;
    var rows' := WriteDigest(s.rows, d);
    if HasRow(s.rows, at, channel) {
      i :| i < |s.rows| && s.rows[i].window == at && s.rows[i].channel == channel;
      assert rows'[i] == s.rows[i];
    } else {
      i := |s.rows|;
    }
  }

  /** Of two urgent events of one instant, sent one after the other, no digest reports the second. */
  lemma SameInstantIsLost(ops: seq<Op>, at: int, delivery: Delivery)
    requires ops == [Record(1, at), Record(2, at), SendUrgent({1, 2}, {1, 2}, 1, delivery),
                     SendUrgent({1, 2}, {1, 2}, 2, delivery)]
    ensures Run(EMPTY, ops).rows == [Digest(Window(at, at), ChannelFor(delivery), {1}, false)]
  {
    var s2 := State([], map[1 := at, 2 := at]);
    var s3 := s2.(rows := [Digest(Window(at, at), ChannelFor(delivery), {1}, false)]);
    assert Step(Step(EMPTY, ops[0]), ops[1]) == s2;
    assert Step(s2, ops[2]) == s3;
    assert s3.rows[0].window == Window(at, at) && HasRow(s3.rows, Window(at, at), ChannelFor(delivery));
    assert Step(s3, ops[3]) == s3;
    assert ops == [ops[0]] + ops[1..];
    assert ops[1..] == ops[1..4];
    hide Step;
    RunThree(Step(EMPTY, ops[0]), ops[1..]);
  }

  // ---- Urgent digests

  /** The rows of regular digests, in order. */
  function Regular(rows: seq<Digest>): (r: seq<Digest>)
    ensures forall i :: 0 <= i < |r| ==> IsRegular(r[i])
  {
    if rows == [] then []
    else
      var n := |rows| - 1;
      Regular(rows[..n]) + if IsRegular(rows[n]) then [rows[n]] else []
  }

  lemma RegularAppend(rows: seq<Digest>, d: Digest)
    ensures Regular(rows + [d]) == Regular(rows) + if IsRegular(d) then [d] else []
  {
    assert (rows + [d])[..|rows|] == rows;
  }

  lemma {:induction false} RegularDecides(rows: seq<Digest>)
    ensures PreviousEnd(rows) == PreviousEnd(Regular(rows))
  {
    if rows != [] {
      var n := |rows| - 1;
      RegularDecides(rows[..n]);
      assert rows == rows[..n] + [rows[n]];
      EndAppended(rows[..n], rows[n]);
      EndAppended(Regular(rows[..n]), rows[n]);
      assert Regular(rows[..n]) + [] == Regular(rows[..n]);
    }
  }

  /** What a query by window and channel finds. */
  function Found(rows: seq<Digest>, w: Window, channel: Channel): Option<Digest> {
    var found := FindRow(rows, w, channel);
    if found.Some? then Some(rows[found.value]) else None
  }

  lemma FoundAppended(rows: seq<Digest>, d: Digest, w: Window, channel: Channel)
    ensures Found(rows + [d], w, channel)
      == if Found(rows, w, channel).Some? then Found(rows, w, channel)
         else if d.window == w && d.channel == channel then Some(d) else None
  {
    assert (rows + [d])[..|rows|] == rows;
  }

  lemma {:induction false} RegularIsFound(rows: seq<Digest>, w: Window, channel: Channel)
    requires w.start != w.end
    ensures Found(Regular(rows), w, channel) == Found(rows, w, channel)
  {
    hide FindRow;
    if rows == [] {
      NothingFound(w, channel);
    } else {
      var n := |rows| - 1;
      RegularIsFound(rows[..n], w, channel);
      assert rows == rows[..n] + [rows[n]];
      FoundAppended(rows[..n], rows[n], w, channel);
      FoundAppended(Regular(rows[..n]), rows[n], w, channel);
      assert Regular(rows[..n]) + [] == Regular(rows[..n]);
    }
  }

  lemma NothingFound(w: Window, channel: Channel)
    ensures Found([], w, channel) == None
  {
  }

  lemma FoundExactly(rows: seq<Digest>, w: Window, channel: Channel)
    ensures HasRow(rows, w, channel) <==> Found(rows, w, channel).Some?
  {
    hide FindRow;
  }

  /** Writing a regular row sees and adds to regular rows only; writing any other row leaves them alone. */
  lemma WriteSeesRegular(rows: seq<Digest>, d: Digest)
    ensures IsRegular(d) ==> Regular(WriteDigest(rows, d)) == WriteDigest(Regular(rows), d)
    ensures !IsRegular(d) ==> Regular(WriteDigest(rows, d)) == Regular(rows)
  {
    hide Regular, Found;
    if IsRegular(d) {
      RegularIsFound(rows, d.window, d.channel);
    }
    FoundExactly(rows, d.window, d.channel);
    FoundExactly(Regular(rows), d.window, d.channel);
    RegularAppend(rows, d);
  }

  lemma BuildSeesRegular(rows: seq<Digest>, created: map<nat, int>, visible: set<nat>, now: int, channel: Channel)
    ensures Regular(BuildPeriod(rows, created, visible, now, channel))
      == BuildPeriod(Regular(rows), created, visible, now, channel)
  {
    RegularDecides(rows);
    hide Regular, WriteDigest, LastRegular, EventsIn;
    if !(PreviousEnd(rows).Some? && PreviousEnd(rows).value >= HourOf(now)) {
      NewRowIsLater(rows, created, visible, now);
      var w := ChosenWindow(rows, created, visible, now);
      WriteSeesRegular(rows, Digest(w, channel, EventsIn(created, visible, w), false));
    }
  }

  lemma CopySeesRegular(rows: seq<Digest>, w: Window)
    ensures Regular(CopyToTelegram(rows, w)) == CopyToTelegram(Regular(rows), w)
  {
    hide Regular, WriteDigest;
    if w.start != w.end {
      RegularIsFound(rows, w, WebOnly);
    }
    var found := FindRow(rows, w, WebOnly);
    if found.Some? {
      WriteSeesRegular(rows, rows[found.value].(channel := Telegram));
    }
  }

  function WithoutUrgent(ops: seq<Op>): seq<Op> {
    if ops == [] then []
    else (if ops[0].SendUrgent? then [] else [ops[0]]) + WithoutUrgent(ops[1..])
  }

  /**
   * Urgent digests never move a regular one: without them any run writes the
   * same regular rows, windows, channels and events alike.
   */
  lemma {:induction false} UrgentNeverMovesWindows(s: State, s': State, ops: seq<Op>)
    requires s'.rows == Regular(s.rows) && s'.created == s.created
    ensures Run(s', WithoutUrgent(ops)).rows == Regular(Run(s, ops).rows)
    decreases |ops|
  {
    hide BuildPeriod, BuildUrgent, CopyToTelegram, WriteDigest, Regular;
    if ops != [] {
      var next := Step(s, ops[0]);
      match ops[0] {
        case Record(_, _) =>
        case BuildNow(visible, now, delivery) =>
          BuildSeesRegular(s.rows, s.created, visible, now, ChannelFor(delivery));
        case SendUrgent(visible, urgent, id, delivery) =>
          UrgentIsNotRegular(s.rows, s.created, visible, urgent, id, ChannelFor(delivery));
        case SendToTelegram(window) => CopySeesRegular(s.rows, window);
        case ReportMonth(month, reported) =>
          WriteSeesRegular(s.rows, Digest(MonthWindow(month), WebOnly, reported, true));
      }
      if ops[0].SendUrgent? {
        assert WithoutUrgent(ops) == WithoutUrgent(ops[1..]);
      } else {
        assert WithoutUrgent(ops) == [ops[0]] + WithoutUrgent(ops[1..]);
        assert WithoutUrgent(ops)[1..] == WithoutUrgent(ops[1..]);
      }
      UrgentNeverMovesWindows(next, if ops[0].SendUrgent? then s' else Step(s', ops[0]), ops[1..]);
    }
  }

  lemma UrgentIsNotRegular(
    rows: seq<Digest>, created: map<nat, int>, visible: set<nat>, urgent: set<nat>, id: nat, channel: Channel)
    ensures Regular(BuildUrgent(rows, created, visible, urgent, id, channel)) == Regular(rows)
  {
    hide Regular, WriteDigest;
    if id in created {
      WriteSeesRegular(rows, Digest(Window(created[id], created[id]), channel, {id}, false));
    }
  }
}
