/**
 * Digest scheduling of email notifications (src/email.rs): schedules, quiet
 * hours, and the loop that buffers and flushes events.
 */
module EmailDigest {
  import opened Options
  import opened Numerals
  import opened Texts

  /** Instants in nanoseconds since the epoch, UTC. */
  type Time = int

  const NANOS := 1_000_000_000

  /** Whole seconds since the epoch, rounded down. */
  function Timestamp(t: Time): int { t / NANOS }

  function HourIndex(t: Time): int { Timestamp(t) / 3600 }

  function DayIndex(t: Time): int { Timestamp(t) / 86400 }

  function MinuteOfDay(t: Time): (m: nat)
    ensures m < 1440
  {
    var second := Timestamp(t) % 86400;
    second / 3600 * 60 + second % 3600 / 60
  }

  // ------------------------------------------------------------ schedules

  /** `Custom` stands for a cron expression by the instants at which it is due. */
  datatype Schedule = Immediate | HourlyDigest | DailyDigest(hour: nat) | Custom(due: (Time, Time) -> bool)

  function IsDue(schedule: Schedule, now: Time, lastSent: Time): bool {
    match schedule
    case Immediate => true
    case HourlyDigest => HourIndex(now) > HourIndex(lastSent)
    case DailyDigest(hour) =>
      if hour > 23 then false
      else
        var scheduled := (DayIndex(now) * 86400 + hour * 3600) * NANOS;
        now >= scheduled && lastSent < scheduled
    case Custom(due) => due(now, lastSent)
  }

  // ---------------------------------------------------------- quiet hours

  datatype QuietHours = QuietHours(startMin: nat, endMin: nat)

  predicate Contains(q: QuietHours, now: Time) {
    var m := MinuteOfDay(now);
    if q.startMin < q.endMin then q.startMin <= m < q.endMin
    else m >= q.startMin || m < q.endMin
  }

  const U32_RANGE := 0x1_0000_0000

  function ParseHhMm(value: string): (r: Option<nat>)
    ensures r.Some? ==> r.value < 1440
  {
    var halves := SplitOnce(Trim(value), ':');
    if halves.None? then None
    else
      var hours := ParseUnsigned(Trim(halves.value.0), U32_RANGE);
      var minutes := ParseUnsigned(Trim(halves.value.1), U32_RANGE);
      if hours.None? || minutes.None? || hours.value > 23 || minutes.value > 59 then None
      else Some(hours.value * 60 + minutes.value)
  }

  /** `QuietHours::parse`: disabled by a missing or unreadable bound, or an empty window. */
  function ParseQuietHours(start: Option<string>, end: Option<string>): (r: Option<QuietHours>)
    ensures r.Some? ==> r.value.startMin < 1440 && r.value.endMin < 1440 && r.value.startMin != r.value.endMin
  {
    if start.None? || end.None? then None
    else
      var s, e := ParseHhMm(start.value), ParseHhMm(end.value);
      if s.None? || e.None? || s == e then None else Some(QuietHours(s.value, e.value))
  }

  /** `minute` is `k` minutes after `start`, around the clock. */
  predicate InCycle(start: nat, k: nat, minute: nat) { (start + k) % 1440 == minute }

  /** The cyclic interval of minutes from start up to, not including, end. */
  ghost predicate InWindow(start: nat, end: nat, minute: nat) {
    exists k: nat :: k < (end - start) % 1440 && InCycle(start, k, minute)
  }

  lemma CyclicMembership(start: nat, end: nat, minute: nat)
    requires start < 1440 && end < 1440 && minute < 1440 && start != end
    ensures InWindow(start, end, minute)
      <==> (if start < end then start <= minute < end else minute >= start || minute < end)
  {
    var k: nat := if minute >= start then minute - start else minute + 1440 - start;
    var length: nat := if end > start then end - start else end + 1440 - start;
    assert (end - start) % 1440 == length;
    assert InCycle(start, k, minute);
    forall j: nat | j < length && InCycle(start, j, minute) ensures j == k {
    }
  }

  /** Quiet hours are a cyclic interval, windows across midnight included. */
  lemma QuietHoursAreCyclic(start: Option<string>, end: Option<string>, now: Time)
    requires ParseQuietHours(start, end).Some?
    ensures var q := ParseQuietHours(start, end).value;
      Contains(q, now) <==> InWindow(q.startMin, q.endMin, MinuteOfDay(now))
  {
    var q := ParseQuietHours(start, end).value;
    CyclicMembership(q.startMin, q.endMin, MinuteOfDay(now));
  }

  lemma SplitsAtColon(text: string, h: string, m: string)
    requires AllDigits(h) && AllDigits(m) && text == h + ":" + m
    ensures SplitOnce(Trim(text), ':') == Some((h, m))
    ensures Trim(h) == h && Trim(m) == m
  {
    TrimKeeps(h);
    TrimKeeps(m);
    TrimKeeps(text);
    SplitOnceFinds(h, ':', m);
  }

  lemma ReadsParts(h: string, m: string, hours: nat, minutes: nat)
    requires AllDigits(h) && AllDigits(m) && hours < 24 && minutes < 60
    requires ParseUnsigned(h, U32_RANGE) == Some(hours) && ParseUnsigned(m, U32_RANGE) == Some(minutes)
    ensures ParseHhMm(h + ":" + m) == Some(hours * 60 + minutes)
  {
    SplitsAtColon(h + ":" + m, h, m);
  }

  /** Times written with or without leading zeros are read back. */
  lemma HhMmRoundTrip(hours: nat, minutes: nat, width: nat)
    requires hours < 24 && minutes < 60 && width > 0
    ensures ParseHhMm(Padded(width, hours) + ":" + Padded(width, minutes)) == Some(hours * 60 + minutes)
  {
    PaddedParses(width, hours, U32_RANGE);
    PaddedParses(width, minutes, U32_RANGE);
    ReadsParts(Padded(width, hours), Padded(width, minutes), hours, minutes);
  }

  // ------------------------------------------------------ the notifier loop

  datatype Event = Event(contractId: string, critical: bool, id: nat)

  /** What the loop wakes up for: its timer (with the clock then read), and what the channel yields. */
  datatype Input = Tick(now: Time) | Received(event: Event) | Lagged(skipped: nat) | Closed

  datatype Mail = Critical(event: Event) | Digest(now: Time, batch: seq<Event>) | Final(batch: seq<Event>)

  datatype Notifier = Notifier(contractFilter: seq<string>, schedule: Schedule, quietHours: Option<QuietHours>) {
    predicate Passes(e: Event) { contractFilter == [] || e.contractId in contractFilter }

    predicate Quiet(now: Time) { quietHours.Some? && Contains(quietHours.value, now) }
  }

  datatype LoopState = LoopState(buffer: seq<Event>, lastSent: Time, mails: seq<Mail>, closed: bool)

  function Step(n: Notifier, s: LoopState, input: Input): LoopState {
    if s.closed then s
    else
      match input
      case Tick(now) =>
        if s.buffer == [] || !IsDue(n.schedule, now, s.lastSent) || n.Quiet(now) then s
        else s.(buffer := [], lastSent := now, mails := s.mails + [Digest(now, s.buffer)])
      case Received(e) =>
        if !n.Passes(e) then s
        else if e.critical then s.(mails := s.mails + [Critical(e)])
        else s.(buffer := s.buffer + [e])
      case Lagged(_) => s
      case Closed =>
        if s.buffer == [] then s.(closed := true)
        else s.(closed := true, mails := s.mails + [Final(s.buffer)])
  }

  function Run(n: Notifier, started: Time, inputs: seq<Input>): LoopState {
    if inputs == [] then LoopState([], started, [], false)
    else Step(n, Run(n, started, inputs[..|inputs| - 1]), inputs[|inputs| - 1])
  }

  lemma {:induction false} NothingAfterClose(n: Notifier, started: Time, inputs: seq<Input>, k: nat)
    requires k <= |inputs| && Run(n, started, inputs[..k]).closed
    ensures Run(n, started, inputs) == Run(n, started, inputs[..k])
    decreases |inputs|
  {
    if k == |inputs| {
      assert inputs[..k] == inputs;
    } else {
      var front := inputs[..|inputs| - 1];
      assert front[..k] == inputs[..k];
      NothingAfterClose(n, started, front, k);
    }
  }

  method Spawn(n: Notifier, started: Time, inputs: seq<Input>) returns (mails: seq<Mail>, buffer: seq<Event>)
    ensures mails == Run(n, started, inputs).mails && buffer == Run(n, started, inputs).buffer
  {
    mails, buffer := [], [];
    var lastSent := started;
    var i: nat := 0;
    while i < |inputs|
      invariant i <= |inputs|
      invariant Run(n, started, inputs[..i]) == LoopState(buffer, lastSent, mails, false)
    {
      var input := inputs[i];
      i := i + 1;
      assert inputs[..i][..i - 1] == inputs[..i - 1];
      match input
      case Tick(now) =>
        if buffer == [] || !IsDue(n.schedule, now, lastSent) {
          continue;
        }
        if n.quietHours.Some? && Contains(n.quietHours.value, now) {
          continue;
        }
        mails := mails + [Digest(now, buffer)];
        buffer := [];
        lastSent := now;
      case Received(event) =>
        if n.contractFilter != [] && event.contractId !in n.contractFilter {
          continue;
        }
        if event.critical {
          mails := mails + [Critical(event)];
        } else {
          buffer := buffer + [event];
        }
      case Lagged(skipped) =>
      case Closed =>
        if buffer != [] {
          mails := mails + [Final(buffer)];
        }
        NothingAfterClose(n, started, inputs, i);
        return;
    }
    assert inputs[..i] == inputs;
  }

  // ----------------------------------------------- where accepted events go

  /** The events one input adds to those accepted, if it arrives before the close. */
  ghost function Arrival(n: Notifier, critical: bool, input: Input): seq<Event> {
    if input.Received? && n.Passes(input.event) && input.event.critical == critical then [input.event] else []
  }

  /** The events that pass the filter before the channel closes, in order, by priority. */
  ghost function Accepted(n: Notifier, critical: bool, inputs: seq<Input>): seq<Event> {
    if inputs == [] then []
    else
      var front, last := inputs[..|inputs| - 1], inputs[|inputs| - 1];
      Accepted(n, critical, front)
      + if Closed in front then [] else Arrival(n, critical, last)
  }

  ghost function CriticalMails(mails: seq<Mail>): seq<Event> {
    if mails == [] then []
    else
      var last := mails[|mails| - 1];
      CriticalMails(mails[..|mails| - 1]) + if last.Critical? then [last.event] else []
  }

  ghost function Batches(mails: seq<Mail>): seq<Event> {
    if mails == [] then []
    else
      var last := mails[|mails| - 1];
      Batches(mails[..|mails| - 1]) + if last.Critical? then [] else last.batch
  }

  /** Events the loop still owes a mail; it owes none once the channel has closed. */
  ghost function Pending(s: LoopState): seq<Event> { if s.closed then [] else s.buffer }

  lemma MailAdded(mails: seq<Mail>, mail: Mail)
    ensures CriticalMails(mails + [mail]) == CriticalMails(mails) + if mail.Critical? then [mail.event] else []
    ensures Batches(mails + [mail]) == Batches(mails) + if mail.Critical? then [] else mail.batch
  {
    assert (mails + [mail])[..|mails|] == mails;
  }

  lemma StepConserves(n: Notifier, s: LoopState, input: Input)
    requires !s.closed
    ensures var s' := Step(n, s, input);
      CriticalMails(s'.mails) == CriticalMails(s.mails) + Arrival(n, true, input)
      && Batches(s'.mails) + Pending(s') == Batches(s.mails) + s.buffer + Arrival(n, false, input)
  {
    var s' := Step(n, s, input);
    match input
    case Tick(now) => MailAdded(s.mails, Digest(now, s.buffer));
    case Received(e) =>
      MailAdded(s.mails, Critical(e));
      assert Batches(s.mails) + (s.buffer + [e]) == Batches(s.mails) + s.buffer + [e];
    case Lagged(_) =>
    case Closed => MailAdded(s.mails, Final(s.buffer));
  }

  ghost predicate NoEmptyBatch(mails: seq<Mail>) {
    forall m :: m in mails && !m.Critical? ==> m.batch != []
  }

  lemma StepBatches(n: Notifier, s: LoopState, input: Input)
    requires NoEmptyBatch(s.mails)
    ensures NoEmptyBatch(Step(n, s, input).mails)
  {
  }

  lemma StepCloses(n: Notifier, s: LoopState, input: Input)
    ensures Step(n, s, input).closed <==> s.closed || input == Closed
  {
  }

  lemma {:induction false} ClosedIffSeen(n: Notifier, started: Time, inputs: seq<Input>)
    ensures Run(n, started, inputs).closed <==> Closed in inputs
  {
    if inputs != [] {
      var front, last := inputs[..|inputs| - 1], inputs[|inputs| - 1];
      ClosedIffSeen(n, started, front);
      assert inputs == front + [last];
      StepCloses(n, Run(n, started, front), last);
    }
  }

  lemma {:induction false} NoBatchIsEmpty(n: Notifier, started: Time, inputs: seq<Input>)
    ensures NoEmptyBatch(Run(n, started, inputs).mails)
  {
    if inputs != [] {
      NoBatchIsEmpty(n, started, inputs[..|inputs| - 1]);
      StepBatches(n, Run(n, started, inputs[..|inputs| - 1]), inputs[|inputs| - 1]);
    }
  }

  /**
   * Nothing accepted is lost, repeated or reordered: critical events are mailed
   * one by one, every other event is in exactly one batch or still pending, and
   * nothing is pending after the channel closes.
   */
  lemma {:induction false} EveryEventIsMailedOnce(n: Notifier, started: Time, inputs: seq<Input>)
    ensures CriticalMails(Run(n, started, inputs).mails) == Accepted(n, true, inputs)
    ensures Batches(Run(n, started, inputs).mails) + Pending(Run(n, started, inputs)) == Accepted(n, false, inputs)
  {
    if inputs != [] {
      var front, last := inputs[..|inputs| - 1], inputs[|inputs| - 1];
      EveryEventIsMailedOnce(n, started, front);
      ClosedIffSeen(n, started, front);
      var s := Run(n, started, front);
      if !s.closed {
        StepConserves(n, s, last);
      }
    }
  }

  // ------------------------------------------------------------- schedules

  /** The instants at which digests were sent, oldest first. */
  ghost function DigestTimes(mails: seq<Mail>): seq<Time> {
    if mails == [] then []
    else
      var last := mails[|mails| - 1];
      DigestTimes(mails[..|mails| - 1]) + if last.Digest? then [last.now] else []
  }

  lemma DigestAdded(mails: seq<Mail>, mail: Mail)
    ensures DigestTimes(mails + [mail]) == DigestTimes(mails) + if mail.Digest? then [mail.now] else []
  {
    assert (mails + [mail])[..|mails|] == mails;
  }

  /** The last digest before digest `k`, or the start of the loop. */
  ghost function Previous(started: Time, times: seq<Time>, k: nat): Time
    requires k <= |times|
  {
    if k == 0 then started else times[k - 1]
  }

  /** Digest `k` was due against the digest before it, and fell outside quiet hours. */
  ghost predicate InTime(n: Notifier, started: Time, times: seq<Time>, k: nat)
    requires k < |times|
  {
    IsDue(n.schedule, times[k], Previous(started, times, k)) && !n.Quiet(times[k])
  }

  ghost predicate Punctual(n: Notifier, started: Time, times: seq<Time>) {
    forall k: nat :: k < |times| ==> InTime(n, started, times, k)
  }

  lemma PunctualAppend(n: Notifier, started: Time, times: seq<Time>, now: Time)
    requires Punctual(n, started, times)
    requires IsDue(n.schedule, now, Previous(started, times, |times|)) && !n.Quiet(now)
    ensures Punctual(n, started, times + [now])
    ensures Previous(started, times + [now], |times| + 1) == now
  {
    var all := times + [now];
    forall k: nat | k < |all| ensures InTime(n, started, all, k) {
      assert k < |times| ==> InTime(n, started, times, k);
      assert Previous(started, all, k) == Previous(started, times, k);
    }
  }

  lemma StepDigests(n: Notifier, s: LoopState, input: Input)
    ensures var s' := Step(n, s, input);
      (DigestTimes(s'.mails) == DigestTimes(s.mails) && s'.lastSent == s.lastSent)
      || (input.Tick? && IsDue(n.schedule, input.now, s.lastSent) && !n.Quiet(input.now)
          && DigestTimes(s'.mails) == DigestTimes(s.mails) + [input.now] && s'.lastSent == input.now)
  {
    var s' := Step(n, s, input);
    if |s'.mails| > |s.mails| {
      DigestAdded(s.mails, s'.mails[|s'.mails| - 1]);
    }
  }

  lemma {:induction false} DigestsArePunctual(n: Notifier, started: Time, inputs: seq<Input>)
    ensures var s := Run(n, started, inputs);
      var times := DigestTimes(s.mails);
      Punctual(n, started, times) && s.lastSent == Previous(started, times, |times|)
  {
    if inputs != [] {
      var front, last := inputs[..|inputs| - 1], inputs[|inputs| - 1];
      DigestsArePunctual(n, started, front);
      var s := Run(n, started, front);
      var times := DigestTimes(s.mails);
      StepDigests(n, s, last);
      if DigestTimes(Step(n, s, last).mails) != times {
        PunctualAppend(n, started, times, last.now);
      }
    }
  }

  /** No scheduled digest is ever sent inside quiet hours, read as a cyclic window. */
  lemma DigestsKeepQuiet(n: Notifier, started: Time, inputs: seq<Input>, start: string, end: string, k: nat)
    requires n.quietHours == ParseQuietHours(Some(start), Some(end)) && n.quietHours.Some?
    requires k < |DigestTimes(Run(n, started, inputs).mails)|
    ensures var q := n.quietHours.value;
      !InWindow(q.startMin, q.endMin, MinuteOfDay(DigestTimes(Run(n, started, inputs).mails)[k]))
  {
    DigestsArePunctual(n, started, inputs);
    var times := DigestTimes(Run(n, started, inputs).mails);
    assert InTime(n, started, times, k);
    QuietHoursAreCyclic(Some(start), Some(end), times[k]);
  }

  lemma NextHour(n: Notifier, started: Time, times: seq<Time>, k: nat)
    requires n.schedule == HourlyDigest && Punctual(n, started, times) && k < |times|
    ensures HourIndex(Previous(started, times, k)) < HourIndex(times[k])
  {
    assert InTime(n, started, times, k);
  }

  ghost predicate Increasing(s: seq<int>) {
    forall k :: 0 < k < |s| ==> s[k - 1] < s[k]
  }

  lemma {:induction false} IncreasingAll(s: seq<int>, i: nat, j: nat)
    requires Increasing(s) && i < j < |s|
    ensures s[i] < s[j]
  {
    if i < j - 1 {
      IncreasingAll(s, i, j - 1);
    }
  }

  ghost function Hours(times: seq<Time>): seq<int> {
    seq(|times|, k requires 0 <= k < |times| => HourIndex(times[k]))
  }

  ghost function Days(times: seq<Time>): seq<int> {
    seq(|times|, k requires 0 <= k < |times| => DayIndex(times[k]))
  }

  /** At most one hourly digest per UTC hour, whatever the clock does. */
  lemma OneDigestPerHour(n: Notifier, started: Time, times: seq<Time>)
    requires n.schedule == HourlyDigest && Punctual(n, started, times)
    ensures Increasing(Hours(times))
  {
    forall k | 0 < k < |times| ensures Hours(times)[k - 1] < Hours(times)[k] {
      NextHour(n, started, times, k);
    }
  }

  ghost function ScheduledAt(day: int, hour: nat): Time { (day * 86400 + hour * 3600) * NANOS }

  /** A daily digest is sent at or after the configured hour, for the first time since. */
  lemma DailyDue(n: Notifier, started: Time, times: seq<Time>, k: nat)
    requires n.schedule.DailyDigest? && Punctual(n, started, times) && k < |times|
    ensures Previous(started, times, k) < ScheduledAt(DayIndex(times[k]), n.schedule.hour) <= times[k]
  {
    assert InTime(n, started, times, k);
  }

  lemma LaterDay(c: int, d: int, hour: nat, time: Time)
    requires ScheduledAt(c, hour) <= time < ScheduledAt(d, hour)
    ensures c < d
  {
  }

  lemma NextDay(n: Notifier, started: Time, times: seq<Time>, k: nat)
    requires n.schedule.DailyDigest? && Punctual(n, started, times) && 0 < k < |times|
    ensures DayIndex(times[k - 1]) < DayIndex(times[k])
  {
    DailyDue(n, started, times, k - 1);
    DailyDue(n, started, times, k);
    LaterDay(DayIndex(times[k - 1]), DayIndex(times[k]), n.schedule.hour, times[k - 1]);
  }

  /** At most one daily digest per UTC day, whatever the clock does. */
  lemma OneDigestPerDay(n: Notifier, started: Time, times: seq<Time>)
    requires n.schedule.DailyDigest? && Punctual(n, started, times)
    ensures Increasing(Days(times))
  {
    forall k | 0 < k < |times| ensures Days(times)[k - 1] < Days(times)[k] {
      NextDay(n, started, times, k);
    }
  }

  /**
   * In any run: at most one hourly digest per UTC hour, and none in the hour
   * the loop started; at most one daily digest per UTC day, and not before the
   * configured hour of that day.
   */
  lemma DigestFrequency(n: Notifier, started: Time, inputs: seq<Input>, i: nat, j: nat)
    requires i < j < |DigestTimes(Run(n, started, inputs).mails)|
    ensures var times := DigestTimes(Run(n, started, inputs).mails);
      (n.schedule == HourlyDigest ==>
            HourIndex(started) < HourIndex(times[0]) && HourIndex(times[i]) < HourIndex(times[j]))
      && (n.schedule.DailyDigest? ==>
            DayIndex(times[i]) < DayIndex(times[j]) && ScheduledAt(DayIndex(times[j]), n.schedule.hour) <= times[j])
  {
    DigestsArePunctual(n, started, inputs);
    var times := DigestTimes(Run(n, started, inputs).mails);
    if n.schedule == HourlyDigest {
      NextHour(n, started, times, 0);
      OneDigestPerHour(n, started, times);
      IncreasingAll(Hours(times), i, j);
    } else if n.schedule.DailyDigest? {
      DailyDue(n, started, times, j);
      OneDigestPerDay(n, started, times);
      IncreasingAll(Days(times), i, j);
    }
  }

  /**
   * A tick outside quiet hours leaves events waiting only when the schedule,
   * measured from the last digest, is not due yet.
   */
  lemma TickLeavesNothingDue(n: Notifier, started: Time, inputs: seq<Input>, now: Time)
    requires Closed !in inputs && !n.Quiet(now)
    ensures var s := Run(n, started, inputs + [Tick(now)]);
      var times := DigestTimes(s.mails);
      Pending(s) != [] ==> !IsDue(n.schedule, now, Previous(started, times, |times|))
  {
    var all := inputs + [Tick(now)];
    assert all[..|inputs|] == inputs;
    DigestsArePunctual(n, started, all);
    ClosedIffSeen(n, started, inputs);
  }

  // ---------------------------------------- what a tick does, from the clock

  const HOUR := 3_600_000_000_000
  const DAY := 24 * HOUR

  /** The instant is `hour` o'clock of the day of `now`. */
  predicate OClock(instant: Time, hour: nat, now: Time) {
    instant % DAY == hour * HOUR && instant / DAY == now / DAY
  }

  /** What each schedule promises, told from the instants. */
  ghost predicate Promises(schedule: Schedule, now: Time, last: Time) {
    match schedule
    case Immediate => true
    case HourlyDigest => now / HOUR > last / HOUR
    case DailyDigest(hour) => exists instant :: OClock(instant, hour, now) && last < instant <= now
    case Custom(due) => due(now, last)
  }

  /** The clock shows `hour`:`minute`. */
  predicate Shows(now: Time, hour: nat, minute: nat) {
    hour < 24 && minute < 60 && now % DAY / HOUR == hour && now % HOUR / 60_000_000_000 == minute
  }

  /** The time shown lies in the window, which may run across midnight. */
  ghost predicate InQuietHours(n: Notifier, now: Time) {
    n.quietHours.Some? && exists hour: nat, minute: nat :: Shows(now, hour, minute) && InWindowAt(n.quietHours.value, hour, minute)
  }

  predicate InWindowAt(q: QuietHours, hour: nat, minute: nat) {
    var m := hour * 60 + minute;
    (q.startMin <= m < q.endMin) || (q.endMin <= q.startMin <= m) || (m < q.endMin <= q.startMin)
  }

  lemma IndexesRead(now: Time)
    ensures HourIndex(now) == now / HOUR && DayIndex(now) == now / DAY
  {
  }

  lemma HourParts(now: Time, q: int, r: int)
    requires now == q * HOUR + r && 0 <= r < HOUR
    ensures now / HOUR == q && now % HOUR == r
  {
  }

  lemma DayParts(now: Time, q: int, r: int)
    requires now == q * DAY + r && 0 <= r < DAY
    ensures now / DAY == q && now % DAY == r
  {
  }

  lemma MinuteParts(rest: int, q: int, r: int)
    requires rest == q * 60_000_000_000 + r && 0 <= r < 60_000_000_000
    ensures rest / 60_000_000_000 == q
  {
  }

  lemma SecondsOfDay(now: Time)
    ensures var second := Timestamp(now) % 86400;
      0 <= second < 86400 && now % DAY / HOUR == second / 3600 && now % HOUR / 60_000_000_000 == second % 3600 / 60
  {
    var n, d, second := now % NANOS, Timestamp(now) / 86400, Timestamp(now) % 86400;
    var h, u := second / 3600, second % 3600;
    var m, v := u / 60, u % 60;
    DayParts(now, d, second * NANOS + n);
    HourParts(second * NANOS + n, h, u * NANOS + n);
    HourParts(now, 24 * d + h, u * NANOS + n);
    MinuteParts(u * NANOS + n, m, v * NANOS + n);
  }

  lemma ClockReads(now: Time)
    ensures HourIndex(now) == now / HOUR && DayIndex(now) == now / DAY
    ensures Shows(now, MinuteOfDay(now) / 60, MinuteOfDay(now) % 60)
  {
    IndexesRead(now);
    SecondsOfDay(now);
  }

  lemma DailyPromise(hour: nat, now: Time, last: Time)
    ensures IsDue(DailyDigest(hour), now, last) <==> Promises(DailyDigest(hour), now, last)
  {
    ClockReads(now);
    var scheduled := (DayIndex(now) * 86400 + hour * 3600) * NANOS;
    assert scheduled == now / DAY * DAY + hour * HOUR;
    if hour <= 23 {
      assert scheduled / DAY == now / DAY && scheduled % DAY == hour * HOUR;
      assert OClock(scheduled, hour, now);
    }
    forall instant | OClock(instant, hour, now) ensures hour <= 23 && instant == scheduled {
    }
  }

  lemma DueAsPromised(schedule: Schedule, now: Time, last: Time)
    ensures IsDue(schedule, now, last) <==> Promises(schedule, now, last)
  {
    ClockReads(now);
    ClockReads(last);
    if schedule.DailyDigest? {
      DailyPromise(schedule.hour, now, last);
    }
  }

  lemma QuietAsShown(n: Notifier, now: Time)
    ensures n.Quiet(now) <==> InQuietHours(n, now)
  {
    ClockReads(now);
    var m := MinuteOfDay(now);
    assert m / 60 * 60 + m % 60 == m;
    forall hour: nat, minute: nat | Shows(now, hour, minute) ensures hour == m / 60 && minute == m % 60 {
    }
  }

  /**
   * What a tick does in any run: it mails everything buffered and empties the buffer
   * when the schedule promises a digest since the last one and the time shown is not
   * in quiet hours, and otherwise does nothing.
   */
  lemma TickSends(n: Notifier, started: Time, inputs: seq<Input>, now: Time)
    requires Closed !in inputs
    ensures var s, s' := Run(n, started, inputs), Run(n, started, inputs + [Tick(now)]);
      var times := DigestTimes(s.mails);
      if s.buffer != [] && Promises(n.schedule, now, Previous(started, times, |times|)) && !InQuietHours(n, now)
      then s'.mails == s.mails + [Digest(now, s.buffer)] && s'.buffer == []
      else s'.mails == s.mails && s'.buffer == s.buffer
  {
    assert (inputs + [Tick(now)])[..|inputs|] == inputs;
    var s := Run(n, started, inputs);
    DigestsArePunctual(n, started, inputs);
    ClosedIffSeen(n, started, inputs);
    DueAsPromised(n.schedule, now, s.lastSent);
    QuietAsShown(n, now);
  }

  /** What arrives: an event of a contract not listed is ignored, a critical one mailed at once, any other kept. */
  lemma EventArrives(n: Notifier, started: Time, inputs: seq<Input>, e: Event)
    requires Closed !in inputs
    ensures var s, s' := Run(n, started, inputs), Run(n, started, inputs + [Received(e)]);
      if |n.contractFilter| > 0 && forall id :: id in n.contractFilter ==> id != e.contractId then s' == s
      else if e.critical then s'.mails == s.mails + [Critical(e)] && s'.buffer == s.buffer
      else s'.mails == s.mails && s'.buffer == s.buffer + [e]
  {
    assert (inputs + [Received(e)])[..|inputs|] == inputs;
    ClosedIffSeen(n, started, inputs);
  }

  /** A time of day is read exactly when it is two numbers around a colon, below 24 and 60. */
  lemma HhMmReads(value: string, minute: nat)
    ensures ParseHhMm(value) == Some(minute) <==> TimeText(value, minute)
  {
    if ParseHhMm(value) == Some(minute) {
      var halves := SplitOnce(Trim(value), ':').value;
      var hours := ParseUnsigned(Trim(halves.0), U32_RANGE).value;
      var minutes := ParseUnsigned(Trim(halves.1), U32_RANGE).value;
      assert ReadsAs(value, halves.0, halves.1, hours, minutes);
    }
    if h: string, m: string, hours: nat, minutes: nat :| ReadsAs(value, h, m, hours, minutes) && minute == hours * 60 + minutes {
      SplitOnceFinds(h, ':', m);
      assert Trim(value) == h + [':'] + m;
    }
  }

  ghost predicate ReadsAs(value: string, h: string, m: string, hours: nat, minutes: nat) {
    && Trim(value) == h + ":" + m && ':' !in h && hours < 24 && minutes < 60
    && ParseUnsigned(Trim(h), U32_RANGE) == Some(hours) && ParseUnsigned(Trim(m), U32_RANGE) == Some(minutes)
  }

  /** The text is a time of day, so many minutes after midnight. */
  ghost predicate TimeText(value: string, minute: nat) {
    exists h: string, m: string, hours: nat, minutes: nat ::
      ReadsAs(value, h, m, hours, minutes) && minute == hours * 60 + minutes
  }

  /** The minute of the day that the clock shows. */
  ghost predicate ShowsMinute(now: Time, minute: nat) {
    exists hour: nat, m: nat :: Shows(now, hour, m) && minute == hour * 60 + m
  }

  lemma OneMinuteShown(now: Time, minute: nat)
    ensures ShowsMinute(now, minute) <==> minute == MinuteOfDay(now)
  {
    ClockReads(now);
    var m := MinuteOfDay(now);
    assert m / 60 * 60 + m % 60 == m;
  }

  /** From the first time up to the second, around the clock. */
  ghost predicate Between(start: string, end: string, minute: nat, from: nat, to: nat) {
    TimeText(start, from) && TimeText(end, to) && from != to && InWindow(from, to, minute)
  }

  /** Quiet hours are what the two configured texts say; an unreadable or missing one turns them off. */
  lemma ConfiguredQuietHours(n: Notifier, start: Option<string>, end: Option<string>, now: Time, minute: nat)
    requires n.quietHours == ParseQuietHours(start, end) && ShowsMinute(now, minute)
    ensures n.Quiet(now)
      <==> start.Some? && end.Some? && exists from: nat, to: nat :: Between(start.value, end.value, minute, from, to)
  {
    OneMinuteShown(now, minute);
    if n.Quiet(now) {
      var q := n.quietHours.value;
      HhMmReads(start.value, q.startMin);
      HhMmReads(end.value, q.endMin);
      QuietHoursAreCyclic(start, end, now);
      assert Between(start.value, end.value, minute, q.startMin, q.endMin);
    }
    if start.Some? && end.Some? {
      forall from: nat, to: nat | Between(start.value, end.value, minute, from, to) ensures n.Quiet(now) {
        HhMmReads(start.value, from);
        HhMmReads(end.value, to);
        QuietHoursAreCyclic(start, end, now);
      }
    }
  }
}
