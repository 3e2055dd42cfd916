/** The two-window `is_rate_limited` of the tone generator: at most
    `MAX_REQUESTS_PER_MINUTE` admissions per `MINUTE_WINDOW` seconds and at
    most `MAX_REQUESTS_PER_DAY` per `DAY_WINDOW` seconds, kept in the deques
    `minute_timestamps` and `day_timestamps`. The body runs under a lock; each
    call is modelled as one atomic step. */
module ToneLimiter {
  import opened Window

  const MAX_REQUESTS_PER_MINUTE: nat := 10
  const MAX_REQUESTS_PER_DAY: nat := 100
  const MINUTE_WINDOW: int := 60
  const DAY_WINDOW: int := 24 * 60 * 60

  const MINUTE_LIMIT_MESSAGE: string := "Rate limit exceeded. Please wait a minute."
  const DAY_LIMIT_MESSAGE: string := "Daily limit reached. Try again tomorrow."

  /** What a call returns: `False` when admitted, a message when denied. */
  datatype Status = Allowed | Limited(message: string)

  /** What one call returns and the two queues it leaves. */
  datatype Outcome = Outcome(status: Status, minute: seq<int>, day: seq<int>)

  /** One call at time `now`: the minute queue is evicted and checked first;
      only when it has room is the day queue evicted and checked; only when
      both have room is `now` appended to both. */
  function ToneGate(minute: seq<int>, day: seq<int>, now: int): Outcome {
    var minuteKept := Evicted(minute, now, MINUTE_WINDOW);
    if |minuteKept| >= MAX_REQUESTS_PER_MINUTE then
      Outcome(Limited(MINUTE_LIMIT_MESSAGE), minuteKept, day)
    else
      var dayKept := Evicted(day, now, DAY_WINDOW);
      if |dayKept| >= MAX_REQUESTS_PER_DAY then
        Outcome(Limited(DAY_LIMIT_MESSAGE), minuteKept, dayKept)
      else
        Outcome(Allowed, minuteKept + [now], dayKept + [now])
  }

  /** The two module-level deques, as the object that owns them. */
  class RateLimiter {
    var minuteTimestamps: seq<int>
    var dayTimestamps: seq<int>

    ghost predicate Valid()
      reads this
    {
      |minuteTimestamps| <= MAX_REQUESTS_PER_MINUTE && |dayTimestamps| <= MAX_REQUESTS_PER_DAY
    }

    constructor ()
      ensures Valid() && minuteTimestamps == [] && dayTimestamps == []
    {
      minuteTimestamps := [];
      dayTimestamps := [];
    }

    /** `while minute_timestamps and now - minute_timestamps[0] > MINUTE_WINDOW:
        minute_timestamps.popleft()` */
    method EvictMinute(now: int)
      requires Valid()
      modifies this
      ensures Valid()
      ensures minuteTimestamps == Evicted(old(minuteTimestamps), now, MINUTE_WINDOW)
      ensures dayTimestamps == old(dayTimestamps)
    {
      while minuteTimestamps != [] && now - minuteTimestamps[0] > MINUTE_WINDOW
        invariant Evicted(minuteTimestamps, now, MINUTE_WINDOW) == Evicted(old(minuteTimestamps), now, MINUTE_WINDOW)
        invariant |minuteTimestamps| <= MAX_REQUESTS_PER_MINUTE
        invariant dayTimestamps == old(dayTimestamps)
        decreases |minuteTimestamps|
      {
        minuteTimestamps := minuteTimestamps[1..];
      }
    }

    /** The same loop on `day_timestamps` with `DAY_WINDOW`. */
    method EvictDay(now: int)
      requires Valid()
      modifies this
      ensures Valid()
      ensures dayTimestamps == Evicted(old(dayTimestamps), now, DAY_WINDOW)
      ensures minuteTimestamps == old(minuteTimestamps)
    {
      while dayTimestamps != [] && now - dayTimestamps[0] > DAY_WINDOW
        invariant Evicted(dayTimestamps, now, DAY_WINDOW) == Evicted(old(dayTimestamps), now, DAY_WINDOW)
        invariant |dayTimestamps| <= MAX_REQUESTS_PER_DAY
        invariant minuteTimestamps == old(minuteTimestamps)
        decreases |dayTimestamps|
      {
        dayTimestamps := dayTimestamps[1..];
      }
    }

    /** `is_rate_limited()` with the clock reading passed in as `now`. */
    method IsRateLimited(now: int) returns (status: Status)
      requires Valid()
      modifies this
      ensures Valid()
      ensures Outcome(status, minuteTimestamps, dayTimestamps)
           == ToneGate(old(minuteTimestamps), old(dayTimestamps), now)
    {
      var minute, day := minuteTimestamps, dayTimestamps;
      EvictMinute(now);
      if |minuteTimestamps| >= MAX_REQUESTS_PER_MINUTE {
        MinuteDenialOutcome(minute, day, now);
        return Limited(MINUTE_LIMIT_MESSAGE);
      }
      EvictDay(now);
      if |dayTimestamps| >= MAX_REQUESTS_PER_DAY {
        DayDenialOutcome(minute, day, now);
        return Limited(DAY_LIMIT_MESSAGE);
      }
      AdmissionOutcome(minute, day, now);
      minuteTimestamps := minuteTimestamps + [now];
      dayTimestamps := dayTimestamps + [now];
      return Allowed;
    }
  }

  /** A call is admitted exactly when, after eviction, the minute queue holds
      fewer than ten entries and the day queue fewer than a hundred; an
      admission appends `now` to both evicted queues. */
  lemma ToneGateAdmitsIffRoom(minute: seq<int>, day: seq<int>, now: int)
    ensures ToneGate(minute, day, now).status == Allowed
        <==> |Evicted(minute, now, MINUTE_WINDOW)| < MAX_REQUESTS_PER_MINUTE
             && |Evicted(day, now, DAY_WINDOW)| < MAX_REQUESTS_PER_DAY
    ensures ToneGate(minute, day, now).status == Allowed ==>
              ToneGate(minute, day, now).minute == Evicted(minute, now, MINUTE_WINDOW) + [now]
              && ToneGate(minute, day, now).day == Evicted(day, now, DAY_WINDOW) + [now]
  {
  }

  /** A denied call appends to neither queue and names its reason. */
  lemma ToneGateDenialAppendsNothing(minute: seq<int>, day: seq<int>, now: int)
    ensures var o := ToneGate(minute, day, now);
      o.status.Limited? ==>
        o.status.message != []
        && o.minute == Evicted(minute, now, MINUTE_WINDOW)
        && (o.day == day || o.day == Evicted(day, now, DAY_WINDOW))
  {
  }

  /** A full minute queue is reported before the day queue is evicted or
      checked: the minute message wins and the day queue is left as it was. */
  lemma MinuteDenialTakesPrecedence(minute: seq<int>, day: seq<int>, now: int)
    requires |Evicted(minute, now, MINUTE_WINDOW)| >= MAX_REQUESTS_PER_MINUTE
    ensures ToneGate(minute, day, now).status == Limited(MINUTE_LIMIT_MESSAGE)
    ensures ToneGate(minute, day, now).day == day
  {
  }

  /** The day message is given only when the minute queue had room and the
      evicted day queue is full. */
  lemma DayDenialOnlyWhenDayFull(minute: seq<int>, day: seq<int>, now: int)
    ensures ToneGate(minute, day, now).status == Limited(DAY_LIMIT_MESSAGE)
        <==> |Evicted(minute, now, MINUTE_WINDOW)| < MAX_REQUESTS_PER_MINUTE
             && |Evicted(day, now, DAY_WINDOW)| >= MAX_REQUESTS_PER_DAY
  {
  }

  /** The minute queue, once evicted at `now`, is at its quota. */
  predicate MinuteFull(minute: seq<int>, now: int) {
    |Evicted(minute, now, MINUTE_WINDOW)| >= MAX_REQUESTS_PER_MINUTE
  }

  /** The day queue, once evicted at `now`, is at its quota. */
  predicate DayFull(day: seq<int>, now: int) {
    |Evicted(day, now, DAY_WINDOW)| >= MAX_REQUESTS_PER_DAY
  }

  lemma MinuteDenialOutcome(minute: seq<int>, day: seq<int>, now: int)
    requires MinuteFull(minute, now)
    ensures ToneGate(minute, day, now) == Outcome(Limited(MINUTE_LIMIT_MESSAGE), Evicted(minute, now, MINUTE_WINDOW), day)
    ensures Added(minute, day, now) == []
  {
  }

  lemma DayDenialOutcome(minute: seq<int>, day: seq<int>, now: int)
    requires !MinuteFull(minute, now) && DayFull(day, now)
    ensures ToneGate(minute, day, now)
         == Outcome(Limited(DAY_LIMIT_MESSAGE), Evicted(minute, now, MINUTE_WINDOW), Evicted(day, now, DAY_WINDOW))
    ensures Added(minute, day, now) == []
  {
  }

  lemma AdmissionOutcome(minute: seq<int>, day: seq<int>, now: int)
    requires !MinuteFull(minute, now) && !DayFull(day, now)
    ensures ToneGate(minute, day, now)
         == Outcome(Allowed, Evicted(minute, now, MINUTE_WINDOW) + [now], Evicted(day, now, DAY_WINDOW) + [now])
    ensures Added(minute, day, now) == [now]
  {
  }

  /** No call lets either queue grow past its quota. */
  lemma ToneGateKeepsQuotas(minute: seq<int>, day: seq<int>, now: int)
    requires |minute| <= MAX_REQUESTS_PER_MINUTE && |day| <= MAX_REQUESTS_PER_DAY
    ensures |ToneGate(minute, day, now).minute| <= MAX_REQUESTS_PER_MINUTE
    ensures |ToneGate(minute, day, now).day| <= MAX_REQUESTS_PER_DAY
  {
  }

  /** With a clock that does not go back, the minute queue stays sorted and
      afterwards holds only entries from the last minute. */
  lemma ToneGateKeepsMinuteOrder(minute: seq<int>, day: seq<int>, now: int)
    requires Sorted(minute) && NotAfter(minute, now)
    ensures Sorted(ToneGate(minute, day, now).minute)
    ensures WithinWindow(ToneGate(minute, day, now).minute, now, MINUTE_WINDOW)
  {
    EvictedOrdered(minute, now, MINUTE_WINDOW);
    if MinuteFull(minute, now) {
      MinuteDenialOutcome(minute, day, now);
    } else if DayFull(day, now) {
      DayDenialOutcome(minute, day, now);
    } else {
      AdmissionOutcome(minute, day, now);
    }
  }

  /** With a clock that does not go back, the day queue stays sorted and,
      unless the minute denial left it alone, afterwards holds only entries
      from the last day. */
  lemma ToneGateKeepsDayOrder(minute: seq<int>, day: seq<int>, now: int)
    requires Sorted(day) && NotAfter(day, now)
    ensures Sorted(ToneGate(minute, day, now).day)
    ensures ToneGate(minute, day, now).status != Limited(MINUTE_LIMIT_MESSAGE) ==>
              WithinWindow(ToneGate(minute, day, now).day, now, DAY_WINDOW)
  {
    EvictedOrdered(day, now, DAY_WINDOW);
    if MinuteFull(minute, now) {
      MinuteDenialOutcome(minute, day, now);
    } else if DayFull(day, now) {
      DayDenialOutcome(minute, day, now);
    } else {
      AdmissionOutcome(minute, day, now);
    }
  }

  /** The statuses and the final queues of a sequence of calls. */
  datatype Trace = Trace(statuses: seq<Status>, minute: seq<int>, day: seq<int>)

  function Run(minute: seq<int>, day: seq<int>, times: seq<int>): (t: Trace)
    ensures |t.statuses| == |times|
    decreases |times|
  {
    if times == [] then Trace([], minute, day)
    else
      var o := ToneGate(minute, day, times[0]);
      var rest := Run(o.minute, o.day, times[1..]);
      Trace([o.status] + rest.statuses, rest.minute, rest.day)
  }

  /** The times of the calls that were admitted, in call order. */
  function Admitted(times: seq<int>, statuses: seq<Status>): seq<int>
    requires |statuses| == |times|
  {
    if times == [] then []
    else (if statuses[0] == Allowed then [times[0]] else []) + Admitted(times[1..], statuses[1..])
  }

  /** What a call at `now` adds to the admission history. */
  function Added(minute: seq<int>, day: seq<int>, now: int): seq<int> {
    if ToneGate(minute, day, now).status == Allowed then [now] else []
  }

  /** Both queues are the newest part of one admission history, and that
      history is spaced for both quotas. */
  ghost predicate History(admitted: seq<int>, minute: seq<int>, day: seq<int>, last: int) {
    Tracks(admitted, minute, last, MINUTE_WINDOW) && Tracks(admitted, day, last, DAY_WINDOW)
    && Spaced(admitted, MINUTE_WINDOW, MAX_REQUESTS_PER_MINUTE)
    && Spaced(admitted, DAY_WINDOW, MAX_REQUESTS_PER_DAY)
  }

  /** The invariant after one call, as the step lemmas below state it. */
  ghost predicate HistoryAfter(admitted: seq<int>, minute: seq<int>, day: seq<int>, now: int) {
    var o := ToneGate(minute, day, now);
    History(admitted + Added(minute, day, now), o.minute, o.day, now)
  }

  /** A call denied by the minute quota keeps the history explained. */
  lemma MinuteDenialKeepsHistory(admitted: seq<int>, minute: seq<int>, day: seq<int>, last: int, now: int)
    requires History(admitted, minute, day, last) && last <= now
    requires MinuteFull(minute, now)
    ensures HistoryAfter(admitted, minute, day, now)
  {
    TracksAfterEviction(admitted, minute, last, now, MINUTE_WINDOW);
    TracksLater(admitted, day, last, now, DAY_WINDOW);
    MinuteDenialOutcome(minute, day, now);
    EmptyAppend(admitted);
  }

  /** Evicting both queues at a later time keeps the history explained. */
  lemma EvictionKeepsHistory(admitted: seq<int>, minute: seq<int>, day: seq<int>, last: int, now: int)
    requires History(admitted, minute, day, last) && last <= now
    ensures History(admitted, Evicted(minute, now, MINUTE_WINDOW), Evicted(day, now, DAY_WINDOW), now)
  {
    TracksAfterEviction(admitted, minute, last, now, MINUTE_WINDOW);
    TracksAfterEviction(admitted, day, last, now, DAY_WINDOW);
  }

  /** A call denied by the day quota keeps the history explained. */
  lemma DayDenialKeepsHistory(admitted: seq<int>, minute: seq<int>, day: seq<int>, last: int, now: int)
    requires History(admitted, minute, day, last) && last <= now
    requires !MinuteFull(minute, now) && DayFull(day, now)
    ensures HistoryAfter(admitted, minute, day, now)
  {
    EvictionKeepsHistory(admitted, minute, day, last, now);
    DayDenialOutcome(minute, day, now);
    EmptyAppend(admitted);
  }

  /** An admitted call keeps the history explained and spaced. */
  lemma AdmissionKeepsHistory(admitted: seq<int>, minute: seq<int>, day: seq<int>, last: int, now: int)
    requires History(admitted, minute, day, last) && last <= now
    requires !MinuteFull(minute, now) && !DayFull(day, now)
    ensures HistoryAfter(admitted, minute, day, now)
  {
    var m, d := Evicted(minute, now, MINUTE_WINDOW), Evicted(day, now, DAY_WINDOW);
    TracksAfterEviction(admitted, minute, last, now, MINUTE_WINDOW);
    TracksAfterEviction(admitted, day, last, now, DAY_WINDOW);
    AdmissionKeepsSpacing(admitted, m, now, MINUTE_WINDOW, MAX_REQUESTS_PER_MINUTE);
    AdmissionKeepsSpacing(admitted, d, now, DAY_WINDOW, MAX_REQUESTS_PER_DAY);
    AdmissionOutcome(minute, day, now);
  }

  /** One call keeps the history explained and spaced. */
  lemma ToneGateKeepsHistory(admitted: seq<int>, minute: seq<int>, day: seq<int>, last: int, now: int)
    requires History(admitted, minute, day, last) && last <= now
    ensures HistoryAfter(admitted, minute, day, now)
  {
    if MinuteFull(minute, now) {
      MinuteDenialKeepsHistory(admitted, minute, day, last, now);
    } else if DayFull(day, now) {
      DayDenialKeepsHistory(admitted, minute, day, last, now);
    } else {
      AdmissionKeepsHistory(admitted, minute, day, last, now);
    }
  }

  /** The admissions of a run: those of its first call, then those of the rest. */
  lemma AdmittedOfRun(minute: seq<int>, day: seq<int>, times: seq<int>)
    requires times != []
    ensures var o := ToneGate(minute, day, times[0]);
      Admitted(times, Run(minute, day, times).statuses)
      == Added(minute, day, times[0]) + Admitted(times[1..], Run(o.minute, o.day, times[1..]).statuses)
  {
    var o := ToneGate(minute, day, times[0]);
    assert Run(minute, day, times).statuses[1..] == Run(o.minute, o.day, times[1..]).statuses;
  }

  /** Every call of a run keeps the history explained and spaced. */
  lemma {:induction false} RunKeepsHistory(admitted: seq<int>, minute: seq<int>, day: seq<int>, last: int, times: seq<int>)
    requires History(admitted, minute, day, last)
    requires Sorted(times) && (times != [] ==> last <= times[0])
    ensures Spaced(admitted + Admitted(times, Run(minute, day, times).statuses), MINUTE_WINDOW, MAX_REQUESTS_PER_MINUTE)
    ensures Spaced(admitted + Admitted(times, Run(minute, day, times).statuses), DAY_WINDOW, MAX_REQUESTS_PER_DAY)
    decreases |times|
  {
    if times == [] {
      assert admitted + [] == admitted;
    } else {
      var now, rest := times[0], times[1..];
      var o := ToneGate(minute, day, now);
      ToneGateKeepsHistory(admitted, minute, day, last, now);
      RunKeepsHistory(admitted + Added(minute, day, now), o.minute, o.day, now, rest);
      AdmittedOfRun(minute, day, times);
      ConcatAssoc(admitted, Added(minute, day, now), Admitted(rest, Run(o.minute, o.day, rest).statuses));
    }
  }

  lemma EmptyHistory(last: int)
    ensures History([], [], [], last)
  {
  }

  /** Starting empty, with a clock that never goes back, any eleven admitted
      calls span more than a minute and any hundred and one more than a day. */
  lemma NoBurstBeyondEitherQuota(times: seq<int>)
    requires Sorted(times)
    ensures Spaced(Admitted(times, Run([], [], times).statuses), MINUTE_WINDOW, MAX_REQUESTS_PER_MINUTE)
    ensures Spaced(Admitted(times, Run([], [], times).statuses), DAY_WINDOW, MAX_REQUESTS_PER_DAY)
  {
    var adm := Admitted(times, Run([], [], times).statuses);
    if times != [] {
      EmptyHistory(times[0]);
      RunKeepsHistory([], [], [], times[0], times);
      EmptyConcat(adm);
    }
  }
}
