/** The single-window `is_rate_limited` of the two chatbots: at most
    `MAX_REQUESTS_PER_MINUTE` admissions per `REQUEST_WINDOW` seconds, kept in
    the deque `request_timestamps`. The web chatbot runs the same body under a
    lock; each call is modelled as one atomic step. */
module ChatLimiter {
  import opened Window

  const MAX_REQUESTS_PER_MINUTE: nat := 10
  const REQUEST_WINDOW: int := 60

  /** What one call returns (`True` when limited) and the queue it leaves. */
  datatype Decision = Decision(limited: bool, queue: seq<int>)

  /** One call at time `now` on queue `q`: evict, deny if full, else record `now`. */
  function Gate(q: seq<int>, now: int): Decision {
    var kept := Evicted(q, now, REQUEST_WINDOW);
    if |kept| >= MAX_REQUESTS_PER_MINUTE then Decision(true, kept)
    else Decision(false, kept + [now])
  }

  /** The module-level deque, as the object that owns it. */
  class RequestLimiter {
    var timestamps: seq<int>

    ghost predicate Valid()
      reads this
    {
      |timestamps| <= MAX_REQUESTS_PER_MINUTE
    }

    constructor ()
      ensures Valid() && timestamps == []
    {
      timestamps := [];
    }

    /** `is_rate_limited()` with the clock reading passed in as `now`. */
    method IsRateLimited(now: int) returns (limited: bool)
      requires Valid()
      modifies this
      ensures Valid()
      ensures Decision(limited, timestamps) == Gate(old(timestamps), now)
      ensures limited <==> |Evicted(old(timestamps), now, REQUEST_WINDOW)| >= MAX_REQUESTS_PER_MINUTE
      ensures limited ==> timestamps == Evicted(old(timestamps), now, REQUEST_WINDOW)
      ensures !limited ==> timestamps == Evicted(old(timestamps), now, REQUEST_WINDOW) + [now]
    {
      while timestamps != [] && now - timestamps[0] > REQUEST_WINDOW
        invariant Evicted(timestamps, now, REQUEST_WINDOW) == Evicted(old(timestamps), now, REQUEST_WINDOW)
        invariant |timestamps| <= MAX_REQUESTS_PER_MINUTE
        decreases |timestamps|
      {
        timestamps := timestamps[1..];
      }
      if |timestamps| >= MAX_REQUESTS_PER_MINUTE {
        return true;
      }
      timestamps := timestamps + [now];
      return false;
    }
  }

  /** Within the quota, a call is admitted as soon as the oldest entry has
      left the window: eviction frees its slot. */
  lemma WindowSlides(q: seq<int>, now: int)
    requires |q| <= MAX_REQUESTS_PER_MINUTE && q != [] && now - q[0] > REQUEST_WINDOW
    ensures !Gate(q, now).limited
  {
  }

  /** No call lets the queue grow past the quota. */
  lemma GateKeepsQuota(q: seq<int>, now: int)
    requires |q| <= MAX_REQUESTS_PER_MINUTE
    ensures |Gate(q, now).queue| <= MAX_REQUESTS_PER_MINUTE
  {
  }

  /** On a sorted queue a call is denied exactly when the window already
      holds the quota, counted over the whole queue. */
  lemma GateDeniesIffWindowFull(q: seq<int>, now: int)
    requires Sorted(q)
    ensures Gate(q, now).limited <==> CountWithin(q, now, REQUEST_WINDOW) >= MAX_REQUESTS_PER_MINUTE
  {
    EvictedSizeIsCountWithin(q, now, REQUEST_WINDOW);
  }

  /** Once every entry is more than a window old, the queue empties and the
      call is admitted. */
  lemma AllExpiredAdmits(q: seq<int>, now: int)
    requires forall i :: 0 <= i < |q| ==> now - q[i] > REQUEST_WINDOW
    ensures Gate(q, now) == Decision(false, [now])
  {
    AllExpiredEvictsAll(q, now, REQUEST_WINDOW);
  }

  /** With a clock that does not go back, the queue stays sorted and holds
      only entries from the last window. */
  lemma GateKeepsOrder(q: seq<int>, now: int)
    requires Sorted(q) && NotAfter(q, now)
    ensures Sorted(Gate(q, now).queue) && WithinWindow(Gate(q, now).queue, now, REQUEST_WINDOW)
  {
    EvictedOrdered(q, now, REQUEST_WINDOW);
  }

  /** The decisions and the final queue of a sequence of calls. */
  datatype Trace = Trace(limited: seq<bool>, queue: seq<int>)

  function Run(q: seq<int>, times: seq<int>): (t: Trace)
    ensures |t.limited| == |times|
    decreases |times|
  {
    if times == [] then Trace([], q)
    else
      var d := Gate(q, times[0]);
      var rest := Run(d.queue, times[1..]);
      Trace([d.limited] + rest.limited, rest.queue)
  }

  /** The times of the calls that were admitted, in call order. */
  function Admitted(times: seq<int>, limited: seq<bool>): seq<int>
    requires |limited| == |times|
  {
    if times == [] then []
    else (if limited[0] then [] else [times[0]]) + Admitted(times[1..], limited[1..])
  }

  /** A run of calls all within one window of `lo`, on a queue of entries no
      older than `lo`, admits while there is room and denies after that. */
  lemma {:induction false} BurstFrom(q: seq<int>, lo: int, times: seq<int>)
    requires |q| <= MAX_REQUESTS_PER_MINUTE
    requires forall i :: 0 <= i < |q| ==> lo <= q[i]
    requires forall k :: 0 <= k < |times| ==> lo <= times[k] <= lo + REQUEST_WINDOW
    ensures forall k :: 0 <= k < |times| ==> Run(q, times).limited[k] == (|q| + k >= MAX_REQUESTS_PER_MINUTE)
    decreases |times|
  {
    if times != [] {
      var now := times[0];
      NoneExpiredEvictsNone(q, now, REQUEST_WINDOW);
      var d := Gate(q, now);
      BurstFrom(d.queue, lo, times[1..]);
      var rest := Run(d.queue, times[1..]);
      forall k | 0 <= k < |times| ensures Run(q, times).limited[k] == (|q| + k >= MAX_REQUESTS_PER_MINUTE) {
        if k > 0 {
          assert Run(q, times).limited[k] == rest.limited[k - 1];
          assert times[1..][k - 1] == times[k];
        }
      }
    }
  }

  /** Starting empty, calls within one window of the first admit exactly the
      first `MAX_REQUESTS_PER_MINUTE` and deny the rest. */
  lemma BurstAdmitsFirstTen(times: seq<int>)
    requires Sorted(times)
    requires times != [] ==> times[|times| - 1] - times[0] <= REQUEST_WINDOW
    ensures forall k :: 0 <= k < |times| ==> Run([], times).limited[k] == (k >= MAX_REQUESTS_PER_MINUTE)
  {
    if times != [] {
      BurstFrom([], times[0], times);
    }
  }

  /** `times` is a clock that starts no earlier than `last` and never goes back. */
  predicate ClockFrom(last: int, times: seq<int>) {
    Sorted(times) && (times != [] ==> last <= times[0])
  }

  /** The admissions of a run: those of its first call, then those of the rest. */
  lemma AdmittedOfRun(q: seq<int>, times: seq<int>)
    requires times != []
    ensures Admitted(times, Run(q, times).limited)
         == Added(q, times[0]) + Admitted(times[1..], Run(Gate(q, times[0]).queue, times[1..]).limited)
  {
    var t := Run(q, times);
    assert t.limited[1..] == Run(Gate(q, times[0]).queue, times[1..]).limited;
  }

  /** What a call at `now` adds to the admission history. */
  function Added(q: seq<int>, now: int): seq<int> {
    if Gate(q, now).limited then [] else [now]
  }

  /** One call keeps the admission history explained by the queue and spaced. */
  lemma GateKeepsSpacing(admitted: seq<int>, q: seq<int>, last: int, now: int)
    requires Tracks(admitted, q, last, REQUEST_WINDOW) && last <= now
    requires Spaced(admitted, REQUEST_WINDOW, MAX_REQUESTS_PER_MINUTE)
    ensures Tracks(admitted + Added(q, now), Gate(q, now).queue, now, REQUEST_WINDOW)
    ensures Spaced(admitted + Added(q, now), REQUEST_WINDOW, MAX_REQUESTS_PER_MINUTE)
  {
    TracksAfterEviction(admitted, q, last, now, REQUEST_WINDOW);
    if !Gate(q, now).limited {
      AdmissionKeepsSpacing(admitted, Evicted(q, now, REQUEST_WINDOW), now, REQUEST_WINDOW, MAX_REQUESTS_PER_MINUTE);
    } else {
      assert admitted + [] == admitted;
    }
  }

  /** Every call of a run keeps the admission history explained by the queue
      and keeps it spaced. */
  lemma {:induction false} RunKeepsSpacing(admitted: seq<int>, q: seq<int>, last: int, times: seq<int>)
    requires Tracks(admitted, q, last, REQUEST_WINDOW)
    requires Spaced(admitted, REQUEST_WINDOW, MAX_REQUESTS_PER_MINUTE)
    requires ClockFrom(last, times)
    ensures Spaced(admitted + Admitted(times, Run(q, times).limited), REQUEST_WINDOW, MAX_REQUESTS_PER_MINUTE)
    decreases |times|
  {
    if times == [] {
      assert admitted + [] == admitted;
    } else {
      var now := times[0];
      var rest := times[1..];
      var next := Gate(q, now).queue;
      GateKeepsSpacing(admitted, q, last, now);
      assert ClockFrom(now, rest);
      RunKeepsSpacing(admitted + Added(q, now), next, now, rest);
      AdmittedOfRun(q, times);
      ConcatAssoc(admitted, Added(q, now), Admitted(rest, Run(next, rest).limited));
    }
  }

  /** Starting empty, with a clock that never goes back, any eleven admitted
      calls span more than sixty seconds. */
  lemma NoElevenAdmissionsInAMinute(times: seq<int>)
    requires Sorted(times)
    ensures Spaced(Admitted(times, Run([], times).limited), REQUEST_WINDOW, MAX_REQUESTS_PER_MINUTE)
  {
    var adm := Admitted(times, Run([], times).limited);
    if times != [] {
      assert Tracks([], [], times[0], REQUEST_WINDOW);
      RunKeepsSpacing([], [], times[0], times);
      assert [] + adm == adm;
    }
  }
}
