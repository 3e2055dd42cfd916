/** The sliding-window bookkeeping shared by every `is_rate_limited`: a queue
    of admission timestamps, oldest first, from whose front the entries older
    than the window are evicted before each decision. Timestamps are whole
    seconds. */
module Window {

  /** `while q and now - q[0] > window: q.popleft()`. */
  function Evicted(q: seq<int>, now: int, window: int): (r: seq<int>)
    ensures |r| <= |q| && r == q[|q| - |r|..]
    ensures forall i :: 0 <= i < |q| - |r| ==> now - q[i] > window
    ensures r != [] ==> now - r[0] <= window
    decreases |q|
  {
    if q != [] && now - q[0] > window then Evicted(q[1..], now, window) else q
  }

  /** An entry exactly `window` seconds old is not evicted: the test is strict,
      so the entry and everything behind it stay. */
  lemma BoundaryEntryStays(q: seq<int>, now: int, window: int, j: int)
    requires 0 <= j < |q| && now - q[j] == window
    ensures j >= |q| - |Evicted(q, now, window)|
  {
  }

  /** When every entry is older than the window, the queue empties. */
  lemma {:induction false} AllExpiredEvictsAll(q: seq<int>, now: int, window: int)
    requires forall i :: 0 <= i < |q| ==> now - q[i] > window
    ensures Evicted(q, now, window) == []
  {
    if q != [] {
      AllExpiredEvictsAll(q[1..], now, window);
    }
  }

  /** When no entry is older than the window, nothing is evicted. */
  lemma NoneExpiredEvictsNone(q: seq<int>, now: int, window: int)
    requires forall i :: 0 <= i < |q| ==> now - q[i] <= window
    ensures Evicted(q, now, window) == q
  {
  }

  predicate Sorted(q: seq<int>) {
    forall i, j :: 0 <= i < j < |q| ==> q[i] <= q[j]
  }

  /** Every entry of `q` is no later than `now`. */
  predicate NotAfter(q: seq<int>, now: int) {
    forall i :: 0 <= i < |q| ==> q[i] <= now
  }

  /** Every entry of `q` lies within `window` seconds before `now`. */
  predicate WithinWindow(q: seq<int>, now: int, window: int) {
    forall i :: 0 <= i < |q| ==> 0 <= now - q[i] <= window
  }

  /** Every suffix of a sorted queue is sorted. */
  lemma SortedSuffix(q: seq<int>, k: nat)
    requires Sorted(q) && k <= |q|
    ensures Sorted(q[k..])
  {
    var r := q[k..];
    forall i, j | 0 <= i < j < |r| ensures r[i] <= r[j] {
      assert r[i] == q[k + i] && r[j] == q[k + j];
    }
  }

  /** A sorted queue whose oldest entry is within the window lies wholly within it. */
  lemma SortedHeadWithin(r: seq<int>, now: int, window: int)
    requires Sorted(r) && (r != [] ==> now - r[0] <= window)
    ensures forall i :: 0 <= i < |r| ==> now - r[i] <= window
  {
  }

  /** On a sorted queue eviction leaves exactly the entries within the window. */
  lemma EvictedSortedWithin(q: seq<int>, now: int, window: int)
    requires Sorted(q)
    ensures Sorted(Evicted(q, now, window))
    ensures forall i :: 0 <= i < |Evicted(q, now, window)| ==> now - Evicted(q, now, window)[i] <= window
  {
    SortedSuffix(q, |q| - |Evicted(q, now, window)|);
    SortedHeadWithin(Evicted(q, now, window), now, window);
  }

  /** With a clock that does not go back, what eviction keeps, with or
      without `now` appended, is sorted and lies within the window. */
  lemma EvictedOrdered(q: seq<int>, now: int, window: int)
    requires Sorted(q) && NotAfter(q, now) && window >= 0
    ensures Sorted(Evicted(q, now, window)) && WithinWindow(Evicted(q, now, window), now, window)
    ensures Sorted(Evicted(q, now, window) + [now]) && WithinWindow(Evicted(q, now, window) + [now], now, window)
  {
    var r := Evicted(q, now, window);
    EvictedSortedWithin(q, now, window);
    NotAfterSuffix(q, now, |q| - |r|);
    AppendNowWithin(r, now, window);
  }

  lemma NotAfterSuffix(q: seq<int>, now: int, k: nat)
    requires NotAfter(q, now) && k <= |q|
    ensures NotAfter(q[k..], now)
  {
    forall i | 0 <= i < |q| - k ensures q[k..][i] <= now {
      assert q[k..][i] == q[k + i];
    }
  }

  /** Appending `now` to a sorted queue of entries from the last window keeps
      it sorted and within the window. */
  lemma AppendNowWithin(r: seq<int>, now: int, window: int)
    requires Sorted(r) && NotAfter(r, now) && window >= 0
    requires forall i :: 0 <= i < |r| ==> now - r[i] <= window
    ensures WithinWindow(r, now, window)
    ensures Sorted(r + [now]) && WithinWindow(r + [now], now, window)
  {
    AppendNowSorted(r, now);
    var a := r + [now];
    forall i | 0 <= i < |a| ensures 0 <= now - a[i] <= window {
      if i < |r| {
        assert a[i] == r[i];
      }
    }
  }

  /** How many entries lie within `window` seconds of `now`, wherever they are. */
  function CountWithin(q: seq<int>, now: int, window: int): nat {
    if q == [] then 0
    else (if now - q[0] <= window then 1 else 0) + CountWithin(q[1..], now, window)
  }

  lemma {:induction false} CountWithinAll(q: seq<int>, now: int, window: int)
    requires forall i :: 0 <= i < |q| ==> now - q[i] <= window
    ensures CountWithin(q, now, window) == |q|
  {
    if q != [] {
      CountWithinAll(q[1..], now, window);
    }
  }

  /** On a sorted queue, what eviction keeps is exactly the number of entries
      within the window: counting them is what the decision amounts to. */
  lemma {:induction false} EvictedSizeIsCountWithin(q: seq<int>, now: int, window: int)
    requires Sorted(q)
    ensures |Evicted(q, now, window)| == CountWithin(q, now, window)
  {
    if q != [] {
      if now - q[0] > window {
        EvictedSizeIsCountWithin(q[1..], now, window);
      } else {
        CountWithinAll(q, now, window);
      }
    }
  }

  /** Appending the current time to a sorted queue of earlier times keeps it sorted. */
  lemma AppendNowSorted(q: seq<int>, now: int)
    requires Sorted(q) && NotAfter(q, now)
    ensures Sorted(q + [now])
  {
  }

  /** `q` is the newest part of the admission history `admitted`, and
      everything older than `q` had already left the window at time `last`. */
  ghost predicate Tracks(admitted: seq<int>, q: seq<int>, last: int, window: int) {
    |q| <= |admitted| && q == admitted[|admitted| - |q|..] &&
    forall j :: 0 <= j < |admitted| - |q| ==> last - admitted[j] > window
  }

  /** Any `max + 1` consecutive admissions span more than `window` seconds,
      so no window of that length holds more than `max` of them. */
  ghost predicate Spaced(admitted: seq<int>, window: int, max: nat) {
    forall i, j :: 0 <= i && j == i + max && j < |admitted| ==> admitted[j] - admitted[i] > window
  }

  /** Time moving forward keeps the history explained. */
  lemma TracksLater(admitted: seq<int>, q: seq<int>, last: int, now: int, window: int)
    requires Tracks(admitted, q, last, window) && last <= now
    ensures Tracks(admitted, q, now, window)
  {
  }

  /** Evicting at a later time keeps the history explained. */
  lemma TracksAfterEviction(admitted: seq<int>, q: seq<int>, last: int, now: int, window: int)
    requires Tracks(admitted, q, last, window) && last <= now
    ensures Tracks(admitted, Evicted(q, now, window), now, window)
  {
    var r := Evicted(q, now, window);
    var n, k := |admitted|, |q| - |r|;
    forall j | 0 <= j < n - |r| ensures now - admitted[j] > window {
      if j >= n - |q| {
        assert admitted[j] == q[j - (n - |q|)];
      }
    }
    assert r == q[k..] == admitted[n - |q|..][k..];
  }

  /** Admitting `now` when the evicted queue has room keeps the history
      explained and keeps it spaced. */
  lemma AdmissionKeepsSpacing(admitted: seq<int>, q: seq<int>, now: int, window: int, max: nat)
    requires Tracks(admitted, q, now, window) && Spaced(admitted, window, max)
    requires |q| < max
    ensures Tracks(admitted + [now], q + [now], now, window)
    ensures Spaced(admitted + [now], window, max)
  {
    var a := admitted + [now];
    var n := |admitted|;
    assert a[|a| - |q + [now]|..] == admitted[n - |q|..] + [now];
    forall i, j | 0 <= i && j == i + max && j < |a| ensures a[j] - a[i] > window {
      if j == n {
        assert a[i] == admitted[i] && i < n - |q|;
      } else {
        assert a[j] == admitted[j] && a[i] == admitted[i];
      }
    }
  }

  /** Sequence identities the history proofs of both limiters step through. */
  lemma ConcatAssoc(a: seq<int>, b: seq<int>, c: seq<int>)
    ensures a + (b + c) == (a + b) + c
  {
  }

  lemma EmptyAppend(s: seq<int>)
    ensures s + [] == s
  {
  }

  lemma EmptyConcat(s: seq<int>)
    ensures [] + s == s
  {
  }
}
