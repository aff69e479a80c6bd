/** The sliding-window rate limiter of the `rate_limit` decorator. A map
    from client id to the times of that client's recent admitted calls; the
    current time is an integer passed in by the caller. */
module RateLimit {

  type ClientId = string

  /** `RATE_LIMIT_REQUESTS` and `RATE_LIMIT_WINDOW`, the decorator's defaults. */
  const DefaultMaxRequests: nat := 60
  const DefaultWindow: int := 60

  /** The list comprehension that keeps the timestamps `t` with
      `now - t < window`, in their original order. */
  function Prune(ts: seq<int>, now: int, window: int): (r: seq<int>)
    ensures |r| <= |ts|
    ensures forall i :: 0 <= i < |r| ==> now - r[i] < window
    ensures forall t :: t in r <==> t in ts && now - t < window
  {
    if ts == [] then []
    else (if now - ts[0] < window then [ts[0]] else []) + Prune(ts[1..], now, window)
  }

  /** Pruning distributes over concatenation: it treats every timestamp on
      its own and keeps the order. */
  lemma {:induction false} PruneAppend(a: seq<int>, b: seq<int>, now: int, window: int)
    ensures Prune(a + b, now, window) == Prune(a, now, window) + Prune(b, now, window)
  {
    if a != [] {
      assert (a + b)[0] == a[0] && (a + b)[1..] == a[1..] + b;
      PruneAppend(a[1..], b, now, window);
    } else {
      assert a + b == b;
    }
  }

  /** Pruning at a time `now` after pruning at an earlier time `before` is
      the same as pruning once at `now`: whatever left the window at
      `before` is still out of it at `now`. */
  lemma {:induction false} PruneLater(ts: seq<int>, before: int, now: int, window: int)
    requires before <= now
    ensures Prune(Prune(ts, before, window), now, window) == Prune(ts, now, window)
  {
    if ts != [] {
      PruneLater(ts[1..], before, now, window);
      var head := if before - ts[0] < window then [ts[0]] else [];
      PruneAppend(head, Prune(ts[1..], before, window), now, window);
    }
  }

  /** The outcome of one call: whether it is admitted, and the client's
      list afterwards. */
  datatype Decision = Decision(admitted: bool, kept: seq<int>)

  /** One call of `decorated_function` at time `now` for a client whose
      stored list is `ts`: the list is pruned whatever happens; the call is
      rejected, and not recorded, when `maxRequests` timestamps remain;
      otherwise `now` is appended and the call admitted. */
  function Decide(ts: seq<int>, now: int, window: int, maxRequests: nat): (d: Decision)
    ensures d.admitted <==> |Prune(ts, now, window)| < maxRequests
    ensures |d.kept| == |Prune(ts, now, window)| + (if d.admitted then 1 else 0)
    ensures d.kept[..|Prune(ts, now, window)|] == Prune(ts, now, window)
    ensures d.admitted ==> d.kept[|d.kept| - 1] == now
    ensures |ts| <= maxRequests ==> |d.kept| <= maxRequests
    ensures window > 0 ==> forall i :: 0 <= i < |d.kept| ==> now - d.kept[i] < window
  {
    var pruned := Prune(ts, now, window);
    if |pruned| >= maxRequests then Decision(false, pruned)
    else Decision(true, pruned + [now])
  }

  /** The stored list of a client, empty before its first call. */
  function Stored(storage: map<ClientId, seq<int>>, client: ClientId): seq<int> {
    if client in storage then storage[client] else []
  }

  /** `rate_limit_storage` together with the decorator's parameters. */
  class Limiter {
    var storage: map<ClientId, seq<int>>
    const maxRequests: nat
    const window: int

    /** No client ever holds more than `maxRequests` timestamps. */
    ghost predicate Valid()
      reads this
    {
      forall c :: c in storage ==> |storage[c]| <= maxRequests
    }

    constructor (maxRequests: nat, window: int)
      ensures Valid()
      ensures storage == map[]
      ensures this.maxRequests == maxRequests && this.window == window
    {
      storage := map[];
      this.maxRequests := maxRequests;
      this.window := window;
    }

    /** `decorated_function`'s admission check for one call of `client` at
        time `now`. Only the client's own entry changes. */
    method Admit(client: ClientId, now: int) returns (admitted: bool)
      requires Valid()
      modifies this
      ensures Valid()
      ensures var d := Decide(Stored(old(storage), client), now, window, maxRequests);
              admitted == d.admitted && storage == old(storage)[client := d.kept]
      ensures window > 0 ==> forall i :: 0 <= i < |storage[client]| ==> now - storage[client][i] < window
    {
      if client !in storage {
        storage := storage[client := []];
      }
      storage := storage[client := Prune(storage[client], now, window)];
      if |storage[client]| >= maxRequests {
        return false;
      }
      storage := storage[client := storage[client] + [now]];
      admitted := true;
    }
  }

  // ---------------------------------------------------------------------------
  // The sliding-window guarantee over a whole history of calls of one client

  /** What one client's calls at `times` leave behind: the stored list and
      the times of the calls that were admitted. */
  datatype History = History(stored: seq<int>, admitted: seq<int>)

  function Replay(times: seq<int>, window: int, maxRequests: nat): (h: History)
    ensures |h.stored| <= maxRequests
  {
    if times == [] then History([], [])
    else
      var prev := Replay(times[..|times| - 1], window, maxRequests);
      var d := Decide(prev.stored, times[|times| - 1], window, maxRequests);
      History(d.kept, if d.admitted then prev.admitted + [times[|times| - 1]] else prev.admitted)
  }

  predicate NonDecreasing(times: seq<int>) {
    forall i, j :: 0 <= i <= j < |times| ==> times[i] <= times[j]
  }

  /** When the clock does not go back, the stored list is exactly the
      admitted calls that are still inside the window ending at the latest
      call. */
  lemma {:induction false} ReplayStoresWindow(times: seq<int>, window: int, maxRequests: nat)
    requires |times| > 0 && NonDecreasing(times) && window > 0
    ensures var h := Replay(times, window, maxRequests);
            h.stored == Prune(h.admitted, times[|times| - 1], window)
  {
    var prefix := times[..|times| - 1];
    var now := times[|times| - 1];
    var prev := Replay(prefix, window, maxRequests);
    if prefix == [] {
      assert prev.stored == [] && prev.admitted == [];
    } else {
      assert NonDecreasing(prefix);
      ReplayStoresWindow(prefix, window, maxRequests);
      PruneLater(prev.admitted, prefix[|prefix| - 1], now, window);
    }
    assert Prune(prev.stored, now, window) == Prune(prev.admitted, now, window);
    var d := Decide(prev.stored, now, window, maxRequests);
    if d.admitted {
      PruneAppend(prev.admitted, [now], now, window);
      assert Prune([now], now, window) == [now];
    }
  }

  /** The sliding-window guarantee: a call is admitted exactly when fewer
      than `maxRequests` earlier admitted calls lie in the window ending at
      it, so no window ever holds more than `maxRequests` admitted calls. */
  lemma AtMostMaxPerWindow(times: seq<int>, window: int, maxRequests: nat)
    requires |times| > 0 && NonDecreasing(times) && window > 0
    ensures var now := times[|times| - 1];
            var before := Replay(times[..|times| - 1], window, maxRequests).admitted;
            var after := Replay(times, window, maxRequests).admitted;
            (if |Prune(before, now, window)| < maxRequests then after == before + [now] else after == before)
            && |Prune(after, now, window)| <= maxRequests
  {
    var prefix := times[..|times| - 1];
    var now := times[|times| - 1];
    var prev := Replay(prefix, window, maxRequests);
    if prefix != [] {
      assert NonDecreasing(prefix);
      ReplayStoresWindow(prefix, window, maxRequests);
      PruneLater(prev.admitted, prefix[|prefix| - 1], now, window);
    }
    ReplayStoresWindow(times, window, maxRequests);
  }

  /** The decorator as the relay applies it: no 60-second window ever holds
      more than 60 admitted calls of one client. */
  lemma SixtyPerMinute(times: seq<int>)
    requires |times| > 0 && NonDecreasing(times)
    ensures var now := times[|times| - 1];
            var admitted := Replay(times, DefaultWindow, DefaultMaxRequests).admitted;
            |Prune(admitted, now, DefaultWindow)| <= 60
  {
    AtMostMaxPerWindow(times, DefaultWindow, DefaultMaxRequests);
  }

  /** A list whose every timestamp has left the window is pruned to nothing. */
  lemma {:induction false} PruneAllExpired(ts: seq<int>, now: int, window: int)
    requires forall i :: 0 <= i < |ts| ==> now - ts[i] >= window
    ensures Prune(ts, now, window) == []
  {
    if ts != [] {
      PruneAllExpired(ts[1..], now, window);
    }
  }

  /** Once every stored call has left the window, the next call is admitted
      again (provided the limit allows any call at all). */
  lemma AdmissionResumes(ts: seq<int>, now: int, window: int, maxRequests: nat)
    requires maxRequests > 0
    requires forall i :: 0 <= i < |ts| ==> now - ts[i] >= window
    ensures Decide(ts, now, window, maxRequests).admitted
  {
    PruneAllExpired(ts, now, window);
  }
}
