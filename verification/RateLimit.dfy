/** The per-client challenge quota: the INCR/EXPIRE script of
    src/ngx_auth_webauthn_redis.c and the decision of
    ngx_http_auth_webauthn_rate_limit, over whole runs of hits on one key. */
module RateLimit {
  import opened Prelude

  /** A rate-limit key as Redis holds it. An orphan is a counter without TTL. */
  datatype Counter = Absent | Counting(count: nat, expiry: Option<int>)

  /** INCR starts at 1 and nothing decrements. */
  predicate WellFormed(c: Counter) {
    c.Counting? ==> c.count >= 1
  }

  /** A key is readable until its expiry, exclusive. */
  predicate Live(c: Counter, now: int) {
    c.Counting? && (c.expiry.Some? ==> now < c.expiry.value)
  }

  /** One atomic run of the script at time `now`. */
  function Hit(c: Counter, window: int, now: int): (c': Counter)
    ensures c'.Counting? && c'.count >= 1 && c'.expiry.Some?
  {
    var count := if Live(c, now) then c.count + 1 else 1;
    var expiry := if Live(c, now) then c.expiry else None;
    Counting(count, if count == 1 || expiry.None? then Some(now + window) else expiry)
  }

  function Run(c: Counter, times: seq<int>, window: int): (c': Counter)
    ensures times != [] ==> c'.Counting? && c'.count >= 1 && c'.expiry.Some?
  {
    if times == [] then c
    else Hit(Run(c, times[..|times| - 1], window), window, times[|times| - 1])
  }

  /** Whether hit i of the run is within the quota. */
  predicate Admitted(c: Counter, times: seq<int>, i: nat, max: nat, window: int)
    requires i < |times|
  {
    Run(c, times[..i + 1], window).count <= max
  }

  /** How many hits of the run inside [from, to) are admitted. */
  function AdmittedIn(c: Counter, times: seq<int>, max: nat, window: int, from: int, to: int): nat {
    if times == [] then 0
    else
      var last := |times| - 1;
      AdmittedIn(c, times[..last], max, window, from, to)
      + if from <= times[last] < to && Run(c, times, window).count <= max then 1 else 0
  }

  predicate Sorted(times: seq<int>) {
    forall i, j :: 0 <= i <= j < |times| ==> times[i] <= times[j]
  }

  /** The reference: fixed windows read off the hit times alone, with no
      counter. The hit that opens the window hit i falls into. */
  function WindowStart(times: seq<int>, window: int, i: nat): (g: nat)
    requires i < |times|
    ensures g <= i
  {
    if i == 0 then 0
    else
      var g := WindowStart(times, window, i - 1);
      if times[i] >= times[g] + window then i else g
  }

  lemma {:induction false} WindowStartOfPrefix(times: seq<int>, window: int, i: nat, n: nat)
    requires i < n <= |times|
    ensures WindowStart(times[..n], window, i) == WindowStart(times, window, i)
  {
    if i > 0 {
      WindowStartOfPrefix(times, window, i - 1, n);
    }
  }

  /** The counter refines the fixed windows: after hit i it holds the rank of i
      inside its window and the expiry set by the window's first hit, so an
      expiry never moves once set. */
  lemma {:induction false} CounterRefinesWindows(times: seq<int>, window: int, i: nat)
    requires window >= 1 && i < |times| && Sorted(times)
    ensures var g := WindowStart(times, window, i);
            && Run(Absent, times[..i + 1], window) == Counting(i - g + 1, Some(times[g] + window))
            && times[g] <= times[i] < times[g] + window
  {
    assert times[..i + 1][..i] == times[..i];
    if i > 0 {
      CounterRefinesWindows(times, window, i - 1);
    } else {
      assert times[..0] == [];
    }
  }

  /** Every lifetime admits exactly its first `max` hits, whatever the other
      lifetimes hold; refused hits neither extend it nor spend later quota. */
  lemma LifetimeAdmitsFirstMax(times: seq<int>, max: nat, window: int, i: nat)
    requires window >= 1 && i < |times| && Sorted(times)
    ensures Admitted(Absent, times, i, max, window)
       <==> i < WindowStart(times, window, i) + max
  {
    CounterRefinesWindows(times, window, i);
  }

  /** Lifetimes are contiguous and start at least a window apart. */
  lemma {:induction false} LifetimesApart(times: seq<int>, window: int, i: nat, j: nat)
    requires window >= 1 && i <= j < |times| && Sorted(times)
    ensures var g, h := WindowStart(times, window, i), WindowStart(times, window, j);
            || (g == h && times[j] < times[g] + window)
            || (i < h && times[h] >= times[g] + window)
    decreases j
  {
    CounterRefinesWindows(times, window, j);
    if i < j {
      LifetimesApart(times, window, i, j - 1);
    }
  }

  /** The accounting behind the window bound, in the state after a run. `used`
      counts the admissions inside [from, from + window). */
  ghost predicate Accounted(c: Counter, used: nat, max: nat, window: int, from: int) {
    && c.Counting? && c.count >= 1 && c.expiry.Some?
    && var born := c.expiry.value - window;
       var spent := if c.count < max then c.count else max;
       if born < from then used <= spent - 1
       else if born < from + window then used <= max - 1 + spent
       else used <= 2 * max - 1
  }

  lemma {:induction false} RunIsAccounted(c: Counter, times: seq<int>, max: nat, window: int, from: int)
    requires WellFormed(c) && max >= 1 && window >= 1 && Sorted(times) && times != []
    requires c.Counting? && c.expiry.Some? && Live(c, times[0]) ==> c.expiry.value <= times[0] + window
    ensures Accounted(Run(c, times, window), AdmittedIn(c, times, max, window, from, from + window),
                      max, window, from)
    ensures Run(c, times, window).expiry.value <= times[|times| - 1] + window
    ensures times[|times| - 1] < from ==> AdmittedIn(c, times, max, window, from, from + window) == 0
  {
    var last := |times| - 1;
    var before := times[..last];
    if before == [] {
      assert AdmittedIn(c, before, max, window, from, from + window) == 0;
    } else {
      assert Sorted(before) && before[0] == times[0];
      RunIsAccounted(c, before, max, window, from);
    }
  }

  /** From any counter state, a fresh, live or orphaned one, any half-open
      interval as long as the window admits at most 2 * max - 1 requests. A
      live counter's expiry was set by this script at most a window ahead. */
  lemma WindowBound(c: Counter, times: seq<int>, max: nat, window: int, from: int)
    requires WellFormed(c) && max >= 1 && window >= 1 && Sorted(times)
    requires times != [] && c.Counting? && c.expiry.Some? && Live(c, times[0])
         ==> c.expiry.value <= times[0] + window
    ensures AdmittedIn(c, times, max, window, from, from + window) <= 2 * max - 1
  {
    if times != [] {
      RunIsAccounted(c, times, max, window, from);
    }
  }

  /** A run that meets the bound: one early hit, the rest of the quota just
      before expiry, and a full quota right after it. */
  function Burst(max: nat, window: int, n: nat): seq<int> {
    seq(n, i => if i == 0 then 0 else if i < max then window - 1 else window)
  }

  lemma {:induction false} BurstState(max: nat, window: int, n: nat)
    requires max >= 1 && window >= 2 && 1 <= n <= 2 * max
    ensures Run(Absent, Burst(max, window, n), window)
         == if n <= max then Counting(n, Some(window)) else Counting(n - max, Some(2 * window))
    ensures AdmittedIn(Absent, Burst(max, window, n), max, window, 1, 1 + window) == n - 1
  {
    var b := Burst(max, window, n);
    assert b[..n - 1] == Burst(max, window, n - 1);
    if n > 1 {
      BurstState(max, window, n - 1);
    } else {
      assert Run(Absent, [], window) == Absent;
    }
  }

  /** So 2 * max - 1 is the best bound there is, for every quota. */
  lemma WindowBoundIsTight(max: nat, window: int)
    requires max >= 1 && window >= 2
    ensures exists times ::
              Sorted(times) && AdmittedIn(Absent, times, max, window, 1, 1 + window) == 2 * max - 1
  {
    var times := Burst(max, window, 2 * max);
    BurstState(max, window, 2 * max);
    assert Sorted(times) && AdmittedIn(Absent, times, max, window, 1, 1 + window) == 2 * max - 1;
  }

  /** An orphaned counter is not a permanent lock-out: its first hit sets an
      expiry, and a window later the client starts over. */
  lemma OrphanExpires(count: nat, window: int, now: int, later: int)
    requires count >= 1 && window >= 1 && later >= now + window
    ensures Hit(Counting(count, None), window, now) == Counting(count + 1, Some(now + window))
    ensures Hit(Hit(Counting(count, None), window, now), window, later)
         == Counting(1, Some(later + window))
  {
  }
}
