/** A request counter that expires: how many requests it can let through in a window. */
module RateLimiting {

  /** Time is in seconds. `Counter.expires` is absent until an EXPIRE reaches the key. An expired key is as
      good as absent; its last value is kept here for the reasoning. */
  datatype Expiry = Never | At(time: real)

  datatype Key = Absent | Counter(count: nat, created: real, expires: Expiry)

  /** `pending` EXPIRE commands are on their way: they may arrive late, and out of order. */
  datatype State = State(key: Key, pending: nat)

  const START := State(Absent, 0)

  datatype Command = Hit | Expire

  datatype Tick = Tick(at: real, command: Command)

  predicate Alive(key: Key, now: real) {
    key.Counter? && (key.expires.Never? || now < key.expires.time)
  }

  /** The value INCR returns. */
  function Incremented(s: State, now: real): nat {
    if Alive(s.key, now) then s.key.count + 1 else 1
  }

  /** INCR and TTL run together; a request that finds no expiry sends an EXPIRE. */
  function After(s: State, t: Tick, window: real): State {
    match t.command
    case Hit =>
      if Alive(s.key, t.at) then
        State(s.key.(count := s.key.count + 1), if s.key.expires.Never? then s.pending + 1 else s.pending)
      else State(Counter(1, t.at, Never), s.pending + 1)
    case Expire =>
      var left := if s.pending == 0 then 0 else s.pending - 1;
      if Alive(s.key, t.at) then State(s.key.(expires := At(t.at + window)), left) else s.(pending := left)
  }

  function StateAfter(ticks: seq<Tick>, window: real): State {
    if ticks == [] then START else After(StateAfter(ticks[..|ticks| - 1], window), ticks[|ticks| - 1], window)
  }

  /** In order of time, and no EXPIRE arrives that was not sent. */
  predicate Run(ticks: seq<Tick>, window: real) {
    && (forall i, j | 0 <= i <= j < |ticks| :: ticks[i].at <= ticks[j].at)
    && (forall i | 0 <= i < |ticks| && ticks[i].command.Expire? :: StateAfter(ticks[..i], window).pending > 0)
  }

  /** Whether the last tick is a request let through within [from, from + window). */
  predicate LetsThrough(ticks: seq<Tick>, window: real, limit: nat, from: real)
    requires ticks != []
  {
    var t := ticks[|ticks| - 1];
    t.command.Hit? && from <= t.at < from + window
      && Incremented(StateAfter(ticks[..|ticks| - 1], window), t.at) <= limit
  }

  /** The requests let through within [from, from + window). */
  function Allowed(ticks: seq<Tick>, window: real, limit: nat, from: real): nat {
    if ticks == [] then 0
    else Allowed(ticks[..|ticks| - 1], window, limit, from) + if LetsThrough(ticks, window, limit, from) then 1 else 0
  }

  // ---- The bound ------------------------------------------------------------------------

  function Min(a: int, b: int): int { if a <= b then a else b }

  /** What holds while no tick is past the window: a counter lives at least as long as
      the window, so at most one is created inside it, and then the first request of the
      one before came too early to be in it. */
  ghost predicate Within(s: State, allowed: nat, now: real, window: real, limit: nat, from: real) {
    && (s.key.Counter? ==> s.key.count >= 1 && s.key.created <= now)
    && (s.key.Counter? && s.key.expires.At? ==> s.key.created + window <= s.key.expires.time)
    && (now < from ==> allowed == 0)
    && (s.key.Absent? ==> allowed == 0)
    && (s.key.Counter? && s.key.created < from ==> allowed <= Min(limit, s.key.count) - if limit >= 1 then 1 else 0)
    && (s.key.Counter? && s.key.created >= from ==>
          allowed <= Min(limit, s.key.count) + if limit >= 1 then limit - 1 else 0)
  }

  lemma StepWithin(s: State, allowed: nat, t: Tick, before: real, window: real, limit: nat, from: real)
    requires window > 0.0 && before <= t.at < from + window && Within(s, allowed, before, window, limit, from)
    ensures var let := t.command.Hit? && from <= t.at && Incremented(s, t.at) <= limit;
            Within(After(s, t, window), allowed + if let then 1 else 0, t.at, window, limit, from)
  {
  }

  lemma {:induction false} RunWithin(ticks: seq<Tick>, window: real, limit: nat, from: real)
    requires window > 0.0 && Run(ticks, window) && ticks != [] && ticks[|ticks| - 1].at < from + window
    ensures Within(StateAfter(ticks, window), Allowed(ticks, window, limit, from), ticks[|ticks| - 1].at,
                   window, limit, from)
  {
    var init, last := ticks[..|ticks| - 1], ticks[|ticks| - 1];
    if init == [] {
      StepWithin(START, 0, last, if last.at < from then last.at else from, window, limit, from);
    } else {
      PrefixRuns(ticks, window);
      RunWithin(init, window, limit, from);
      StepWithin(StateAfter(init, window), Allowed(init, window, limit, from), last, init[|init| - 1].at,
                 window, limit, from);
    }
  }

  lemma PrefixRuns(ticks: seq<Tick>, window: real)
    requires Run(ticks, window) && ticks != []
    ensures Run(ticks[..|ticks| - 1], window)
  {
    var init := ticks[..|ticks| - 1];
    forall i | 0 <= i < |init| && init[i].command.Expire?
      ensures StateAfter(init[..i], window).pending > 0
    {
      assert init[..i] == ticks[..i];
    }
  }

  /** However late the EXPIREs come, no window lets more than 2 * limit - 1 through. */
  lemma {:induction false} NeverMoreThanTwice(ticks: seq<Tick>, window: real, limit: nat, from: real)
    requires window > 0.0 && Run(ticks, window)
    ensures Allowed(ticks, window, limit, from) <= if limit == 0 then 0 else 2 * limit - 1
  {
    if ticks != [] {
      if ticks[|ticks| - 1].at < from + window {
        RunWithin(ticks, window, limit, from);
      } else {
        PrefixRuns(ticks, window);
        NeverMoreThanTwice(ticks[..|ticks| - 1], window, limit, from);
      }
    }
  }

  // ---- The bound is reached ------------------------------------------------------------------

  function Burst(at: real, n: nat): seq<Tick> {
    if n == 0 then [] else Burst(at, n - 1) + [Tick(at, Hit)]
  }

  ghost predicate Ends(ticks: seq<Tick>, at: real, window: real) {
    Run(ticks, window) && (ticks != [] ==> ticks[|ticks| - 1].at <= at)
  }

  lemma OneMore(ticks: seq<Tick>, t: Tick, window: real, limit: nat, from: real)
    requires Ends(ticks, t.at, window) && (t.command.Expire? ==> StateAfter(ticks, window).pending > 0)
    ensures Ends(ticks + [t], t.at, window)
            && StateAfter(ticks + [t], window) == After(StateAfter(ticks, window), t, window)
    ensures Allowed(ticks + [t], window, limit, from) == Allowed(ticks, window, limit, from) +
              if t.command.Hit? && from <= t.at < from + window
                 && Incremented(StateAfter(ticks, window), t.at) <= limit then 1 else 0
  {
    hide After;
    var longer := ticks + [t];
    assert longer[..|ticks|] == ticks && longer[|ticks|] == t;
    forall i | 0 <= i < |longer| && longer[i].command.Expire?
      ensures StateAfter(longer[..i], window).pending > 0
    {
      assert longer[..i] == ticks[..i];
      assert i == |ticks| ==> ticks[..i] == ticks;
    }
  }

  /** Requests at one moment to a counter that lives on: each counts one more. */
  lemma {:induction false} BurstCounts(ticks: seq<Tick>, at: real, n: nat, window: real, limit: nat, from: real)
    requires Ends(ticks, at, window) && from <= at < from + window
    requires var key := StateAfter(ticks, window).key; Alive(key, at) && key.expires.At? && key.count + n <= limit
    ensures Ends(ticks + Burst(at, n), at, window)
    ensures var s := StateAfter(ticks, window);
            StateAfter(ticks + Burst(at, n), window) == s.(key := s.key.(count := s.key.count + n))
    ensures Allowed(ticks + Burst(at, n), window, limit, from) == Allowed(ticks, window, limit, from) + n
  {
    hide StateAfter, Allowed, Run;
    if n == 0 {
      assert ticks + Burst(at, 0) == ticks;
    } else {
      BurstCounts(ticks, at, n - 1, window, limit, from);
      var shorter := ticks + Burst(at, n - 1);
      assert ticks + Burst(at, n) == shorter + [Tick(at, Hit)];
      OneMore(shorter, Tick(at, Hit), window, limit, from);
    }
  }

  function Half(window: real): (half: real)
    ensures half + half == window
  {
    window / 2.0
  }

  /** A request that opens a counter, and its EXPIRE. */
  function Renewed(ticks: seq<Tick>, at: real): seq<Tick> { ticks + [Tick(at, Hit)] + [Tick(at, Expire)] }

  /** A counter opened at 0, and used up half a window later. */
  function Opening(window: real, limit: nat): seq<Tick>
    requires limit >= 1
  {
    Renewed([], 0.0) + Burst(Half(window), limit - 1)
  }

  /** The bound is met: the rest of one counter at the end of its life, then a whole one. */
  function Straddle(window: real, limit: nat): seq<Tick>
    requires limit >= 1
  {
    Renewed(Opening(window, limit), window) + Burst(window, limit - 1)
  }

  lemma FreshCounter(ticks: seq<Tick>, at: real, window: real, limit: nat, from: real)
    requires window > 0.0 && limit >= 1 && Ends(ticks, at, window) && !Alive(StateAfter(ticks, window).key, at)
    ensures var more := Renewed(ticks, at);
            && Ends(more, at, window) && StateAfter(more, window).key == Counter(1, at, At(at + window))
            && Allowed(more, window, limit, from)
               == Allowed(ticks, window, limit, from) + if from <= at < from + window then 1 else 0
  {
    hide Ends, StateAfter, Allowed;
    OneMore(ticks, Tick(at, Hit), window, limit, from);
    OneMore(ticks + [Tick(at, Hit)], Tick(at, Expire), window, limit, from);
  }

  lemma OpeningCounts(window: real, limit: nat)
    requires window > 0.0 && limit >= 1
    ensures Ends(Opening(window, limit), window, window)
    ensures StateAfter(Opening(window, limit), window).key == Counter(limit, 0.0, At(window))
    ensures Allowed(Opening(window, limit), window, limit, Half(window)) == limit - 1
  {
    var half := Half(window);
    NoTicks(window, limit, half);
    hide Ends, StateAfter, Allowed, Half;
    FreshCounter([], 0.0, window, limit, half);
    hide Renewed, Burst;
    var first := Renewed([], 0.0);
    LaterEnds(first, 0.0, half, window);
    BurstCounts(first, half, limit - 1, window, limit, half);
    LaterEnds(Opening(window, limit), half, window, window);
  }

  lemma TwiceIsReached(window: real, limit: nat)
    requires window > 0.0 && limit >= 1
    ensures Run(Straddle(window, limit), window)
            && Allowed(Straddle(window, limit), window, limit, Half(window)) == 2 * limit - 1
  {
    var half, opening := Half(window), Opening(window, limit);
    OpeningCounts(window, limit);
    hide StateAfter, Allowed, Opening, Ends, Renewed, Burst, Half;
    FreshCounter(opening, window, window, limit, half);
    BurstCounts(Renewed(opening, window), window, limit - 1, window, limit, half);
    EndsRuns(Straddle(window, limit), window, window);
  }

  lemma EndsRuns(ticks: seq<Tick>, at: real, window: real)
    requires Ends(ticks, at, window)
    ensures Run(ticks, window)
  {
  }

  lemma NoTicks(window: real, limit: nat, from: real)
    ensures Ends([], 0.0, window) && StateAfter([], window) == START && Allowed([], window, limit, from) == 0
  {
  }

  lemma LaterEnds(ticks: seq<Tick>, at: real, later: real, window: real)
    requires Ends(ticks, at, window) && at <= later
    ensures Ends(ticks, later, window)
  {
  }

  ghost predicate SlidingBound(window: real, limit: nat) {
    forall ticks, from :: Run(ticks, window) ==> Allowed(ticks, window, limit, from) <= limit
  }

  /** The limiter is not the sliding window it is described as: "at most limit in any
      window" holds of every run exactly when the limit is at most one. */
  lemma SlidingOnlyUpToOne(window: real, limit: nat)
    requires window > 0.0
    ensures SlidingBound(window, limit) <==> limit <= 1
  {
    if limit <= 1 {
      forall ticks, from | Run(ticks, window)
        ensures Allowed(ticks, window, limit, from) <= limit
      {
        NeverMoreThanTwice(ticks, window, limit, from);
      }
    } else {
      TwiceIsReached(window, limit);
    }
  }

  // ---- The limiter -----------------------------------------------------------------------------

  class RateLimiter {
    var keys: map<string, State>

    constructor ()
      ensures keys == map[]
    {
      keys := map[];
    }

    ghost function Of(key: string): State
      reads this
    {
      if key in keys then keys[key] else START
    }

    /** The EXPIRE of this request arrives at `later`. With Redis failing the request is let through. */
    method IsAllowed(key: string, limit: nat, window: real, now: real, later: real, failing: bool)
      returns (allowed: bool, remaining: int, reset: real)
      requires now <= later
      modifies this
      ensures keys - {key} == old(keys) - {key}
      ensures failing ==> keys == old(keys) && allowed && remaining == limit && reset == window
      ensures !failing ==>
                var s := old(Of(key));
                var hit := After(s, Tick(now, Hit), window);
                && (allowed <==> Incremented(s, now) <= limit)
                && remaining == (if allowed then limit - Incremented(s, now) else 0)
                && Of(key) == (if hit.key.expires.Never? then After(hit, Tick(later, Expire), window) else hit)
                && reset == if hit.key.expires.Never? then window else hit.key.expires.time - now
    {
      if failing {
        return true, limit, window;
      }
      var s := if key in keys then keys[key] else START;
      // INCR and TTL.
      var count := if Alive(s.key, now) then s.key.count + 1 else 1;
      s := After(s, Tick(now, Hit), window);
      if s.key.expires.Never? {
        s := After(s, Tick(later, Expire), window);
        reset := window;
      } else {
        reset := s.key.expires.time - now;
      }
      keys := keys[key := s];
      remaining := if limit >= count then limit - count else 0;
      allowed := count <= limit;
    }
  }
}
