/** The per-token limiter of the OIDC proxy: a lifetime budget kept in storage and a sliding-window
    rate limit kept in memory. Times are in milliseconds. */
module TokenBucket {
  import opened Text

  const WINDOW: nat := 1000

  datatype Outcome = Allowed(remaining: int) | BudgetExhausted | RateLimited | NotFound

  /** The fields of the object together with what its storage holds. */
  datatype State = State(count: nat, timestamps: seq<int>, initialized: bool, stored: Option<nat>)

  const FRESH := State(0, [], false, None)

  /** The allowed times that still count at `now`. */
  function Recent(times: seq<int>, now: int): seq<int> {
    if times == [] then []
    else
      var rest := Recent(times[..|times| - 1], now);
      if now - times[|times| - 1] < WINDOW then rest + [times[|times| - 1]] else rest
  }

  function Initialized(s: State): State {
    if s.initialized then s
    else s.(count := if s.stored.Some? then s.stored.value else s.count, initialized := true)
  }

  /** One `/check` request. */
  function Checked(s: State, now: int, maxRequests: nat, ratePerSecond: nat): (State, Outcome) {
    var s := Initialized(s);
    if s.count >= maxRequests then (s, BudgetExhausted)
    else
      var recent := Recent(s.timestamps, now);
      if |recent| >= ratePerSecond then (s.(timestamps := recent), RateLimited)
      else
        (State(s.count + 1, recent + [now], true, Some(s.count + 1)), Allowed(maxRequests - (s.count + 1)))
  }

  /** What survives of the limiter when its object is evicted from memory and built again. */
  function Restarted(s: State): State {
    State(0, [], false, s.stored)
  }

  class Storage {
    var count: Option<nat>

    constructor ()
      ensures count == None
    {
      count := None;
    }
  }

  class TokenBucket {
    const state: Storage
    var count: nat
    var timestamps: seq<int>
    var initialized: bool

    ghost function Contents(): State
      reads this, state
    {
      State(count, timestamps, initialized, state.count)
    }

    constructor (state: Storage)
      ensures this.state == state && Contents() == State(0, [], false, old(state.count))
    {
      this.state := state;
      count := 0;
      timestamps := [];
      initialized := false;
    }

    method Initialize()
      modifies this
      ensures Contents() == Initialized(old(Contents()))
    {
      if initialized { return; }
      if state.count.Some? { count := state.count.value; }
      initialized := true;
    }

    /** `fetch`. */
    method Fetch(path: string, now: int, maxRequests: nat, ratePerSecond: nat) returns (outcome: Outcome)
      modifies this, state
      ensures if path == "/check" then
                (Contents(), outcome) == Checked(old(Contents()), now, maxRequests, ratePerSecond)
              else Contents() == Initialized(old(Contents())) && outcome == NotFound
    {
      Initialize();
      if path != "/check" { return NotFound; }
      if count >= maxRequests { return BudgetExhausted; }
      timestamps := Recent(timestamps, now);
      if |timestamps| >= ratePerSecond { return RateLimited; }
      count := count + 1;
      timestamps := timestamps + [now];
      state.count := Some(count);
      outcome := Allowed(maxRequests - count);
    }
  }

  // ---------------------------------------------------------------------------
  // Runs
  // ---------------------------------------------------------------------------

  datatype Event = Check(now: int) | Restart

  /** A run: the limiter, the times it allowed in each of its lives, newest life last, and the
      latest time seen. */
  datatype Run = Run(limiter: State, lives: seq<seq<int>>, clock: int)

  function Begin(clock: int): Run {
    Run(FRESH, [[]], clock)
  }

  function Life(r: Run): seq<int>
    requires r.lives != []
  {
    r.lives[|r.lives| - 1]
  }

  function Step(r: Run, e: Event, maxRequests: nat, ratePerSecond: nat): (r': Run)
    requires r.lives != []
    ensures r'.lives != []
  {
    match e
    case Restart => Run(Restarted(r.limiter), r.lives + [[]], r.clock)
    case Check(now) =>
      var (limiter, outcome) := Checked(r.limiter, now, maxRequests, ratePerSecond);
      Run(limiter,
          if outcome.Allowed? then r.lives[|r.lives| - 1 := Life(r) + [now]] else r.lives,
          now)
  }

  function Steps(r: Run, events: seq<Event>, maxRequests: nat, ratePerSecond: nat): (r': Run)
    requires r.lives != []
    ensures r'.lives != []
    decreases |events|
  {
    if events == [] then r
    else Steps(Step(r, events[0], maxRequests, ratePerSecond), events[1..], maxRequests, ratePerSecond)
  }

  /** The clock does not run backwards. */
  predicate Forward(clock: int, events: seq<Event>)
    decreases |events|
  {
    events == []
    || (match events[0]
        case Restart => Forward(clock, events[1..])
        case Check(now) => clock <= now && Forward(now, events[1..]))
  }

  /** How many of the times fall in the window that starts at `w`. */
  function InWindow(times: seq<int>, w: int): nat {
    if times == [] then 0
    else
      InWindow(times[..|times| - 1], w)
      + if w <= times[|times| - 1] < w + WINDOW then 1 else 0
  }

  function AllowedInAll(lives: seq<seq<int>>): nat {
    if lives == [] then 0 else AllowedInAll(lives[..|lives| - 1]) + |lives[|lives| - 1]|
  }

  function AllInWindow(lives: seq<seq<int>>, w: int): nat {
    if lives == [] then 0 else AllInWindow(lives[..|lives| - 1], w) + InWindow(lives[|lives| - 1], w)
  }

  /** The timestamps in memory answer as the whole life would, now and later. */
  ghost predicate RemembersEnough(r: Run)
    requires r.lives != []
  {
    forall now | r.clock <= now :: Recent(r.limiter.timestamps, now) == Recent(Life(r), now)
  }

  ghost predicate BudgetInv(r: Run, maxRequests: nat)
    requires r.lives != []
  {
    var total := AllowedInAll(r.lives);
    && (if r.limiter.stored.Some? then r.limiter.stored.value == total else total == 0)
    && (if r.limiter.initialized then r.limiter.count == total else r.limiter.count == 0)
    && total <= maxRequests
  }

  ghost predicate WindowsInv(lives: seq<seq<int>>, ratePerSecond: nat) {
    forall k, w | 0 <= k < |lives| :: InWindow(lives[k], w) <= ratePerSecond
  }

  ghost predicate Inv(r: Run, maxRequests: nat, ratePerSecond: nat) {
    && r.lives != []
    && BudgetInv(r, maxRequests)
    && (forall i | 0 <= i < |Life(r)| :: Life(r)[i] <= r.clock)
    && RemembersEnough(r)
    && WindowsInv(r.lives, ratePerSecond)
  }

  // ---------------------------------------------------------------------------
  // Lemmas about the window
  // ---------------------------------------------------------------------------

  /** Times dropped at `now` are dropped at every later time as well. */
  lemma {:induction false} RecentOfRecent(times: seq<int>, now: int, later: int)
    requires now <= later
    ensures Recent(Recent(times, now), later) == Recent(times, later)
  {
    if times != [] {
      var n := |times| - 1;
      RecentOfRecent(times[..n], now, later);
      if now - times[n] < WINDOW {
        var r := Recent(times[..n], now) + [times[n]];
        assert r[..|r| - 1] == Recent(times[..n], now);
      }
    }
  }

  lemma RecentOfSnoc(times: seq<int>, t: int, now: int)
    ensures Recent(times + [t], now) == if now - t < WINDOW then Recent(times, now) + [t] else Recent(times, now)
  {
    assert (times + [t])[..|times|] == times;
  }

  /** A window that reaches past `now` holds no time that is not recent at `now`. */
  lemma {:induction false} WindowIsRecent(times: seq<int>, now: int, w: int)
    requires now < w + WINDOW && forall i | 0 <= i < |times| :: times[i] <= now
    ensures InWindow(times, w) <= |Recent(times, now)|
  {
    if times != [] { WindowIsRecent(times[..|times| - 1], now, w); }
  }

  /** A time that is allowed overfills no window. */
  lemma AllowedKeepsWindows(times: seq<int>, now: int, w: int, ratePerSecond: nat)
    requires |Recent(times, now)| < ratePerSecond && InWindow(times, w) <= ratePerSecond
    requires forall i | 0 <= i < |times| :: times[i] <= now
    ensures InWindow(times + [now], w) <= ratePerSecond
  {
    assert (times + [now])[..|times|] == times;
    if w <= now < w + WINDOW { WindowIsRecent(times, now, w); }
  }

  lemma AllowedInAllAfter(lives: seq<seq<int>>, life: seq<int>)
    ensures AllowedInAll(lives + [life]) == AllowedInAll(lives) + |life|
    ensures lives != [] ==>
              AllowedInAll(lives[|lives| - 1 := life]) == AllowedInAll(lives) - |lives[|lives| - 1]| + |life|
  {
    assert (lives + [life])[..|lives|] == lives;
    if lives != [] {
      assert lives[|lives| - 1 := life][..|lives| - 1] == lives[..|lives| - 1];
    }
  }

  // ---------------------------------------------------------------------------
  // Every step keeps the invariant
  // ---------------------------------------------------------------------------

  lemma RestartKeepsInv(r: Run, maxRequests: nat, ratePerSecond: nat)
    requires Inv(r, maxRequests, ratePerSecond)
    ensures Inv(Step(r, Restart, maxRequests, ratePerSecond), maxRequests, ratePerSecond)
  {
    AllowedInAllAfter(r.lives, []);
  }

  lemma RefusalKeepsInv(r: Run, now: int, maxRequests: nat, ratePerSecond: nat)
    requires Inv(r, maxRequests, ratePerSecond) && r.clock <= now
    requires !Checked(r.limiter, now, maxRequests, ratePerSecond).1.Allowed?
    ensures Inv(Step(r, Check(now), maxRequests, ratePerSecond), maxRequests, ratePerSecond)
  {
    forall later | now <= later
      ensures Recent(Recent(r.limiter.timestamps, now), later) == Recent(Life(r), later)
    {
      RecentOfRecent(r.limiter.timestamps, now, later);
    }
  }

  lemma AllowanceKeepsWindows(lives: seq<seq<int>>, now: int, ratePerSecond: nat)
    requires lives != [] && WindowsInv(lives, ratePerSecond)
    requires var life := lives[|lives| - 1];
      |Recent(life, now)| < ratePerSecond && forall i | 0 <= i < |life| :: life[i] <= now
    ensures WindowsInv(lives[|lives| - 1 := lives[|lives| - 1] + [now]], ratePerSecond)
  {
    var n := |lives| - 1;
    var lives' := lives[n := lives[n] + [now]];
    forall k, w | 0 <= k < |lives'| ensures InWindow(lives'[k], w) <= ratePerSecond {
      assert InWindow(lives[k], w) <= ratePerSecond;
      if k == n { AllowedKeepsWindows(lives[n], now, w, ratePerSecond); }
    }
  }

  lemma AllowanceIsRemembered(timestamps: seq<int>, life: seq<int>, now: int, later: int)
    requires Recent(timestamps, later) == Recent(life, later) && now <= later
    ensures Recent(Recent(timestamps, now) + [now], later) == Recent(life + [now], later)
  {
    RecentOfRecent(timestamps, now, later);
    RecentOfSnoc(Recent(timestamps, now), now, later);
    RecentOfSnoc(life, now, later);
  }

  lemma AllowanceKeepsInv(r: Run, now: int, maxRequests: nat, ratePerSecond: nat)
    requires Inv(r, maxRequests, ratePerSecond) && r.clock <= now
    requires Checked(r.limiter, now, maxRequests, ratePerSecond).1.Allowed?
    ensures Inv(Step(r, Check(now), maxRequests, ratePerSecond), maxRequests, ratePerSecond)
  {
    assert Recent(r.limiter.timestamps, now) == Recent(Life(r), now);
    AllowedInAllAfter(r.lives, Life(r) + [now]);
    AllowanceKeepsWindows(r.lives, now, ratePerSecond);
    forall later | now <= later
      ensures Recent(Recent(r.limiter.timestamps, now) + [now], later) == Recent(Life(r) + [now], later)
    {
      AllowanceIsRemembered(r.limiter.timestamps, Life(r), now, later);
    }
  }

  lemma {:induction false} StepsKeepInv(r: Run, events: seq<Event>, maxRequests: nat, ratePerSecond: nat)
    requires Inv(r, maxRequests, ratePerSecond) && Forward(r.clock, events)
    ensures Inv(Steps(r, events, maxRequests, ratePerSecond), maxRequests, ratePerSecond)
    decreases |events|
  {
    if events != [] {
      if events[0].Restart? {
        RestartKeepsInv(r, maxRequests, ratePerSecond);
      } else if Checked(r.limiter, events[0].now, maxRequests, ratePerSecond).1.Allowed? {
        AllowanceKeepsInv(r, events[0].now, maxRequests, ratePerSecond);
      } else {
        RefusalKeepsInv(r, events[0].now, maxRequests, ratePerSecond);
      }
      StepsKeepInv(Step(r, events[0], maxRequests, ratePerSecond), events[1..], maxRequests, ratePerSecond);
    }
  }

  // ---------------------------------------------------------------------------
  // Main results
  // ---------------------------------------------------------------------------

  lemma StepKeepsBudget(r: Run, e: Event, maxRequests: nat, ratePerSecond: nat)
    requires r.lives != [] && BudgetInv(r, maxRequests)
    ensures BudgetInv(Step(r, e, maxRequests, ratePerSecond), maxRequests)
  {
    AllowedInAllAfter(r.lives, []);
    if e.Check? { AllowedInAllAfter(r.lives, Life(r) + [e.now]); }
  }

  lemma {:induction false} StepsKeepBudget(r: Run, events: seq<Event>, maxRequests: nat, ratePerSecond: nat)
    requires r.lives != [] && BudgetInv(r, maxRequests)
    ensures BudgetInv(Steps(r, events, maxRequests, ratePerSecond), maxRequests)
    decreases |events|
  {
    if events != [] {
      StepKeepsBudget(r, events[0], maxRequests, ratePerSecond);
      StepsKeepBudget(Step(r, events[0], maxRequests, ratePerSecond), events[1..], maxRequests, ratePerSecond);
    }
  }

  /** Over every run, restarts included and whatever the clock does, the budget is never exceeded. */
  lemma BudgetIsNeverExceeded(start: int, events: seq<Event>, maxRequests: nat, ratePerSecond: nat)
    ensures AllowedInAll(Steps(Begin(start), events, maxRequests, ratePerSecond).lives) <= maxRequests
  {
    StepsKeepBudget(Begin(start), events, maxRequests, ratePerSecond);
  }

  /** Within one life no window holds more than the rate. */
  lemma RateHoldsWithinALife(
    start: int, events: seq<Event>, maxRequests: nat, ratePerSecond: nat, k: nat, w: int)
    requires Forward(start, events)
    requires k < |Steps(Begin(start), events, maxRequests, ratePerSecond).lives|
    ensures InWindow(Steps(Begin(start), events, maxRequests, ratePerSecond).lives[k], w) <= ratePerSecond
  {
    StepsKeepInv(Begin(start), events, maxRequests, ratePerSecond);
  }

  /** The verdict depends on the history alone: the budget on everything ever allowed, the rate on
      what this life allowed in the last window. */
  lemma VerdictFollowsTheHistory(
    start: int, events: seq<Event>, now: int, maxRequests: nat, ratePerSecond: nat)
    requires Forward(start, events)
    requires Steps(Begin(start), events, maxRequests, ratePerSecond).clock <= now
    ensures var r := Steps(Begin(start), events, maxRequests, ratePerSecond);
      var total := AllowedInAll(r.lives);
      Checked(r.limiter, now, maxRequests, ratePerSecond).1
      == if total >= maxRequests then BudgetExhausted
         else if |Recent(Life(r), now)| >= ratePerSecond then RateLimited
         else Allowed(maxRequests - total - 1)
  {
    StepsKeepInv(Begin(start), events, maxRequests, ratePerSecond);
    var r := Steps(Begin(start), events, maxRequests, ratePerSecond);
    assert Recent(r.limiter.timestamps, now) == Recent(Life(r), now);
  }

  /** The times in the 1000 ms up to `now`: behind `now - 1000`, not behind `now`. */
  function JustBefore(times: seq<int>, now: int): set<nat> {
    set i: nat | i < |times| && now - 1000 < times[i] <= now
  }

  lemma {:induction false} RecentAreJustBefore(times: seq<int>, now: int)
    requires forall i | 0 <= i < |times| :: times[i] <= now
    ensures |Recent(times, now)| == |JustBefore(times, now)|
  {
    if times != [] {
      var n := |times| - 1;
      RecentAreJustBefore(times[..n], now);
      assert JustBefore(times, now)
          == if now - 1000 < times[n] then JustBefore(times[..n], now) + {n} else JustBefore(times[..n], now);
    } else {
      assert JustBefore(times, now) == {};
    }
  }

  /** Main: a check is refused for the budget exactly when everything ever allowed has used it up,
      and otherwise for the rate exactly when this life has already allowed `ratePerSecond` requests
      in the 1000 ms that end now; it is allowed in all other cases. */
  lemma VerdictCountsTheHistory(
    start: int, events: seq<Event>, now: int, maxRequests: nat, ratePerSecond: nat)
    requires Forward(start, events)
    requires Steps(Begin(start), events, maxRequests, ratePerSecond).clock <= now
    ensures var r := Steps(Begin(start), events, maxRequests, ratePerSecond);
      var verdict := Checked(r.limiter, now, maxRequests, ratePerSecond).1;
      && (verdict.BudgetExhausted? <==> AllowedInAll(r.lives) >= maxRequests)
      && (verdict.RateLimited? <==>
            AllowedInAll(r.lives) < maxRequests && |JustBefore(Life(r), now)| >= ratePerSecond)
      && (verdict.Allowed? <==> AllowedInAll(r.lives) < maxRequests && |JustBefore(Life(r), now)| < ratePerSecond)
      && (verdict.Allowed? ==> verdict.remaining == maxRequests - AllowedInAll(r.lives) - 1)
  {
    VerdictFollowsTheHistory(start, events, now, maxRequests, ratePerSecond);
    StepsKeepInv(Begin(start), events, maxRequests, ratePerSecond);
    RecentAreJustBefore(Life(Steps(Begin(start), events, maxRequests, ratePerSecond)), now);
  }

  lemma {:induction false} WindowsAddUp(lives: seq<seq<int>>, w: int, ratePerSecond: nat)
    requires forall k | 0 <= k < |lives| :: InWindow(lives[k], w) <= ratePerSecond
    ensures AllInWindow(lives, w) <= |lives| * ratePerSecond
  {
    if lives != [] {
      WindowsAddUp(lives[..|lives| - 1], w, ratePerSecond);
      assert |lives| * ratePerSecond == (|lives| - 1) * ratePerSecond + ratePerSecond;
    }
  }

  /** Over a whole run a window holds at most the rate for each life. */
  lemma RateOverAllLives(start: int, events: seq<Event>, maxRequests: nat, ratePerSecond: nat, w: int)
    requires Forward(start, events)
    ensures var lives := Steps(Begin(start), events, maxRequests, ratePerSecond).lives;
      AllInWindow(lives, w) <= |lives| * ratePerSecond
  {
    StepsKeepInv(Begin(start), events, maxRequests, ratePerSecond);
    WindowsAddUp(Steps(Begin(start), events, maxRequests, ratePerSecond).lives, w, ratePerSecond);
  }

  lemma {:induction false} StepsAppend(
    r: Run, events: seq<Event>, e: Event, maxRequests: nat, ratePerSecond: nat)
    requires r.lives != []
    ensures Steps(r, events + [e], maxRequests, ratePerSecond)
         == Step(Steps(r, events, maxRequests, ratePerSecond), e, maxRequests, ratePerSecond)
    decreases |events|
  {
    if events == [] {
      assert [e][1..] == [];
    } else {
      assert (events + [e])[1..] == events[1..] + [e];
      StepsAppend(Step(r, events[0], maxRequests, ratePerSecond), events[1..], e, maxRequests, ratePerSecond);
    }
  }

  /** Everything happens at one time. */
  predicate AllAt(events: seq<Event>, t: int) {
    forall i | 0 <= i < |events| :: events[i].Check? ==> events[i].now == t
  }

  lemma {:induction false} AllAtIsForward(events: seq<Event>, t: int)
    requires AllAt(events, t)
    ensures Forward(t, events)
    decreases |events|
  {
    if events != [] { AllAtIsForward(events[1..], t); }
  }

  lemma AllInWindowAfter(lives: seq<seq<int>>, life: seq<int>, w: int)
    ensures AllInWindow(lives + [life], w) == AllInWindow(lives, w) + InWindow(life, w)
    ensures lives != [] ==>
      AllInWindow(lives[|lives| - 1 := life], w)
      == AllInWindow(lives, w) - InWindow(lives[|lives| - 1], w) + InWindow(life, w)
  {
    assert (lives + [life])[..|lives|] == lives;
    if lives != [] {
      assert lives[|lives| - 1 := life][..|lives| - 1] == lives[..|lives| - 1];
    }
  }

  lemma {:induction false} WindowHoldsAtMostAll(times: seq<int>, w: int)
    ensures InWindow(times, w) <= |times|
  {
    if times != [] { WindowHoldsAtMostAll(times[..|times| - 1], w); }
  }

  lemma {:induction false} WindowsHoldAtMostAll(lives: seq<seq<int>>, w: int)
    ensures AllInWindow(lives, w) <= AllowedInAll(lives)
  {
    if lives != [] {
      WindowsHoldAtMostAll(lives[..|lives| - 1], w);
      WindowHoldsAtMostAll(lives[|lives| - 1], w);
    }
  }

  /** `n` lives at time `t`: the last one allowed `j` requests and all the others `earlier`. */
  ghost predicate Burst(r: Run, n: nat, earlier: nat, j: nat, t: int) {
    && r.lives != [] && |r.lives| == n && r.clock == t
    && |Recent(Life(r), t)| == j
    && AllowedInAll(r.lives) == earlier + j && AllInWindow(r.lives, t) == earlier + j
  }

  lemma BurstCheck(r: Run, n: nat, earlier: nat, j: nat, t: int, maxRequests: nat, ratePerSecond: nat)
    requires Inv(r, maxRequests, ratePerSecond) && Burst(r, n, earlier, j, t)
    requires j < ratePerSecond && earlier + j < maxRequests
    ensures Burst(Step(r, Check(t), maxRequests, ratePerSecond), n, earlier, j + 1, t)
  {
    var life := Life(r) + [t];
    assert Recent(r.limiter.timestamps, t) == Recent(Life(r), t);
    RecentOfSnoc(Life(r), t, t);
    AllowedInAllAfter(r.lives, life);
    AllInWindowAfter(r.lives, life, t);
    assert life[..|life| - 1] == Life(r);
  }

  lemma BurstRestart(r: Run, n: nat, earlier: nat, j: nat, t: int, maxRequests: nat, ratePerSecond: nat)
    requires Burst(r, n, earlier, j, t)
    ensures Burst(Step(r, Restart, maxRequests, ratePerSecond), n + 1, earlier + j, 0, t)
  {
    AllowedInAllAfter(r.lives, []);
    AllInWindowAfter(r.lives, [], t);
  }

  lemma {:induction false} BurstRun(n: nat, earlier: nat, j: nat, t: int, maxRequests: nat, ratePerSecond: nat)
    returns (events: seq<Event>)
    requires n > 0 && j <= ratePerSecond && earlier <= (n - 1) * ratePerSecond && earlier + j <= maxRequests
    ensures AllAt(events, t) && Burst(Steps(Begin(t), events, maxRequests, ratePerSecond), n, earlier, j, t)
    decreases n, j
  {
    if j > 0 {
      var before := BurstRun(n, earlier, j - 1, t, maxRequests, ratePerSecond);
      events := before + [Check(t)];
      AllAtIsForward(before, t);
      StepsKeepInv(Begin(t), before, maxRequests, ratePerSecond);
      var r := Steps(Begin(t), before, maxRequests, ratePerSecond);
      BurstCheck(r, n, earlier, j - 1, t, maxRequests, ratePerSecond);
      StepsAppend(Begin(t), before, Check(t), maxRequests, ratePerSecond);
    } else if n > 1 {
      assert (n - 2) * ratePerSecond + ratePerSecond == (n - 1) * ratePerSecond;
      var last := if earlier < ratePerSecond then earlier else ratePerSecond;
      assert (n - 2) * ratePerSecond >= 0;
      var before := BurstRun(n - 1, earlier - last, last, t, maxRequests, ratePerSecond);
      events := before + [Restart];
      var r := Steps(Begin(t), before, maxRequests, ratePerSecond);
      BurstRestart(r, n - 1, earlier - last, last, t, maxRequests, ratePerSecond);
      StepsAppend(Begin(t), before, Restart, maxRequests, ratePerSecond);
    } else {
      events := [];
    }
  }

  /** The most that one window can hold over `n` lives. */
  function MostOver(n: nat, maxRequests: nat, ratePerSecond: nat): nat {
    if maxRequests < n * ratePerSecond then maxRequests else n * ratePerSecond
  }

  /** The run of `events` from `start`, with `n` lives. */
  ghost predicate RunOf(start: int, events: seq<Event>, n: nat, maxRequests: nat, ratePerSecond: nat) {
    Forward(start, events) && |Steps(Begin(start), events, maxRequests, ratePerSecond).lives| == n
  }

  /** No window ever holds more than the budget or the rate of each life allows. */
  lemma WindowsAreBounded(start: int, events: seq<Event>, n: nat, maxRequests: nat, ratePerSecond: nat, w: int)
    requires RunOf(start, events, n, maxRequests, ratePerSecond)
    ensures AllInWindow(Steps(Begin(start), events, maxRequests, ratePerSecond).lives, w)
         <= MostOver(n, maxRequests, ratePerSecond)
  {
    var lives := Steps(Begin(start), events, maxRequests, ratePerSecond).lives;
    RateOverAllLives(start, events, maxRequests, ratePerSecond, w);
    BudgetIsNeverExceeded(start, events, maxRequests, ratePerSecond);
    WindowsHoldAtMostAll(lives, w);
  }

  /** Main: that bound is reached, whatever the limits and the number of lives. */
  lemma RateOverAllLivesIsReached(start: int, n: nat, maxRequests: nat, ratePerSecond: nat)
    requires n > 0
    ensures exists events :: RunOf(start, events, n, maxRequests, ratePerSecond)
              && AllInWindow(Steps(Begin(start), events, maxRequests, ratePerSecond).lives, start)
                 == MostOver(n, maxRequests, ratePerSecond)
  {
    var most := MostOver(n, maxRequests, ratePerSecond);
    var last := if most < ratePerSecond then most else ratePerSecond;
    assert n * ratePerSecond == (n - 1) * ratePerSecond + ratePerSecond;
    assert (n - 1) * ratePerSecond >= 0;
    var events := BurstRun(n, most - last, last, start, maxRequests, ratePerSecond);
    AllAtIsForward(events, start);
    assert RunOf(start, events, n, maxRequests, ratePerSecond);
  }

  lemma MostIsTheRate(n: nat, maxRequests: nat, ratePerSecond: nat)
    requires n > 0
    ensures MostOver(n, maxRequests, ratePerSecond) <= ratePerSecond <==>
              n == 1 || maxRequests <= ratePerSecond || ratePerSecond == 0
  {
    if n > 1 {
      assert n * ratePerSecond == (n - 2) * ratePerSecond + 2 * ratePerSecond;
      assert (n - 2) * ratePerSecond >= 0;
    }
  }

  /** Main: the rate holds in every window of every run with `n` lives exactly when there is no
      restart, or the budget is no larger than the rate, or nothing is allowed at all. */
  lemma RateHoldsOverallExactlyWhen(start: int, n: nat, maxRequests: nat, ratePerSecond: nat)
    requires n > 0
    ensures
      (forall events, w | RunOf(start, events, n, maxRequests, ratePerSecond) ::
         AllInWindow(Steps(Begin(start), events, maxRequests, ratePerSecond).lives, w) <= ratePerSecond)
      <==> n == 1 || maxRequests <= ratePerSecond || ratePerSecond == 0
  {
    MostIsTheRate(n, maxRequests, ratePerSecond);
    forall events, w: int | RunOf(start, events, n, maxRequests, ratePerSecond)
      ensures AllInWindow(Steps(Begin(start), events, maxRequests, ratePerSecond).lives, w)
           <= MostOver(n, maxRequests, ratePerSecond)
    {
      WindowsAreBounded(start, events, n, maxRequests, ratePerSecond, w);
    }
    RateOverAllLivesIsReached(start, n, maxRequests, ratePerSecond);
  }
}
