/** The bounded session registry, run by one caller at a time: a clock of access ticks stands for
    a list of the keys by recency. */
module SessionRegistry {
  import opened Text

  const MIN_SESSIONS: nat := 1
  const MAX_SESSIONS_CEILING: nat := 64

  datatype SessionHandle = SessionHandle(key: string, lastAccess: nat)

  // ---------------------------------------------------------------------------
  // The recency list
  // ---------------------------------------------------------------------------

  function Without(l: seq<string>, key: string): (r: seq<string>)
    ensures key !in r
    ensures forall k | k != key :: k in l <==> k in r
    ensures key !in l ==> r == l
    ensures |r| <= |l| && (key in l ==> |r| < |l|)
  {
    if l == [] then []
    else if l[0] == key then Without(l[1..], key)
    else [l[0]] + Without(l[1..], key)
  }

  function Take(l: seq<string>, n: nat): seq<string> {
    if |l| <= n then l else l[..n]
  }

  /** One use of `key` with room for `cap` keys, most recent first. */
  function Touch(l: seq<string>, key: string, cap: nat): seq<string> {
    Take([key] + Without(l, key), cap)
  }

  /** `l` lists the keys of `sessions` by falling ticks, the first of them below `clock`. */
  ghost predicate Represents(sessions: map<string, SessionHandle>, clock: nat, l: seq<string>)
    decreases |l|
  {
    if l == [] then sessions == map[]
    else
      && l[0] in sessions && sessions[l[0]].key == l[0] && sessions[l[0]].lastAccess < clock
      && Represents(sessions - {l[0]}, sessions[l[0]].lastAccess, l[1..])
  }

  lemma {:induction false} RepresentsListed(sessions: map<string, SessionHandle>, clock: nat, l: seq<string>)
    requires Represents(sessions, clock, l)
    ensures forall k :: k in sessions <==> k in l
    ensures forall k | k in sessions :: sessions[k].key == k && sessions[k].lastAccess < clock
    decreases |l|
  {
    if l != [] {
      assert l == [l[0]] + l[1..];
      RepresentsListed(sessions - {l[0]}, sessions[l[0]].lastAccess, l[1..]);
    }
  }

  lemma {:induction false} RepresentsCounts(sessions: map<string, SessionHandle>, clock: nat, l: seq<string>)
    requires Represents(sessions, clock, l)
    ensures |sessions| == |l|
    decreases |l|
  {
    if l != [] {
      assert (sessions - {l[0]}).Keys == sessions.Keys - {l[0]};
      RepresentsCounts(sessions - {l[0]}, sessions[l[0]].lastAccess, l[1..]);
    }
  }

  lemma {:induction false} RepresentsWithout(
    sessions: map<string, SessionHandle>, clock: nat, l: seq<string>, key: string)
    requires Represents(sessions, clock, l)
    ensures Represents(sessions - {key}, clock, Without(l, key))
    decreases |l|
  {
    if l == [] {
      assert sessions - {key} == map[];
    } else {
      var rest, tick := sessions - {l[0]}, sessions[l[0]].lastAccess;
      if l[0] == key {
        RepresentsListed(rest, tick, l[1..]);
        assert Without(l, key) == l[1..];
        if l[1..] != [] { assert l[1..][0] in rest; }
      } else {
        RepresentsWithout(rest, tick, l[1..], key);
        assert rest - {key} == sessions - {key} - {l[0]};
        assert Without(l, key)[1..] == Without(l[1..], key);
      }
    }
  }

  lemma RepresentsTouched(sessions: map<string, SessionHandle>, clock: nat, l: seq<string>, key: string)
    requires Represents(sessions, clock, l)
    ensures Represents(sessions[key := SessionHandle(key, clock)], clock + 1, [key] + Without(l, key))
  {
    RepresentsWithout(sessions, clock, l, key);
    assert sessions[key := SessionHandle(key, clock)] - {key} == sessions - {key};
    assert ([key] + Without(l, key))[1..] == Without(l, key);
  }

  lemma {:induction false} OldestIsLast(
    sessions: map<string, SessionHandle>, clock: nat, l: seq<string>, victim: string)
    requires Represents(sessions, clock, l) && victim in sessions
    requires forall k | k in sessions :: sessions[victim].lastAccess <= sessions[k].lastAccess
    ensures l != [] && l[|l| - 1] == victim && Without(l, victim) == l[..|l| - 1]
    decreases |l|
  {
    var rest, tick := sessions - {l[0]}, sessions[l[0]].lastAccess;
    RepresentsListed(rest, tick, l[1..]);
    if |l| > 1 {
      assert l[1..][0] in rest;
      OldestIsLast(rest, tick, l[1..], victim);
      assert l[..|l| - 1] == [l[0]] + l[1..][..|l| - 2];
    } else {
      assert victim !in rest;
    }
  }

  class MultiSessionRegistry {
    var sessions: map<string, SessionHandle>
    const maxSessions: nat
    var accessClock: nat
    ghost var recency: seq<string>

    ghost predicate Valid()
      reads this
    {
      && MIN_SESSIONS <= maxSessions <= MAX_SESSIONS_CEILING
      && Represents(sessions, accessClock, recency)
      && |recency| <= maxSessions
    }

    /** `new`, with the cap clamped into its range. */
    constructor (cap: nat)
      ensures Valid() && sessions == map[] && recency == []
      ensures maxSessions == if cap < 1 then 1 else if cap > 64 then 64 else cap
    {
      sessions := map[];
      maxSessions := if cap < MIN_SESSIONS then MIN_SESSIONS
                     else if cap > MAX_SESSIONS_CEILING then MAX_SESSIONS_CEILING else cap;
      accessClock := 0;
      recency := [];
    }

    method NextTick() returns (tick: nat)
      modifies `accessClock
      ensures tick == old(accessClock) && accessClock == tick + 1
    {
      tick := accessClock;
      accessClock := accessClock + 1;
    }

    /** The hosted key with the smallest tick. */
    method LeastRecentlyUsed() returns (victim: string)
      requires sessions != map[]
      ensures victim in sessions
      ensures forall k | k in sessions :: sessions[victim].lastAccess <= sessions[k].lastAccess
    {
      var rest := sessions.Keys;
      assert rest == {} ==> sessions == map[];
      victim :| victim in rest;
      rest := rest - {victim};
      while rest != {}
        invariant victim in sessions && rest <= sessions.Keys
        invariant forall k | k in sessions && k !in rest :: sessions[victim].lastAccess <= sessions[k].lastAccess
        decreases |rest|
      {
        var k :| k in rest;
        if sessions[k].lastAccess < sessions[victim].lastAccess { victim := k; }
        rest := rest - {k};
      }
    }

    /** `evict_oldest_if_full`. */
    method EvictOldestIfFull() returns (evicted: Option<string>)
      requires Valid()
      modifies `sessions, `recency
      ensures Valid()
      ensures if |old(recency)| < maxSessions then evicted == None && recency == old(recency)
              else evicted == Some(old(recency)[|old(recency)| - 1]) && recency == old(recency)[..|old(recency)| - 1]
    {
      RepresentsCounts(sessions, accessClock, recency);
      RepresentsListed(sessions, accessClock, recency);
      if |sessions| < maxSessions { return None; }
      var victim := LeastRecentlyUsed();
      OldestIsLast(sessions, accessClock, recency, victim);
      RepresentsWithout(sessions, accessClock, recency, victim);
      sessions := sessions - {victim};
      recency := Without(recency, victim);
      evicted := Some(victim);
    }

    /** `get_or_create`, with no other caller between its locks. */
    method GetOrCreate(key: string) returns (handle: SessionHandle)
      requires Valid()
      modifies `sessions, `accessClock, `recency
      ensures Valid()
      ensures recency == Touch(old(recency), key, maxSessions)
      ensures key in sessions && handle == sessions[key] && handle.lastAccess == old(accessClock)
    {
      RepresentsListed(sessions, accessClock, recency);
      if key in sessions {
        RepresentsTouched(sessions, accessClock, recency, key);
        var again := NextTick();
        handle := SessionHandle(key, again);
      } else {
        var _ := EvictOldestIfFull();
        RepresentsTouched(sessions, accessClock, recency, key);
        var tick := NextTick();
        handle := SessionHandle(key, tick);
      }
      sessions := sessions[key := handle];
      recency := [key] + Without(recency, key);
    }

    /** `remove`. */
    method Remove(key: string) returns (removed: Option<SessionHandle>)
      requires Valid()
      modifies `sessions, `recency
      ensures Valid() && recency == Without(old(recency), key)
      ensures removed == if key in old(sessions) then Some(old(sessions)[key]) else None
    {
      removed := if key in sessions then Some(sessions[key]) else None;
      RepresentsWithout(sessions, accessClock, recency, key);
      sessions := sessions - {key};
      recency := Without(recency, key);
    }
  }

  // ---------------------------------------------------------------------------
  // Whole runs
  // ---------------------------------------------------------------------------

  predicate Distinct(l: seq<string>) {
    forall i, j | 0 <= i < j < |l| :: l[i] != l[j]
  }

  /** A call of `get_or_create` or `remove`. */
  datatype Event = Use(key: string) | Removal(key: string)

  /** The recency list after a run of calls on an empty registry. */
  function Run(events: seq<Event>, cap: nat): seq<string> {
    if events == [] then []
    else
      var before := Run(events[..|events| - 1], cap);
      match events[|events| - 1]
      case Use(key) => Touch(before, key, cap)
      case Removal(key) => Without(before, key)
  }

  function Uses(keys: seq<string>): (r: seq<Event>)
    ensures |r| == |keys|
  {
    seq(|keys|, i requires 0 <= i < |keys| => Use(keys[i]))
  }

  /** Every key used, once, by its last use, most recent first. */
  function MostRecent(uses: seq<string>): seq<string> {
    if uses == [] then []
    else [uses[|uses| - 1]] + Without(MostRecent(uses[..|uses| - 1]), uses[|uses| - 1])
  }

  lemma TakeCons(key: string, l: seq<string>, n: nat)
    requires n > 0
    ensures Take([key] + l, n) == [key] + Take(l, n - 1)
  {
    if |l| >= n { assert ([key] + l)[..n] == [key] + l[..n - 1]; }
  }

  lemma {:induction false} TakeWithout(l: seq<string>, key: string, n: nat)
    requires Distinct(l) && n > 0
    ensures Take(Without(Take(l, n), key), n - 1) == Take(Without(l, key), n - 1)
  {
    if l != [] && n > 1 {
      var rest := l[1..];
      assert l == [l[0]] + rest;
      TakeCons(l[0], rest, n);
      if l[0] != key {
        TakeWithout(rest, key, n - 1);
        TakeCons(l[0], Without(Take(rest, n - 1), key), n - 1);
        TakeCons(l[0], Without(rest, key), n - 1);
      }
    }
  }

  lemma {:induction false} WithoutStaysDistinct(l: seq<string>, key: string)
    requires Distinct(l)
    ensures Distinct([key] + Without(l, key))
  {
    if l != [] {
      WithoutStaysDistinct(l[1..], key);
      var rest := Without(l[1..], key);
      assert Distinct(rest) by {
        assert forall i | 0 <= i < |rest| :: rest[i] == ([key] + rest)[i + 1];
      }
      assert forall i | 0 <= i < |rest| :: rest[i] in rest && rest[i] in l[1..];
    }
  }

  lemma {:induction false} MostRecentIsDistinct(uses: seq<string>)
    ensures Distinct(MostRecent(uses))
    ensures forall k :: k in MostRecent(uses) <==> k in uses
  {
    if uses != [] {
      var shorter, key := uses[..|uses| - 1], uses[|uses| - 1];
      MostRecentIsDistinct(shorter);
      assert uses == shorter + [key];
      WithoutStaysDistinct(MostRecent(shorter), key);
    }
  }

  /** Main: while nothing is removed, the registry hosts the most recently used keys, as many as
      fit. */
  lemma {:induction false} RunKeepsTheMostRecent(uses: seq<string>, cap: nat)
    requires cap > 0
    ensures Run(Uses(uses), cap) == Take(MostRecent(uses), cap)
  {
    if uses != [] {
      assert Uses(uses)[..|uses| - 1] == Uses(uses[..|uses| - 1]);
      var shorter, key := uses[..|uses| - 1], uses[|uses| - 1];
      RunKeepsTheMostRecent(shorter, cap);
      MostRecentIsDistinct(shorter);
      var l := MostRecent(shorter);
      TakeWithout(l, key, cap);
      TakeCons(key, Without(Take(l, cap), key), cap);
      TakeCons(key, Without(l, key), cap);
    }
  }

  function KeysOf(uses: seq<string>): set<string> {
    set k | k in uses
  }

  /** `i` is the last use of its key. */
  predicate LastUse(uses: seq<string>, i: nat) {
    i < |uses| && uses[i] !in uses[i + 1..]
  }

  /** The keys listed before `key`. */
  function Ahead(l: seq<string>, key: string): set<string> {
    if l == [] || l[0] == key then {} else {l[0]} + Ahead(l[1..], key)
  }

  lemma {:induction false} AheadOfWithout(l: seq<string>, key: string, other: string)
    requires key != other
    ensures Ahead(Without(l, other), key) == Ahead(l, key) - {other}
  {
    if l != [] && l[0] != key { AheadOfWithout(l[1..], key, other); }
  }

  lemma {:induction false} AheadIsListed(l: seq<string>, key: string)
    ensures forall k | k in Ahead(l, key) :: k in l
  {
    if l != [] && l[0] != key { AheadIsListed(l[1..], key); }
  }

  lemma {:induction false} TakenIffFewAhead(l: seq<string>, key: string, n: nat)
    requires Distinct(l)
    ensures key in Take(l, n) <==> key in l && |Ahead(l, key)| < n
  {
    if l != [] && n > 0 {
      var rest := l[1..];
      assert l == [l[0]] + rest;
      TakeCons(l[0], rest, n);
      TakenIffFewAhead(rest, key, n - 1);
      AheadIsListed(rest, key);
      assert l[0] !in rest;
    }
  }

  /** The keys listed before a key are those used after its last use. */
  lemma {:induction false} AheadIsUsedSince(uses: seq<string>, i: nat)
    requires LastUse(uses, i)
    ensures Ahead(MostRecent(uses), uses[i]) == KeysOf(uses[i + 1..])
    decreases |uses|
  {
    var n := |uses| - 1;
    var shorter, key := uses[..n], uses[n];
    var l := Without(MostRecent(shorter), key);
    assert MostRecent(uses)[0] == key && MostRecent(uses)[1..] == l;
    if i < n {
      var since := shorter[i + 1..];
      assert uses[i + 1..] == since + [key];
      assert (since + [key])[|since|] == key;
      assert key != uses[i];
      assert forall k | k in since :: k in since + [key];
      AheadIsUsedSince(shorter, i);
      AheadOfWithout(MostRecent(shorter), uses[i], key);
    }
  }

  /** Main: a key is hosted after a run exactly when it was used and fewer than `cap` other keys
      were used since. */
  lemma HostedIffRecentlyUsed(uses: seq<string>, cap: nat, i: nat)
    requires cap > 0 && LastUse(uses, i)
    ensures uses[i] in Run(Uses(uses), cap) <==> |KeysOf(uses[i + 1..])| < cap
  {
    RunKeepsTheMostRecent(uses, cap);
    AheadIsUsedSince(uses, i);
    MostRecentIsDistinct(uses);
    TakenIffFewAhead(MostRecent(uses), uses[i], cap);
  }

  // ---------------------------------------------------------------------------
  // Runs with removals
  // ---------------------------------------------------------------------------

  /** The keys whose last call was a use. */
  function Live(events: seq<Event>): set<string> {
    if events == [] then {}
    else
      var before := Live(events[..|events| - 1]);
      match events[|events| - 1]
      case Use(key) => before + {key}
      case Removal(key) => before - {key}
  }

  /** Call `i` is the last one about its key, and a use. */
  predicate LastCall(events: seq<Event>, i: nat) {
    i < |events| && events[i].Use? && forall j | i < j < |events| :: events[j].key != events[i].key
  }

  /** The keys in use at time `t` because of calls after `i`. */
  function LiveSince(events: seq<Event>, i: nat, t: nat): set<string>
    requires i < t <= |events|
  {
    Live(events[i + 1..t])
  }

  /** Since call `i` there were never `cap` other keys in use at once. */
  ghost predicate NeverCrowdedOut(events: seq<Event>, i: nat, cap: nat)
    requires i < |events|
  {
    forall t | i < t <= |events| :: |LiveSince(events, i, t)| < cap
  }

  lemma {:induction false} RunIsDistinct(events: seq<Event>, cap: nat)
    ensures Distinct(Run(events, cap))
  {
    if events != [] {
      var before, key := Run(events[..|events| - 1], cap), events[|events| - 1].key;
      RunIsDistinct(events[..|events| - 1], cap);
      WithoutStaysDistinct(before, key);
      var all := [key] + Without(before, key);
      assert forall i | 0 <= i < |Without(before, key)| :: Without(before, key)[i] == all[i + 1];
    }
  }

  lemma {:induction false} AheadInTake(l: seq<string>, key: string, n: nat)
    requires key in Take(l, n)
    ensures Ahead(Take(l, n), key) == Ahead(l, key)
  {
    if l[0] != key {
      var rest := l[1..];
      assert l == [l[0]] + rest;
      TakeCons(l[0], rest, n);
      AheadInTake(rest, key, n - 1);
    }
  }

  /** Another key is used. */
  lemma TouchingAnother(l: seq<string>, key: string, other: string, cap: nat)
    requires Distinct(l) && key != other
    ensures var ahead := Ahead(l, key) + {other};
      && (key in Touch(l, other, cap) <==> key in l && |ahead| < cap)
      && (key in Touch(l, other, cap) ==> Ahead(Touch(l, other, cap), key) == ahead)
  {
    var all := [other] + Without(l, other);
    WithoutStaysDistinct(l, other);
    TakenIffFewAhead(all, key, cap);
    AheadOfWithout(l, key, other);
    assert all[0] == other && all[1..] == Without(l, other);
    assert Ahead(all, key) == Ahead(l, key) + {other};
    if key in Take(all, cap) { AheadInTake(all, key, cap); }
  }

  lemma SinceEarlier(events: seq<Event>, i: nat, t: nat)
    requires i < t < |events|
    ensures LiveSince(events[..|events| - 1], i, t) == LiveSince(events, i, t)
  {
    assert events[..|events| - 1][i + 1..t] == events[i + 1..t];
  }

  lemma CrowdedStepByStep(events: seq<Event>, i: nat, cap: nat)
    requires i < |events| - 1
    ensures NeverCrowdedOut(events, i, cap) <==>
      NeverCrowdedOut(events[..|events| - 1], i, cap) && |LiveSince(events, i, |events|)| < cap
  {
    var shorter := events[..|events| - 1];
    forall t | i < t < |events| ensures LiveSince(shorter, i, t) == LiveSince(events, i, t) {
      SinceEarlier(events, i, t);
    }
    if NeverCrowdedOut(shorter, i, cap) && |LiveSince(events, i, |events|)| < cap {
      forall t | i < t <= |events| ensures |LiveSince(events, i, t)| < cap {
        if t < |events| { assert |LiveSince(shorter, i, t)| < cap; }
      }
    }
  }

  lemma LiveStepByStep(events: seq<Event>, i: nat)
    requires i < |events| - 1
    ensures var n := |events| - 1;
      LiveSince(events, i, n + 1) == match events[n]
                                     case Use(key) => LiveSince(events[..n], i, n) + {key}
                                     case Removal(key) => LiveSince(events[..n], i, n) - {key}
  {
    var n := |events| - 1;
    var since := events[i + 1..n + 1];
    assert events[..n][i + 1..n] == events[i + 1..n];
    assert since == events[i + 1..n] + [events[n]];
    assert since[..|since| - 1] == events[i + 1..n];
  }

  /** The keys listed before a hosted key are those in use since its last use. */
  lemma {:induction false} HostedSinceLastCall(events: seq<Event>, cap: nat, i: nat)
    requires LastCall(events, i)
    ensures events[i].key in Run(events, cap) <==> NeverCrowdedOut(events, i, cap)
    ensures events[i].key in Run(events, cap) ==>
              Ahead(Run(events, cap), events[i].key) == LiveSince(events, i, |events|)
    decreases |events|
  {
    var n := |events| - 1;
    if i == n {
      JustUsed(events, cap);
    } else {
      HostedSinceLastCall(events[..n], cap, i);
      CrowdedStepByStep(events, i, cap);
      LiveStepByStep(events, i);
      RunIsDistinct(events[..n], cap);
      AnotherCall(Run(events[..n], cap), events[i].key, events[n], cap);
    }
  }

  lemma JustUsed(events: seq<Event>, cap: nat)
    requires events != [] && events[|events| - 1].Use?
    ensures var key := events[|events| - 1].key;
      && (key in Run(events, cap) <==> NeverCrowdedOut(events, |events| - 1, cap))
      && (key in Run(events, cap) ==>
            Ahead(Run(events, cap), key) == LiveSince(events, |events| - 1, |events|))
  {
    assert LiveSince(events, |events| - 1, |events|) == {};
  }

  lemma AnotherCall(l: seq<string>, key: string, e: Event, cap: nat)
    requires Distinct(l) && key != e.key
    ensures var next := if e.Use? then Touch(l, e.key, cap) else Without(l, e.key);
      var ahead := if e.Use? then Ahead(l, key) + {e.key} else Ahead(l, key) - {e.key};
      && (key in next <==> key in l && (e.Use? ==> |ahead| < cap))
      && (key in next ==> Ahead(next, key) == ahead)
      && |Ahead(l, key) - {e.key}| <= |Ahead(l, key)|
  {
    if e.Use? { TouchingAnother(l, key, e.key, cap); }
    AheadOfWithout(l, key, e.key);
  }

  lemma {:induction false} HostedKeysWereUsed(events: seq<Event>, cap: nat, key: string) returns (i: nat)
    requires key in Run(events, cap)
    ensures LastCall(events, i) && events[i].key == key
  {
    var n := |events| - 1;
    if events[n].key == key {
      i := n;
    } else {
      i := HostedKeysWereUsed(events[..n], cap, key);
    }
  }

  /** Main: after any run of uses and removals a key is hosted exactly when its last call was a use
      and the keys in use since then were never as many as the cap. */
  lemma HostedExactlyWhen(events: seq<Event>, cap: nat, key: string)
    ensures key in Run(events, cap) <==>
      exists i: nat :: LastCall(events, i) && events[i].key == key && NeverCrowdedOut(events, i, cap)
  {
    if key in Run(events, cap) {
      var i := HostedKeysWereUsed(events, cap, key);
      HostedSinceLastCall(events, cap, i);
    } else if i: nat :| LastCall(events, i) && events[i].key == key && NeverCrowdedOut(events, i, cap) {
      HostedSinceLastCall(events, cap, i);
    }
  }
}
