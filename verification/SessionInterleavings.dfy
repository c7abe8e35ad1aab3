/** The session registry shared by several callers. `get_or_create` takes the lock three times,
    so other callers may act between the look-up, the eviction and the insertion. */
module SessionInterleavings {

  type Caller = nat

  /** `missed`: callers that did not find their key; `cleared`: those that then made room. */
  datatype State = State(
    sessions: map<string, nat>, clock: nat, missed: map<Caller, string>, cleared: map<Caller, string>)

  const INITIAL := State(map[], 0, map[], map[])

  datatype Step =
    | LookUp(caller: Caller, key: string)
    | MakeRoom(caller: Caller, victim: string)
    | Insert(caller: Caller)
    | Evict(victim: string)
    | Remove(key: string)

  predicate Oldest(sessions: map<string, nat>, key: string) {
    key in sessions && forall k | k in sessions :: sessions[key] <= sessions[k]
  }

  predicate Busy(s: State, caller: Caller) {
    caller in s.missed || caller in s.cleared
  }

  function Use(s: State, key: string): State {
    s.(sessions := s.sessions[key := s.clock], clock := s.clock + 1)
  }

  /** One lock section by one of `callers` callers. A step that is not possible, such as an
      eviction that names another key than the oldest, leaves the state alone. */
  function Next(s: State, step: Step, cap: nat, callers: nat): State {
    match step
    case LookUp(c, key) =>
      if c >= callers || Busy(s, c) then s
      else if key in s.sessions then Use(s, key)
      else s.(missed := s.missed[c := key])
    case MakeRoom(c, victim) =>
      if c >= callers || c !in s.missed then s
      else
        var moved := s.(missed := s.missed - {c}, cleared := s.cleared[c := s.missed[c]]);
        if |s.sessions| < cap then moved
        else if Oldest(s.sessions, victim) then moved.(sessions := s.sessions - {victim})
        else s
    case Insert(c) =>
      if c >= callers || c !in s.cleared then s
      else Use(s.(cleared := s.cleared - {c}), s.cleared[c])
    case Evict(victim) =>
      if |s.sessions| >= cap && Oldest(s.sessions, victim) then s.(sessions := s.sessions - {victim}) else s
    case Remove(key) => s.(sessions := s.sessions - {key})
  }

  function Exec(s: State, steps: seq<Step>, cap: nat, callers: nat): State
    decreases |steps|
  {
    if steps == [] then s else Exec(Next(s, steps[0], cap, callers), steps[1..], cap, callers)
  }

  /** Only `remove` and eviction take a session away, and eviction one that was used no later than any
      other, when the registry is full. */
  lemma OnlyTheOldestIsEvicted(s: State, step: Step, cap: nat, callers: nat, key: string)
    requires key in s.sessions && key !in Next(s, step, cap, callers).sessions && step != Remove(key)
    ensures |s.sessions| >= cap && forall k | k in s.sessions :: s.sessions[key] <= s.sessions[k]
  {
  }

  /** `key` is hosted and was used later than every other session. */
  ghost predicate Latest(s: State, key: string) {
    key in s.sessions && forall k | k in s.sessions && k != key :: s.sessions[k] < s.sessions[key]
  }

  ghost predicate ClockInv(s: State) {
    forall k | k in s.sessions :: s.sessions[k] < s.clock
  }

  lemma {:induction false} ExecKeepsClock(s: State, steps: seq<Step>, cap: nat, callers: nat)
    requires ClockInv(s)
    ensures ClockInv(Exec(s, steps, cap, callers))
    decreases |steps|
  {
    if steps != [] { ExecKeepsClock(Next(s, steps[0], cap, callers), steps[1..], cap, callers); }
  }

  lemma {:induction false} UseIsLatest(s: State, key: string)
    requires ClockInv(s)
    ensures var t := Use(s, key); Latest(t, key) && t.sessions - {key} == s.sessions - {key}
  {
  }

  /** A call that finds its session, or ends by inserting it, leaves it hosted and the latest of all,
      and no other session changed. */
  ghost predicate CallsUse(s: State, c: Caller, key: string, cap: nat, callers: nat) {
    && (!Busy(s, c) && key in s.sessions ==>
          var t := Next(s, LookUp(c, key), cap, callers);
          Latest(t, key) && t.sessions - {key} == s.sessions - {key} && !Busy(t, c))
    && (c in s.cleared && s.cleared[c] == key ==>
          var t := Next(s, Insert(c), cap, callers);
          Latest(t, key) && t.sessions - {key} == s.sessions - {key})
  }

  lemma {:induction false} CallIsLatest(s: State, c: Caller, key: string, cap: nat, callers: nat)
    requires ClockInv(s) && c < callers
    ensures CallsUse(s, c, key, cap, callers)
  {
    UseIsLatest(s, key);
    if c in s.cleared { UseIsLatest(s.(cleared := s.cleared - {c}), key); }
  }

  /** In every interleaving. */
  lemma {:induction false} UsedIsLatest(steps: seq<Step>, c: Caller, key: string, cap: nat, callers: nat)
    requires c < callers
    ensures CallsUse(Exec(INITIAL, steps, cap, callers), c, key, cap, callers)
  {
    ExecKeepsClock(INITIAL, steps, cap, callers);
    CallIsLatest(Exec(INITIAL, steps, cap, callers), c, key, cap, callers);
  }

  // ---------------------------------------------------------------------------
  // The bound
  // ---------------------------------------------------------------------------

  /** Only the first `callers` callers act, and each cleared caller may still insert one session. */
  ghost predicate Inv(s: State, cap: nat, callers: nat) {
    && (forall c | c in s.missed || c in s.cleared :: c < callers)
    && |s.sessions| + |s.cleared| + 1 <= cap + callers
  }

  lemma {:induction false} AtMost(s: set<nat>, n: nat)
    requires forall x | x in s :: x < n
    ensures |s| <= n
  {
    if n == 0 {
      assert s == {};
    } else {
      AtMost(s - {n - 1}, n - 1);
    }
  }

  lemma RemoveOne<K, V>(m: map<K, V>, k: K)
    ensures k in m ==> |m - {k}| == |m| - 1
    ensures k !in m ==> m - {k} == m
  {
    assert (m - {k}).Keys == m.Keys - {k};
  }

  lemma AddOne<K, V>(m: map<K, V>, k: K, v: V)
    ensures |m[k := v]| == |m| + if k in m then 0 else 1
  {
    assert m[k := v].Keys == m.Keys + {k};
  }

  /** Making room either finds the registry below its cap or trades a session for a claim. */
  lemma MakeRoomKeepsInv(s: State, c: Caller, victim: string, cap: nat, callers: nat)
    requires cap > 0 && callers > 0 && Inv(s, cap, callers) && c in s.missed
    ensures Inv(Next(s, MakeRoom(c, victim), cap, callers), cap, callers)
  {
    var cleared := s.cleared[c := s.missed[c]];
    assert |cleared| <= callers by { AtMost(cleared.Keys, callers); }
    AddOne(s.cleared, c, s.missed[c]);
    RemoveOne(s.sessions, victim);
  }

  lemma InsertKeepsInv(s: State, c: Caller, cap: nat, callers: nat)
    requires Inv(s, cap, callers) && c in s.cleared
    ensures Inv(Next(s, Insert(c), cap, callers), cap, callers)
  {
    RemoveOne(s.cleared, c);
    AddOne(s.sessions, s.cleared[c], s.clock);
  }

  lemma LookUpKeepsInv(s: State, c: Caller, key: string, cap: nat, callers: nat)
    requires Inv(s, cap, callers)
    ensures Inv(Next(s, LookUp(c, key), cap, callers), cap, callers)
  {
    AddOne(s.sessions, key, s.clock);
  }

  lemma RemovalKeepsInv(s: State, key: string, cap: nat, callers: nat)
    requires Inv(s, cap, callers)
    ensures Inv(s.(sessions := s.sessions - {key}), cap, callers)
  {
    RemoveOne(s.sessions, key);
  }

  lemma NextKeepsInv(s: State, step: Step, cap: nat, callers: nat)
    requires cap > 0 && callers > 0 && Inv(s, cap, callers)
    ensures Inv(Next(s, step, cap, callers), cap, callers)
  {
    match step
    case LookUp(c, key) => LookUpKeepsInv(s, c, key, cap, callers);
    case MakeRoom(c, victim) =>
      if c in s.missed { MakeRoomKeepsInv(s, c, victim, cap, callers); }
    case Insert(c) =>
      if c in s.cleared { InsertKeepsInv(s, c, cap, callers); }
    case Evict(victim) => RemovalKeepsInv(s, victim, cap, callers);
    case Remove(key) => RemovalKeepsInv(s, key, cap, callers);
  }

  lemma {:induction false} ExecKeepsInv(s: State, steps: seq<Step>, cap: nat, callers: nat)
    requires cap > 0 && callers > 0 && Inv(s, cap, callers)
    ensures Inv(Exec(s, steps, cap, callers), cap, callers)
    decreases |steps|
  {
    if steps != [] {
      NextKeepsInv(s, steps[0], cap, callers);
      ExecKeepsInv(Next(s, steps[0], cap, callers), steps[1..], cap, callers);
    }
  }

  /** Main: `callers` concurrent callers never hold more than `cap + callers - 1` sessions. */
  lemma SessionsAreBounded(steps: seq<Step>, cap: nat, callers: nat)
    requires cap > 0 && callers > 0
    ensures |Exec(INITIAL, steps, cap, callers).sessions| <= cap + callers - 1
  {
    ExecKeepsInv(INITIAL, steps, cap, callers);
  }

  // ---------------------------------------------------------------------------
  // The bound is reached
  // ---------------------------------------------------------------------------

  lemma {:induction false} ExecAppend(s: State, a: seq<Step>, b: seq<Step>, cap: nat, callers: nat)
    ensures Exec(s, a + b, cap, callers) == Exec(Exec(s, a, cap, callers), b, cap, callers)
    decreases |a|
  {
    if a == [] {
      assert a + b == b;
    } else {
      assert (a + b)[1..] == a[1..] + b;
      ExecAppend(Next(s, a[0], cap, callers), a[1..], b, cap, callers);
    }
  }

  lemma ExecSnoc(s: State, a: seq<Step>, step: Step, cap: nat, callers: nat)
    ensures Exec(s, a + [step], cap, callers) == Next(Exec(s, a, cap, callers), step, cap, callers)
  {
    ExecAppend(s, a, [step], cap, callers);
    assert [step][1..] == [];
  }

  lemma ExecTwoMore(s: State, a: seq<Step>, x: Step, y: Step, cap: nat, callers: nat)
    ensures Exec(s, a + [x] + [y], cap, callers)
         == Next(Next(Exec(s, a, cap, callers), x, cap, callers), y, cap, callers)
  {
    ExecSnoc(s, a, x, cap, callers);
    ExecSnoc(s, a + [x], y, cap, callers);
  }

  /** A different key for every number. */
  function Name(i: nat): string {
    seq(i, _ => 's')
  }

  /** The sessions are the first `k` names and no caller is under way. */
  ghost predicate Filled(s: State, k: nat) {
    && |s.sessions| == k && (forall i: nat :: Name(i) in s.sessions ==> i < k)
    && s.missed == map[] && s.cleared == map[]
  }

  lemma NamesDiffer(i: nat, j: nat)
    ensures Name(i) == Name(j) ==> i == j
  {
    assert |Name(i)| == i && |Name(j)| == j;
  }

  /** A caller that finds room and misses `key` ends up cleared to insert it. */
  lemma MissAndClear(s: State, c: Caller, key: string, cap: nat, callers: nat)
    requires c < callers && !Busy(s, c) && key !in s.sessions && |s.sessions| < cap
    ensures Next(Next(s, LookUp(c, key), cap, callers), MakeRoom(c, key), cap, callers)
         == s.(cleared := s.cleared[c := key])
  {
    assert s.missed[c := key] - {c} == s.missed;
  }

  /** One caller alone fills the registry to below its cap. */
  lemma {:induction false} Fill(k: nat, cap: nat, callers: nat) returns (steps: seq<Step>)
    requires k < cap && callers > 0
    ensures Filled(Exec(INITIAL, steps, cap, callers), k)
  {
    if k == 0 { return []; }
    var before := Fill(k - 1, cap, callers);
    var s := Exec(INITIAL, before, cap, callers);
    var key := Name(k - 1);
    var cleared := before + [LookUp(0, key)] + [MakeRoom(0, key)];
    steps := cleared + [Insert(0)];
    ExecTwoMore(INITIAL, before, LookUp(0, key), MakeRoom(0, key), cap, callers);
    ExecSnoc(INITIAL, cleared, Insert(0), cap, callers);
    MissAndClear(s, 0, key, cap, callers);
    var t := Exec(INITIAL, steps, cap, callers);
    assert t.sessions == s.sessions[key := s.clock] && t.cleared == s.cleared && t.missed == s.missed;
    AddOne(s.sessions, key, s.clock);
    forall i: nat | Name(i) in t.sessions ensures i < k { NamesDiffer(i, k - 1); }
  }

  /** The first `n` callers have made room, each for a new name after the first `k`. */
  ghost predicate Poised(s: State, k: nat, n: nat) {
    && |s.sessions| == k && (forall i: nat :: Name(i) in s.sessions ==> i < k)
    && s.missed == map[]
    && (forall c: nat :: c in s.cleared <==> c < n)
    && (forall c: nat | c < n :: s.cleared[c] == Name(k + c))
  }

  lemma OneMorePoised(s: State, k: nat, c: Caller)
    requires Poised(s, k, c)
    ensures Poised(s.(cleared := s.cleared[c := Name(k + c)]), k, c + 1)
  {
  }

  lemma NextCallerPoised(s: State, k: nat, c: Caller, cap: nat, callers: nat)
    requires Poised(s, k, c) && k < cap && c < callers
    ensures var key := Name(k + c);
      Poised(Next(Next(s, LookUp(c, key), cap, callers), MakeRoom(c, key), cap, callers), k, c + 1)
  {
    MissAndClear(s, c, Name(k + c), cap, callers);
    OneMorePoised(s, k, c);
  }

  lemma {:induction false} PoiseOneMore(
    before: seq<Step>, k: nat, c: Caller, cap: nat, callers: nat) returns (steps: seq<Step>)
    requires Poised(Exec(INITIAL, before, cap, callers), k, c) && k < cap && c < callers
    ensures Poised(Exec(INITIAL, steps, cap, callers), k, c + 1)
  {
    var key := Name(k + c);
    steps := before + [LookUp(c, key)] + [MakeRoom(c, key)];
    ExecTwoMore(INITIAL, before, LookUp(c, key), MakeRoom(c, key), cap, callers);
    NextCallerPoised(Exec(INITIAL, before, cap, callers), k, c, cap, callers);
  }

  lemma {:induction false} Poise(k: nat, n: nat, cap: nat, callers: nat) returns (steps: seq<Step>)
    requires k < cap && n <= callers && callers > 0
    ensures Poised(Exec(INITIAL, steps, cap, callers), k, n)
    decreases n
  {
    if n == 0 {
      steps := Fill(k, cap, callers);
    } else {
      steps := Poise(k, n - 1, cap, callers);
      steps := PoiseOneMore(steps, k, n - 1, cap, callers);
    }
  }

  /** After the first `n` of them have inserted. */
  ghost predicate Inserted(s: State, k: nat, n: nat, callers: nat) {
    && |s.sessions| == k + n && (forall i: nat :: Name(i) in s.sessions ==> i < k + n)
    && (forall c: nat | n <= c < callers :: c in s.cleared && s.cleared[c] == Name(k + c))
  }

  lemma {:induction false} InsertAll(k: nat, n: nat, cap: nat, callers: nat) returns (steps: seq<Step>)
    requires k < cap && n <= callers && callers > 0
    ensures Inserted(Exec(INITIAL, steps, cap, callers), k, n, callers)
    decreases n
  {
    if n == 0 {
      steps := Poise(k, callers, cap, callers);
      return;
    }
    var before := InsertAll(k, n - 1, cap, callers);
    var s := Exec(INITIAL, before, cap, callers);
    var key := Name(k + n - 1);
    steps := before + [Insert(n - 1)];
    ExecSnoc(INITIAL, before, Insert(n - 1), cap, callers);
    var t := Exec(INITIAL, steps, cap, callers);
    assert t.sessions == s.sessions[key := s.clock];
    AddOne(s.sessions, key, s.clock);
    forall i: nat | Name(i) in t.sessions ensures i < k + n { NamesDiffer(i, k + n - 1); }
  }

  /** Main: that bound is tight, so the cap itself is kept in every run exactly when there is one
      caller. */
  lemma CapHoldsOnlyAlone(cap: nat, callers: nat)
    requires cap > 0 && callers > 0
    ensures exists steps :: |Exec(INITIAL, steps, cap, callers).sessions| == cap + callers - 1
    ensures (forall steps :: |Exec(INITIAL, steps, cap, callers).sessions| <= cap) <==> callers == 1
  {
    var steps := InsertAll(cap - 1, callers, cap, callers);
    assert |Exec(INITIAL, steps, cap, callers).sessions| == cap + callers - 1;
    forall steps ensures |Exec(INITIAL, steps, cap, callers).sessions| <= cap + callers - 1 {
      SessionsAreBounded(steps, cap, callers);
    }
  }
}
