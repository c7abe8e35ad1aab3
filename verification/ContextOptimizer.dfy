/** Greedy selection of conversation messages under a token budget. A message is its index and
    its cost; the relevance scores enter only through the order in which they rank the messages. */
module ContextOptimizer {

  /** The messages that are always kept: the first and the protected tail. */
  predicate Anchor(n: nat, protectLastN: nat, i: nat) {
    i < n && (i == 0 || n - i <= protectLastN || i == n - 1)
  }

  function Anchors(n: nat, protectLastN: nat): set<nat> {
    set i: nat | i < n && Anchor(n, protectLastN, i)
  }

  /** The messages from `from` on. */
  function From(from: nat, n: nat): (s: set<nat>)
    requires from <= n
    ensures forall i :: i in s <==> from <= i < n
    ensures |s| == n - from
    decreases n - from
  {
    if from == n then {} else {from} + From(from + 1, n)
  }

  /** They are the first message and as many at the end as are protected, the last one always. */
  lemma AnchorsAreFirstAndTail(n: nat, protectLastN: nat)
    requires n > 0
    ensures var tail := if protectLastN == 0 then 1 else if protectLastN < n then protectLastN else n;
      && Anchors(n, protectLastN) == {0} + From(n - tail, n)
      && |Anchors(n, protectLastN)| == if tail < n then tail + 1 else n
  {
    var tail := if protectLastN == 0 then 1 else if protectLastN < n then protectLastN else n;
    var anchors, last := Anchors(n, protectLastN), From(n - tail, n);
    AnchorsByPlace(n, protectLastN, tail);
    assert anchors == {0} + last;
    if tail == n { assert anchors == last; }
  }

  lemma AnchorsByPlace(n: nat, protectLastN: nat, tail: nat)
    requires n > 0 && tail == if protectLastN == 0 then 1 else if protectLastN < n then protectLastN else n
    ensures forall i :: i in Anchors(n, protectLastN) <==> i == 0 || n - tail <= i < n
  {
  }

  /** `order` ranks the messages that are not anchors, best first. */
  ghost predicate Ranks(order: seq<nat>, n: nat, protectLastN: nat) {
    && (forall j | 0 <= j < |order| :: order[j] < n && !Anchor(n, protectLastN, order[j]))
    && (forall i: nat | i < n && !Anchor(n, protectLastN, i) :: i in order)
    && (forall j, k | 0 <= j < k < |order| :: order[j] != order[k])
  }

  /** The cost of the messages of `s` below `k`. */
  function Total(cost: seq<nat>, s: set<nat>, k: nat): nat
    requires k <= |cost|
  {
    if k == 0 then 0 else Total(cost, s, k - 1) + if k - 1 in s then cost[k - 1] else 0
  }

  function Cost(cost: seq<nat>, s: set<nat>): nat {
    Total(cost, s, |cost|)
  }

  lemma {:induction false} TotalIsMonotone(cost: seq<nat>, s: set<nat>, t: set<nat>, k: nat)
    requires k <= |cost| && s <= t
    ensures Total(cost, s, k) <= Total(cost, t, k)
  {
    if k > 0 { TotalIsMonotone(cost, s, t, k - 1); }
  }

  lemma {:induction false} TotalOfAddition(cost: seq<nat>, s: set<nat>, i: nat, k: nat)
    requires k <= |cost| && i < |cost| && i !in s
    ensures Total(cost, s + {i}, k) == Total(cost, s, k) + if i < k then cost[i] else 0
  {
    if k > 0 { TotalOfAddition(cost, s, i, k - 1); }
  }

  lemma {:induction false} TotalOfNothing(cost: seq<nat>, k: nat)
    requires k <= |cost|
    ensures Total(cost, {}, k) == 0
  {
    if k > 0 { TotalOfNothing(cost, k - 1); }
  }

  /** Admit the messages of `order` from position `k` on, each if it still fits. */
  function Admit(cost: seq<nat>, budget: nat, order: seq<nat>, k: nat, s: set<nat>): set<nat>
    requires k <= |order| && forall j | 0 <= j < |order| :: order[j] < |cost|
    decreases |order| - k
  {
    if k == |order| then s
    else Admit(cost, budget, order, k + 1,
               if Cost(cost, s) + cost[order[k]] <= budget then s + {order[k]} else s)
  }

  function Selection(cost: seq<nat>, budget: nat, protectLastN: nat, order: seq<nat>): set<nat>
    requires forall j | 0 <= j < |order| :: order[j] < |cost|
  {
    Admit(cost, budget, order, 0, Anchors(|cost|, protectLastN))
  }

  /** The members of `s` below `k`, in increasing order. */
  function Ascending(s: set<nat>, k: nat): seq<nat> {
    if k == 0 then [] else Ascending(s, k - 1) + if k - 1 in s then [k - 1] else []
  }

  lemma {:induction false} AscendingLists(s: set<nat>, k: nat)
    ensures var r := Ascending(s, k);
      (forall i: nat :: i in r <==> i in s && i < k)
      && (forall a, b | 0 <= a < b < |r| :: r[a] < r[b])
  {
    if k > 0 {
      AscendingLists(s, k - 1);
      var shorter := Ascending(s, k - 1);
      forall a | 0 <= a < |shorter| ensures shorter[a] < k - 1 { assert shorter[a] in shorter; }
    }
  }

  // ---------------------------------------------------------------------------
  // select_indices_with
  // ---------------------------------------------------------------------------

  /** The indices that are marked. */
  ghost function Marked(kept: array<bool>): set<nat>
    reads kept
  {
    set i: nat | i < kept.Length && kept[i]
  }

  /** Marks the anchors, each once, and adds up their cost. */
  method MarkAnchors(cost: seq<nat>, anchors: seq<nat>, kept: array<bool>) returns (used: nat)
    requires kept.Length == |cost| && Marked(kept) == {} && forall a | 0 <= a < |anchors| :: anchors[a] < |cost|
    modifies kept
    ensures used == Cost(cost, Marked(kept)) && forall i: nat :: i in Marked(kept) <==> i in anchors
  {
    used := 0;
    TotalOfNothing(cost, |cost|);
    for a := 0 to |anchors|
      invariant used == Cost(cost, Marked(kept))
      invariant forall x: nat :: x in Marked(kept) <==> x in anchors[..a]
    {
      var i := anchors[a];
      assert anchors[..a + 1] == anchors[..a] + [i];
      if !kept[i] {
        ghost var before := Marked(kept);
        kept[i] := true;
        used := used + cost[i];
        assert Marked(kept) == before + {i};
        TotalOfAddition(cost, before, i, |cost|);
      }
    }
    assert anchors[..|anchors|] == anchors;
  }

  /** The first message and the protected tail. */
  method GatherAnchors(n: nat, protectLastN: nat) returns (anchors: seq<nat>)
    requires n > 0
    ensures forall i: nat :: i in anchors <==> i in Anchors(n, protectLastN)
    ensures forall a | 0 <= a < |anchors| :: anchors[a] < n
  {
    anchors := [0];
    var tailStart := if protectLastN <= 1 then n - 1 else if protectLastN <= n then n - protectLastN else 0;
    for i := tailStart to n
      invariant forall x: nat :: x in anchors <==> x == 0 || tailStart <= x < i
      invariant forall a | 0 <= a < |anchors| :: anchors[a] < n
    {
      anchors := anchors + [i];
    }
  }

  /** `select_indices_with`, with the ranking as an input. The anchors are gathered in increasing
      order and marked once each, so sorting them and removing duplicates changes nothing. */
  method SelectIndices(cost: seq<nat>, tokenBudget: nat, protectLastN: nat, order: seq<nat>)
    returns (selected: seq<nat>)
    requires Ranks(order, |cost|, protectLastN)
    ensures selected == Ascending(Selection(cost, tokenBudget, protectLastN, order), |cost|)
  {
    var n := |cost|;
    if n == 0 {
      return [];
    }
    var kept := new bool[n](_ => false);
    var anchors := GatherAnchors(n, protectLastN);
    assert Marked(kept) == {};
    var used := MarkAnchors(cost, anchors, kept);
    assert Marked(kept) == Anchors(n, protectLastN);

    for k := 0 to |order|
      invariant used == Cost(cost, Marked(kept))
      invariant forall j | k <= j < |order| :: order[j] !in Marked(kept)
      invariant Admit(cost, tokenBudget, order, k, Marked(kept)) == Selection(cost, tokenBudget, protectLastN, order)
    {
      var i := order[k];
      assert i in order;
      var c := cost[i];
      if used + c <= tokenBudget {
        ghost var before := Marked(kept);
        kept[i] := true;
        used := used + c;
        assert Marked(kept) == before + {i};
        TotalOfAddition(cost, before, i, n);
      }
    }

    selected := [];
    for i := 0 to n
      invariant selected == Ascending(Marked(kept), i)
    {
      if kept[i] { selected := selected + [i]; }
    }
  }

  // ---------------------------------------------------------------------------
  // What the selection is
  // ---------------------------------------------------------------------------

  /** The messages kept before position `k` of the ranking is considered. */
  function Before(cost: seq<nat>, budget: nat, order: seq<nat>, k: nat, s: set<nat>): set<nat>
    requires k <= |order| && forall j | 0 <= j < |order| :: order[j] < |cost|
  {
    if k == 0 then s
    else
      var b := Before(cost, budget, order, k - 1, s);
      if Cost(cost, b) + cost[order[k - 1]] <= budget then b + {order[k - 1]} else b
  }

  lemma {:induction false} AdmitContinues(cost: seq<nat>, budget: nat, order: seq<nat>, k: nat, s: set<nat>)
    requires k <= |order| && forall j | 0 <= j < |order| :: order[j] < |cost|
    ensures Admit(cost, budget, order, 0, s) == Admit(cost, budget, order, k, Before(cost, budget, order, k, s))
  {
    if k > 0 { AdmitContinues(cost, budget, order, k - 1, s); }
  }

  /** What is admitted later comes from later in the ranking. */
  lemma {:induction false} AdmitAdds(cost: seq<nat>, budget: nat, order: seq<nat>, k: nat, s: set<nat>)
    requires k <= |order| && forall j | 0 <= j < |order| :: order[j] < |cost|
    ensures s <= Admit(cost, budget, order, k, s)
    ensures forall i | i in Admit(cost, budget, order, k, s) :: i in s || i in order[k..]
    decreases |order| - k
  {
    if k < |order| {
      var s' := if Cost(cost, s) + cost[order[k]] <= budget then s + {order[k]} else s;
      AdmitAdds(cost, budget, order, k + 1, s');
      assert order[k..] == [order[k]] + order[k + 1..];
    }
  }

  /** Position `k` of the ranking is kept exactly when it fits beside what is kept before it, and
      what is kept before it are the anchors and the kept messages ranked higher. */
  lemma KeptWhenItFits(cost: seq<nat>, budget: nat, protectLastN: nat, order: seq<nat>, k: nat)
    requires Ranks(order, |cost|, protectLastN) && k < |order|
    ensures var kept := Selection(cost, budget, protectLastN, order);
      var before := Before(cost, budget, order, k, Anchors(|cost|, protectLastN));
      && (order[k] in kept <==> Cost(cost, before) + cost[order[k]] <= budget)
      && before <= kept && order[k] !in before
      && (forall i | i in before :: Anchor(|cost|, protectLastN, i) || i in order[..k])
  {
    var anchors := Anchors(|cost|, protectLastN);
    AdmitContinues(cost, budget, order, k, anchors);
    AdmitContinues(cost, budget, order, k + 1, anchors);
    AdmitAdds(cost, budget, order, k, Before(cost, budget, order, k, anchors));
    AdmitAdds(cost, budget, order, k + 1, Before(cost, budget, order, k + 1, anchors));
    BeforeComesFirst(cost, budget, order, k, anchors);
    assert order[k] in order;
    assert order[k] !in order[..k] && order[k] !in order[k + 1..];
  }

  lemma {:induction false} BeforeComesFirst(
    cost: seq<nat>, budget: nat, order: seq<nat>, k: nat, s: set<nat>)
    requires k <= |order| && forall j | 0 <= j < |order| :: order[j] < |cost|
    ensures s <= Before(cost, budget, order, k, s)
    ensures forall i | i in Before(cost, budget, order, k, s) :: i in s || i in order[..k]
  {
    if k > 0 {
      BeforeComesFirst(cost, budget, order, k - 1, s);
      assert order[..k] == order[..k - 1] + [order[k - 1]];
    }
  }

  /** Main: no set that contains the anchors and stays within the budget beats the selection. At
      the first rank where the two differ, the selection has the message and the other does not. */
  lemma SelectionIsLexicographicallyBest(
    cost: seq<nat>, budget: nat, protectLastN: nat, order: seq<nat>, other: set<nat>, k: nat)
    requires Ranks(order, |cost|, protectLastN) && k < |order|
    requires Anchors(|cost|, protectLastN) <= other && Cost(cost, other) <= budget
    requires var kept := Selection(cost, budget, protectLastN, order);
      (forall j | 0 <= j < k :: order[j] in other <==> order[j] in kept)
      && (order[k] in other <==> order[k] !in kept)
    ensures order[k] in Selection(cost, budget, protectLastN, order) && order[k] !in other
  {
    if order[k] in other {
      KeptWhenItFits(cost, budget, protectLastN, order, k);
      var before := Before(cost, budget, order, k, Anchors(|cost|, protectLastN));
      assert order[k] in order;
      forall i | i in before ensures i in other {
        if i in order[..k] {
          var j :| 0 <= j < k && order[j] == i;
        } else {
          assert i in Anchors(|cost|, protectLastN);
        }
      }
      TotalOfAddition(cost, before, order[k], |cost|);
      TotalIsMonotone(cost, before + {order[k]}, other, |cost|);
    }
  }

  lemma {:induction false} AdmitStaysWithin(cost: seq<nat>, budget: nat, order: seq<nat>, k: nat, s: set<nat>)
    requires k <= |order| && forall j | 0 <= j < |order| :: order[j] < |cost|
    requires forall j | k <= j < |order| :: order[j] !in s
    requires forall a, b | 0 <= a < b < |order| :: order[a] != order[b]
    ensures var kept := Admit(cost, budget, order, k, s);
      if Cost(cost, s) <= budget then Cost(cost, kept) <= budget else kept == s
    decreases |order| - k
  {
    if k < |order| {
      assert order[k] in order;
      TotalOfAddition(cost, s, order[k], |cost|);
      var s' := if Cost(cost, s) + cost[order[k]] <= budget then s + {order[k]} else s;
      AdmitStaysWithin(cost, budget, order, k + 1, s');
    }
  }

  /** Main: the anchors are kept, the budget holds exactly when the anchors alone keep it, nothing
      is added when they do not, and nothing that was dropped would still fit. */
  lemma SelectionIsFeasibleAndMaximal(cost: seq<nat>, budget: nat, protectLastN: nat, order: seq<nat>)
    requires Ranks(order, |cost|, protectLastN)
    ensures var kept, anchors :=
        Selection(cost, budget, protectLastN, order), Anchors(|cost|, protectLastN);
      && anchors <= kept && (forall i | i in kept :: i < |cost|)
      && (Cost(cost, kept) <= budget <==> Cost(cost, anchors) <= budget)
      && (Cost(cost, anchors) > budget ==> kept == anchors)
      && (forall i: nat | i < |cost| && i !in kept :: Cost(cost, kept) + cost[i] > budget)
  {
    var kept, anchors := Selection(cost, budget, protectLastN, order), Anchors(|cost|, protectLastN);
    AdmitAdds(cost, budget, order, 0, anchors);
    assert order[0..] == order;
    forall j | 0 <= j < |order| ensures order[j] !in anchors { assert order[j] in order; }
    AdmitStaysWithin(cost, budget, order, 0, anchors);
    forall i: nat | i < |cost| && i !in kept ensures Cost(cost, kept) + cost[i] > budget {
      assert i in order by { assert i !in anchors; }
      var k :| 0 <= k < |order| && order[k] == i;
      KeptWhenItFits(cost, budget, protectLastN, order, k);
      TotalIsMonotone(cost, Before(cost, budget, order, k, anchors), kept, |cost|);
    }
  }

  /** The result lists the selection in the order of the conversation, with the first message and
      the protected tail among it. */
  lemma ResultKeepsTheConversationOrder(cost: seq<nat>, budget: nat, protectLastN: nat, order: seq<nat>)
    requires Ranks(order, |cost|, protectLastN)
    ensures var kept := Selection(cost, budget, protectLastN, order); var r := Ascending(kept, |cost|);
      && (forall i: nat :: i in r <==> i in kept)
      && (forall a, b | 0 <= a < b < |r| :: r[a] < r[b])
      && (forall i: nat | i < |cost| && (i == 0 || i == |cost| - 1 || |cost| - i <= protectLastN) :: i in r)
  {
    SelectionIsFeasibleAndMaximal(cost, budget, protectLastN, order);
    AscendingLists(Selection(cost, budget, protectLastN, order), |cost|);
    assert forall i: nat | Anchor(|cost|, protectLastN, i) :: i in Anchors(|cost|, protectLastN);
  }

  // ---------------------------------------------------------------------------
  // Messages that belong together
  // ---------------------------------------------------------------------------

  /** Messages besides the anchors, `p` and `q`. */
  predicate IsBeside(s: set<nat>, n: nat, protectLastN: nat, p: nat, q: nat) {
    forall i | i in s :: i < n && !Anchor(n, protectLastN, i) && i != p && i != q
  }

  /** The anchors, `p` and such messages. */
  function Beside(s: set<nat>, n: nat, protectLastN: nat, p: nat): set<nat> {
    Anchors(n, protectLastN) + s + {p}
  }

  /** Together with some other messages `p` keeps the budget (or is an anchor alone with the
      anchors), and `q` on top of them breaks it. A matter of costs and budget alone. */
  ghost predicate Splits(cost: seq<nat>, budget: nat, protectLastN: nat, p: nat, q: nat) {
    && !Anchor(|cost|, protectLastN, q)
    && exists s: set<nat> :: IsBeside(s, |cost|, protectLastN, p, q) && SplitBy(cost, budget, protectLastN, p, q, s)
  }

  /** They leave room for `p` but not for `q`. */
  predicate SplitBy(cost: seq<nat>, budget: nat, protectLastN: nat, p: nat, q: nat, s: set<nat>) {
    var kept := Beside(s, |cost|, protectLastN, p);
    && (kept == Anchors(|cost|, protectLastN) || Cost(cost, kept) <= budget)
    && Cost(cost, kept + {q}) > budget
  }

  lemma SplitSelectionGivesASplit(
    cost: seq<nat>, budget: nat, protectLastN: nat, order: seq<nat>, p: nat, q: nat)
    requires Ranks(order, |cost|, protectLastN) && p < |cost| && q < |cost|
    requires var kept := Selection(cost, budget, protectLastN, order); p in kept && q !in kept
    ensures Splits(cost, budget, protectLastN, p, q)
  {
    var kept, anchors := Selection(cost, budget, protectLastN, order), Anchors(|cost|, protectLastN);
    SelectionIsFeasibleAndMaximal(cost, budget, protectLastN, order);
    var s := kept - anchors - {p};
    assert Beside(s, |cost|, protectLastN, p) == kept;
    TotalOfAddition(cost, kept, q, |cost|);
    assert IsBeside(s, |cost|, protectLastN, p, q) && SplitBy(cost, budget, protectLastN, p, q, s);
    assert q !in anchors;
  }

  /** A ranking that puts the messages of `first` first. */
  function Preferring(first: set<nat>, n: nat, protectLastN: nat): seq<nat> {
    Ascending(first, n) + Ascending(NotAnchors(n, protectLastN) - first, n)
  }

  function NotAnchors(n: nat, protectLastN: nat): set<nat> {
    set i: nat | i < n && !Anchor(n, protectLastN, i)
  }

  lemma Enumerates(s: set<nat>, n: nat)
    requires forall i | i in s :: i < n
    ensures var r := Ascending(s, n);
      (forall i: nat :: i in r <==> i in s) && (forall j, k | 0 <= j < k < |r| :: r[j] != r[k])
  {
    AscendingLists(s, n);
  }

  lemma PreferringRanks(first: set<nat>, n: nat, protectLastN: nat)
    requires first <= NotAnchors(n, protectLastN)
    ensures Ranks(Preferring(first, n, protectLastN), n, protectLastN)
    ensures forall i: nat :: i in Preferring(first, n, protectLastN)[..|Ascending(first, n)|] <==> i in first
  {
    var rest := NotAnchors(n, protectLastN) - first;
    var a, b := Ascending(first, n), Ascending(rest, n);
    var order := Preferring(first, n, protectLastN);
    Enumerates(first, n);
    Enumerates(rest, n);
    assert order[..|a|] == a;
    forall j | 0 <= j < |order|
      ensures order[j] in NotAnchors(n, protectLastN) && order[j] in (if j < |a| then first else rest)
    {
      assert order[j] == if j < |a| then a[j] else b[j - |a|];
      if j < |a| { assert a[j] in a; } else { assert b[j - |a|] in b; }
    }
    forall i: nat | i < n && !Anchor(n, protectLastN, i) ensures i in order {
      if i in first { assert i in a; } else { assert i in rest && i in b; }
    }
    forall j, k | 0 <= j < k < |order| ensures order[j] != order[k] {
      if k < |a| || j >= |a| { Distinct(a, b, j, k); }
    }
  }

  lemma Distinct(a: seq<nat>, b: seq<nat>, j: nat, k: nat)
    requires forall x, y | 0 <= x < y < |a| :: a[x] != a[y]
    requires forall x, y | 0 <= x < y < |b| :: b[x] != b[y]
    requires j < k < |a + b| && (k < |a| || j >= |a|)
    ensures (a + b)[j] != (a + b)[k]
  {
    if j >= |a| { assert b[j - |a|] != b[k - |a|]; }
  }

  /** What comes first and keeps the budget together is kept. */
  lemma {:induction false} FirstAreKept(
    cost: seq<nat>, budget: nat, order: seq<nat>, k: nat, anchors: set<nat>, kept: set<nat>)
    requires k <= |order| && forall j | 0 <= j < |order| :: order[j] < |cost| && order[j] !in anchors
    requires forall j, l | 0 <= j < l < |order| :: order[j] != order[l]
    requires anchors <= kept && (forall i | i in order[..k] :: i in kept) && (k > 0 ==> Cost(cost, kept) <= budget)
    ensures forall i :: i in Before(cost, budget, order, k, anchors) <==> i in anchors || i in order[..k]
  {
    if k > 0 {
      var i := order[k - 1];
      assert order[..k] == order[..k - 1] + [i];
      FirstAreKept(cost, budget, order, k - 1, anchors, kept);
      var b := Before(cost, budget, order, k - 1, anchors);
      assert i !in b;
      TotalOfAddition(cost, b, i, |cost|);
      TotalIsMonotone(cost, b + {i}, kept, |cost|);
    }
  }

  lemma FirstAreSelected(
    cost: seq<nat>, budget: nat, protectLastN: nat, order: seq<nat>, k: nat, kept: set<nat>)
    requires Ranks(order, |cost|, protectLastN) && k <= |order|
    requires var anchors := Anchors(|cost|, protectLastN);
      && (forall i :: i in kept <==> i in anchors || i in order[..k])
      && (kept == anchors || Cost(cost, kept) <= budget)
    ensures kept <= Selection(cost, budget, protectLastN, order)
  {
    var anchors := Anchors(|cost|, protectLastN);
    forall j | 0 <= j < |order| ensures order[j] !in anchors { assert !Anchor(|cost|, protectLastN, order[j]); }
    if k > 0 { assert order[0] in order[..k]; }
    assert Before(cost, budget, order, k, anchors) == kept by {
      FirstAreKept(cost, budget, order, k, anchors, kept);
    }
    AdmitContinues(cost, budget, order, k, anchors);
    AdmitAdds(cost, budget, order, k, kept);
  }

  /** Some ranking keeps all of `kept`. */
  lemma RankedFirstAreKept(cost: seq<nat>, budget: nat, protectLastN: nat, kept: set<nat>) returns (order: seq<nat>)
    requires Anchors(|cost|, protectLastN) <= kept && forall i | i in kept :: i < |cost|
    requires kept == Anchors(|cost|, protectLastN) || Cost(cost, kept) <= budget
    ensures Ranks(order, |cost|, protectLastN) && kept <= Selection(cost, budget, protectLastN, order)
  {
    var first := kept - Anchors(|cost|, protectLastN);
    order := Preferring(first, |cost|, protectLastN);
    PreferringRanks(first, |cost|, protectLastN);
    FirstAreSelected(cost, budget, protectLastN, order, |Ascending(first, |cost|)|, kept);
  }

  lemma SplittingPairsCanBeSplit(cost: seq<nat>, budget: nat, protectLastN: nat, p: nat, q: nat)
    returns (order: seq<nat>)
    requires p < |cost| && q < |cost| && Splits(cost, budget, protectLastN, p, q)
    ensures Ranks(order, |cost|, protectLastN)
    ensures var kept := Selection(cost, budget, protectLastN, order); p in kept && q !in kept
  {
    var s: set<nat> :|
      IsBeside(s, |cost|, protectLastN, p, q) && SplitBy(cost, budget, protectLastN, p, q, s);
    var beside := Beside(s, |cost|, protectLastN, p);
    order := RankedFirstAreKept(cost, budget, protectLastN, beside);
    var kept := Selection(cost, budget, protectLastN, order);
    SelectionIsFeasibleAndMaximal(cost, budget, protectLastN, order);
    if q in kept { TotalIsMonotone(cost, beside + {q}, kept, |cost|); }
  }

  /** Main: two messages, such as a tool request and its response, are kept or dropped together
      whatever their scores, exactly when neither can be kept without room for the other. */
  lemma PairsStayTogetherExactlyWhen(cost: seq<nat>, budget: nat, protectLastN: nat, p: nat, q: nat)
    requires p < |cost| && q < |cost|
    ensures
      (forall order | Ranks(order, |cost|, protectLastN) ::
         p in Selection(cost, budget, protectLastN, order) <==> q in Selection(cost, budget, protectLastN, order))
      <==> !Splits(cost, budget, protectLastN, p, q) && !Splits(cost, budget, protectLastN, q, p)
  {
    forall order | Ranks(order, |cost|, protectLastN)
      ensures var kept := Selection(cost, budget, protectLastN, order);
        && (p in kept && q !in kept ==> Splits(cost, budget, protectLastN, p, q))
        && (q in kept && p !in kept ==> Splits(cost, budget, protectLastN, q, p))
    {
      var kept := Selection(cost, budget, protectLastN, order);
      if p in kept && q !in kept { SplitSelectionGivesASplit(cost, budget, protectLastN, order, p, q); }
      if q in kept && p !in kept { SplitSelectionGivesASplit(cost, budget, protectLastN, order, q, p); }
    }
    if Splits(cost, budget, protectLastN, p, q) {
      var order := SplittingPairsCanBeSplit(cost, budget, protectLastN, p, q);
    }
    if Splits(cost, budget, protectLastN, q, p) {
      var order := SplittingPairsCanBeSplit(cost, budget, protectLastN, q, p);
    }
  }

  /** A cheap request is kept and its expensive response, ranked above it, is dropped. */
  lemma PairsMayBeSplit()
    ensures var kept := Selection([1, 1, 10, 1], 5, 1, [2, 1]);
      Ranks([2, 1], 4, 1) && 1 in kept && 2 !in kept
  {
    var cost: seq<nat>, order: seq<nat> := [1, 1, 10, 1], [2, 1];
    var anchors := Anchors(4, 1);
    assert forall i: nat :: i in anchors <==> i == 0 || i == 3;
    assert Ranks(order, 4, 1) by {
      assert order[0] == 2 && order[1] == 1;
      assert forall i: nat | i < 4 && !Anchor(4, 1, i) :: i == 1 || i == 2;
    }
    assert Total(cost, anchors, 1) == 1 && Total(cost, anchors, 2) == 1;
    assert Total(cost, anchors, 3) == 1 && Total(cost, anchors, 4) == 2;
    KeptWhenItFits(cost, 5, 1, order, 0);
    KeptWhenItFits(cost, 5, 1, order, 1);
    assert Before(cost, 5, order, 0, anchors) == anchors && Before(cost, 5, order, 1, anchors) == anchors;
  }
}
