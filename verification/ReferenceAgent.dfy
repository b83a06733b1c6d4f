/**
  The decide phase of agents/reference/agent.ts: which actions to plan within the day's budget.
 */
module ReferenceAgent {
  import opened Reals

  datatype Direction = Bullish | Bearish | Mixed | Neutral

  datatype Signal = Signal(confidence: real, assets: seq<string>, direction: Direction)

  datatype Post = Post(txHash: string, hasAttestation: bool)

  datatype FeedEntry = FeedEntry(txHash: string, author: string)

  datatype Observation = Observation(signals: seq<Signal>, topPosts: seq<Post>, feed: seq<FeedEntry>, balance: real)

  datatype Strategy = Strategy(
    publishConfidence: real, reactionsPerCycle: int, tipOnlyAttested: bool, maxTipPerPost: real, attestAgreeBias: bool,
    dailyCap: real, perPublish: real, perTip: real, perBet: real, betsPerCycle: int)

  datatype Action =
    | Publish(signal: Signal)
    | React(txHash: string, agree: bool)
    | Tip(txHash: string, amount: real)
    | Bet(asset: string, higher: bool)

  predicate Publishable(s: Signal, strategy: Strategy) {
    s.confidence >= strategy.publishConfidence && |s.assets| > 0
  }

  function Eligible(signals: seq<Signal>, strategy: Strategy): seq<Signal> {
    if signals == [] then []
    else (if Publishable(signals[0], strategy) then [signals[0]] else []) + Eligible(signals[1..], strategy)
  }

  predicate IsOurs(p: Post, obs: Observation, address: string) {
    exists i :: 0 <= i < |obs.feed| && obs.feed[i].txHash == p.txHash && obs.feed[i].author == address
  }

  function OtherPosts(posts: seq<Post>, obs: Observation, address: string): seq<Post> {
    if posts == [] then []
    else (if IsOurs(posts[0], obs, address) then [] else [posts[0]]) + OtherPosts(posts[1..], obs, address)
  }

  function StartBudget(obs: Observation, strategy: Strategy): real {
    Min(strategy.dailyCap, obs.balance)
  }

  /** Whose turn it is in a cycle, among n signals. */
  function Turn(cycle: int, n: nat): int
    requires n > 0
  {
    (cycle - 1) % n
  }

  /** The signal cycle `cycle` offers for publishing. */
  function Offered(eligible: seq<Signal>, cycle: int): Signal
    requires eligible != [] && cycle >= 1
  {
    eligible[Turn(cycle, |eligible|)]
  }

  function Publishes(eligible: seq<Signal>, cycle: int, budget: real, strategy: Strategy): seq<Action>
    requires cycle >= 1
  {
    if eligible == [] || budget < strategy.perPublish then [] else [Publish(Offered(eligible, cycle))]
  }

  function Reacts(posts: seq<Post>, strategy: Strategy): seq<Action> {
    var n := if strategy.reactionsPerCycle < 0 then 0 else if strategy.reactionsPerCycle < |posts| then strategy.reactionsPerCycle else |posts|;
    seq(n, i requires 0 <= i < n => React(posts[i].txHash, strategy.attestAgreeBias ==> posts[i].hasAttestation))
  }

  function Tips(posts: seq<Post>, budget: real, strategy: Strategy): seq<Action> {
    if posts == [] || budget < strategy.perTip then []
    else if strategy.tipOnlyAttested && !posts[0].hasAttestation then Tips(posts[1..], budget, strategy)
    else [Tip(posts[0].txHash, Min(strategy.maxTipPerPost, budget.Floor as real))]
  }

  predicate Bettable(s: Signal, strategy: Strategy) {
    !s.direction.Mixed? && !s.direction.Neutral? && Publishable(s, strategy)
  }

  function Bets(signals: seq<Signal>, budget: real, count: int, strategy: Strategy): seq<Action> {
    if signals == [] || count >= strategy.betsPerCycle || budget < strategy.perBet then []
    else if !Bettable(signals[0], strategy) then Bets(signals[1..], budget, count, strategy)
    else [Bet(signals[0].assets[0], signals[0].direction.Bullish?)] + Bets(signals[1..], budget - strategy.perBet, count + 1, strategy)
  }

  function AfterPublish(obs: Observation, strategy: Strategy, cycle: int): real
    requires cycle >= 1
  {
    StartBudget(obs, strategy)
      - if Publishes(Eligible(obs.signals, strategy), cycle, StartBudget(obs, strategy), strategy) == [] then 0.0 else strategy.perPublish
  }

  function Planned(obs: Observation, strategy: Strategy, address: string, cycle: int): seq<Action>
    requires cycle >= 1
  {
    var others := OtherPosts(obs.topPosts, obs, address);
    var b := AfterPublish(obs, strategy, cycle);
    var tips := Tips(others, b, strategy);
    Publishes(Eligible(obs.signals, strategy), cycle, StartBudget(obs, strategy), strategy)
      + Reacts(others, strategy) + tips
      + Bets(obs.signals, if tips == [] then b else b - strategy.perTip, 0, strategy)
  }

  /** decide. Cycles count from 1. */
  method Decide(obs: Observation, strategy: Strategy, address: string, cycle: int) returns (actions: seq<Action>)
    requires cycle >= 1
    ensures actions == Planned(obs, strategy, address, cycle)
  {
    hide IsOurs, Eligible, OtherPosts, Reacts, Tips, Bets;
    actions := [];
    var budgetRemaining := Min(strategy.dailyCap, obs.balance);
    var eligible := Eligible(obs.signals, strategy);
    if |eligible| > 0 {
      var sig := eligible[(cycle - 1) % |eligible|];
      if budgetRemaining >= strategy.perPublish {
        actions := actions + [Publish(sig)];
        budgetRemaining := budgetRemaining - strategy.perPublish;
      }
    }
    ghost var published := actions;
    var otherPosts := OtherPosts(obs.topPosts, obs, address);
    var reactions := ReactLoop(otherPosts, strategy);
    var tips: seq<Action>;
    tips, budgetRemaining := TipLoop(otherPosts, budgetRemaining, strategy);
    var bets := BetLoop(obs.signals, budgetRemaining, strategy);
    actions := actions + reactions + tips + bets;
  }

  method ReactLoop(otherPosts: seq<Post>, strategy: Strategy) returns (actions: seq<Action>)
    ensures actions == Reacts(otherPosts, strategy)
  {
    actions := [];
    var reactCount := 0;
    while reactCount < |otherPosts| && reactCount < strategy.reactionsPerCycle
      invariant 0 <= reactCount == |actions| <= |Reacts(otherPosts, strategy)|
      invariant forall i :: 0 <= i < reactCount ==> actions[i] == Reacts(otherPosts, strategy)[i]
    {
      var post := otherPosts[reactCount];
      actions := actions + [React(post.txHash, if strategy.attestAgreeBias then post.hasAttestation else true)];
      reactCount := reactCount + 1;
    }
  }

  method TipLoop(otherPosts: seq<Post>, budget: real, strategy: Strategy) returns (actions: seq<Action>, budgetRemaining: real)
    ensures actions == Tips(otherPosts, budget, strategy)
    ensures budgetRemaining == if actions == [] then budget else budget - strategy.perTip
  {
    actions, budgetRemaining := [], budget;
    for i := 0 to |otherPosts|
      invariant Tips(otherPosts, budget, strategy) == Tips(otherPosts[i..], budget, strategy)
      invariant actions == [] && budgetRemaining == budget
    {
      assert otherPosts[i..][1..] == otherPosts[i + 1..];
      if budgetRemaining < strategy.perTip {
        return;
      }
      if strategy.tipOnlyAttested && !otherPosts[i].hasAttestation {
        continue;
      }
      actions := [Tip(otherPosts[i].txHash, Min(strategy.maxTipPerPost, budgetRemaining.Floor as real))];
      budgetRemaining := budgetRemaining - strategy.perTip;
      return;
    }
  }

  method BetLoop(signals: seq<Signal>, budget: real, strategy: Strategy) returns (actions: seq<Action>)
    ensures actions == Bets(signals, budget, 0, strategy)
  {
    actions := [];
    var budgetRemaining, betCount := budget, 0;
    ghost var all := Bets(signals, budget, 0, strategy);
    for i := 0 to |signals|
      invariant all == actions + Bets(signals[i..], budgetRemaining, betCount, strategy)
    {
      ghost var rest := signals[i + 1..];
      assert signals[i..][1..] == rest;
      var sig := signals[i];
      if betCount >= strategy.betsPerCycle || budgetRemaining < strategy.perBet {
        return;
      }
      if sig.direction.Mixed? || sig.direction.Neutral? {
        continue;
      }
      if sig.confidence < strategy.publishConfidence || |sig.assets| == 0 {
        continue;
      }
      var bet := Bet(sig.assets[0], sig.direction.Bullish?);
      assert actions + ([bet] + Bets(rest, budgetRemaining - strategy.perBet, betCount + 1, strategy))
          == actions + [bet] + Bets(rest, budgetRemaining - strategy.perBet, betCount + 1, strategy);
      actions := actions + [bet];
      budgetRemaining := budgetRemaining - strategy.perBet;
      betCount := betCount + 1;
    }
  }

  // ---------------------------------------------------------------- what a plan costs

  function Cost(a: Action, strategy: Strategy): real {
    match a
    case Publish(_) => strategy.perPublish
    case React(_, _) => 0.0
    case Tip(_, amount) => amount
    case Bet(_, _) => strategy.perBet
  }

  function PlannedDem(actions: seq<Action>, strategy: Strategy): real {
    if actions == [] then 0.0 else Cost(actions[0], strategy) + PlannedDem(actions[1..], strategy)
  }

  lemma {:induction false} CostAdds(a: seq<Action>, b: seq<Action>, strategy: Strategy)
    ensures PlannedDem(a + b, strategy) == PlannedDem(a, strategy) + PlannedDem(b, strategy)
  {
    if a == [] {
      assert a + b == b;
    } else {
      assert (a + b)[1..] == a[1..] + b;
      CostAdds(a[1..], b, strategy);
    }
  }

  lemma {:induction false} ReactsAreFree(actions: seq<Action>, strategy: Strategy)
    requires forall i :: 0 <= i < |actions| ==> actions[i].React?
    ensures PlannedDem(actions, strategy) == 0.0
  {
    if actions != [] { ReactsAreFree(actions[1..], strategy); }
  }

  lemma {:induction false} BetsFitTheBudget(signals: seq<Signal>, budget: real, count: int, strategy: Strategy)
    requires strategy.perBet >= 0.0
    ensures 0.0 <= PlannedDem(Bets(signals, budget, count, strategy), strategy) <= Max(0.0, budget)
  {
    if signals != [] && count < strategy.betsPerCycle && budget >= strategy.perBet {
      if Bettable(signals[0], strategy) {
        var rest := Bets(signals[1..], budget - strategy.perBet, count + 1, strategy);
        BetsFitTheBudget(signals[1..], budget - strategy.perBet, count + 1, strategy);
        assert ([Bet(signals[0].assets[0], signals[0].direction.Bullish?)] + rest)[1..] == rest;
      } else {
        BetsFitTheBudget(signals[1..], budget, count, strategy);
      }
    }
  }

  lemma {:induction false} TipIsOne(posts: seq<Post>, budget: real, strategy: Strategy)
    ensures var tips := Tips(posts, budget, strategy);
      && |tips| <= 1
      && (tips != [] ==> budget >= strategy.perTip && tips[0].Tip? && tips[0].amount <= Min(strategy.maxTipPerPost, budget)
                         && PlannedDem(tips, strategy) == tips[0].amount)
  {
    if posts != [] { TipIsOne(posts[1..], budget, strategy); }
  }

  function CountOf(actions: seq<Action>, kind: Action -> bool): nat {
    if actions == [] then 0 else (if kind(actions[0]) then 1 else 0) + CountOf(actions[1..], kind)
  }

  /** A plan spends at most the day's budget, and overdraws it by no more than what one tip may
      exceed its budgeted cost. */
  lemma PlanStaysWithinBudget(obs: Observation, strategy: Strategy, address: string, cycle: int)
    requires cycle >= 1 && strategy.perPublish >= 0.0 && strategy.perTip >= 0.0 && strategy.perBet >= 0.0
    ensures PlannedDem(Planned(obs, strategy, address, cycle), strategy)
      <= Max(0.0, Min(strategy.dailyCap, obs.balance)) + Max(0.0, strategy.maxTipPerPost - strategy.perTip)
  {
    hide Bets, Tips, Reacts, Eligible, OtherPosts, PlannedDem;
    var others, b := OtherPosts(obs.topPosts, obs, address), AfterPublish(obs, strategy, cycle);
    var publishes := Publishes(Eligible(obs.signals, strategy), cycle, StartBudget(obs, strategy), strategy);
    var reacts, tips := Reacts(others, strategy), Tips(others, b, strategy);
    var left := if tips == [] then b else b - strategy.perTip;
    var bets := Bets(obs.signals, left, 0, strategy);
    CostAdds(publishes + reacts + tips, bets, strategy);
    CostAdds(publishes + reacts, tips, strategy);
    CostAdds(publishes, reacts, strategy);
    ReactsOnly(others, strategy);
    ReactsAreFree(reacts, strategy);
    TipIsOne(others, b, strategy);
    BetsFitTheBudget(obs.signals, left, 0, strategy);
    CostOfFew(strategy);
    if publishes != [] { CostOfOne(publishes[0], strategy); }
  }

  /** And it does not overdraw it at all when a tip costs no more than budgeted, or nothing that costs
      anything is planned after it. */
  lemma PlanKeepsTheBudget(obs: Observation, strategy: Strategy, address: string, cycle: int)
    requires cycle >= 1 && strategy.perPublish >= 0.0 && strategy.perTip >= 0.0 && strategy.perBet >= 0.0
    requires strategy.maxTipPerPost <= strategy.perTip || strategy.betsPerCycle <= 0 || strategy.perBet == 0.0
    ensures PlannedDem(Planned(obs, strategy, address, cycle), strategy) <= Max(0.0, Min(strategy.dailyCap, obs.balance))
  {
    hide Bets, Tips, Reacts, Eligible, OtherPosts, PlannedDem;
    var others, b := OtherPosts(obs.topPosts, obs, address), AfterPublish(obs, strategy, cycle);
    var publishes := Publishes(Eligible(obs.signals, strategy), cycle, StartBudget(obs, strategy), strategy);
    var reacts, tips := Reacts(others, strategy), Tips(others, b, strategy);
    var left := if tips == [] then b else b - strategy.perTip;
    var bets := Bets(obs.signals, left, 0, strategy);
    CostAdds(publishes + reacts + tips, bets, strategy);
    CostAdds(publishes + reacts, tips, strategy);
    CostAdds(publishes, reacts, strategy);
    ReactsOnly(others, strategy);
    ReactsAreFree(reacts, strategy);
    TipIsOne(others, b, strategy);
    BetsFitTheBudget(obs.signals, left, 0, strategy);
    BetsAreFree(obs.signals, left, strategy);
    CostOfFew(strategy);
    if publishes != [] { CostOfOne(publishes[0], strategy); }
  }

  lemma {:induction false} BetsCostNothing(actions: seq<Action>, strategy: Strategy)
    requires strategy.perBet == 0.0 && forall i :: 0 <= i < |actions| ==> actions[i].Bet?
    ensures PlannedDem(actions, strategy) == 0.0
  {
    if actions != [] { BetsCostNothing(actions[1..], strategy); }
  }

  lemma BetsAreFree(signals: seq<Signal>, budget: real, strategy: Strategy)
    ensures strategy.betsPerCycle <= 0 || strategy.perBet == 0.0 ==> PlannedDem(Bets(signals, budget, 0, strategy), strategy) == 0.0
  {
    hide PlannedDem;
    if strategy.perBet == 0.0 {
      BetsOnly(signals, budget, 0, strategy);
      BetsCostNothing(Bets(signals, budget, 0, strategy), strategy);
    }
    CostOfFew(strategy);
  }

  /** Otherwise it can: a tip takes all of a budget of 10 DEM that three bets then spend 9 of again,
      which is the most the bound allows. */
  lemma OverdrawnPlan() returns (obs: Observation, strategy: Strategy)
    ensures StartBudget(obs, strategy) == 10.0 && strategy.maxTipPerPost - strategy.perTip == 9.0
    ensures PlannedDem(Planned(obs, strategy, "me", 1), strategy) == 19.0
  {
    var signal := Signal(0.9, ["BTC"], Bullish);
    obs := Observation([signal, signal, signal], [Post("p", true)], [], 10.0);
    strategy := Strategy(0.5, 0, true, 10.0, true, 10.0, 20.0, 1.0, 3.0, 3);
    var bet := Bet("BTC", true);
    ThreeBets(signal, strategy, bet);
    assert !IsOurs(obs.topPosts[0], obs, "me");
    assert OtherPosts(obs.topPosts[1..], obs, "me") == [];
    assert OtherPosts(obs.topPosts, obs, "me") == obs.topPosts;
    var tip := Tip("p", 10.0);
    assert (10.0).Floor == 10;
    assert Tips(obs.topPosts, 10.0, strategy) == [tip];
    hide Bets, Tips, OtherPosts, Eligible, PlannedDem;
    assert Planned(obs, strategy, "me", 1) == [tip] + [bet, bet, bet];
    CostAdds([tip], [bet, bet, bet], strategy);
    CostAdds([bet], [bet, bet], strategy);
    CostAdds([bet], [bet], strategy);
    assert [bet] + [bet, bet] == [bet, bet, bet] && [bet] + [bet] == [bet, bet];
    CostOfOne(tip, strategy);
    CostOfOne(bet, strategy);
  }

  lemma ThreeBets(signal: Signal, strategy: Strategy, bet: Action)
    requires Bettable(signal, strategy) && bet == Bet(signal.assets[0], signal.direction.Bullish?)
    requires strategy.perBet == 3.0 && strategy.betsPerCycle == 3
    ensures Bets([signal, signal, signal], 9.0, 0, strategy) == [bet, bet, bet]
  {
    assert [signal, signal, signal][1..] == [signal, signal] && [signal, signal][1..] == [signal] && [signal][1..] == [];
    assert Bets([signal], 3.0, 2, strategy) == [bet];
    assert Bets([signal, signal], 6.0, 1, strategy) == [bet, bet];
  }

  lemma ReactsOnly(posts: seq<Post>, strategy: Strategy)
    ensures forall i :: 0 <= i < |Reacts(posts, strategy)| ==> Reacts(posts, strategy)[i].React?
  {
  }

  lemma CostOfFew(strategy: Strategy)
    ensures PlannedDem([], strategy) == 0.0
  {
  }

  lemma CostOfOne(a: Action, strategy: Strategy)
    ensures PlannedDem([a], strategy) == Cost(a, strategy)
  {
    assert [a][1..] == [];
  }

  lemma {:induction false} CountAdds(a: seq<Action>, b: seq<Action>, kind: Action -> bool)
    ensures CountOf(a + b, kind) == CountOf(a, kind) + CountOf(b, kind)
  {
    if a == [] {
      assert a + b == b;
    } else {
      assert (a + b)[1..] == a[1..] + b;
      CountAdds(a[1..], b, kind);
    }
  }

  lemma {:induction false} CountAllOrNone(actions: seq<Action>, kind: Action -> bool)
    ensures (forall i :: 0 <= i < |actions| ==> kind(actions[i])) ==> CountOf(actions, kind) == |actions|
    ensures (forall i :: 0 <= i < |actions| ==> !kind(actions[i])) ==> CountOf(actions, kind) == 0
  {
    if actions != [] { CountAllOrNone(actions[1..], kind); }
  }

  /** At most one publish and one tip, and reactions and bets within their limits. */
  lemma PlanRespectsLimits(obs: Observation, strategy: Strategy, address: string, cycle: int)
    requires cycle >= 1
    ensures var plan := Planned(obs, strategy, address, cycle);
      && CountOf(plan, (a: Action) => a.Publish?) <= 1
      && CountOf(plan, (a: Action) => a.React?) <= Nat(strategy.reactionsPerCycle)
      && CountOf(plan, (a: Action) => a.Tip?) <= 1
      && CountOf(plan, (a: Action) => a.Bet?) <= Nat(strategy.betsPerCycle)
  {
    PartsCount(obs, strategy, address, cycle, (a: Action) => a.Publish?);
    PartsCount(obs, strategy, address, cycle, (a: Action) => a.React?);
    PartsCount(obs, strategy, address, cycle, (a: Action) => a.Tip?);
    PartsCount(obs, strategy, address, cycle, (a: Action) => a.Bet?);
  }

  function Nat(x: int): nat {
    if x < 0 then 0 else x
  }

  /** A kind that only one of the four parts has is counted by that part's length. */
  lemma PartsCount(obs: Observation, strategy: Strategy, address: string, cycle: int, kind: Action -> bool)
    requires cycle >= 1
    ensures var plan := Planned(obs, strategy, address, cycle);
      CountOf(plan, kind) <=
        (if exists a: Action :: a.Publish? && kind(a) then 1 else 0)
        + (if exists a: Action :: a.React? && kind(a) then Nat(strategy.reactionsPerCycle) else 0)
        + (if exists a: Action :: a.Tip? && kind(a) then 1 else 0)
        + (if exists a: Action :: a.Bet? && kind(a) then Nat(strategy.betsPerCycle) else 0)
  {
    hide Bets, Tips, Reacts, Eligible, OtherPosts, StartBudget, CountOf;
    var others, b := OtherPosts(obs.topPosts, obs, address), AfterPublish(obs, strategy, cycle);
    var publishes := Publishes(Eligible(obs.signals, strategy), cycle, StartBudget(obs, strategy), strategy);
    var reacts, tips := Reacts(others, strategy), Tips(others, b, strategy);
    var left := if tips == [] then b else b - strategy.perTip;
    var bets := Bets(obs.signals, left, 0, strategy);
    CountAdds(publishes + reacts + tips, bets, kind);
    CountAdds(publishes + reacts, tips, kind);
    CountAdds(publishes, reacts, kind);
    ReactsOnly(others, strategy);
    ReactsLength(others, strategy);
    TipIsOne(others, b, strategy);
    BetsOnly(obs.signals, left, 0, strategy);
    CountAllOrNone(publishes, kind);
    CountAllOrNone(reacts, kind);
    CountAllOrNone(tips, kind);
    CountAllOrNone(bets, kind);
    CountIsBounded(publishes, kind);
    CountIsBounded(reacts, kind);
    CountIsBounded(tips, kind);
    CountIsBounded(bets, kind);
  }

  lemma ReactsLength(posts: seq<Post>, strategy: Strategy)
    ensures |Reacts(posts, strategy)| <= Nat(strategy.reactionsPerCycle)
  {
  }

  lemma {:induction false} CountIsBounded(actions: seq<Action>, kind: Action -> bool)
    ensures CountOf(actions, kind) <= |actions|
  {
    if actions != [] { CountIsBounded(actions[1..], kind); }
  }

  // ---------------------------------------------------------------- rotation

  /** With a fixed eligible list, any |eligible| consecutive cycles offer each position exactly once. */
  lemma RotationOffersEachOnce(eligible: seq<Signal>, start: int, k: nat)
    requires start >= 1 && k < |eligible|
    ensures exists c :: IsTurn(eligible, start, c, k) && forall d :: IsTurn(eligible, start, d, k) ==> d == c
  {
    hide Turn;
    var n := |eligible|;
    TurnAfter(start, 0, n);
    var r := Turn(start, n);
    var c := if k >= r then start + (k - r) else start + (k - r) + n;
    TurnAfter(start, c - start, n);
    assert IsTurn(eligible, start, c, k);
    forall d | IsTurn(eligible, start, d, k) ensures d == c {
      TurnAfter(start, d - start, n);
    }
  }

  /** The first cycle offers the first signal, and each the one after its predecessor's. */
  lemma TurnsGoRound(cycle: int, n: nat)
    requires n > 0 && cycle >= 1
    ensures Turn(1, n) == 0
    ensures Turn(cycle + 1, n) == if Turn(cycle, n) + 1 == n then 0 else Turn(cycle, n) + 1
  {
    if n == 1 { ModUnique(cycle, cycle, 0, 1); } else { TurnAfter(cycle, 1, n); }
  }

  lemma TurnAfter(start: int, j: int, n: nat)
    requires start >= 1 && 0 <= j < n
    ensures 0 <= Turn(start, n) < n
    ensures Turn(start + j, n) == if Turn(start, n) + j < n then Turn(start, n) + j else Turn(start, n) + j - n
  {
    ModOfSum(start - 1, j, n);
  }

  /** Cycle c, one of the |eligible| cycles from `start` on, offers the signal at position k. */
  predicate IsTurn(eligible: seq<Signal>, start: int, c: int, k: nat)
    requires eligible != []
  {
    start <= c < start + |eligible| && Turn(c, |eligible|) == k
  }

  /** The plan of such a cycle opens by publishing that signal, exactly when the budget covers it. */
  lemma PlanOpensWithTheTurn(obs: Observation, strategy: Strategy, address: string, start: int, c: int, k: nat)
    requires start >= 1 && Eligible(obs.signals, strategy) != [] && IsTurn(Eligible(obs.signals, strategy), start, c, k)
    ensures var plan := Planned(obs, strategy, address, c);
      (plan != [] && plan[0] == Publish(Eligible(obs.signals, strategy)[k])) <==> StartBudget(obs, strategy) >= strategy.perPublish
  {
    hide Bets, Tips, Reacts, Eligible, OtherPosts, StartBudget;
    var others, b := OtherPosts(obs.topPosts, obs, address), AfterPublish(obs, strategy, c);
    var tips := Tips(others, b, strategy);
    ReactsOnly(others, strategy);
    TipIsOne(others, b, strategy);
    BetsOnly(obs.signals, if tips == [] then b else b - strategy.perTip, 0, strategy);
  }

  lemma {:induction false} BetsOnly(signals: seq<Signal>, budget: real, count: int, strategy: Strategy)
    ensures var bets := Bets(signals, budget, count, strategy);
      && (forall i :: 0 <= i < |bets| ==> bets[i].Bet?)
      && (bets != [] ==> count + |bets| <= strategy.betsPerCycle)
  {
    if signals != [] {
      BetsOnly(signals[1..], budget, count, strategy);
      BetsOnly(signals[1..], budget - strategy.perBet, count + 1, strategy);
    }
  }

  lemma ModOfSum(a: nat, j: int, n: nat)
    requires n > 0 && 0 <= j < n
    ensures (a + j) % n == if a % n + j < n then a % n + j else a % n + j - n
  {
    var q := a / n;
    assert a == q * n + a % n;
    var r := if a % n + j < n then a % n + j else a % n + j - n;
    var q' := if a % n + j < n then q else q + 1;
    assert a + j == q' * n + r by { assert (q + 1) * n == q * n + n; }
    ModUnique(a + j, q', r, n);
  }

  lemma ModUnique(a: nat, q: nat, r: int, n: nat)
    requires n > 0 && 0 <= r < n && a == q * n + r
    ensures a % n == r
  {
    var p := a / n;
    assert a == p * n + a % n;
    Multiples(p, q, n);
    Multiples(q, p, n);
  }

  lemma Multiples(p: int, q: int, n: nat)
    ensures p > q ==> p * n >= q * n + n
  {
    if p > q {
      var d := p - q;
      Distributes(q, d, n);
      assert d * n >= n by { Distributes(1, d - 1, n); }
    }
  }

  lemma Distributes(x: int, y: int, n: nat)
    ensures (x + y) * n == x * n + y * n
    ensures y >= 0 ==> y * n >= 0
  {
  }
}
