/**
  What a plan of the reference agent consists of (agents/reference/agent.ts): every action is for a
  signal or post that qualifies, and nothing that qualifies is passed over while limits and budget last.
 */
module PlanContents {
  import opened Reals
  import opened ReferenceAgent

  /** A top post that is not one of our own in the feed. */
  predicate NotOurs(p: Post, obs: Observation, address: string) {
    p in obs.topPosts && forall i :: 0 <= i < |obs.feed| && obs.feed[i].txHash == p.txHash ==> obs.feed[i].author != address
  }

  predicate Confident(s: Signal, obs: Observation, strategy: Strategy) {
    s in obs.signals && s.confidence >= strategy.publishConfidence && s.assets != []
  }

  /** A post that a tip may go to. */
  predicate Tippable(p: Post, obs: Observation, strategy: Strategy, address: string) {
    NotOurs(p, obs, address) && (p.hasAttestation || !strategy.tipOnlyAttested)
  }

  /** A signal worth betting on goes up or down. */
  predicate Directed(s: Signal, obs: Observation, strategy: Strategy) {
    Confident(s, obs, strategy) && (s.direction == Bullish || s.direction == Bearish)
  }

  ghost predicate Justified(a: Action, obs: Observation, strategy: Strategy, address: string, budget: real) {
    match a
    case Publish(s) => Confident(s, obs, strategy)
    case React(hash, agree) =>
      exists p :: NotOurs(p, obs, address) && p.txHash == hash && (agree <==> (strategy.attestAgreeBias ==> p.hasAttestation))
    case Tip(hash, amount) =>
      (exists p :: Tippable(p, obs, strategy, address) && p.txHash == hash)
      && (amount == strategy.maxTipPerPost || amount == budget.Floor as real)
      && amount <= strategy.maxTipPerPost && amount <= budget.Floor as real
    case Bet(_, _) => IsDirectedBet(a, obs, strategy)
  }

  lemma {:induction false} OtherPostsAre(posts: seq<Post>, obs: Observation, address: string, p: Post)
    requires forall i :: 0 <= i < |posts| ==> posts[i] in obs.topPosts
    ensures p in OtherPosts(posts, obs, address) <==> p in posts && NotOurs(p, obs, address)
  {
    if posts != [] { OtherPostsAre(posts[1..], obs, address, p); }
  }

  lemma {:induction false} EligibleAre(signals: seq<Signal>, strategy: Strategy, s: Signal)
    ensures s in Eligible(signals, strategy) <==> s in signals && s.confidence >= strategy.publishConfidence && s.assets != []
  {
    if signals != [] { EligibleAre(signals[1..], strategy, s); }
  }

  lemma {:induction false} TipIsForTheFirst(posts: seq<Post>, budget: real, strategy: Strategy)
    ensures var tips := Tips(posts, budget, strategy);
      && |tips| <= 1
      && (tips != [] <==> budget >= strategy.perTip && exists p :: p in posts && (p.hasAttestation || !strategy.tipOnlyAttested))
    ensures var tips := Tips(posts, budget, strategy);
      tips != [] ==> exists p :: p in posts && (p.hasAttestation || !strategy.tipOnlyAttested)
                       && tips == [Tip(p.txHash, Min(strategy.maxTipPerPost, budget.Floor as real))]
  {
    if posts != [] {
      TipIsForTheFirst(posts[1..], budget, strategy);
      assert posts[0] in posts;
      assert forall p :: p in posts <==> p == posts[0] || p in posts[1..];
    }
  }

  /** How many of the signals go up or down, with confidence. */
  function Directions(signals: seq<Signal>, strategy: Strategy): nat {
    if signals == [] then 0
    else
      (if signals[0].confidence >= strategy.publishConfidence && signals[0].assets != []
          && (signals[0].direction == Bullish || signals[0].direction == Bearish) then 1 else 0)
      + Directions(signals[1..], strategy)
  }

  ghost predicate IsDirectedBet(a: Action, obs: Observation, strategy: Strategy) {
    a.Bet? && exists s :: Directed(s, obs, strategy) && s.assets[0] == a.asset && (a.higher <==> s.direction == Bullish)
  }

  /** Bets are placed on directed signals, on every one of them until the limit or the budget is used up. */
  lemma {:induction false} BetsAreAllThereIs(signals: seq<Signal>, budget: real, count: int, obs: Observation, strategy: Strategy)
    requires forall i :: 0 <= i < |signals| ==> signals[i] in obs.signals
    ensures var bets := Bets(signals, budget, count, strategy);
      forall i :: 0 <= i < |bets| ==> IsDirectedBet(bets[i], obs, strategy)
    ensures var bets := Bets(signals, budget, count, strategy);
      || |bets| == Directions(signals, strategy)
      || count + |bets| >= strategy.betsPerCycle
      || budget - |bets| as real * strategy.perBet < strategy.perBet
  {
    if signals != [] && count < strategy.betsPerCycle && budget >= strategy.perBet {
      var s := signals[0];
      assert s in obs.signals;
      if Bettable(s, strategy) {
        BetsAreAllThereIs(signals[1..], budget - strategy.perBet, count + 1, obs, strategy);
        assert Directed(s, obs, strategy);
        var rest := Bets(signals[1..], budget - strategy.perBet, count + 1, strategy);
        assert (|rest| + 1) as real * strategy.perBet == |rest| as real * strategy.perBet + strategy.perBet;
      } else {
        BetsAreAllThereIs(signals[1..], budget, count, obs, strategy);
      }
    }
  }

  /** Every action of a plan is justified. */
  lemma PlanIsJustified(obs: Observation, strategy: Strategy, address: string, cycle: int)
    requires cycle >= 1
    ensures forall a :: a in Planned(obs, strategy, address, cycle) ==>
      Justified(a, obs, strategy, address, AfterPublish(obs, strategy, cycle))
  {
    hide Bets, Tips, Reacts, Eligible, OtherPosts, StartBudget, AfterPublish, NotOurs;
    var others, b := OtherPosts(obs.topPosts, obs, address), AfterPublish(obs, strategy, cycle);
    var eligible := Eligible(obs.signals, strategy);
    var publishes := Publishes(eligible, cycle, StartBudget(obs, strategy), strategy);
    var reacts, tips := Reacts(others, strategy), Tips(others, b, strategy);
    var left := if tips == [] then b else b - strategy.perTip;
    var bets := Bets(obs.signals, left, 0, strategy);
    forall s ensures s in eligible <==> s in obs.signals && s.confidence >= strategy.publishConfidence && s.assets != [] {
      EligibleAre(obs.signals, strategy, s);
    }
    forall p ensures p in others <==> p in obs.topPosts && NotOurs(p, obs, address) {
      OtherPostsAre(obs.topPosts, obs, address, p);
    }
    TipIsForTheFirst(others, b, strategy);
    BetsAreAllThereIs(obs.signals, left, 0, obs, strategy);
    forall a | a in reacts ensures Justified(a, obs, strategy, address, b) {
      ReactsAre(others, strategy, a);
    }
    forall a | a in tips ensures Justified(a, obs, strategy, address, b) {
    }
    forall a | a in bets ensures Justified(a, obs, strategy, address, b) {
    }
  }

  lemma ReactsAre(posts: seq<Post>, strategy: Strategy, a: Action)
    requires a in Reacts(posts, strategy)
    ensures a.React? && exists p :: p in posts && p.txHash == a.txHash && (a.agree <==> (strategy.attestAgreeBias ==> p.hasAttestation))
  {
    var i :| 0 <= i < |Reacts(posts, strategy)| && Reacts(posts, strategy)[i] == a;
    assert posts[i] in posts;
  }

  /** And nothing is passed over: other posts get reactions in order up to the limit, a tip is planned
      whenever the budget covers one and some post may be tipped, and bets as long as they last. */
  lemma NothingIsPassedOver(obs: Observation, strategy: Strategy, address: string, cycle: int)
    requires cycle >= 1
    ensures var plan, others := Planned(obs, strategy, address, cycle), OtherPosts(obs.topPosts, obs, address);
      && CountOf(plan, (a: Action) => a.React?) == SmallerOf(Nat(strategy.reactionsPerCycle), |others|)
      && (CountOf(plan, (a: Action) => a.Tip?) == 1 <==>
            AfterPublish(obs, strategy, cycle) >= strategy.perTip && exists p :: Tippable(p, obs, strategy, address))
  {
    hide Bets, Tips, Eligible, OtherPosts, StartBudget, AfterPublish, NotOurs, CountOf;
    var others, b := OtherPosts(obs.topPosts, obs, address), AfterPublish(obs, strategy, cycle);
    var tips := Tips(others, b, strategy);
    forall p ensures p in others <==> p in obs.topPosts && NotOurs(p, obs, address) {
      OtherPostsAre(obs.topPosts, obs, address, p);
    }
    forall p ensures NotOurs(p, obs, address) ==> p in obs.topPosts {
      OursOrNot(p, obs, address);
    }
    TipIsForTheFirst(others, b, strategy);
    assert (exists p :: Tippable(p, obs, strategy, address)) <==> (exists p :: p in others && (p.hasAttestation || !strategy.tipOnlyAttested)) by {
      forall p ensures Tippable(p, obs, strategy, address) <==> p in others && (p.hasAttestation || !strategy.tipOnlyAttested) {
      }
    }
    assert |tips| == 1 <==> tips != [];
    CountsByPart(obs, strategy, address, cycle);
  }

  lemma OursOrNot(p: Post, obs: Observation, address: string)
    ensures NotOurs(p, obs, address) ==> p in obs.topPosts
  {
  }

  function SmallerOf(a: nat, b: nat): nat {
    if a < b then a else b
  }

  lemma CountsByPart(obs: Observation, strategy: Strategy, address: string, cycle: int)
    requires cycle >= 1
    ensures var plan, others := Planned(obs, strategy, address, cycle), OtherPosts(obs.topPosts, obs, address);
      && CountOf(plan, (a: Action) => a.React?) == |Reacts(others, strategy)|
      && CountOf(plan, (a: Action) => a.Tip?) == |Tips(others, AfterPublish(obs, strategy, cycle), strategy)|
  {
    var isReact, isTip := (a: Action) => a.React?, (a: Action) => a.Tip?;
    OneKind(obs, strategy, address, cycle, isReact);
    OneKind(obs, strategy, address, cycle, isTip);
  }

  lemma OneKind(obs: Observation, strategy: Strategy, address: string, cycle: int, kind: Action -> bool)
    requires cycle >= 1
    requires (forall a: Action :: kind(a) <==> a.React?) || (forall a: Action :: kind(a) <==> a.Tip?)
    ensures var plan, others := Planned(obs, strategy, address, cycle), OtherPosts(obs.topPosts, obs, address);
      && ((forall a: Action :: kind(a) <==> a.React?) ==> CountOf(plan, kind) == |Reacts(others, strategy)|)
      && ((forall a: Action :: kind(a) <==> a.Tip?) ==> CountOf(plan, kind) == |Tips(others, AfterPublish(obs, strategy, cycle), strategy)|)
  {
    hide Bets, Tips, Reacts, Eligible, OtherPosts, StartBudget, AfterPublish, CountOf;
    var others, b := OtherPosts(obs.topPosts, obs, address), AfterPublish(obs, strategy, cycle);
    var publishes := Publishes(Eligible(obs.signals, strategy), cycle, StartBudget(obs, strategy), strategy);
    var reacts, tips := Reacts(others, strategy), Tips(others, b, strategy);
    var left := if tips == [] then b else b - strategy.perTip;
    var bets := Bets(obs.signals, left, 0, strategy);
    CountAdds(publishes + reacts + tips, bets, kind);
    CountAdds(publishes + reacts, tips, kind);
    CountAdds(publishes, reacts, kind);
    ReactsOnly(others, strategy);
    TipIsOne(others, b, strategy);
    BetsOnly(obs.signals, left, 0, strategy);
    CountAllOrNone(publishes, kind);
    CountAllOrNone(reacts, kind);
    CountAllOrNone(tips, kind);
    CountAllOrNone(bets, kind);
  }

  // ---------------------------------------------------------------- order

  /** Posts and signals are looked at in the order they come in. */
  lemma {:induction false} PostsComeInOrder(a: seq<Post>, b: seq<Post>, obs: Observation, address: string)
    ensures OtherPosts(a + b, obs, address) == OtherPosts(a, obs, address) + OtherPosts(b, obs, address)
  {
    hide IsOurs;
    if a == [] {
      assert a + b == b;
    } else {
      assert (a + b)[1..] == a[1..] + b;
      PostsComeInOrder(a[1..], b, obs, address);
    }
  }

  lemma {:induction false} SignalsComeInOrder(a: seq<Signal>, b: seq<Signal>, strategy: Strategy)
    ensures Eligible(a + b, strategy) == Eligible(a, strategy) + Eligible(b, strategy)
  {
    hide Publishable;
    if a == [] {
      assert a + b == b;
    } else {
      assert (a + b)[1..] == a[1..] + b;
      SignalsComeInOrder(a[1..], b, strategy);
    }
  }

  /** The tip goes to the first post that may be tipped. */
  lemma {:induction false} FirstTippableIsTipped(a: seq<Post>, p: Post, b: seq<Post>, budget: real, strategy: Strategy)
    requires forall i :: 0 <= i < |a| ==> strategy.tipOnlyAttested && !a[i].hasAttestation
    requires p.hasAttestation || !strategy.tipOnlyAttested
    ensures budget >= strategy.perTip ==>
      Tips(a + [p] + b, budget, strategy) == [Tip(p.txHash, Min(strategy.maxTipPerPost, budget.Floor as real))]
  {
    if a != [] {
      assert (a + [p] + b)[1..] == a[1..] + [p] + b && (a + [p] + b)[0] == a[0];
      forall i | 0 <= i < |a[1..]| ensures strategy.tipOnlyAttested && !a[1..][i].hasAttestation {
        assert a[1..][i] == a[i + 1];
      }
      FirstTippableIsTipped(a[1..], p, b, budget, strategy);
    }
  }

  /** The k-th reaction of a plan is to the k-th other post. */
  lemma ReactionsComeInOrder(obs: Observation, strategy: Strategy, address: string, cycle: int, k: nat) returns (before: nat)
    requires cycle >= 1 && k < |OtherPosts(obs.topPosts, obs, address)| && k < strategy.reactionsPerCycle
    ensures var plan, p := Planned(obs, strategy, address, cycle), OtherPosts(obs.topPosts, obs, address)[k];
      && before <= 1 && before + k < |plan| && (before == 1 ==> plan[0].Publish?)
      && plan[before + k] == React(p.txHash, strategy.attestAgreeBias ==> p.hasAttestation)
  {
    hide Eligible, OtherPosts, Tips, Bets, StartBudget, AfterPublish;
    var publishes := Publishes(Eligible(obs.signals, strategy), cycle, StartBudget(obs, strategy), strategy);
    var plan, reacts := Planned(obs, strategy, address, cycle), Reacts(OtherPosts(obs.topPosts, obs, address), strategy);
    before := |publishes|;
    assert k < |reacts| && plan[before + k] == reacts[k];
  }
}
