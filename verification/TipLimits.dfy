/**
  The limits the tips plugin announces (src/plugins/tips-plugin.ts): so many tips a recipient and day,
  and a cooldown between tips. The selection looks at both once for the two tips it may choose, so an
  invocation that makes both of them can break either limit.
 */
module TipLimits {
  import opened Wrappers
  import opened Text
  import opened SpendingPolicy
  import opened Tips
  import opened TipRuns

  // ---------------------------------------------------------------- the daily limit

  ghost predicate WithinDailyLimit(ts: seq<Transfer>, config: TippingConfig) {
    forall recipient, day :: CountOn(ts, recipient, day) <= config.maxPerRecipientPerDay
  }

  /** Two of the new transfers go on one day to a recipient who was one short of the limit. */
  ghost predicate TipsTwiceAtTheEdge(ts: seq<Transfer>, new_: seq<Transfer>, config: TippingConfig) {
    exists recipient, day :: AtTheEdge(ts, new_, recipient, day, config)
  }

  predicate AtTheEdge(ts: seq<Transfer>, new_: seq<Transfer>, recipient: string, day: Day, config: TippingConfig) {
    CountOn(ts, recipient, day) + 1 == config.maxPerRecipientPerDay && CountOn(new_, recipient, day) == 2
  }

  /** The transfers of invocation i. */
  function TransfersOf(invs: seq<Invocation>, i: nat, agent: string, config: TippingConfig): seq<Transfer>
    requires i < |invs| && TwoReadings(invs)
  {
    var before, after := After(invs, i, agent, config).transfers, After(invs, i + 1, agent, config).transfers;
    if |before| <= |after| then after[|before|..] else []
  }

  lemma OneCountExactly(ts: seq<Transfer>, new_: seq<Transfer>, s: TipState, n: nat, now: Time, config: TippingConfig,
                        recipient: string, day: Day)
    requires AllVetted(ts, new_, n, now, config) && Faithful(s, ts, now) && WithinDailyLimit(ts, config)
    ensures CountOn(ts + new_, recipient, day) <= config.maxPerRecipientPerDay <==> !AtTheEdge(ts, new_, recipient, day, config)
  {
    hide LastN, CountOn;
    CountAdds(ts, new_, recipient, day);
    assert CountOn(ts, recipient, day) <= config.maxPerRecipientPerDay;
    if CountOn(new_, recipient, day) > 0 {
      var t :| t in new_ && t.recipient == recipient && t.day == day;
      assert Vetted(ts, t, now, config);
      if day != DayOf(now) { NoneLater(ts, recipient, day); }
    }
  }

  lemma CountsExceedExactly(ts: seq<Transfer>, new_: seq<Transfer>, s: TipState, n: nat, now: Time, config: TippingConfig)
    requires AllVetted(ts, new_, n, now, config) && Faithful(s, ts, now) && WithinDailyLimit(ts, config)
    ensures WithinDailyLimit(ts + new_, config) <==> !TipsTwiceAtTheEdge(ts, new_, config)
  {
    hide Faithful, AllVetted, AtTheEdge, CountOn;
    forall recipient, day
      ensures CountOn(ts + new_, recipient, day) <= config.maxPerRecipientPerDay <==> !AtTheEdge(ts, new_, recipient, day, config)
    {
      OneCountExactly(ts, new_, s, n, now, config, recipient, day);
    }
  }

  /** What the n-th invocation of a run finds and adds. */
  lemma InvocationAt(invs: seq<Invocation>, n: nat, agent: string, config: TippingConfig)
    requires n < |invs| && WellTimed(invs)
    ensures var w, inv := After(invs, n, agent, config), invs[n];
      && After(invs, n + 1, agent, config).transfers == w.transfers + TransfersOf(invs, n, agent, config)
      && AllVetted(w.transfers, TransfersOf(invs, n, agent, config), n, inv.selectTime, config)
      && Faithful(Loaded(w, inv).state, w.transfers, inv.selectTime)
  {
    hide Faithful, Guaranteed, AllVetted, AfterAct, Timed, DistinctHashes, Loaded;
    AfterKeeps(invs, n, agent, config);
    AfterActAdds(After(invs, n, agent, config), invs[n], agent, config, n, EndTime(invs, n));
  }

  /** From counts within the limit, an invocation exceeds it exactly when it tips a recipient twice on
      one day who was one tip short of it. */
  lemma InvocationExceedsExactly(invs: seq<Invocation>, n: nat, agent: string, config: TippingConfig)
    requires n < |invs| && WellTimed(invs) && WithinDailyLimit(After(invs, n, agent, config).transfers, config)
    ensures WithinDailyLimit(After(invs, n + 1, agent, config).transfers, config)
      <==> !TipsTwiceAtTheEdge(After(invs, n, agent, config).transfers, TransfersOf(invs, n, agent, config), config)
  {
    hide After, TransfersOf, TwoReadings, Timed, DistinctHashes, Faithful, AllVetted, Loaded, WithinDailyLimit, TipsTwiceAtTheEdge;
    var w := After(invs, n, agent, config);
    InvocationAt(invs, n, agent, config);
    CountsExceedExactly(w.transfers, TransfersOf(invs, n, agent, config), Loaded(w, invs[n]).state, n, invs[n].selectTime, config);
  }

  lemma FewerWithinLimit(ts: seq<Transfer>, more: seq<Transfer>, config: TippingConfig)
    requires ts <= more && WithinDailyLimit(more, config)
    ensures WithinDailyLimit(ts, config)
  {
    hide CountOn;
    var new_ := more[|ts|..];
    assert more == ts + new_;
    forall recipient, day ensures CountOn(ts, recipient, day) <= config.maxPerRecipientPerDay {
      CountAdds(ts, new_, recipient, day);
      assert CountOn(more, recipient, day) <= config.maxPerRecipientPerDay;
    }
  }

  ghost predicate NoneAtTheEdge(invs: seq<Invocation>, n: nat, agent: string, config: TippingConfig)
    requires n <= |invs| && TwoReadings(invs)
  {
    forall i :: 0 <= i < n ==> !TipsTwiceAtTheEdge(After(invs, i, agent, config).transfers, TransfersOf(invs, i, agent, config), config)
  }

  /** A run keeps the daily limit exactly when none of its invocations does that. */
  lemma {:induction false} DailyLimitHoldsExactly(invs: seq<Invocation>, n: nat, agent: string, config: TippingConfig)
    requires n <= |invs| && WellTimed(invs)
    ensures WithinDailyLimit(After(invs, n, agent, config).transfers, config) <==> NoneAtTheEdge(invs, n, agent, config)
  {
    hide After, TransfersOf, TwoReadings, Timed, DistinctHashes, AllVetted, Faithful, Loaded, TipsTwiceAtTheEdge, WithinDailyLimit;
    if n == 0 {
      NothingWithinLimit(invs, agent, config);
    } else {
      var before, after := After(invs, n - 1, agent, config).transfers, After(invs, n, agent, config).transfers;
      DailyLimitHoldsExactly(invs, n - 1, agent, config);
      InvocationAt(invs, n - 1, agent, config);
      if WithinDailyLimit(after, config) { FewerWithinLimit(before, after, config); }
      if WithinDailyLimit(before, config) { InvocationExceedsExactly(invs, n - 1, agent, config); }
    }
  }

  lemma NothingWithinLimit(invs: seq<Invocation>, agent: string, config: TippingConfig)
    requires TwoReadings(invs)
    ensures WithinDailyLimit(After(invs, 0, agent, config).transfers, config)
  {
  }

  // ---------------------------------------------------------------- the cooldown

  /** Any two tips keep the cooldown. */
  predicate CooldownAlwaysKept(ts: seq<Transfer>, config: TippingConfig) {
    forall i, j :: 0 <= i < j < |ts| ==> CooledDown(ts[i], ts[j], config)
  }

  predicate CooledDown(earlier: Transfer, later: Transfer, config: TippingConfig) {
    later.stamp - earlier.stamp >= config.minMinutesBetweenTips * MINUTE_MS
  }

  /** A run keeps the cooldown exactly when the tips within each of its invocations do. */
  lemma CooldownHoldsExactly(invs: seq<Invocation>, n: nat, agent: string, config: TippingConfig)
    requires n <= |invs| && WellTimed(invs)
    ensures var ts := After(invs, n, agent, config).transfers;
      CooldownAlwaysKept(ts, config) <==>
        forall i, j :: 0 <= i < j < |ts| && ts[i].invocation == ts[j].invocation ==> CooledDown(ts[i], ts[j], config)
  {
    TippingGuarantees(invs, n, agent, config);
  }

  // ---------------------------------------------------------------- one tip an invocation

  lemma OneMoreCooled(ts: seq<Transfer>, new_: seq<Transfer>, s: TipState, n: nat, now: Time, config: TippingConfig)
    requires CooldownAlwaysKept(ts, config) && Faithful(s, ts, now) && AllVetted(ts, new_, n, now, config) && |new_| <= 1
    ensures CooldownAlwaysKept(ts + new_, config)
  {
    hide LastN, CountOn;
    var all := ts + new_;
    forall i, j | 0 <= i < j < |all| ensures CooledDown(all[i], all[j], config) {
      if j == |ts| {
        assert new_[0] in new_ && Vetted(ts, new_[0], now, config);
        assert ts[i].stamp <= ts[|ts| - 1].stamp;
      }
    }
  }

  /** With at most one tip an invocation both limits hold in every run. */
  lemma {:induction false} OneTipKeepsBothLimits(invs: seq<Invocation>, n: nat, agent: string, config: TippingConfig)
    requires n <= |invs| && WellTimed(invs) && config.maxTipsPerSession <= 1
    ensures var ts := After(invs, n, agent, config).transfers;
      WithinDailyLimit(ts, config) && CooldownAlwaysKept(ts, config)
  {
    hide After, TransfersOf, TwoReadings, Timed, DistinctHashes, AllVetted, Faithful, Loaded, CountOn, CooldownAlwaysKept;
    TippingGuarantees(invs, n, agent, config);
    if n == 0 {
      NothingCooled(invs, agent, config);
    } else {
      OneTipKeepsBothLimits(invs, n - 1, agent, config);
      InvocationAt(invs, n - 1, agent, config);
      var w, new_ := After(invs, n - 1, agent, config), TransfersOf(invs, n - 1, agent, config);
      AtMostOne(w.transfers, new_, n - 1, invs[n - 1].selectTime, config);
      OneMoreCooled(w.transfers, new_, Loaded(w, invs[n - 1]).state, n - 1, invs[n - 1].selectTime, config);
    }
  }

  lemma NothingCooled(invs: seq<Invocation>, agent: string, config: TippingConfig)
    requires TwoReadings(invs)
    ensures CooldownAlwaysKept(After(invs, 0, agent, config).transfers, config)
  {
  }

  lemma AtMostOne(ts: seq<Transfer>, new_: seq<Transfer>, n: nat, now: Time, config: TippingConfig)
    requires AllVetted(ts, new_, n, now, config)
    ensures |new_| <= config.maxTipsPerSession
  {
  }

  // ---------------------------------------------------------------- an overrun

  /** What an invocation with its gate open does with candidates that the policy lets through. */
  lemma TwoAreTipped(w: Work, c: Candidate, d: Candidate, r: Readings, n: nat)
    ensures ExecuteAll(w, [c, d], true, [r, r], n) == Execute(Execute(w, c, true, r, n), d, true, r, n)
  {
    assert [c, d][..1] == [c] && [c][..0] == [];
    OneIsTipped(w, c, [r, r], n);
    assert ExecuteAll(w, [c, d][..1], true, [r, r], n) == Execute(w, c, true, r, n);
  }

  lemma OneIsTipped(w: Work, c: Candidate, rs: seq<Readings>, n: nat)
    requires rs != []
    ensures ExecuteAll(w, [c], true, rs, n) == Execute(w, c, true, rs[0], n)
  {
    assert [c][..0] == [];
    assert ExecuteAll(w, [], true, rs, n) == w;
  }

  lemma SelectsOne(p: Post, agent: string, config: TippingConfig, s: TipState, now: Time)
    requires Eligible(BuildCandidate(p, s, now), agent, config, s, now) && config.maxTipsPerSession == 2
    ensures Select([p], agent, config, s, now) == [BuildCandidate(p, s, now)]
  {
    hide Eligible, BuildCandidate;
    assert [p][1..] == [];
    assert EligibleCandidates([p], agent, config, s, now) == [BuildCandidate(p, s, now)];
    RankedOne(BuildCandidate(p, s, now));
  }

  lemma RankedOne(c: Candidate)
    ensures Ranked([c]) == [c]
  {
    assert [c][..0] == [];
  }

  /** Two eligible posts of the same rank are both selected, in the order of the feed. */
  lemma SelectsTwo(p: Post, q: Post, agent: string, config: TippingConfig, s: TipState, now: Time)
    requires Eligible(BuildCandidate(p, s, now), agent, config, s, now) && Eligible(BuildCandidate(q, s, now), agent, config, s, now)
    requires !RanksBefore(BuildCandidate(q, s, now), BuildCandidate(p, s, now)) && config.maxTipsPerSession == 2
    ensures Select([p, q], agent, config, s, now) == [BuildCandidate(p, s, now), BuildCandidate(q, s, now)]
  {
    hide Eligible, BuildCandidate, RanksBefore;
    var c, d := BuildCandidate(p, s, now), BuildCandidate(q, s, now);
    assert [p, q][1..] == [q] && [q][1..] == [];
    assert EligibleCandidates([q], agent, config, s, now) == [d];
    assert EligibleCandidates([p, q], agent, config, s, now) == [c, d];
    assert [c, d][..1] == [c];
    RankedOne(c);
    assert Ranked([c, d]) == [c, d];
  }

  /** An invocation without a feed only counts as a warm-up session. */
  lemma WarmUpInvocation(w: Work, inv: Invocation, config: TippingConfig, n: nat)
    requires inv.feed == [] && inv.loadTime == 0 && |inv.readings| == 2 && w.ledger == LedgerState(0, 0.0, 0.0, [])
    ensures AfterAct(w, inv, "me", config, n) == Work(Warmed(w.state, inv.session), w.ledger, w.transfers)
  {
    assert Chosen(inv, "me", config, w.state) == [];
  }

  const DEFAULTS := TippingConfig(80, true, 2, 2, 5, 3)
  const MORNING := Readings(0, 0, 0, 0, 0)
  const LATER := Readings(300_000, 300_000, 300_000, 300_000, 300_000)

  function PostOf(hash: string): Post {
    Post(hash, "a", 0, 90, 10, 0, true, 0)
  }

  function WarmUp(session: nat): Invocation {
    Invocation(session, true, false, [], 0, 0, [MORNING, MORNING])
  }

  /** Three sessions warm up, the fourth tips a post of "a", and five minutes later the fifth tips two more. */
  function Overrun(): (invs: seq<Invocation>)
    ensures |invs| == 5
  {
    [WarmUp(1), WarmUp(2), WarmUp(3),
     Invocation(4, true, false, [PostOf("p")], 0, 0, [MORNING, MORNING]),
     Invocation(5, true, false, [PostOf("q"), PostOf("r")], 300_000, 300_000, [LATER, LATER])]
  }

  lemma OverrunIsTimed()
    ensures WellTimed(Overrun())
  {
    hide Ordered;
    var invs := Overrun();
    assert Ordered(MORNING, 0) && Ordered(LATER, 300_000) by { TwoMomentsOrdered(); }
    forall i | 0 <= i < 5 ensures Timed(invs[i], EndTime(invs, i)) && DistinctHashes(invs[i].feed) {
      assert i == 0 || i == 1 || i == 2 || i == 3 || i == 4;
    }
  }

  lemma TwoMomentsOrdered()
    ensures Ordered(MORNING, 0) && Ordered(LATER, 300_000)
  {
  }

  lemma WarmedUp()
    ensures TwoReadings(Overrun())
    ensures After(Overrun(), 3, "me", DEFAULTS) == Work(TipState([], map[], None, 3, Some(3)), LedgerState(0, 0.0, 0.0, []), [])
  {
    hide AfterAct;
    var invs := Overrun();
    WarmUpInvocation(After(invs, 0, "me", DEFAULTS), invs[0], DEFAULTS, 0);
    WarmUpInvocation(After(invs, 1, "me", DEFAULTS), invs[1], DEFAULTS, 1);
    WarmUpInvocation(After(invs, 2, "me", DEFAULTS), invs[2], DEFAULTS, 2);
  }

  /** The state and ledger after the first tip. */
  function FirstTip(): Work {
    Work(TipState(["p"], map["a" := DayCount(0, 1)], Some(0), 4, Some(4)),
         LedgerState(0, 1.0, 1.0, [Transaction(1.0, "a", "p", false)]), [Transfer("p", "a", 0, 0, 3)])
  }

  lemma LowerA()
    ensures Lower("a") == "a" && Lower("me") == "me"
  {
  }

  lemma PostIsEligible(p: Post, s: TipState, now: Time)
    requires p == PostOf(p.txHash) && p.txHash !in s.tippedPosts && DayOf(now) == 0
    requires s.perRecipient == map[] || s.perRecipient == map["a" := DayCount(0, 1)]
    requires !CoolingDown(s.lastTip, 5, now)
    ensures Eligible(BuildCandidate(p, s, now), "me", DEFAULTS, s, now) && BuildCandidate(p, s, now).amount == 1
    ensures BuildCandidate(p, s, now).post == p
    ensures BuildCandidate(p, s, now).totalScore == if s.perRecipient == map[] then 110 else 95
  {
    hide DayOf, CoolingDown;
    LowerA();
  }

  /** A tip of 1 DEM to "a" on day 0, at a moment when the policy lets it through. */
  lemma TipGoesThrough(w: Work, c: Candidate, r: Readings, n: nat)
    requires c.amount == 1 && c.post == PostOf(c.post.txHash) && (r == MORNING || r == LATER)
    requires w.ledger.date == 0 && w.ledger.dailySpent <= 9.0 && w.ledger.sessionSpent <= 4.0
    ensures var t := Transfer(c.post.txHash, "a", 0, r.stamp, n);
      var tx := Transaction(1.0, "a", c.post.txHash, false);
      Execute(w, c, true, r, n) == Work(Tipped(w.state, c, "a", r), Record(w.ledger, tx, 0), w.transfers + [t])
  {
    hide Record, Tipped;
    LowerA();
    assert DayOf(0) == 0 && DayOf(300_000) == 0;
    assert Spends(w.ledger, OpOf(c, r), Policy(true));
  }

  lemma FourthTips()
    ensures TwoReadings(Overrun()) && After(Overrun(), 4, "me", DEFAULTS) == FirstTip()
  {
    WarmedUp();
    hide After, Select, Ranked, EligibleCandidates, Execute, ExecuteAll, Eligible, BuildCandidate;
    var inv, w := Overrun()[3], After(Overrun(), 3, "me", DEFAULTS);
    var s := TipState([], map[], None, 4, Some(4));
    assert Warmed(w.state, 4) == s;
    PostIsEligible(PostOf("p"), s, 0);
    SelectsOne(PostOf("p"), "me", DEFAULTS, s, 0);
    var c := BuildCandidate(PostOf("p"), s, 0);
    var start := Work(s, LedgerState(0, 0.0, 0.0, []), []);
    OneIsTipped(start, c, [MORNING, MORNING], 3);
    TipGoesThrough(start, c, MORNING, 3);
    assert AfterAct(w, inv, "me", DEFAULTS, 3) == Execute(start, c, true, MORNING, 3);
    FirstTipState(c);
    AfterStep(Overrun(), 3);
  }

  lemma AfterStep(invs: seq<Invocation>, n: nat)
    requires n < |invs| && TwoReadings(invs)
    ensures After(invs, n + 1, "me", DEFAULTS) == AfterAct(After(invs, n, "me", DEFAULTS), invs[n], "me", DEFAULTS, n)
  {
  }

  lemma FirstTipState(c: Candidate)
    requires c.post == PostOf("p") && c.amount == 1
    ensures Tipped(TipState([], map[], None, 4, Some(4)), c, "a", MORNING) == FirstTip().state
    ensures Record(LedgerState(0, 0.0, 0.0, []), Transaction(1.0, "a", "p", false), 0) == FirstTip().ledger
  {
    LowerA();
    assert DayOf(0) == 0;
  }

  lemma FifthTipsTwice()
    ensures TwoReadings(Overrun())
    ensures After(Overrun(), 5, "me", DEFAULTS).transfers
      == [Transfer("p", "a", 0, 0, 3), Transfer("q", "a", 0, 300_000, 4), Transfer("r", "a", 0, 300_000, 4)]
  {
    FourthTips();
    hide After, Select, Ranked, EligibleCandidates, Execute, ExecuteAll, Eligible, BuildCandidate, Tipped;
    var inv, w := Overrun()[4], FirstTip();
    var s := w.state.(warmupCounter := 5, lastWarmupSession := Some(5));
    assert Warmed(w.state, 5) == s;
    PostIsEligible(PostOf("q"), s, 300_000);
    PostIsEligible(PostOf("r"), s, 300_000);
    SelectsTwo(PostOf("q"), PostOf("r"), "me", DEFAULTS, s, 300_000);
    var c, d := BuildCandidate(PostOf("q"), s, 300_000), BuildCandidate(PostOf("r"), s, 300_000);
    var start := Work(s, w.ledger.(sessionSpent := 0.0), w.transfers);
    TwoAreTipped(start, c, d, LATER, 4);
    TipGoesThrough(start, c, LATER, 4);
    var next := Execute(start, c, true, LATER, 4);
    TipGoesThrough(next, d, LATER, 4);
    assert AfterAct(w, inv, "me", DEFAULTS, 4) == Execute(next, d, true, LATER, 4);
    AfterStep(Overrun(), 4);
  }

  /** Under the default configuration a recipient can get three tips on one day, and two of them with
      no cooldown in between. */
  lemma DefaultsAllowAnOverrun()
    ensures WellTimed(Overrun())
    ensures var ts := After(Overrun(), 5, "me", DEFAULTS).transfers;
      CountOn(ts, "a", 0) == 3 > DEFAULTS.maxPerRecipientPerDay && !CooldownAlwaysKept(ts, DEFAULTS)
  {
    hide After, Overrun, Timed, TwoReadings;
    OverrunIsTimed();
    FifthTipsTwice();
    var ts := After(Overrun(), 5, "me", DEFAULTS).transfers;
    CountOnAppend([], ts[0], "a", 0);
    CountOnAppend([ts[0]], ts[1], "a", 0);
    CountOnAppend([ts[0], ts[1]], ts[2], "a", 0);
    assert ts == [ts[0], ts[1]] + [ts[2]] && [ts[0], ts[1]] == [ts[0]] + [ts[1]] && [ts[0]] == [] + [ts[0]];
    assert !CooledDown(ts[1], ts[2], DEFAULTS);
  }
}
