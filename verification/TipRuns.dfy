/**
  What tipping guarantees over all runs of the hook: any number of invocations, each of which
  loads the two state files, tips, and saves them.
 */
module TipRuns {
  import opened Wrappers
  import opened Text
  import opened SpendingPolicy
  import opened Tips

  // ---------------------------------------------------------------- runs

  /** The clock moves forward through the invocation, from `from` on. */
  predicate Timed(inv: Invocation, from: Time) {
    && |inv.readings| == 2
    && from <= inv.selectTime <= inv.loadTime
    && Ordered(inv.readings[0], inv.loadTime)
    && Ordered(inv.readings[1], inv.readings[0].count)
  }

  predicate TwoReadings(invs: seq<Invocation>) {
    forall i :: 0 <= i < |invs| ==> |invs[i].readings| == 2
  }

  predicate WellTimed(invs: seq<Invocation>) {
    TwoReadings(invs) && forall i :: 0 <= i < |invs| ==> Timed(invs[i], EndTime(invs, i)) && DistinctHashes(invs[i].feed)
  }

  /** When the first `i` invocations were over. */
  function EndTime(invs: seq<Invocation>, i: nat): Time
    requires i <= |invs|
  {
    if i == 0 || |invs[i - 1].readings| != 2 then 0 else invs[i - 1].readings[1].count
  }

  function Start(day: Day): Work {
    Work(FreshTipState(), LedgerState(day, 0.0, 0.0, []), [])
  }

  /** The world after the first `n` invocations. */
  function After(invs: seq<Invocation>, n: nat, agent: string, config: TippingConfig): Work
    requires n <= |invs| && TwoReadings(invs)
  {
    if n == 0 then Start(0) else AfterAct(After(invs, n - 1, agent, config), invs[n - 1], agent, config, n - 1)
  }

  // ---------------------------------------------------------------- what is promised

  function Posts(ts: seq<Transfer>): seq<string> {
    seq(|ts|, i requires 0 <= i < |ts| => ts[i].post)
  }

  /** How many transfers a recipient got on a day. */
  function CountOn(ts: seq<Transfer>, recipient: string, day: Day): nat {
    if ts == [] then 0
    else
      var t := ts[|ts| - 1];
      CountOn(ts[..|ts| - 1], recipient, day) + if t.recipient == recipient && t.day == day then 1 else 0
  }

  /** Two tips of one post have at least 500 tips between them. */
  predicate RepeatsFarApart(ts: seq<Transfer>) {
    forall i, j :: 0 <= i < j < |ts| && ts[i].post == ts[j].post ==> j - i > 500
  }

  /** Tips of different invocations respect the cooldown. */
  predicate CooldownKept(ts: seq<Transfer>, config: TippingConfig) {
    forall i, j :: 0 <= i < j < |ts| && ts[i].invocation != ts[j].invocation ==>
      ts[j].stamp - ts[i].stamp >= config.minMinutesBetweenTips * MINUTE_MS
  }

  /** The daily limit may be overrun by what one invocation tips after it looked, but by no more. */
  ghost predicate DailyCountBounded(ts: seq<Transfer>, config: TippingConfig) {
    forall recipient, day :: CountOn(ts, recipient, day) <= Max0(config.maxPerRecipientPerDay + TipLimit(config) - 1)
  }

  function Max0(x: int): nat {
    if x < 0 then 0 else x
  }

  ghost predicate Guaranteed(ts: seq<Transfer>, config: TippingConfig) {
    RepeatsFarApart(ts) && CooldownKept(ts, config) && DailyCountBounded(ts, config)
  }

  // ---------------------------------------------------------------- the state against the history

  function KeyCount(s: TipState, key: string, day: Day): nat {
    if key in s.perRecipient && s.perRecipient[key].date == day then s.perRecipient[key].count else 0
  }

  ghost predicate Faithful(s: TipState, ts: seq<Transfer>, clock: Time) {
    && s.tippedPosts == LastN(Posts(ts), MAX_TIPPED_POSTS)
    && s.lastTip == (if ts == [] then None else Some(ts[|ts| - 1].stamp))
    && (forall i, j :: 0 <= i <= j < |ts| ==> ts[i].stamp <= ts[j].stamp)
    && (forall i :: 0 <= i < |ts| ==> ts[i].stamp <= clock && ts[i].day <= DayOf(clock))
    && (forall key :: key in s.perRecipient ==> s.perRecipient[key].date <= DayOf(clock))
    && (forall key :: KeyCount(s, key, DayOf(clock)) == CountOn(ts, key, DayOf(clock)))
  }

  lemma DayIsMonotone(a: Time, b: Time)
    requires a <= b
    ensures DayOf(a) <= DayOf(b)
  {
  }

  lemma {:induction false} NoneLater(ts: seq<Transfer>, key: string, day: Day)
    requires forall i :: 0 <= i < |ts| ==> ts[i].day < day
    ensures CountOn(ts, key, day) == 0
  {
    if ts != [] { NoneLater(ts[..|ts| - 1], key, day); }
  }

  lemma ClockAdvances(s: TipState, ts: seq<Transfer>, clock: Time, later: Time)
    requires Faithful(s, ts, clock) && clock <= later
    ensures Faithful(s, ts, later)
  {
    DayIsMonotone(clock, later);
    if DayOf(clock) < DayOf(later) {
      forall key ensures KeyCount(s, key, DayOf(later)) == CountOn(ts, key, DayOf(later)) {
        NoneLater(ts, key, DayOf(later));
      }
    }
  }

  /** A transfer keeps the state faithful, wherever midnight falls between its clock readings. */
  lemma TippedIsFaithful(s: TipState, ts: seq<Transfer>, clock: Time, c: Candidate, r: Readings, n: nat)
    requires Faithful(s, ts, clock) && Ordered(r, clock)
    ensures Faithful(Tipped(s, c, Lower(c.post.author), r), ts + [TransferOf(c, r, n)], r.count)
  {
    hide Lower, CountOn, DayOf, KeyCount;
    var t := TransferOf(c, r, n);
    ClockAdvances(s, ts, clock, r.date);
    ClockAdvances(s, ts, clock, r.count);
    DayIsMonotone(r.date, r.count);
    assert Posts(ts + [t]) == Posts(ts) + [t.post];
    LastNExtends(Posts(ts), t.post, MAX_TIPPED_POSTS);
    forall key ensures KeyCount(Tipped(s, c, Lower(c.post.author), r), key, DayOf(r.count)) == CountOn(ts + [t], key, DayOf(r.count)) {
      TippedCountsOne(s, ts, c, r, n, key);
    }
  }

  lemma CountOnAppend(ts: seq<Transfer>, t: Transfer, key: string, day: Day)
    ensures CountOn(ts + [t], key, day) == CountOn(ts, key, day) + if t.recipient == key && t.day == day then 1 else 0
  {
    assert (ts + [t])[..|ts|] == ts;
  }

  lemma TippedCountsOne(s: TipState, ts: seq<Transfer>, c: Candidate, r: Readings, n: nat, key: string)
    requires DayOf(r.date) <= DayOf(r.count) && forall i :: 0 <= i < |ts| ==> ts[i].day <= DayOf(r.date)
    requires KeyCount(s, key, DayOf(r.count)) == CountOn(ts, key, DayOf(r.count))
    ensures KeyCount(Tipped(s, c, Lower(c.post.author), r), key, DayOf(r.count))
         == CountOn(ts + [TransferOf(c, r, n)], key, DayOf(r.count))
  {
    LowerTwice(c.post.author);
    hide Lower, CountOn, DayOf, LastN;
    CountOnAppend(ts, TransferOf(c, r, n), key, DayOf(r.count));
    if DayOf(r.date) < DayOf(r.count) { NoneLater(ts, key, DayOf(r.count)); }
  }

  // ---------------------------------------------------------------- one invocation

  /** What one invocation adds to the history. */
  ghost predicate Adds(new_: seq<Transfer>, cs: seq<Candidate>, rs: seq<Readings>, n: nat)
    requires |cs| <= |rs|
  {
    && |new_| <= |cs|
    && (forall t :: t in new_ ==> exists j :: 0 <= j < |cs| && t == TransferOf(cs[j], rs[j], n))
    && (DistinctCandidates(cs) ==> forall i, j :: 0 <= i < j < |new_| ==> new_[i].post != new_[j].post)
  }

  predicate ReadingsOrdered(rs: seq<Readings>, from: Time) {
    forall i :: 0 <= i < |rs| ==> Ordered(rs[i], Before(rs, i, from))
  }

  function Before(rs: seq<Readings>, i: nat, from: Time): Time
    requires i <= |rs|
  {
    if i == 0 then from else rs[i - 1].count
  }

  lemma ExecuteIsFaithful(w: Work, c: Candidate, live: bool, r: Readings, n: nat, clock: Time)
    requires Faithful(w.state, w.transfers, clock) && Ordered(r, clock)
    ensures var after := Execute(w, c, live, r, n);
      && (after.transfers == w.transfers || (live && after.transfers == w.transfers + [TransferOf(c, r, n)]))
      && Faithful(after.state, after.transfers, r.count)
      && SameWarmUp(after.state, w.state)
  {
    if Spends(w.ledger, OpOf(c, r), Policy(live)) {
      TippedIsFaithful(w.state, w.transfers, clock, c, r, n);
    } else {
      ClockAdvances(w.state, w.transfers, clock, r.count);
    }
  }

  predicate SameWarmUp(s: TipState, t: TipState) {
    s.warmupCounter == t.warmupCounter && s.lastWarmupSession == t.lastWarmupSession
  }

  lemma {:induction false} ExecuteAllAdds(w: Work, cs: seq<Candidate>, live: bool, rs: seq<Readings>, n: nat, clock: Time)
    requires |cs| <= |rs| && ReadingsOrdered(rs, clock)
    requires Faithful(w.state, w.transfers, clock)
    ensures var after := ExecuteAll(w, cs, live, rs, n);
      && w.transfers <= after.transfers
      && Adds(after.transfers[|w.transfers|..], cs, rs, n)
      && Faithful(after.state, after.transfers, Before(rs, |cs|, clock))
      && (!live ==> after.transfers == w.transfers)
      && SameWarmUp(after.state, w.state)
    decreases |cs|
  {
    hide Faithful, Execute, Adds, TransferOf, DistinctCandidates;
    if cs == [] {
      NothingAdded(cs, rs, n);
    } else {
      var k := |cs| - 1;
      ExecuteAllAdds(w, cs[..k], live, rs, n, clock);
      var mid, after := ExecuteAll(w, cs[..k], live, rs, n), ExecuteAll(w, cs, live, rs, n);
      var new_ := mid.transfers[|w.transfers|..];
      assert Ordered(rs[k], Before(rs, k, clock));
      ExecuteIsFaithful(mid, cs[k], live, rs[k], n, Before(rs, k, clock));
      if after.transfers == mid.transfers {
        AddsMore(new_, cs, rs, n);
      } else {
        AddsOne(new_, cs, rs, n);
        assert after.transfers[|w.transfers|..] == new_ + [TransferOf(cs[k], rs[k], n)];
      }
    }
  }

  lemma NothingAdded(cs: seq<Candidate>, rs: seq<Readings>, n: nat)
    requires |cs| <= |rs|
    ensures Adds([], cs, rs, n)
  {
  }

  lemma AddsMore(new_: seq<Transfer>, cs: seq<Candidate>, rs: seq<Readings>, n: nat)
    requires 0 < |cs| <= |rs| && Adds(new_, cs[..|cs| - 1], rs, n)
    ensures Adds(new_, cs, rs, n)
  {
    forall t | t in new_ ensures exists j :: 0 <= j < |cs| && t == TransferOf(cs[j], rs[j], n) {
      var j :| 0 <= j < |cs| - 1 && t == TransferOf(cs[..|cs| - 1][j], rs[j], n);
      assert cs[..|cs| - 1][j] == cs[j];
    }
  }

  lemma AddsOne(new_: seq<Transfer>, cs: seq<Candidate>, rs: seq<Readings>, n: nat)
    requires 0 < |cs| <= |rs| && Adds(new_, cs[..|cs| - 1], rs, n)
    ensures Adds(new_ + [TransferOf(cs[|cs| - 1], rs[|cs| - 1], n)], cs, rs, n)
  {
    var k := |cs| - 1;
    AddsMore(new_, cs, rs, n);
    if DistinctCandidates(cs) {
      forall t | t in new_ ensures t.post != cs[k].post.txHash {
        var j :| 0 <= j < k && t == TransferOf(cs[..k][j], rs[j], n);
        assert cs[..k][j] == cs[j];
      }
    }
  }

  // ---------------------------------------------------------------- the guarantees are kept

  lemma {:induction false} CountAdds(a: seq<Transfer>, b: seq<Transfer>, key: string, day: Day)
    ensures CountOn(a + b, key, day) == CountOn(a, key, day) + CountOn(b, key, day)
    ensures CountOn(b, key, day) <= |b|
    ensures CountOn(b, key, day) > 0 ==> exists t :: t in b && t.recipient == key && t.day == day
    decreases |b|
  {
    if b == [] {
      assert a + b == a;
    } else {
      assert (a + b)[..|a + b| - 1] == a + b[..|b| - 1];
      CountAdds(a, b[..|b| - 1], key, day);
      assert b[|b| - 1] in b;
      assert forall t :: t in b[..|b| - 1] ==> t in b;
    }
  }

  /** What the selection established about each of the new transfers. */
  ghost predicate Vetted(ts: seq<Transfer>, t: Transfer, now: Time, config: TippingConfig) {
    && t.post !in LastN(Posts(ts), MAX_TIPPED_POSTS)
    && CountOn(ts, t.recipient, DayOf(now)) < config.maxPerRecipientPerDay
    && (ts != [] ==> now - ts[|ts| - 1].stamp >= config.minMinutesBetweenTips * MINUTE_MS)
    && now <= t.stamp && DayOf(now) <= t.day
  }

  lemma GuaranteesKept(ts: seq<Transfer>, new_: seq<Transfer>, s: TipState, n: nat, now: Time, config: TippingConfig)
    requires Guaranteed(ts, config) && Faithful(s, ts, now)
    requires |new_| <= TipLimit(config)
    requires forall t :: t in new_ ==> Vetted(ts, t, now, config) && t.invocation == n
    requires forall i, j :: 0 <= i < j < |new_| ==> new_[i].post != new_[j].post
    ensures Guaranteed(ts + new_, config)
  {
    RepeatsStayApart(ts, new_);
    CooldownStays(ts, new_, s, n, now, config);
    CountsStayBounded(ts, new_, s, now, config);
  }

  lemma CooldownStays(ts: seq<Transfer>, new_: seq<Transfer>, s: TipState, n: nat, now: Time, config: TippingConfig)
    requires CooldownKept(ts, config) && Faithful(s, ts, now)
    requires forall t :: t in new_ ==> Vetted(ts, t, now, config) && t.invocation == n
    ensures CooldownKept(ts + new_, config)
  {
    hide CountOn, LastN;
    var all := ts + new_;
    assert forall k :: |ts| <= k < |all| ==> all[k] in new_;
    forall i, j | 0 <= i < j < |all| && all[i].invocation != all[j].invocation
      ensures all[j].stamp - all[i].stamp >= config.minMinutesBetweenTips * MINUTE_MS
    {
      if j >= |ts| {
        assert Vetted(ts, all[j], now, config);
      }
    }
  }

  lemma CountsStayBounded(ts: seq<Transfer>, new_: seq<Transfer>, s: TipState, now: Time, config: TippingConfig)
    requires DailyCountBounded(ts, config) && Faithful(s, ts, now)
    requires |new_| <= TipLimit(config)
    requires forall t :: t in new_ ==> Vetted(ts, t, now, config)
    ensures DailyCountBounded(ts + new_, config)
  {
    hide LastN, TipLimit;
    forall key, day ensures CountOn(ts + new_, key, day) <= Max0(config.maxPerRecipientPerDay + TipLimit(config) - 1) {
      CountAdds(ts, new_, key, day);
      assert CountOn(ts, key, day) <= Max0(config.maxPerRecipientPerDay + TipLimit(config) - 1);
      if CountOn(new_, key, day) > 0 {
        var t :| t in new_ && t.recipient == key && t.day == day;
        assert Vetted(ts, t, now, config);
        if day != DayOf(now) { NoneLater(ts, key, day); }
      }
    }
  }

  lemma RepeatsStayApart(ts: seq<Transfer>, new_: seq<Transfer>)
    requires RepeatsFarApart(ts)
    requires forall t :: t in new_ ==> t.post !in LastN(Posts(ts), MAX_TIPPED_POSTS)
    requires forall i, j :: 0 <= i < j < |new_| ==> new_[i].post != new_[j].post
    ensures RepeatsFarApart(ts + new_)
  {
    var all := ts + new_;
    assert forall k :: |ts| <= k < |all| ==> all[k] == new_[k - |ts|];
    forall i, j | 0 <= i < j < |all| && all[i].post == all[j].post ensures j - i > MAX_TIPPED_POSTS {
      if i < |ts| <= j {
        assert new_[j - |ts|] in new_;
        RecentIsKept(ts, i);
      }
    }
  }

  lemma RecentIsKept(ts: seq<Transfer>, i: nat)
    requires i < |ts|
    ensures |ts| - i <= MAX_TIPPED_POSTS ==> ts[i].post in LastN(Posts(ts), MAX_TIPPED_POSTS)
  {
    if |ts| - i <= MAX_TIPPED_POSTS {
      var kept := LastN(Posts(ts), MAX_TIPPED_POSTS);
      assert kept[i - (|ts| - |kept|)] == ts[i].post;
    }
  }

  /** Every transfer of an invocation was vetted when the invocation selected its candidates. */
  lemma ChosenAreVetted(ts: seq<Transfer>, s: TipState, cs: seq<Candidate>, rs: seq<Readings>, t: Transfer, n: nat,
                        agent: string, config: TippingConfig, now: Time)
    requires Faithful(s, ts, now) && |cs| <= |rs|
    requires forall c :: c in cs ==> Eligible(c, agent, config, s, now)
    requires forall j :: 0 <= j < |cs| ==> now <= rs[j].stamp <= rs[j].date
    requires exists j :: 0 <= j < |cs| && t == TransferOf(cs[j], rs[j], n)
    ensures Vetted(ts, t, now, config) && t.invocation == n
  {
    var j :| 0 <= j < |cs| && t == TransferOf(cs[j], rs[j], n);
    assert Eligible(cs[j], agent, config, s, now);
    assert KeyCount(s, t.recipient, DayOf(now)) == CountOn(ts, t.recipient, DayOf(now));
    DayIsMonotone(now, rs[j].date);
  }

  /** Loading the files and counting the session as a warm-up one changes nothing that matters here. */
  function Loaded(w: Work, inv: Invocation): Work {
    Work(Warmed(w.state, inv.session), Rollover(w.ledger, DayOf(inv.loadTime)).(sessionSpent := 0.0), w.transfers)
  }

  lemma LoadedIsFaithful(w: Work, inv: Invocation, clock: Time, later: Time)
    requires Faithful(w.state, w.transfers, clock) && clock <= later
    ensures Faithful(Loaded(w, inv).state, w.transfers, later)
  {
    ClockAdvances(w.state, w.transfers, clock, later);
    forall key ensures KeyCount(Loaded(w, inv).state, key, DayOf(later)) == KeyCount(w.state, key, DayOf(later)) {}
  }

  /** What an invocation adds to the history: few transfers, each of them vetted when it began. */
  lemma AfterActAdds(w: Work, inv: Invocation, agent: string, config: TippingConfig, n: nat, clock: Time)
    requires Timed(inv, clock) && DistinctHashes(inv.feed) && Faithful(w.state, w.transfers, clock)
    ensures var after := AfterAct(w, inv, agent, config, n);
      && Faithful(after.state, after.transfers, inv.readings[1].count)
      && w.transfers <= after.transfers
      && AllVetted(w.transfers, after.transfers[|w.transfers|..], n, inv.selectTime, config)
      && Faithful(Loaded(w, inv).state, w.transfers, inv.selectTime)
      && (!Live(inv, config, w.state) ==> after.transfers == w.transfers)
      && SameWarmUp(after.state, Warmed(w.state, inv.session))
  {
    hide Faithful, ExecuteAll, Select, Eligible, Vetted, TransferOf, DistinctHashes, Rollover,
         InRankOrder, FromFeed, DistinctCandidates, RanksBefore, BuildCandidate;
    var start, now := Loaded(w, inv), inv.selectTime;
    var cs, live := Chosen(inv, agent, config, w.state), Live(inv, config, w.state);
    SelectTakesTheBest(inv.feed, agent, config, start.state, now);
    var after := ExecuteAll(start, cs, live, inv.readings, n);
    assert after == AfterAct(w, inv, agent, config, n);
    LoadedIsFaithful(w, inv, clock, now);
    LoadedIsFaithful(w, inv, clock, inv.loadTime);
    ExecuteAllAdds(start, cs, live, inv.readings, n, inv.loadTime);
    ClockAdvances(after.state, after.transfers, Before(inv.readings, |cs|, inv.loadTime), inv.readings[1].count);
    var new_ := after.transfers[|w.transfers|..];
    forall t | t in new_ ensures Vetted(w.transfers, t, now, config) && t.invocation == n {
      ChosenAreVetted(w.transfers, start.state, cs, inv.readings, t, n, agent, config, now);
    }
  }

  ghost predicate AllVetted(ts: seq<Transfer>, new_: seq<Transfer>, n: nat, now: Time, config: TippingConfig) {
    && |new_| <= TipLimit(config)
    && (forall t :: t in new_ ==> Vetted(ts, t, now, config) && t.invocation == n)
    && (forall i, j :: 0 <= i < j < |new_| ==> new_[i].post != new_[j].post)
  }

  lemma AfterActKeeps(w: Work, inv: Invocation, agent: string, config: TippingConfig, n: nat, clock: Time)
    requires Timed(inv, clock) && DistinctHashes(inv.feed)
    requires Faithful(w.state, w.transfers, clock) && Guaranteed(w.transfers, config)
    ensures var after := AfterAct(w, inv, agent, config, n);
      && Faithful(after.state, after.transfers, inv.readings[1].count)
      && Guaranteed(after.transfers, config)
      && (!Live(inv, config, w.state) ==> after.transfers == w.transfers)
      && after.state.warmupCounter == Warmed(w.state, inv.session).warmupCounter
      && after.state.lastWarmupSession == Some(inv.session)
  {
    hide Faithful, Guaranteed, AfterAct, Vetted;
    var after := AfterAct(w, inv, agent, config, n);
    AfterActAdds(w, inv, agent, config, n, clock);
    var new_ := after.transfers[|w.transfers|..];
    GuaranteesKept(w.transfers, new_, Loaded(w, inv).state, n, inv.selectTime, config);
    assert after.transfers == w.transfers + new_;
  }

  // ---------------------------------------------------------------- warm-up

  function Sessions(invs: seq<Invocation>, n: nat): set<nat>
    requires n <= |invs|
  {
    set i | 0 <= i < n :: invs[i].session
  }

  /** Session numbers never go back. */
  predicate SessionsInOrder(invs: seq<Invocation>) {
    forall i, j :: 0 <= i <= j < |invs| ==> invs[i].session <= invs[j].session
  }

  lemma NothingYet(config: TippingConfig)
    ensures Faithful(FreshTipState(), [], 0) && Guaranteed([], config)
  {
  }

  /** How often the session number differed from the previous invocation's. */
  function Changes(invs: seq<Invocation>, n: nat): nat
    requires n <= |invs|
  {
    if n == 0 then 0
    else Changes(invs, n - 1) + if n > 1 && invs[n - 2].session == invs[n - 1].session then 0 else 1
  }

  lemma OneMoreSession(invs: seq<Invocation>, n: nat)
    requires 0 < n <= |invs|
    ensures |Sessions(invs, n)| == |Sessions(invs, n - 1)| + if InvokedBefore(invs, n - 1) then 0 else 1
  {
    assert Sessions(invs, n) == Sessions(invs, n - 1) + {invs[n - 1].session};
  }

  lemma {:induction false} ChangesCountSessions(invs: seq<Invocation>, n: nat)
    requires n <= |invs| && SessionsInOrder(invs)
    ensures Changes(invs, n) == |Sessions(invs, n)|
  {
    if n > 0 {
      ChangesCountSessions(invs, n - 1);
      OneMoreSession(invs, n);
    }
  }

  /** How the state and the history stand after `n` invocations. */
  ghost predicate Standing(w: Work, invs: seq<Invocation>, n: nat, config: TippingConfig)
    requires n <= |invs|
  {
    && Faithful(w.state, w.transfers, EndTime(invs, n))
    && Guaranteed(w.transfers, config)
    && w.state.warmupCounter == Changes(invs, n)
    && w.state.lastWarmupSession == if n == 0 then None else Some(invs[n - 1].session)
  }

  lemma {:induction false} AfterKeeps(invs: seq<Invocation>, n: nat, agent: string, config: TippingConfig)
    requires n <= |invs| && WellTimed(invs)
    ensures Standing(After(invs, n, agent, config), invs, n, config)
  {
    hide Faithful, Guaranteed, AfterAct, Timed, DistinctHashes;
    if n == 0 {
      NothingYet(config);
    } else {
      AfterKeeps(invs, n - 1, agent, config);
      AfterActKeeps(After(invs, n - 1, agent, config), invs[n - 1], agent, config, n - 1, EndTime(invs, n - 1));
    }
  }

  /** Over every run: a post is not tipped again before 500 others, tips of different invocations
      keep the cooldown, and no recipient gets more than maxPerRecipientPerDay + min(2,
      maxTipsPerSession) - 1 tips on one day. */
  lemma TippingGuarantees(invs: seq<Invocation>, n: nat, agent: string, config: TippingConfig)
    requires n <= |invs| && WellTimed(invs)
    ensures var ts := After(invs, n, agent, config).transfers;
      RepeatsFarApart(ts) && CooldownKept(ts, config) && DailyCountBounded(ts, config)
  {
    AfterKeeps(invs, n, agent, config);
  }

  /** The warm-up gate opens for an invocation exactly when the session number has changed often
      enough before it, and nothing is transferred while it is shut. If session numbers never go
      back, the changes are the distinct sessions so far. */
  lemma WarmUpGate(invs: seq<Invocation>, n: nat, agent: string, config: TippingConfig)
    requires n < |invs| && WellTimed(invs)
    ensures var w := After(invs, n, agent, config);
      && (Live(invs[n], config, w.state) <==>
            invs[n].enabled && !invs[n].dryRun && Changes(invs, n) >= config.minSessionsBeforeLive)
      && (!Live(invs[n], config, w.state) ==> After(invs, n + 1, agent, config).transfers == w.transfers)
    ensures SessionsInOrder(invs) ==> Changes(invs, n) == |Sessions(invs, n)|
  {
    hide Faithful, Guaranteed, AfterAct, Timed, DistinctHashes, Sessions, SessionsInOrder;
    AfterKeeps(invs, n, agent, config);
    if SessionsInOrder(invs) { ChangesCountSessions(invs, n); }
    AfterActKeeps(After(invs, n, agent, config), invs[n], agent, config, n, EndTime(invs, n));
  }

  /** So nothing has been transferred as long as, before the latest invocation, the session number had
      changed less often than the warm-up asks for, however often each session invokes the hook. */
  lemma {:induction false} WarmUpTransfersNothing(invs: seq<Invocation>, n: nat, agent: string, config: TippingConfig)
    requires n <= |invs| && WellTimed(invs)
    requires n > 0 ==> Changes(invs, n - 1) < config.minSessionsBeforeLive
    ensures After(invs, n, agent, config).transfers == []
  {
    hide AfterAct, Live, WellTimed;
    if n > 0 {
      WarmUpTransfersNothing(invs, n - 1, agent, config);
      WarmUpGate(invs, n - 1, agent, config);
    }
  }

  predicate InvokedBefore(invs: seq<Invocation>, n: nat)
    requires n < |invs|
  {
    exists i :: 0 <= i < n && invs[i].session == invs[n].session
  }

  /** Exactly when the gate is open in one of the first minSessionsBeforeLive distinct sessions: when
      the last of them invokes the hook again. */
  lemma WarmUpIsSkippedExactly(invs: seq<Invocation>, n: nat, agent: string, config: TippingConfig)
    requires n < |invs| && WellTimed(invs) && SessionsInOrder(invs)
    ensures Live(invs[n], config, After(invs, n, agent, config).state) && |Sessions(invs, n + 1)| <= config.minSessionsBeforeLive
      <==>
      (invs[n].enabled && !invs[n].dryRun
       && |Sessions(invs, n)| == config.minSessionsBeforeLive && InvokedBefore(invs, n))
  {
    hide After, Live, WellTimed, Sessions, SessionsInOrder, Changes;
    WarmUpGate(invs, n, agent, config);
    OneMoreSession(invs, n + 1);
  }

  /** A session that invokes the hook twice defeats the warm-up: with minSessionsBeforeLive = 1 the
      second invocation of the very first session already transfers. */
  lemma RepeatedInvocationSkipsWarmUp() returns (invs: seq<Invocation>, config: TippingConfig)
    ensures WellTimed(invs) && SessionsInOrder(invs) && |invs| == 2
    ensures |Sessions(invs, 2)| <= config.minSessionsBeforeLive
    ensures After(invs, 2, "me", config).transfers != []
  {
    config := TippingConfig(80, true, 2, 2, 5, 1);
    var r := Readings(0, 0, 0, 0, 0);
    var post := Post("p", "a", 0, 90, 0, 0, true, 0);
    var first, second := Invocation(7, true, false, [], 0, 0, [r, r]), Invocation(7, true, false, [post], 0, 0, [r, r]);
    invs := [first, second];
    assert invs[0].session in Sessions(invs, 2);
    assert Sessions(invs, 2) == {7};
    FirstInvocation(first, config);
    SecondInvocation(second, config, post, r);
    assert After(invs, 0, "me", config) == Start(0);
    assert After(invs, 1, "me", config) == AfterAct(Start(0), first, "me", config, 0);
  }

  lemma FirstInvocation(inv: Invocation, config: TippingConfig)
    requires inv.session == 7 && inv.feed == [] && inv.loadTime == 0 && |inv.readings| == 2
    ensures AfterAct(Start(0), inv, "me", config, 0)
         == Work(TipState([], map[], None, 1, Some(7)), LedgerState(0, 0.0, 0.0, []), [])
  {
    assert Chosen(inv, "me", config, Start(0).state) == [];
  }

  lemma SecondInvocation(inv: Invocation, config: TippingConfig, post: Post, r: Readings)
    requires config == TippingConfig(80, true, 2, 2, 5, 1) && r == Readings(0, 0, 0, 0, 0)
    requires post == Post("p", "a", 0, 90, 0, 0, true, 0)
    requires inv == Invocation(7, true, false, [post], 0, 0, [r, r])
    ensures AfterAct(Work(TipState([], map[], None, 1, Some(7)), LedgerState(0, 0.0, 0.0, []), []), inv, "me", config, 1).transfers != []
  {
    var s := TipState([], map[], None, 1, Some(7));
    var c := Candidate(post, 1, 90);
    assert Lower("me")[0] == 'm';
    assert BuildCandidate(post, s, 0) == c && Eligible(c, "me", config, s, 0);
    assert [post][1..] == [];
    assert EligibleCandidates([post], "me", config, s, 0) == [c];
    assert Ranked([c]) == [c];
    var w := Work(s, LedgerState(0, 0.0, 0.0, []), []);
    assert Spends(w.ledger, OpOf(c, r), Policy(true));
    assert ExecuteAll(w, [], true, [r, r], 1) == w;
    assert [c][..0] == [];
  }

  // ---------------------------------------------------------------- the ledger of a run

  function OpsOf(cs: seq<Candidate>, rs: seq<Readings>): seq<Op>
    requires |cs| <= |rs|
  {
    seq(|cs|, i requires 0 <= i < |cs| => OpOf(cs[i], rs[i]))
  }

  /** An invocation as the spending ledger sees it. */
  function SpendingSession(w: Work, inv: Invocation, agent: string, config: TippingConfig): Session
    requires |inv.readings| == 2
  {
    Session(Policy(Live(inv, config, w.state)), DayOf(inv.loadTime), OpsOf(Chosen(inv, agent, config, w.state), inv.readings))
  }

  function SpendingSessions(invs: seq<Invocation>, n: nat, agent: string, config: TippingConfig): seq<Session>
    requires n <= |invs| && TwoReadings(invs)
  {
    if n == 0 then []
    else SpendingSessions(invs, n - 1, agent, config)
         + [SpendingSession(After(invs, n - 1, agent, config), invs[n - 1], agent, config)]
  }

  /** Posts of the real transactions of a ledger history. */
  function RealPosts(h: History): seq<string> {
    if h == [] then []
    else RealPosts(h[..|h| - 1]) + if h[|h| - 1].1.dryRun then [] else [h[|h| - 1].1.postTxHash]
  }

  lemma {:induction false} RealPostsAdds(g: History, h: History)
    ensures RealPosts(g + h) == RealPosts(g) + RealPosts(h)
    decreases |h|
  {
    if h == [] {
      assert g + h == g;
    } else {
      assert (g + h)[..|g + h| - 1] == g + h[..|h| - 1];
      RealPostsAdds(g, h[..|h| - 1]);
    }
  }

  lemma {:induction false} ExecuteAllIsRunOps(w: Work, cs: seq<Candidate>, live: bool, rs: seq<Readings>, n: nat)
    requires |cs| <= |rs|
    ensures ExecuteAll(w, cs, live, rs, n).ledger == RunOps(w.ledger, OpsOf(cs, rs), Policy(live))
    decreases |cs|
  {
    hide StepOp, Spends, Tipped, OpOf, TransferOf;
    if cs != [] {
      var k := |cs| - 1;
      ExecuteAllIsRunOps(w, cs[..k], live, rs, n);
      assert OpsOf(cs, rs)[..k] == OpsOf(cs[..k], rs);
    }
  }

  lemma StepIsBooked(w: Work, c: Candidate, live: bool, r: Readings, n: nat)
    ensures Posts(Execute(w, c, live, r, n).transfers)
         == Posts(w.transfers) + RealPosts(BookedBy(w.ledger, OpOf(c, r), Policy(live)))
  {
    hide StepOp, Tipped, Spends, BookedBy;
    RealPostsOf(w.ledger, OpOf(c, r), Policy(live));
  }

  lemma {:induction false} TransfersAreBooked(w: Work, cs: seq<Candidate>, live: bool, rs: seq<Readings>, n: nat)
    requires |cs| <= |rs|
    ensures Posts(ExecuteAll(w, cs, live, rs, n).transfers)
         == Posts(w.transfers) + RealPosts(Booked(w.ledger, OpsOf(cs, rs), Policy(live)))
    decreases |cs|
  {
    hide Execute, StepOp, Spends, Policy, OpOf, BookedBy, Posts, RealPosts;
    if cs == [] {
      assert RealPosts([]) == [] by { RealPostsOfNothing(); }
    } else {
      var k := |cs| - 1;
      TransfersAreBooked(w, cs[..k], live, rs, n);
      ExecuteAllIsRunOps(w, cs[..k], live, rs, n);
      var mid, op := ExecuteAll(w, cs[..k], live, rs, n), OpOf(cs[k], rs[k]);
      assert OpsOf(cs, rs)[..k] == OpsOf(cs[..k], rs);
      StepIsBooked(mid, cs[k], live, rs[k], n);
      RealPostsAdds(Booked(w.ledger, OpsOf(cs[..k], rs), Policy(live)), BookedBy(mid.ledger, op, Policy(live)));
    }
  }

  lemma RealPostsOfNothing()
    ensures RealPosts([]) == []
  {
  }

  lemma RealPostsOf(s: LedgerState, op: Op, config: Config)
    requires op.Tip?
    ensures RealPosts(BookedBy(s, op, config)) == if Spends(s, op, config) then [op.post] else []
  {
    if Spends(s, op, config) {
      assert BookedBy(s, op, config)[..0] == [];
    }
  }

  lemma InvocationIsASession(w: Work, inv: Invocation, agent: string, config: TippingConfig, n: nat)
    requires |inv.readings| == 2
    ensures var after, session := AfterAct(w, inv, agent, config, n), SpendingSession(w, inv, agent, config);
      && after.ledger == RunOps(SpendingPolicy.Opened(w.ledger, session), session.ops, session.config)
      && Posts(after.transfers) == Posts(w.transfers) + RealPosts(BookedBySession(w.ledger, session))
  {
    hide RunOps, Booked, ExecuteAll, Select, Live, Posts, RealPosts, OpsOf;
    var cs, live := Chosen(inv, agent, config, w.state), Live(inv, config, w.state);
    ChosenAreFew(inv, agent, config, w.state);
    ExecuteAllIsRunOps(Loaded(w, inv), cs, live, inv.readings, n);
    TransfersAreBooked(Loaded(w, inv), cs, live, inv.readings, n);
  }

  lemma {:induction false} RunIsASpendingRun(invs: seq<Invocation>, n: nat, agent: string, config: TippingConfig)
    requires n <= |invs| && TwoReadings(invs)
    ensures var w, sessions := After(invs, n, agent, config), SpendingSessions(invs, n, agent, config);
      && w.ledger == RunSessions(Start(0).ledger, sessions)
      && Posts(w.transfers) == RealPosts(HistoryOf(Start(0).ledger, sessions))
  {
    hide RunSessions, HistoryOf, BookedBySession, AfterAct, SpendingSession, RealPosts, Posts;
    if n == 0 {
      NothingRun();
    } else {
      RunIsASpendingRun(invs, n - 1, agent, config);
      var w, inv := After(invs, n - 1, agent, config), invs[n - 1];
      var most, last := SpendingSessions(invs, n - 1, agent, config), SpendingSession(w, inv, agent, config);
      InvocationIsASession(w, inv, agent, config, n - 1);
      RunGrows(Start(0).ledger, most, last);
      RealPostsAdds(HistoryOf(Start(0).ledger, most), BookedBySession(w.ledger, last));
    }
  }

  lemma NothingRun()
    ensures RunSessions(Start(0).ledger, []) == Start(0).ledger
    ensures Posts(Start(0).transfers) == RealPosts(HistoryOf(Start(0).ledger, []))
  {
  }

  lemma {:induction false} OpsAreInOrder(cs: seq<Candidate>, rs: seq<Readings>, clock: Time)
    requires |cs| <= |rs| && ReadingsOrdered(rs, clock)
    ensures OpsInOrder(OpsOf(cs, rs), DayOf(clock))
    ensures LastDay(OpsOf(cs, rs), DayOf(clock)) <= DayOf(Before(rs, |cs|, clock))
    decreases |cs|
  {
    if cs != [] {
      var k := |cs| - 1;
      OpsAreInOrder(cs[..k], rs, clock);
      assert OpsOf(cs, rs)[..k] == OpsOf(cs[..k], rs);
      assert Ordered(rs[k], Before(rs, k, clock));
    }
  }

  lemma {:induction false} SpendingCaps(invs: seq<Invocation>, n: nat, agent: string, config: TippingConfig)
    requires n <= |invs| && TwoReadings(invs)
    ensures DailyCapsAtMost(SpendingSessions(invs, n, agent, config), 10.0)
  {
    hide After, Chosen, Live, OpsOf;
    if n > 0 { SpendingCaps(invs, n - 1, agent, config); }
  }

  lemma {:induction false} SpendingIsInOrder(invs: seq<Invocation>, n: nat, agent: string, config: TippingConfig)
    requires n <= |invs| && WellTimed(invs)
    ensures var sessions := SpendingSessions(invs, n, agent, config);
      InOrder(sessions, 0) && EndDay(sessions, 0) <= DayOf(EndTime(invs, n))
  {
    hide After, SpendingSession, Timed, InOrder, EndDay, DayOf;
    if n == 0 {
      NoneInOrder();
    } else {
      SpendingIsInOrder(invs, n - 1, agent, config);
      OneMoreInOrder(invs, n, agent, config);
    }
  }

  lemma OneMoreInOrder(invs: seq<Invocation>, n: nat, agent: string, config: TippingConfig)
    requires 0 < n <= |invs| && WellTimed(invs)
    requires var most := SpendingSessions(invs, n - 1, agent, config);
      InOrder(most, 0) && EndDay(most, 0) <= DayOf(EndTime(invs, n - 1))
    ensures var sessions := SpendingSessions(invs, n, agent, config);
      InOrder(sessions, 0) && EndDay(sessions, 0) <= DayOf(EndTime(invs, n))
  {
    hide After, SpendingSession, Timed, InOrder, EndDay, OpsInOrder, LastDay, DayOf;
    var w, inv := After(invs, n - 1, agent, config), invs[n - 1];
    var most, last := SpendingSessions(invs, n - 1, agent, config), SpendingSession(w, inv, agent, config);
    SessionIsInOrder(w, inv, agent, config, EndTime(invs, n - 1));
    InOrderExtends(most, last, 0);
  }

  lemma NoneInOrder()
    ensures InOrder([], 0) && EndDay([], 0) == DayOf(0) == 0
  {
  }

  lemma SessionIsInOrder(w: Work, inv: Invocation, agent: string, config: TippingConfig, clock: Time)
    requires Timed(inv, clock)
    ensures var last := SpendingSession(w, inv, agent, config);
      && DayOf(clock) <= last.loadDay && OpsInOrder(last.ops, last.loadDay)
      && LastDay(last.ops, last.loadDay) <= DayOf(inv.readings[1].count)
      && last.config.perTipMin == 1.0
  {
    hide Select;
    var cs := Chosen(inv, agent, config, w.state);
    ChosenAreFew(inv, agent, config, w.state);
    OpsAreInOrder(cs, inv.readings, inv.loadTime);
    DayIsMonotone(clock, inv.loadTime);
    DayIsMonotone(Before(inv.readings, |cs|, inv.loadTime), inv.readings[1].count);
  }

  lemma ChosenAreFew(inv: Invocation, agent: string, config: TippingConfig, s: TipState)
    ensures |Chosen(inv, agent, config, s)| <= 2
  {
  }

  /** Over every run of the hook the transfers are exactly the real entries of the spending history,
      and on no UTC day do they come to more than the 10 DEM of the default policy. */
  lemma TipsStayWithinDailyCap(invs: seq<Invocation>, n: nat, agent: string, config: TippingConfig)
    requires n <= |invs| && WellTimed(invs)
    ensures var h := HistoryOf(Start(0).ledger, SpendingSessions(invs, n, agent, config));
      && Posts(After(invs, n, agent, config).transfers) == RealPosts(h)
      && forall day :: SpentOn(h, day) <= 10.0
  {
    RunIsASpendingRun(invs, n, agent, config);
    SpendingIsInOrder(invs, n, agent, config);
    SpendingCaps(invs, n, agent, config);
    DailyCapHoldsOverAllRuns(SpendingSessions(invs, n, agent, config), 0, 10.0);
  }

  lemma {:induction false} TipsAreNoDryRuns(ops: seq<Op>)
    requires forall i :: 0 <= i < |ops| ==> ops[i].Tip?
    ensures DryAmounts(ops) == []
    decreases |ops|
  {
    if ops != [] { TipsAreNoDryRuns(ops[..|ops| - 1]); }
  }

  /** Nor does one invocation spend more than the 5 DEM of the default session cap. */
  lemma TipsStayWithinSessionCap(w: Work, inv: Invocation, agent: string, config: TippingConfig)
    requires |inv.readings| == 2
    ensures Spent(BookedBySession(w.ledger, SpendingSession(w, inv, agent, config))) <= 5.0
  {
    hide Chosen, Live;
    var session := SpendingSession(w, inv, agent, config);
    ChosenAreFew(inv, agent, config, w.state);
    TipsAreNoDryRuns(session.ops);
    SessionCapHolds(Opened(w.ledger, session), session.ops, session.config, 5.0);
  }
}
