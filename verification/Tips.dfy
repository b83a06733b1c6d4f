/**
  Autonomous tipping: candidate selection and execution (src/lib/tips.ts) and the hook that drives
  them once per session (src/plugins/tips-plugin.ts).

  Times are milliseconds. Each reading of the clock is a parameter of its own.
 */
module Tips {
  import opened Wrappers
  import opened Text
  import opened SpendingPolicy

  type Time = nat

  const DAY_MS := 86_400_000
  const HOUR_MS := 3_600_000
  const MINUTE_MS := 60_000
  const MAX_TIPPED_POSTS := 500

  /** A post that passed filterPosts. `topicAlignment` is the score its text got against the agent's topics. */
  datatype Post = Post(
    txHash: string, author: string, timestamp: nat, score: int, agree: int, disagree: int,
    hasAttestation: bool, topicAlignment: int)

  datatype Candidate = Candidate(post: Post, amount: int, totalScore: int)

  datatype TippingConfig = TippingConfig(
    minScore: int, requireAttestation: bool, maxTipsPerSession: nat, maxPerRecipientPerDay: nat,
    minMinutesBetweenTips: nat, minSessionsBeforeLive: nat)

  datatype DayCount = DayCount(date: Day, count: nat)

  datatype TipState = TipState(
    tippedPosts: seq<string>, perRecipient: map<string, DayCount>, lastTip: Option<Time>,
    warmupCounter: nat, lastWarmupSession: Option<nat>)

  function FreshTipState(): TipState {
    TipState([], map[], None, 0, None)
  }

  function DayOf(t: Time): Day {
    t / DAY_MS
  }

  // ---------------------------------------------------------------- selection

  function RecipientCount(s: TipState, recipient: string, today: Day): nat {
    var key := Lower(recipient);
    if key in s.perRecipient && s.perRecipient[key].date == today then s.perRecipient[key].count else 0
  }

  predicate CoolingDown(lastTip: Option<Time>, minMinutes: nat, now: Time) {
    lastTip.Some? && now - lastTip.value < minMinutes * MINUTE_MS
  }

  function Freshness(timestamp: nat, now: Time): int {
    var age := now - timestamp * 1000;
    if timestamp == 0 then 0 else if age <= 6 * HOUR_MS then 10 else if age <= 24 * HOUR_MS then 5
    else if age <= 72 * HOUR_MS then 2 else 0
  }

  function TipAmount(post: Post): int {
    1 + (if post.score >= 95 then 1 else 0) + (if post.agree + post.disagree >= 15 then 1 else 0)
  }

  function BuildCandidate(post: Post, s: TipState, now: Time): Candidate {
    var reactions := (post.agree + post.disagree) * 2;
    Candidate(post, TipAmount(post),
      post.score + (if reactions < 20 then reactions else 20) + post.topicAlignment + Freshness(post.timestamp, now)
        - RecipientCount(s, post.author, DayOf(now)) * 15)
  }

  predicate Eligible(c: Candidate, agent: string, config: TippingConfig, s: TipState, now: Time) {
    && c.post.author != Lower(agent)
    && (config.requireAttestation ==> c.post.hasAttestation)
    && c.post.score >= config.minScore
    && c.post.txHash !in s.tippedPosts
    && RecipientCount(s, c.post.author, DayOf(now)) < config.maxPerRecipientPerDay
    && !CoolingDown(s.lastTip, config.minMinutesBetweenTips, now)
    && c.totalScore >= config.minScore
  }

  function EligibleCandidates(feed: seq<Post>, agent: string, config: TippingConfig, s: TipState, now: Time): seq<Candidate> {
    if feed == [] then []
    else
      var c := BuildCandidate(feed[0], s, now);
      (if Eligible(c, agent, config, s, now) then [c] else []) + EligibleCandidates(feed[1..], agent, config, s, now)
  }

  predicate FromFeed(c: Candidate, feed: seq<Post>, s: TipState, now: Time) {
    exists i :: 0 <= i < |feed| && c == BuildCandidate(feed[i], s, now)
  }

  /** The comparator of the sort puts `a` strictly before `b`. */
  predicate RanksBefore(a: Candidate, b: Candidate) {
    a.totalScore > b.totalScore || (a.totalScore == b.totalScore && a.post.timestamp > b.post.timestamp)
  }

  function Insert(s: seq<Candidate>, x: Candidate): seq<Candidate> {
    if s == [] then [x]
    else if RanksBefore(x, s[|s| - 1]) then Insert(s[..|s| - 1], x) + [s[|s| - 1]]
    else s + [x]
  }

  /** Array.prototype.sort, which is stable. */
  function Ranked(s: seq<Candidate>): seq<Candidate> {
    if s == [] then [] else Insert(Ranked(s[..|s| - 1]), s[|s| - 1])
  }

  function TipLimit(config: TippingConfig): nat {
    if config.maxTipsPerSession < 2 then config.maxTipsPerSession else 2
  }

  function Select(feed: seq<Post>, agent: string, config: TippingConfig, s: TipState, now: Time): seq<Candidate> {
    var ranked := Ranked(EligibleCandidates(feed, agent, config, s, now));
    if |ranked| <= TipLimit(config) then ranked else ranked[..TipLimit(config)]
  }

  predicate InRankOrder(s: seq<Candidate>) {
    forall i, j :: 0 <= i < j < |s| ==> !RanksBefore(s[j], s[i])
  }

  lemma {:induction false} InsertAdds(s: seq<Candidate>, x: Candidate)
    ensures multiset(Insert(s, x)) == multiset(s) + multiset{x}
  {
    if s != [] && RanksBefore(x, s[|s| - 1]) {
      assert s == s[..|s| - 1] + [s[|s| - 1]];
      InsertAdds(s[..|s| - 1], x);
    }
  }

  lemma {:induction false} InsertRanks(s: seq<Candidate>, x: Candidate)
    requires InRankOrder(s)
    ensures InRankOrder(Insert(s, x))
  {
    if s != [] && RanksBefore(x, s[|s| - 1]) {
      var most, last := s[..|s| - 1], s[|s| - 1];
      InsertRanks(most, x);
      InsertAdds(most, x);
      var r := Insert(most, x);
      forall i | 0 <= i < |r| ensures !RanksBefore(last, r[i]) {
        assert r[i] in multiset(r);
        assert r[i] == x || r[i] in most;
      }
    }
  }

  lemma {:induction false} RankedIsSorted(s: seq<Candidate>)
    ensures InRankOrder(Ranked(s)) && multiset(Ranked(s)) == multiset(s)
  {
    if s != [] {
      assert s == s[..|s| - 1] + [s[|s| - 1]];
      RankedIsSorted(s[..|s| - 1]);
      InsertRanks(Ranked(s[..|s| - 1]), s[|s| - 1]);
      InsertAdds(Ranked(s[..|s| - 1]), s[|s| - 1]);
    }
  }

  predicate DistinctHashes(feed: seq<Post>) {
    forall i, j :: 0 <= i < j < |feed| ==> feed[i].txHash != feed[j].txHash
  }

  predicate DistinctCandidates(s: seq<Candidate>) {
    forall i, j :: 0 <= i < j < |s| ==> s[i].post.txHash != s[j].post.txHash
  }

  lemma {:induction false} EligibleCandidatesAre(feed: seq<Post>, agent: string, config: TippingConfig, s: TipState, now: Time)
    ensures var es := EligibleCandidates(feed, agent, config, s, now);
      && (forall c :: c in es <==> Eligible(c, agent, config, s, now) && FromFeed(c, feed, s, now))
      && (DistinctHashes(feed) ==> DistinctCandidates(es))
  {
    if feed != [] {
      EligibleCandidatesAre(feed[1..], agent, config, s, now);
      var first, rest := BuildCandidate(feed[0], s, now), EligibleCandidates(feed[1..], agent, config, s, now);
      var es := EligibleCandidates(feed, agent, config, s, now);
      forall c | c in es ensures FromFeed(c, feed, s, now) {
        if c in rest {
          var i :| 0 <= i < |feed[1..]| && c == BuildCandidate(feed[1..][i], s, now);
          assert c == BuildCandidate(feed[i + 1], s, now);
        } else {
          assert c == first;
        }
      }
      forall i | 0 <= i < |feed| && Eligible(BuildCandidate(feed[i], s, now), agent, config, s, now)
        ensures BuildCandidate(feed[i], s, now) in es
      {
        if i > 0 { assert feed[1..][i - 1] == feed[i]; }
      }
      if DistinctHashes(feed) {
        forall c | c in rest ensures c.post.txHash != feed[0].txHash {
          var i :| 0 <= i < |feed[1..]| && c == BuildCandidate(feed[1..][i], s, now);
        }
      }
    }
  }

  lemma DistinctByMultiset(a: seq<Candidate>, b: seq<Candidate>)
    requires multiset(a) == multiset(b) && DistinctCandidates(a)
    ensures DistinctCandidates(b)
  {
    forall i, j | 0 <= i < j < |b| ensures b[i].post.txHash != b[j].post.txHash {
      if b[i].post.txHash == b[j].post.txHash {
        assert b[i] in multiset(a) && b[j] in multiset(a);
        var k :| 0 <= k < |a| && a[k] == b[i];
        var l :| 0 <= l < |a| && a[l] == b[j];
        assert k == l;
        Twice(b, i, j);
        Once(a, k);
        assert false;
      }
    }
  }

  lemma Twice(b: seq<Candidate>, i: nat, j: nat)
    requires i < j < |b| && b[i] == b[j]
    ensures multiset(b)[b[i]] >= 2
  {
    assert b == b[..j] + [b[j]] + b[j + 1..];
    assert b[..j][i] == b[i];
    assert b[i] in multiset(b[..j]);
  }

  lemma Once(a: seq<Candidate>, k: nat)
    requires k < |a| && DistinctCandidates(a)
    ensures multiset(a)[a[k]] == 1
  {
    assert a == a[..k] + [a[k]] + a[k + 1..];
    assert a[k] !in a[..k] && a[k] !in a[k + 1..];
    assert a[k] !in multiset(a[..k]) && a[k] !in multiset(a[k + 1..]);
  }

  /** The selection is the top of the eligible candidates: everything selected is eligible and from
      the feed, nothing left behind ranks before anything selected, the list is in rank order, and
      it is cut short only by the limit. */
  lemma SelectTakesTheBest(feed: seq<Post>, agent: string, config: TippingConfig, s: TipState, now: Time)
    ensures var selected := Select(feed, agent, config, s, now);
      && (forall c :: c in selected ==> Eligible(c, agent, config, s, now) && FromFeed(c, feed, s, now))
      && InRankOrder(selected)
      && |selected| <= TipLimit(config)
      && (forall x :: FromFeed(x, feed, s, now) && Eligible(x, agent, config, s, now) && x !in selected ==>
            (|selected| == TipLimit(config) && forall c :: c in selected ==> !RanksBefore(x, c)))
      && (DistinctHashes(feed) ==> DistinctCandidates(selected))
  {
    hide Eligible, BuildCandidate, RanksBefore;
    var es := EligibleCandidates(feed, agent, config, s, now);
    var ranked, selected := Ranked(es), Select(feed, agent, config, s, now);
    EligibleCandidatesAre(feed, agent, config, s, now);
    RankedIsSorted(es);
    forall c | c in selected ensures c in es {
      assert c in multiset(ranked);
    }
    forall x | FromFeed(x, feed, s, now) && Eligible(x, agent, config, s, now) && x !in selected
      ensures |selected| == TipLimit(config) && forall c :: c in selected ==> !RanksBefore(x, c)
    {
      assert x in es;
      assert x in multiset(ranked);
      var k :| 0 <= k < |ranked| && ranked[k] == x;
      assert k >= TipLimit(config);
    }
    if DistinctHashes(feed) { DistinctByMultiset(es, ranked); }
  }

  // ---------------------------------------------------------------- execution

  /** The clock readings of one executeTip: the policy check, the transaction's timestamp,
      recordSpend, and the two of the recipient's new counter. */
  datatype Readings = Readings(check: Time, stamp: Time, record: Time, date: Time, count: Time)

  predicate Ordered(r: Readings, from: Time) {
    from <= r.check <= r.stamp <= r.record <= r.date <= r.count
  }

  /** The plugin's policy: the defaults, with dryRun decided by the warm-up gate. */
  function Policy(live: bool): Config {
    Config(10.0, 5.0, 1.0, 10.0, [], !live)
  }

  function OpOf(c: Candidate, r: Readings): Op {
    Op.Tip(c.amount as real, Lower(c.post.author), c.post.txHash, DayOf(r.check), DayOf(r.record))
  }

  /** The state after a transfer to `recipient`. */
  function Tipped(s: TipState, c: Candidate, recipient: string, r: Readings): TipState {
    s.(tippedPosts := LastN(s.tippedPosts + [c.post.txHash], MAX_TIPPED_POSTS),
       perRecipient := s.perRecipient[recipient :=
         DayCount(DayOf(r.date), RecipientCount(s, recipient, DayOf(r.count)) + 1)],
       lastTip := Some(r.stamp))
  }

  /** A transfer that happened; kept by no file. `day` is the day the recipient's counter was booked on. */
  datatype Transfer = Transfer(post: string, recipient: string, day: Day, stamp: Time, invocation: nat)

  function TransferOf(c: Candidate, r: Readings, invocation: nat): Transfer {
    Transfer(c.post.txHash, Lower(c.post.author), DayOf(r.date), r.stamp, invocation)
  }

  datatype Work = Work(state: TipState, ledger: LedgerState, transfers: seq<Transfer>)

  function Execute(w: Work, c: Candidate, live: bool, r: Readings, invocation: nat): Work {
    var ledger := StepOp(w.ledger, OpOf(c, r), Policy(live));
    if Spends(w.ledger, OpOf(c, r), Policy(live)) then
      Work(Tipped(w.state, c, Lower(c.post.author), r), ledger, w.transfers + [TransferOf(c, r, invocation)])
    else Work(w.state, ledger, w.transfers)
  }

  function ExecuteAll(w: Work, cs: seq<Candidate>, live: bool, rs: seq<Readings>, invocation: nat): Work
    requires |cs| <= |rs|
    decreases |cs|
  {
    if cs == [] then w
    else
      var n := |cs| - 1;
      Execute(ExecuteAll(w, cs[..n], live, rs, invocation), cs[n], live, rs[n], invocation)
  }

  function Warmed(s: TipState, session: nat): TipState {
    if s.lastWarmupSession == Some(session) then s
    else s.(warmupCounter := s.warmupCounter + 1, lastWarmupSession := Some(session))
  }

  /** One call of the hook: what it sees of the world. */
  datatype Invocation = Invocation(
    session: nat, enabled: bool, dryRun: bool, feed: seq<Post>, selectTime: Time, loadTime: Time, readings: seq<Readings>)

  predicate Live(inv: Invocation, config: TippingConfig, s: TipState) {
    inv.enabled && !inv.dryRun && s.warmupCounter >= config.minSessionsBeforeLive
  }

  function Chosen(inv: Invocation, agent: string, config: TippingConfig, s: TipState): seq<Candidate> {
    Select(inv.feed, agent, config, Warmed(s, inv.session), inv.selectTime)
  }

  function AfterAct(w: Work, inv: Invocation, agent: string, config: TippingConfig, n: nat): Work
    requires |inv.readings| >= 2
  {
    var s := Warmed(w.state, inv.session);
    var ledger := Rollover(w.ledger, DayOf(inv.loadTime)).(sessionSpent := 0.0);
    var cs := Chosen(inv, agent, config, w.state);
    ExecuteAll(Work(s, ledger, w.transfers), cs, Live(inv, config, w.state), inv.readings, n)
  }

  /** executeTip, when the tip API confirms the author as recipient and the transfer goes through. */
  method ExecuteTip(c: Candidate, policy: Config, ledger: Ledger, s: TipState, r: Readings) returns (next: TipState, paid: bool)
    modifies ledger
    ensures paid == Spends(old(ledger.State()), OpOf(c, r), policy)
    ensures ledger.State() == StepOp(old(ledger.State()), OpOf(c, r), policy)
    ensures next == if paid then Tipped(s, c, Lower(c.post.author), r) else s
  {
    LowerTwice(c.post.author);
    var decision := ledger.CanSpend(c.amount as real, c.post.author, policy, DayOf(r.check));
    if !decision.allowed || decision.dryRun {
      return s, false;
    }
    var recipient := Lower(c.post.author);
    ledger.RecordSpend(Transaction(c.amount as real, recipient, c.post.txHash, false), DayOf(r.record));
    var counts := s.perRecipient[recipient := DayCount(DayOf(r.date), RecipientCount(s, recipient, DayOf(r.count)) + 1)];
    next := s.(tippedPosts := LastN(s.tippedPosts + [c.post.txHash], 500), perRecipient := counts, lastTip := Some(r.stamp));
    paid := true;
  }

  /** The hook itself: loads both files, tips each selected candidate in turn, saves both files. */
  method TipsAfterAct(w: Work, inv: Invocation, agent: string, config: TippingConfig, n: nat)
    returns (tipFile: TipState, ledgerFile: LedgerState)
    requires |inv.readings| >= 2
    ensures tipFile == AfterAct(w, inv, agent, config, n).state
    ensures ledgerFile == AfterAct(w, inv, agent, config, n).ledger
  {
    var tipState := w.state;
    var completedWarmupSessions := tipState.warmupCounter;
    tipState := Warmed(tipState, inv.session);
    var candidates := Select(inv.feed, agent, config, tipState, inv.selectTime);
    var ledger := new Ledger.Load(w.ledger, DayOf(inv.loadTime));
    var live := inv.enabled && !inv.dryRun && completedWarmupSessions >= config.minSessionsBeforeLive;
    var policy := Policy(live);
    ghost var start := Work(tipState, ledger.State(), w.transfers);
    var i := 0;
    while i < |candidates|
      invariant 0 <= i <= |candidates| <= 2
      invariant tipState == ExecuteAll(start, candidates[..i], live, inv.readings, n).state
      invariant ledger.State() == ExecuteAll(start, candidates[..i], live, inv.readings, n).ledger
    {
      assert candidates[..i + 1][..i] == candidates[..i];
      var paid;
      tipState, paid := ExecuteTip(candidates[i], policy, ledger, tipState, inv.readings[i]);
      i := i + 1;
    }
    assert candidates[..i] == candidates;
    tipFile := tipState;
    ledgerFile := LedgerState(ledger.date, ledger.dailySpent, ledger.sessionSpent, ledger.transactions);
  }
}
