/**
  What the selection of src/lib/tips.ts comes to for a post: which posts are chosen, how much is tipped,
  and how posts are ranked, with every threshold written out.
 */
module TipScores {
  import opened Wrappers
  import opened Text
  import opened SpendingPolicy
  import opened Tips
  import opened TipRuns

  // ---------------------------------------------------------------- how much

  /** 1 DEM, one more for an excellent post, one more for a much discussed one. */
  predicate IsAmountFor(amount: int, p: Post) {
    && 1 <= amount <= 3
    && (amount == 1 <==> p.score < 95 && p.agree + p.disagree < 15)
    && (amount == 3 <==> p.score >= 95 && p.agree + p.disagree >= 15)
  }

  /** What a post must be to be tipped by this agent at this moment. */
  predicate MayBeTipped(p: Post, agent: string, config: TippingConfig, s: TipState, now: Time) {
    && p.author != Lower(agent) && p.txHash !in s.tippedPosts
    && (p.hasAttestation || !config.requireAttestation)
    && p.score >= config.minScore
    && (s.lastTip.Some? ==> now - s.lastTip.value >= config.minMinutesBetweenTips * 60_000)
    && (var key := Lower(p.author);
        key in s.perRecipient && s.perRecipient[key].date == now / 86_400_000
        ==> s.perRecipient[key].count < config.maxPerRecipientPerDay)
    && config.maxPerRecipientPerDay > 0
  }

  lemma CandidateIsRight(p: Post, agent: string, config: TippingConfig, s: TipState, now: Time)
    ensures var c := BuildCandidate(p, s, now);
      && c.post == p && IsAmountFor(c.amount, p)
      && (Eligible(c, agent, config, s, now) <==> MayBeTipped(p, agent, config, s, now) && c.totalScore >= config.minScore)
  {
  }

  /** Every selected candidate is a post of the feed that may be tipped, with the right amount, */
  lemma SelectedAreRight(feed: seq<Post>, agent: string, config: TippingConfig, s: TipState, now: Time)
    ensures forall c :: c in Select(feed, agent, config, s, now) ==>
      c.post in feed && IsAmountFor(c.amount, c.post) && c.totalScore >= config.minScore && MayBeTipped(c.post, agent, config, s, now)
  {
    hide BuildCandidate, Eligible, MayBeTipped, IsAmountFor, Select;
    SelectTakesTheBest(feed, agent, config, s, now);
    forall c | c in Select(feed, agent, config, s, now)
      ensures c.post in feed && IsAmountFor(c.amount, c.post) && c.totalScore >= config.minScore && MayBeTipped(c.post, agent, config, s, now)
    {
      var i :| 0 <= i < |feed| && c == BuildCandidate(feed[i], s, now);
      CandidateIsRight(feed[i], agent, config, s, now);
    }
  }

  /** and a post that may be tipped and scores enough is left out only when two others, or as many as
      the configuration allows, were chosen. */
  lemma OnlyTheLimitLeavesOut(feed: seq<Post>, p: Post, agent: string, config: TippingConfig, s: TipState, now: Time)
    requires p in feed && MayBeTipped(p, agent, config, s, now) && BuildCandidate(p, s, now).totalScore >= config.minScore
    ensures var selected := Select(feed, agent, config, s, now);
      (exists c :: c in selected && c.post == p) || |selected| == 2 || |selected| == config.maxTipsPerSession
  {
    hide BuildCandidate, Eligible, MayBeTipped, IsAmountFor, Select, RanksBefore;
    var c, selected := BuildCandidate(p, s, now), Select(feed, agent, config, s, now);
    SelectTakesTheBest(feed, agent, config, s, now);
    CandidateIsRight(p, agent, config, s, now);
    var i :| 0 <= i < |feed| && feed[i] == p;
    assert FromFeed(c, feed, s, now);
    if c !in selected { assert |selected| == TipLimit(config); }
  }

  // ---------------------------------------------------------------- the ranking

  /** Points for freshness: up to 6 hours, a day, three days. */
  predicate AreFreshPoints(points: int, timestamp: nat, now: Time) {
    var age := now - timestamp * 1000;
    && (timestamp > 0 && age <= 21_600_000 ==> points == 10)
    && (timestamp > 0 && 21_600_000 < age <= 86_400_000 ==> points == 5)
    && (timestamp > 0 && 86_400_000 < age <= 259_200_000 ==> points == 2)
    && (timestamp == 0 || age > 259_200_000 ==> points == 0)
  }

  /** Points for reactions: two each, twenty at most. */
  predicate AreReactionPoints(points: int, reactions: int) {
    (points == 2 * reactions && points <= 20) || (points == 20 && 2 * reactions > 20)
  }

  /** A score is quality, reactions, topic and freshness, less 15 for each tip the author got today. */
  lemma ScoreAddsUp(p: Post, s: TipState, now: Time) returns (reactions: int, freshness: int)
    ensures AreReactionPoints(reactions, p.agree + p.disagree) && AreFreshPoints(freshness, p.timestamp, now)
    ensures BuildCandidate(p, s, now).totalScore
      == p.score + reactions + p.topicAlignment + freshness - 15 * KeyCount(s, Lower(p.author), now / 86_400_000)
  {
    var r := (p.agree + p.disagree) * 2;
    reactions := if r < 20 then r else 20;
    freshness := Freshness(p.timestamp, now);
  }

  /** Of two posts that differ only in age the fresher is never ranked after the other. */
  lemma FresherIsNotRankedAfter(p: Post, q: Post, s: TipState, now: Time)
    requires q == p.(timestamp := q.timestamp) && q.timestamp >= p.timestamp
    ensures !RanksBefore(BuildCandidate(p, s, now), BuildCandidate(q, s, now))
    ensures q.timestamp > p.timestamp ==> RanksBefore(BuildCandidate(q, s, now), BuildCandidate(p, s, now))
  {
    hide BuildCandidate;
    var r, f := ScoreAddsUp(p, s, now);
    var r', f' := ScoreAddsUp(q, s, now);
    PostIsKept(p, s, now);
    PostIsKept(q, s, now);
  }

  lemma PostIsKept(p: Post, s: TipState, now: Time)
    ensures BuildCandidate(p, s, now).post == p
  {
  }

  /** A list that is in rank order already stays as it is: ties keep the order of the feed. */
  lemma {:induction false} TiesKeepTheirOrder(s: seq<Candidate>)
    requires InRankOrder(s)
    ensures Ranked(s) == s
  {
    if s != [] {
      hide RanksBefore;
      var most, last := s[..|s| - 1], s[|s| - 1];
      TiesKeepTheirOrder(most);
      assert most != [] ==> !RanksBefore(last, most[|most| - 1]);
      assert most + [last] == s;
    }
  }

  /** Candidates are looked at in the order of the feed. */
  lemma {:induction false} CandidatesComeInOrder(a: seq<Post>, b: seq<Post>, agent: string, config: TippingConfig, s: TipState, now: Time)
    ensures EligibleCandidates(a + b, agent, config, s, now)
      == EligibleCandidates(a, agent, config, s, now) + EligibleCandidates(b, agent, config, s, now)
  {
    hide Eligible, BuildCandidate;
    if a == [] {
      assert a + b == b;
    } else {
      assert (a + b)[1..] == a[1..] + b;
      CandidatesComeInOrder(a[1..], b, agent, config, s, now);
    }
  }

  // ---------------------------------------------------------------- what is booked

  /** A transaction that tips the post. */
  ghost predicate PaysFor(tx: Transaction, p: Post) {
    !tx.dryRun && tx.postTxHash == p.txHash && tx.recipient == Lower(p.author)
    && exists amount: int :: IsAmountFor(amount, p) && tx.amount == amount as real
  }

  ghost predicate PaysForOneOf(tx: Transaction, feed: seq<Post>) {
    exists p :: p in feed && PaysFor(tx, p)
  }

  lemma {:induction false} BookedAreOps(s: LedgerState, ops: seq<Op>, config: Config)
    ensures |Booked(s, ops, config)| <= |ops|
    ensures forall k :: 0 <= k < |Booked(s, ops, config)| ==> exists i :: 0 <= i < |ops| && Booked(s, ops, config)[k].1 == TxOf(ops[i])
    decreases |ops|
  {
    if ops != [] {
      hide RunOps, Records;
      var most, op := ops[..|ops| - 1], ops[|ops| - 1];
      BookedAreOps(s, most, config);
      var h, g := Booked(s, most, config), BookedBy(RunOps(s, most, config), op, config);
      var all: History := h + g;
      forall k | 0 <= k < |all| ensures exists i :: 0 <= i < |ops| && all[k].1 == TxOf(ops[i]) {
        if k < |h| {
          var i :| 0 <= i < |most| && h[k].1 == TxOf(most[i]);
          assert ops[i] == most[i];
        } else {
          assert ops[|ops| - 1] == op;
        }
      }
    }
  }

  /** Everything an invocation books tips a post of its feed, with the right amount and recipient, */
  lemma InvocationBooksTips(w: Work, inv: Invocation, agent: string, config: TippingConfig)
    requires |inv.readings| == 2
    ensures var h := BookedBySession(w.ledger, SpendingSession(w, inv, agent, config));
      |h| <= 2 && forall k :: 0 <= k < |h| ==> PaysForOneOf(h[k].1, inv.feed)
  {
    hide Select, Booked, PaysFor, IsAmountFor, MayBeTipped, Live, Warmed, OpOf, TxOf;
    var session := SpendingSession(w, inv, agent, config);
    var cs := Chosen(inv, agent, config, w.state);
    ChosenAreFew(inv, agent, config, w.state);
    SelectedAreRight(inv.feed, agent, config, Warmed(w.state, inv.session), inv.selectTime);
    BookedAreOps(Opened(w.ledger, session), session.ops, session.config);
    var h := BookedBySession(w.ledger, session);
    assert |session.ops| == |cs| && h == Booked(Opened(w.ledger, session), session.ops, session.config);
    forall k | 0 <= k < |h| ensures PaysForOneOf(h[k].1, inv.feed) {
      var i :| 0 <= i < |session.ops| && h[k].1 == TxOf(session.ops[i]);
      TipPays(cs[i], inv.readings[i]);
      assert cs[i] in cs && cs[i].post in inv.feed;
    }
  }

  lemma TipPays(c: Candidate, r: Readings)
    requires IsAmountFor(c.amount, c.post)
    ensures PaysFor(TxOf(OpOf(c, r)), c.post)
  {
    hide IsAmountFor;
  }

  /** so that, caps or no caps, it spends at most 6 DEM. */
  lemma InvocationSpendsAtMostSix(w: Work, inv: Invocation, agent: string, config: TippingConfig)
    requires |inv.readings| == 2
    ensures 0.0 <= Spent(BookedBySession(w.ledger, SpendingSession(w, inv, agent, config))) <= 6.0
  {
    hide Booked, BookedBySession, SpendingSession, Spent;
    var h := BookedBySession(w.ledger, SpendingSession(w, inv, agent, config));
    InvocationBooksTips(w, inv, agent, config);
    forall k | 0 <= k < |h| ensures 0.0 <= h[k].1.amount <= 3.0 {
      assert PaysForOneOf(h[k].1, inv.feed);
      var p :| p in inv.feed && PaysFor(h[k].1, p);
    }
    AtMostThreeEach(h);
  }

  lemma {:induction false} AtMostThreeEach(h: History)
    requires forall k :: 0 <= k < |h| ==> 0.0 <= h[k].1.amount <= 3.0
    ensures 0.0 <= Spent(h) <= 3.0 * |h| as real
    decreases |h|
  {
    if h != [] { AtMostThreeEach(h[..|h| - 1]); }
  }

  /** The plugin's policy pays a tip of 1 to 3 DEM exactly when tipping is live and it fits into 10 DEM a
      day and 5 a session. */
  lemma TipIsPaidExactly(w: Work, c: Candidate, live: bool, r: Readings)
    requires 1 <= c.amount <= 3
    ensures var spentToday := if w.ledger.date == DayOf(r.check) then w.ledger.dailySpent else 0.0;
      Spends(w.ledger, OpOf(c, r), Policy(live)) <==>
      (live && spentToday + c.amount as real <= 10.0 && w.ledger.sessionSpent + c.amount as real <= 5.0)
  {
  }
}
