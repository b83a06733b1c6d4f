/**
  Where the caps of src/lib/spending-policy.ts fail, and exactly when: concrete runs over a cap, and
  for each cap the condition under which every run keeps it.
 */
module CapFailures {
  import opened Text
  import opened SpendingPolicy

  // ---------------------------------------------------------------- the daily cap

  /** The bound needs perTipMin not to be negative: a tip of -5 makes room for a bet of 12 that is
      checked before midnight and booked after it. */
  lemma NegativeMinimumBreaksDailyCap() returns (sessions: seq<Session>)
    ensures var file := LedgerState(0, 0.0, 0.0, []);
      && Dated(sessions, 0) && DailyCapsAtMost(sessions, 10.0)
      && SpentOn(HistoryOf(file, sessions), 1) == 12.0
  {
    var config := Config(10.0, 20.0, -5.0, 10.0, [], false);
    var tip, bet := Tip(-5.0, "a", "p", 0, 0), Bet(12.0, "a", "p", 0, 1);
    sessions := [Session(config, 0, [tip, bet])];
    var file := LedgerState(0, 0.0, 0.0, []);
    var s1 := StepOp(file, tip, config);
    TipPasses(file, tip, config);
    LateBetPasses(s1, bet, config);
    TwoOps(file, tip, bet, config);
    assert Repeated(tip, 1) == Repeated(tip, 0) + [tip] == [tip];
    assert [tip] + [bet] == [tip, bet];
    OneDatedSession(sessions[0], tip, 1, bet);
    OneSession(file, sessions[0]);
    var h: History := [(0, TxOf(tip)), (1, TxOf(bet))];
    assert BookedBySession(file, sessions[0]) == h;
    assert h[..1] == [(0, TxOf(tip))];
    assert SpentOn(h[..1], 1) == 0.0;
  }

  lemma TipPasses(s: LedgerState, tip: Op, config: Config)
    requires s == LedgerState(0, 0.0, 0.0, [])
    requires tip == Tip(-5.0, "a", "p", 0, 0) && config == Config(10.0, 20.0, -5.0, 10.0, [], false)
    ensures var t := StepOp(s, tip, config);
      Spends(s, tip, config) && t.date == 0 && t.dailySpent == t.sessionSpent == -5.0
  {
    hide LastN;
    assert AfterCheck(s, tip) == s && Allowlisted("a", []);
    assert WithinCaps(s, -5.0, config);
    assert TipAcceptable(s, -5.0, "a", config);
  }

  lemma LateBetPasses(s: LedgerState, bet: Op, config: Config)
    requires s.date == 0 && s.dailySpent == s.sessionSpent == -5.0
    requires bet == Bet(12.0, "a", "p", 0, 1) && config == Config(10.0, 20.0, -5.0, 10.0, [], false)
    ensures Spends(s, bet, config)
  {
  }

  ghost predicate KeepsDailyCap(config: Config, sessions: seq<Session>, from: Day) {
    forall day :: SpentOn(HistoryOf(LedgerState(from, 0.0, 0.0, []), sessions), day) <= config.dailyCap
  }

  predicate AllUse(config: Config, sessions: seq<Session>) {
    forall i :: 0 <= i < |sessions| ==> sessions[i].config == config
  }

  /** Which configs keep the daily cap in every run: exactly those that bar negative tips. */
  lemma DailyCapHoldsExactly(config: Config)
    requires config.dailyCap >= 0.0 && config.sessionCap >= 0.0
    ensures (forall sessions, from :: Dated(sessions, from) && AllUse(config, sessions) ==> KeepsDailyCap(config, sessions, from))
      <==> BarsNegativeTips(config)
  {
    if BarsNegativeTips(config) {
      forall sessions, from | Dated(sessions, from) && AllUse(config, sessions) ensures KeepsDailyCap(config, sessions, from) {
        DailyCapHoldsOverAllRuns(sessions, from, config.dailyCap);
      }
    } else {
      var sessions := NegativeTipsMakeRoom(config);
    }
  }

  /** Enough negative tips before midnight make room for a bet over the cap that is booked after it. */
  lemma NegativeTipsMakeRoom(config: Config) returns (sessions: seq<Session>)
    requires config.dailyCap >= 0.0 && config.sessionCap >= 0.0 && !BarsNegativeTips(config)
    ensures Dated(sessions, 0) && AllUse(config, sessions) && !KeepsDailyCap(config, sessions, 0)
  {
    hide Allowlisted, StepOp, BookedBy, AfterTips, BarsNegativeTips, OpsInOrder;
    var file := LedgerState(0, 0.0, 0.0, []);
    var n := EnoughTips(config, config.dailyCap + 1.0);
    var tip := Tip(config.perTipMin, if config.allowlist == [] then "" else config.allowlist[0], "p", 0, 0);
    AnyoneIsAllowlisted(config.allowlist);
    var bet := Bet(config.dailyCap + 1.0, "", "p", 0, 1);
    var tips := Repeated(tip, n);
    NegativeTips(config, tip, n);
    sessions := [Session(config, 0, tips + [bet])];
    OneSession(file, sessions[0]);
    assert (tips + [bet])[..n] == tips;
    LateBet(RunOps(file, tips, config), Booked(file, tips, config), Times(n, tip.amount), bet, config);
    assert SpentOn(HistoryOf(file, sessions), 1) == config.dailyCap + 1.0;
    OneDatedSession(sessions[0], tip, n, bet);
  }

  lemma AnyoneIsAllowlisted(allowlist: seq<string>)
    ensures Allowlisted(if allowlist == [] then "" else allowlist[0], allowlist)
  {
  }

  /** The ledger and history while only negative tips were made, all of them on day 0. */
  predicate AfterTips(s: LedgerState, h: History, total: real) {
    s.date == 0 && s.dailySpent == s.sessionSpent == total <= 0.0 && forall i :: 0 <= i < |h| ==> h[i].0 == 0
  }

  lemma OneTip(s: LedgerState, h: History, total: real, tip: Op, config: Config)
    requires config.dailyCap >= 0.0 && config.sessionCap >= 0.0 && !BarsNegativeTips(config)
    requires tip.Tip? && tip.amount == config.perTipMin && tip.checkDay == tip.recordDay == 0
    requires Allowlisted(tip.recipient, config.allowlist) && AfterTips(s, h, total)
    ensures AfterTips(StepOp(s, tip, config), h + BookedBy(s, tip, config), total + tip.amount)
  {
    hide Allowlisted;
    assert Spends(s, tip, config);
  }

  lemma LateBet(s: LedgerState, h: History, total: real, bet: Op, config: Config)
    requires AfterTips(s, h, total) && !BarsNegativeTips(config) && config.dailyCap >= 0.0 && config.sessionCap >= 0.0
    requires bet.Bet? && bet.checkDay == 0 && bet.recordDay == 1 && bet.amount > 0.0 && total + bet.amount <= 0.0
    ensures SpentOn(h + BookedBy(s, bet, config), 1) == bet.amount
  {
    assert Spends(s, bet, config);
    var booked := BookedBy(s, bet, config);
    assert booked == [(1, TxOf(bet))];
    assert (h + booked)[..|h|] == h;
    SpentOnUntouched(h, 1);
  }

  function Repeated(op: Op, n: nat): (ops: seq<Op>)
    ensures |ops| == n
  {
    if n == 0 then [] else Repeated(op, n - 1) + [op]
  }

  lemma {:induction false} RepeatedInOrder(tip: Op, n: nat)
    requires tip.Tip? && tip.checkDay == tip.recordDay == 0
    ensures OpsInOrder(Repeated(tip, n), 0) && LastDay(Repeated(tip, n), 0) == 0
  {
    if n > 0 {
      RepeatedInOrder(tip, n - 1);
      assert Repeated(tip, n)[..n - 1] == Repeated(tip, n - 1);
    }
  }

  lemma OneDatedSession(session: Session, tip: Op, n: nat, bet: Op)
    requires tip.Tip? && tip.checkDay == tip.recordDay == 0
    requires bet.Bet? && bet.checkDay == 0 && bet.recordDay == 1
    requires session.loadDay == 0 && session.ops == Repeated(tip, n) + [bet]
    ensures Dated([session], 0)
  {
    RepeatedInOrder(tip, n);
    assert session.ops[..n] == Repeated(tip, n);
    assert [session][..0] == [];
    assert Dated([], 0);
  }

  lemma EnoughTips(config: Config, need: real) returns (n: nat)
    requires need >= 0.0 && !BarsNegativeTips(config)
    ensures Times(n, config.perTipMin) + need <= 0.0
  {
    var m := config.perTipMin;
    n := (need / -m).Floor + 1;
    TimesIsProduct(n, m);
    assert n as real >= need / -m;
    assert n as real * -m >= (need / -m) * -m == need;
  }

  lemma {:induction false} NegativeTips(config: Config, tip: Op, n: nat)
    requires config.dailyCap >= 0.0 && config.sessionCap >= 0.0 && !BarsNegativeTips(config)
    requires tip.Tip? && tip.amount == config.perTipMin && tip.checkDay == tip.recordDay == 0
    requires Allowlisted(tip.recipient, config.allowlist)
    ensures var file, ops := LedgerState(0, 0.0, 0.0, []), Repeated(tip, n);
      AfterTips(RunOps(file, ops, config), Booked(file, ops, config), Times(n, tip.amount))
  {
    hide Allowlisted, StepOp, BookedBy, AfterTips, BarsNegativeTips, RunOps, Booked, Times;
    if n == 0 {
      NothingTipped(config, tip);
    } else {
      var file, most := LedgerState(0, 0.0, 0.0, []), Repeated(tip, n - 1);
      NegativeTips(config, tip, n - 1);
      OneMoreOp(file, most, tip, config);
      TimesNext(n - 1, tip.amount);
      OneTip(RunOps(file, most, config), Booked(file, most, config), Times(n - 1, tip.amount), tip, config);
    }
  }

  lemma NothingTipped(config: Config, tip: Op)
    ensures var file := LedgerState(0, 0.0, 0.0, []);
      AfterTips(RunOps(file, [], config), Booked(file, [], config), Times(0, tip.amount))
  {
  }

  lemma TwoOps(s: LedgerState, a: Op, b: Op, config: Config)
    ensures Booked(s, [a, b], config) == BookedBy(s, a, config) + BookedBy(StepOp(s, a, config), b, config)
  {
    assert [a, b][..1] == [a] && [a][..0] == [];
    assert RunOps(s, [a], config) == StepOp(RunOps(s, [], config), a, config);
    assert Booked(s, [a], config) == Booked(s, [], config) + BookedBy(s, a, config);
  }

  lemma OneSession(file: LedgerState, session: Session)
    ensures HistoryOf(file, [session]) == BookedBySession(file, session)
  {
    assert [session][..0] == [];
    assert RunSessions(file, []) == file;
  }

  // ---------------------------------------------------------------- the session cap

  /** The session cap of a session that loads what earlier ones left. */
  predicate KeepsSessionCap(most: seq<Session>, last: Session, from: Day) {
    Spent(BookedBySession(RunSessions(LedgerState(from, 0.0, 0.0, []), most), last)) <= last.config.sessionCap
  }

  /** A dry run recorded as -5 hides 5 DEM of a bet of 10 from a session cap of 5. */
  lemma NegativeDryRunBreaksSessionCap() returns (config: Config, ops: seq<Op>)
    ensures config == Config(10.0, 5.0, 1.0, 10.0, [], false) && OpsInOrder(ops, 0)
    ensures DryAmounts(ops) == [-5.0] && Spent(Booked(LedgerState(0, 0.0, 0.0, []), ops, config)) == 10.0
  {
    config := Config(10.0, 5.0, 1.0, 10.0, [], false);
    var dry, bet := RecordDry(-5.0, "a", "p", 0), Bet(10.0, "a", "p", 0, 0);
    ops := [dry, bet];
    var file := LedgerState(0, 0.0, 0.0, []);
    assert ops[..1] == [dry] && [dry][..0] == [];
    assert DryAmounts([dry]) == DryAmounts([]) + [-5.0];
    assert OpsInOrder([], 0) && OpsInOrder([dry], 0);
    TwoOps(file, dry, bet, config);
    assert Spends(StepOp(file, dry, config), bet, config);
    OneMoreBooked([], TxOf(dry), 0, 0);
    OneMoreBooked([(0, TxOf(dry))], TxOf(bet), 0, 0);
    assert Booked(file, ops, config) == [] + [(0, TxOf(dry))] + [(0, TxOf(bet))];
  }

  /** In a dry run, or with a daily cap of 0 and negative tips barred, nothing is really spent. */
  predicate AllowsNoSpending(config: Config) {
    config.dryRun || (config.dailyCap <= 0.0 && BarsNegativeTips(config))
  }

  /** Which dry runs of a session are compatible with its cap, under a given config and after any
      earlier sessions: exactly those that never come to less than nothing, unless the config allows
      no real spending at all. */
  lemma SessionCapHoldsExactly(config: Config, dry: seq<real>)
    requires config.dailyCap >= 0.0 && config.sessionCap >= 0.0
    ensures (forall most, last, from :: Dated(most + [last], from) && AllUse(config, most + [last]) && DryAmounts(last.ops) == dry ==>
              KeepsSessionCap(most, last, from))
      <==> NeverNegative(dry) || AllowsNoSpending(config)
  {
    if NeverNegative(dry) || AllowsNoSpending(config) {
      forall most, last, from | Dated(most + [last], from) && AllUse(config, most + [last]) && DryAmounts(last.ops) == dry
        ensures KeepsSessionCap(most, last, from)
      {
        assert (most + [last])[|most|] == last;
        forall i | 0 <= i < |most| ensures most[i].config == config {
          assert (most + [last])[i] == most[i];
        }
        SessionCapIsKept(most, last, from);
      }
    } else {
      var most, last := NegativeDryRunsMakeRoom(config, dry);
    }
  }

  lemma SessionCapIsKept(most: seq<Session>, last: Session, from: Day)
    requires last.config.sessionCap >= 0.0
    requires NeverNegative(DryAmounts(last.ops)) || AllowsNoSpending(last.config)
    requires forall i :: 0 <= i < |most| ==> most[i].config == last.config
    ensures KeepsSessionCap(most, last, from)
  {
    hide RunSessions, NeverNegative, Booked, Spent, DryAmounts;
    var file := RunSessions(LedgerState(from, 0.0, 0.0, []), most);
    if NeverNegative(DryAmounts(last.ops)) {
      SessionCapHolds(Opened(file, last), last.ops, last.config, last.config.sessionCap);
    } else {
      DailySumOfRun(LedgerState(from, 0.0, 0.0, []), most);
      NothingToSpend(Opened(file, last), last.ops, last.config);
    }
  }

  /** Where negative tips are barred the daily sum never falls below 0. */
  lemma {:induction false} DailySumOfOps(s: LedgerState, ops: seq<Op>, config: Config)
    requires s.dailySpent >= 0.0 && BarsNegativeTips(config)
    ensures RunOps(s, ops, config).dailySpent >= 0.0
    decreases |ops|
  {
    if ops != [] { DailySumOfOps(s, ops[..|ops| - 1], config); }
  }

  lemma {:induction false} DailySumOfRun(file: LedgerState, sessions: seq<Session>)
    requires file.dailySpent >= 0.0 && forall i :: 0 <= i < |sessions| ==> BarsNegativeTips(sessions[i].config)
    ensures RunSessions(file, sessions).dailySpent >= 0.0
    decreases |sessions|
  {
    if sessions != [] {
      hide RunOps, BarsNegativeTips;
      var most, last := sessions[..|sessions| - 1], sessions[|sessions| - 1];
      DailySumOfRun(file, most);
      DailySumOfOps(Opened(RunSessions(file, most), last), last.ops, last.config);
    }
  }

  /** With a daily cap of 0 or in a dry run, real spending never comes to more than nothing. */
  lemma {:induction false} NothingToSpend(s: LedgerState, ops: seq<Op>, config: Config)
    requires s.dailySpent >= 0.0 && (config.dryRun || config.dailyCap <= 0.0)
    ensures Spent(Booked(s, ops, config)) <= 0.0 && Spent(Booked(s, ops, config)) <= RunOps(s, ops, config).dailySpent
    decreases |ops|
  {
    if ops != [] {
      hide StepOp, BookedBy, Spent;
      var most, op := ops[..|ops| - 1], ops[|ops| - 1];
      NothingToSpend(s, most, config);
      StepSpendsNothing(RunOps(s, most, config), Booked(s, most, config), op, config);
    } else {
      assert Spent([]) == 0.0;
    }
  }

  lemma StepSpendsNothing(s: LedgerState, h: History, op: Op, config: Config)
    requires config.dryRun || config.dailyCap <= 0.0
    requires Spent(h) <= 0.0 && Spent(h) <= s.dailySpent
    ensures Spent(h + BookedBy(s, op, config)) <= 0.0
    ensures Spent(h + BookedBy(s, op, config)) <= StepOp(s, op, config).dailySpent
  {
    if Records(s, op, config) {
      OneMoreBooked(h, TxOf(op), op.recordDay, op.recordDay);
    } else {
      assert h + [] == h;
    }
  }

  function DryOps(xs: seq<real>, day: Day): seq<Op> {
    if xs == [] then [] else DryOps(xs[..|xs| - 1], day) + [RecordDry(xs[|xs| - 1], "", "", day)]
  }

  /** Bets of the same amount, one a day. */
  function BetOps(k: nat, amount: real): seq<Op> {
    if k == 0 then [] else BetOps(k - 1, amount) + [Bet(amount, "", "", k, k)]
  }

  /** How a session that loaded `file` stands, in numbers. */
  ghost predicate Stands(file: LedgerState, ops: seq<Op>, config: Config, dry: seq<real>, day: Day, sum: real, spent: real) {
    && OpsInOrder(ops, 0) && LastDay(ops, 0) == day && RunOps(file, ops, config).date == day
    && DryAmounts(ops) == dry
    && RunOps(file, ops, config).sessionSpent == sum && Spent(Booked(file, ops, config)) == spent
  }

  lemma OneMoreOp(file: LedgerState, ops: seq<Op>, op: Op, config: Config)
    ensures RunOps(file, ops + [op], config) == StepOp(RunOps(file, ops, config), op, config)
    ensures Booked(file, ops + [op], config) == Booked(file, ops, config) + BookedBy(RunOps(file, ops, config), op, config)
    ensures OpsInOrder(ops + [op], 0) <==> OpsInOrder(ops, 0) && OpDays(op, LastDay(ops, 0))
    ensures LastDay(ops + [op], 0) == op.recordDay
    ensures DryAmounts(ops + [op]) == DryAmounts(ops) + if op.RecordDry? then [op.amount] else []
  {
    assert (ops + [op])[..|ops|] == ops;
  }

  lemma OneDryRun(file: LedgerState, ops: seq<Op>, config: Config, dry: seq<real>, day: Day, sum: real, spent: real, x: real)
    requires Stands(file, ops, config, dry, day, sum, spent)
    ensures Stands(file, ops + [RecordDry(x, "", "", day)], config, dry + [x], day, sum + x, spent)
  {
    hide RunOps, Booked, OpsInOrder, DryAmounts, LastDay, Spent;
    var op := RecordDry(x, "", "", day);
    OneMoreOp(file, ops, op, config);
    OneMoreBooked(Booked(file, ops, config), TxOf(op), day, day);
  }

  lemma OneBet(file: LedgerState, ops: seq<Op>, config: Config, dry: seq<real>, day: Day, sum: real, spent: real, x: real)
    requires Stands(file, ops, config, dry, day, sum, spent)
    requires !config.dryRun && 0.0 < x <= config.dailyCap && sum + x <= config.sessionCap
    ensures Stands(file, ops + [Bet(x, "", "", day + 1, day + 1)], config, dry, day + 1, sum + x, spent + x)
  {
    hide RunOps, Booked, OpsInOrder, DryAmounts, LastDay, Spent, StepOp, BookedBy, Spends;
    var op := Bet(x, "", "", day + 1, day + 1);
    OneMoreOp(file, ops, op, config);
    BetStep(RunOps(file, ops, config), day, x, config);
    OneMoreBooked(Booked(file, ops, config), TxOf(op), day + 1, day + 1);
    assert dry + [] == dry;
  }

  lemma BetStep(s: LedgerState, day: Day, x: real, config: Config)
    requires s.date == day && !config.dryRun && 0.0 < x <= config.dailyCap && s.sessionSpent + x <= config.sessionCap
    ensures var op := Bet(x, "", "", day + 1, day + 1);
      && StepOp(s, op, config).date == day + 1 && StepOp(s, op, config).sessionSpent == s.sessionSpent + x
      && BookedBy(s, op, config) == [(day + 1, TxOf(op))]
  {
    hide LastN;
  }

  lemma BetToday(file: LedgerState, ops: seq<Op>, config: Config, dry: seq<real>, day: Day, sum: real, spent: real, x: real)
    requires Stands(file, ops, config, dry, day, sum, spent)
    requires !config.dryRun && x > 0.0 && RunOps(file, ops, config).dailySpent + x <= config.dailyCap && sum + x <= config.sessionCap
    ensures Stands(file, ops + [Bet(x, "", "", day, day)], config, dry, day, sum + x, spent + x)
  {
    hide RunOps, Booked, OpsInOrder, DryAmounts, LastDay, Spent;
    var op := Bet(x, "", "", day, day);
    OneMoreOp(file, ops, op, config);
    assert Spends(RunOps(file, ops, config), op, config);
    OneMoreBooked(Booked(file, ops, config), TxOf(op), day, day);
    assert dry + [] == dry;
  }

  lemma {:induction false} SomeDryRuns(file: LedgerState, ops: seq<Op>, config: Config, dry: seq<real>, day: Day, sum: real, spent: real, xs: seq<real>)
    requires Stands(file, ops, config, dry, day, sum, spent)
    ensures Stands(file, ops + DryOps(xs, day), config, dry + xs, day, sum + Sum(xs), spent)
  {
    hide Stands;
    if xs == [] {
      assert ops + [] == ops && dry + [] == dry;
    } else {
      var n := |xs| - 1;
      SomeDryRuns(file, ops, config, dry, day, sum, spent, xs[..n]);
      OneDryRun(file, ops + DryOps(xs[..n], day), config, dry + xs[..n], day, sum + Sum(xs[..n]), spent, xs[n]);
      assert ops + DryOps(xs[..n], day) + [RecordDry(xs[n], "", "", day)] == ops + DryOps(xs, day);
      assert dry + xs[..n] + [xs[n]] == dry + xs;
    }
  }

  lemma {:induction false} SomeBets(file: LedgerState, ops: seq<Op>, config: Config, dry: seq<real>, sum: real, k: nat, x: real)
    requires Stands(file, ops, config, dry, 0, sum, 0.0)
    requires !config.dryRun && 0.0 < x <= config.dailyCap && sum + Times(k, x) <= config.sessionCap
    ensures Stands(file, ops + BetOps(k, x), config, dry, k, sum + Times(k, x), Times(k, x))
  {
    hide Stands;
    if k == 0 {
      assert ops + [] == ops;
    } else {
      SomeBets(file, ops, config, dry, sum, k - 1, x);
      OneBet(file, ops + BetOps(k - 1, x), config, dry, k - 1, sum + Times(k - 1, x), Times(k - 1, x), x);
      assert ops + BetOps(k - 1, x) + [Bet(x, "", "", k, k)] == ops + BetOps(k, x);
    }
  }

  lemma Parts(total: real, most: real) returns (k: nat, x: real)
    requires total > 0.0 && most > 0.0
    ensures 0.0 < x <= most && Times(k, x) == total
  {
    k := (total / most).Floor + 1;
    x := total / k as real;
    TimesIsProduct(k, x);
    assert k as real * most >= (total / most) * most == total;
    QuotientAtMost(total, k as real, most);
  }

  lemma QuotientAtMost(total: real, k: real, most: real)
    requires k > 0.0 && total <= k * most
    ensures total / k <= most
  {
    assert (k * most) / k == most;
  }

  lemma NothingStands(file: LedgerState, config: Config)
    requires file.date == 0 && file.sessionSpent == 0.0
    ensures Stands(file, [], config, [], 0, 0.0, 0.0)
  {
  }

  /** Once the dry runs come to less than nothing, bets on the following days can overspend by as much. */
  lemma BetsOnLaterDays(config: Config, dry: seq<real>, n: nat) returns (ops: seq<Op>)
    requires config.sessionCap >= 0.0 && !config.dryRun && config.dailyCap > 0.0 && n <= |dry| && Sum(dry[..n]) < 0.0
    ensures OpsInOrder(ops, 0) && DryAmounts(ops) == dry
    ensures Spent(Booked(LedgerState(0, 0.0, 0.0, []), ops, config)) > config.sessionCap
  {
    hide Sum, OpsInOrder, RunOps, Booked, DryAmounts, LastDay, Spent;
    var file, debt := LedgerState(0, 0.0, 0.0, []), Sum(dry[..n]);
    var k, x := Parts(config.sessionCap - debt, config.dailyCap);
    NothingStands(file, config);
    SomeDryRuns(file, [], config, [], 0, 0.0, 0.0, dry[..n]);
    assert [] + DryOps(dry[..n], 0) == DryOps(dry[..n], 0) && [] + dry[..n] == dry[..n];
    var first := DryOps(dry[..n], 0);
    SomeBets(file, first, config, dry[..n], debt, k, x);
    SomeDryRuns(file, first + BetOps(k, x), config, dry[..n], k, debt + Times(k, x), Times(k, x), dry[n..]);
    assert dry[..n] + dry[n..] == dry;
    ops := first + BetOps(k, x) + DryOps(dry[n..], k);
  }

  lemma {:induction false} DryRunsKeepTheDay(file: LedgerState, xs: seq<real>, config: Config)
    requires file.date == 0
    ensures RunOps(file, DryOps(xs, 0), config).date == 0 && RunOps(file, DryOps(xs, 0), config).dailySpent == file.dailySpent
  {
    if xs != [] {
      DryRunsKeepTheDay(file, xs[..|xs| - 1], config);
      OneMoreOp(file, DryOps(xs[..|xs| - 1], 0), RecordDry(xs[|xs| - 1], "", "", 0), config);
    }
  }

  /** So can one bet on a day whose sum earlier negative tips have brought low enough. */
  lemma BetAgainstTips(file: LedgerState, config: Config, dry: seq<real>, n: nat) returns (ops: seq<Op>)
    requires config.sessionCap >= 0.0 && !config.dryRun && n <= |dry| && Sum(dry[..n]) < 0.0
    requires file.date == 0 && file.sessionSpent == 0.0
    requires file.dailySpent + (config.sessionCap - Sum(dry[..n])) <= config.dailyCap
    ensures OpsInOrder(ops, 0) && DryAmounts(ops) == dry && Spent(Booked(file, ops, config)) > config.sessionCap
  {
    hide Sum, OpsInOrder, RunOps, Booked, DryAmounts, LastDay, Spent;
    var debt := Sum(dry[..n]);
    var x := config.sessionCap - debt;
    NothingStands(file, config);
    SomeDryRuns(file, [], config, [], 0, 0.0, 0.0, dry[..n]);
    assert [] + DryOps(dry[..n], 0) == DryOps(dry[..n], 0) && [] + dry[..n] == dry[..n];
    var first := DryOps(dry[..n], 0);
    DryRunsKeepTheDay(file, dry[..n], config);
    BetToday(file, first, config, dry[..n], 0, debt, 0.0, x);
    SomeDryRuns(file, first + [Bet(x, "", "", 0, 0)], config, dry[..n], 0, debt + x, x, dry[n..]);
    assert dry[..n] + dry[n..] == dry;
    ops := first + [Bet(x, "", "", 0, 0)] + DryOps(dry[n..], 0);
  }

  /** A session of negative tips, all on day 0. */
  lemma SessionOfTips(config: Config, need: real) returns (tips: Session)
    requires need >= 0.0 && config.dailyCap >= 0.0 && config.sessionCap >= 0.0 && !BarsNegativeTips(config)
    ensures tips.config == config && Dated([tips], 0) && EndDay([tips], 0) == 0
    ensures var file := RunSessions(LedgerState(0, 0.0, 0.0, []), [tips]);
      file.date == 0 && file.dailySpent + need <= 0.0
  {
    hide Allowlisted, BarsNegativeTips, OpsInOrder, RunOps, LastDay;
    var n := EnoughTips(config, need);
    var tip := Tip(config.perTipMin, if config.allowlist == [] then "" else config.allowlist[0], "p", 0, 0);
    AnyoneIsAllowlisted(config.allowlist);
    NegativeTips(config, tip, n);
    RepeatedInOrder(tip, n);
    tips := Session(config, 0, Repeated(tip, n));
    assert [tips][..0] == [] && Dated([], 0);
    assert RunSessions(LedgerState(0, 0.0, 0.0, []), []) == LedgerState(0, 0.0, 0.0, []);
  }

  lemma DatedAfter(most: seq<Session>, last: Session)
    requires Dated(most, 0) && EndDay(most, 0) <= 0 && last.loadDay == 0 && OpsInOrder(last.ops, 0)
    ensures Dated(most + [last], 0)
  {
    assert (most + [last])[..|most|] == most;
  }

  /** In every other case some session goes over its cap. */
  lemma NegativeDryRunsMakeRoom(config: Config, dry: seq<real>) returns (most: seq<Session>, last: Session)
    requires config.dailyCap >= 0.0 && config.sessionCap >= 0.0 && !NeverNegative(dry) && !AllowsNoSpending(config)
    ensures Dated(most + [last], 0) && AllUse(config, most + [last]) && DryAmounts(last.ops) == dry
    ensures !KeepsSessionCap(most, last, 0)
  {
    hide Sum, OpsInOrder, RunOps, Booked, DryAmounts, LastDay, Spent, Dated;
    var n: nat :| n <= |dry| && Sum(dry[..n]) < 0.0;
    NothingDated();
    if config.dailyCap > 0.0 {
      var ops := BetsOnLaterDays(config, dry, n);
      most, last := [], Session(config, 0, ops);
      DatedAfter(most, last);
    } else {
      var tips := SessionOfTips(config, config.sessionCap - Sum(dry[..n]));
      var file := RunSessions(LedgerState(0, 0.0, 0.0, []), [tips]).(sessionSpent := 0.0);
      var ops := BetAgainstTips(file, config, dry, n);
      most, last := [tips], Session(config, 0, ops);
      DatedAfter(most, last);
    }
  }

  lemma NothingDated()
    ensures Dated([], 0) && EndDay([], 0) == 0
  {
  }
}
