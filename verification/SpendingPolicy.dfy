/**
  The DEM spending ledger of src/lib/spending-policy.ts.

  Amounts are reals (rounding is not the point) and UTC dates are day numbers, of which the code
  only ever asks whether two are equal. Every function that reads the clock takes the reading as
  a parameter, so midnight may fall between any two of them.
 */
module SpendingPolicy {
  import opened Reals
  import opened Text

  type Day = int

  datatype Config = Config(
    dailyCap: real, sessionCap: real, perTipMin: real, perTipMax: real,
    allowlist: seq<string>, dryRun: bool)

  datatype Transaction = Transaction(amount: real, recipient: string, postTxHash: string, dryRun: bool)

  datatype Reason =
    | DryRun | BelowMinimum | AboveMaximum | DailyCapExceeded(remaining: real)
    | SessionCapExceeded(remaining: real) | NotAllowlisted | InvalidAmount | WithinLimits

  datatype Decision = Decision(allowed: bool, reason: Reason, dryRun: bool)

  /** The fields of a ledger; also what the ledger file holds. */
  datatype LedgerState = LedgerState(date: Day, dailySpent: real, sessionSpent: real, transactions: seq<Transaction>)

  const MAX_TRANSACTIONS := 100

  function LastN<T>(s: seq<T>, n: nat): seq<T> {
    if |s| <= n then s else s[|s| - n..]
  }

  predicate Allowlisted(recipient: string, allowlist: seq<string>) {
    allowlist == [] || exists i :: 0 <= i < |allowlist| && Lower(allowlist[i]) == Lower(recipient)
  }

  /** The allowlist does not look at the case of addresses. */
  lemma AllowlistIgnoresCase(a: string, b: string, allowlist: seq<string>)
    requires Lower(a) == Lower(b)
    ensures Allowlisted(a, allowlist) <==> Allowlisted(b, allowlist)
    ensures a in allowlist ==> Allowlisted(b, allowlist)
  {
    if a in allowlist {
      var i :| 0 <= i < |allowlist| && allowlist[i] == a;
      assert Lower(allowlist[i]) == Lower(b);
    }
  }

  function Rollover(s: LedgerState, today: Day): LedgerState {
    if s.date != today then s.(date := today, dailySpent := 0.0) else s
  }

  /** The effect of recordSpend. */
  function Record(s: LedgerState, tx: Transaction, today: Day): LedgerState {
    var r := Rollover(s, today);
    LedgerState(
      today,
      if tx.dryRun then r.dailySpent else r.dailySpent + tx.amount,
      r.sessionSpent + tx.amount,
      LastN(r.transactions + [tx], MAX_TRANSACTIONS))
  }

  predicate WithinCaps(s: LedgerState, amount: real, config: Config) {
    s.dailySpent + amount <= config.dailyCap && s.sessionSpent + amount <= config.sessionCap
  }

  /** What a real tip has to satisfy against a ledger whose counters are today's. */
  predicate TipAcceptable(s: LedgerState, amount: real, recipient: string, config: Config) {
    && config.perTipMin <= amount <= config.perTipMax
    && WithinCaps(s, amount, config)
    && Allowlisted(recipient, config.allowlist)
  }

  // ---------------------------------------------------------------- the ledger object

  class Ledger {
    var date: Day
    var dailySpent: real
    var sessionSpent: real
    var transactions: seq<Transaction>

    ghost function State(): LedgerState
      reads this
    {
      LedgerState(date, dailySpent, sessionSpent, transactions)
    }

    /** freshLedger */
    constructor Fresh(today: Day)
      ensures State() == LedgerState(today, 0.0, 0.0, [])
    {
      date, dailySpent, sessionSpent, transactions := today, 0.0, 0.0, [];
    }

    /** loadSpendingLedger on a well-formed file. */
    constructor Load(file: LedgerState, today: Day)
      ensures State() == Rollover(file, today).(sessionSpent := 0.0)
    {
      date, dailySpent, transactions := file.date, file.dailySpent, file.transactions;
      sessionSpent := 0.0;
      new;
      if date != today {
        date := today;
        dailySpent := 0.0;
      }
    }

    method CanSpend(amount: real, recipient: string, config: Config, today: Day) returns (d: Decision)
      modifies this
      ensures State() == Rollover(old(State()), today)
      ensures d.allowed <==>
        (config.dryRun
         || (config.perTipMin <= amount <= config.perTipMax
             && dailySpent + amount <= config.dailyCap && sessionSpent + amount <= config.sessionCap
             && (config.allowlist == [] || exists i :: 0 <= i < |config.allowlist| && Lower(config.allowlist[i]) == Lower(recipient))))
      ensures d.dryRun <==> config.dryRun
      ensures d.allowed <==> d.reason.DryRun? || d.reason.WithinLimits?
      ensures d.reason.DailyCapExceeded? ==>
        (dailySpent + amount > config.dailyCap && d.reason.remaining == Max(0.0, config.dailyCap - dailySpent))
      ensures d.reason.SessionCapExceeded? ==>
        (dailySpent + amount <= config.dailyCap && sessionSpent + amount > config.sessionCap
         && d.reason.remaining == Max(0.0, config.sessionCap - sessionSpent))
      ensures d.reason.NotAllowlisted? ==>
        (WithinCaps(State(), amount, config) && !Allowlisted(recipient, config.allowlist))
      ensures d.reason.BelowMinimum? ==> amount < config.perTipMin
      ensures d.reason.AboveMaximum? ==> config.perTipMin <= amount && amount > config.perTipMax
      ensures !d.reason.InvalidAmount?
    {
      if date != today {
        date := today;
        dailySpent := 0.0;
      }
      if config.dryRun {
        return Decision(true, DryRun, true);
      }
      if amount < config.perTipMin {
        return Decision(false, BelowMinimum, false);
      }
      if amount > config.perTipMax {
        return Decision(false, AboveMaximum, false);
      }
      if dailySpent + amount > config.dailyCap {
        return Decision(false, DailyCapExceeded(Max(0.0, config.dailyCap - dailySpent)), false);
      }
      if sessionSpent + amount > config.sessionCap {
        return Decision(false, SessionCapExceeded(Max(0.0, config.sessionCap - sessionSpent)), false);
      }
      if |config.allowlist| > 0 {
        var normalized := Lower(recipient);
        var allowed := exists i :: 0 <= i < |config.allowlist| && Lower(config.allowlist[i]) == normalized;
        if !allowed {
          return Decision(false, NotAllowlisted, false);
        }
      }
      d := Decision(true, WithinLimits, false);
    }

    method CheckSessionBudget(amount: real, config: Config, today: Day) returns (d: Decision)
      modifies this
      ensures State() == if amount <= 0.0 then old(State()) else Rollover(old(State()), today)
      ensures d.allowed <==>
        (amount > 0.0
         && (config.dryRun || (dailySpent + amount <= config.dailyCap && sessionSpent + amount <= config.sessionCap)))
      ensures d.dryRun <==> config.dryRun && amount > 0.0
      ensures d.reason.InvalidAmount? <==> amount <= 0.0
      ensures d.reason.DailyCapExceeded? ==>
        (dailySpent + amount > config.dailyCap && d.reason.remaining == Max(0.0, config.dailyCap - dailySpent))
      ensures d.reason.SessionCapExceeded? ==>
        (dailySpent + amount <= config.dailyCap && sessionSpent + amount > config.sessionCap
         && d.reason.remaining == Max(0.0, config.sessionCap - sessionSpent))
    {
      if amount <= 0.0 {
        return Decision(false, InvalidAmount, false);
      }
      if date != today {
        date := today;
        dailySpent := 0.0;
      }
      if config.dryRun {
        return Decision(true, DryRun, true);
      }
      if dailySpent + amount > config.dailyCap {
        return Decision(false, DailyCapExceeded(Max(0.0, config.dailyCap - dailySpent)), false);
      }
      if sessionSpent + amount > config.sessionCap {
        return Decision(false, SessionCapExceeded(Max(0.0, config.sessionCap - sessionSpent)), false);
      }
      d := Decision(true, WithinLimits, false);
    }

    /** A signing guard's use of its ledger: check, spend, record; a dry run may be recorded unchecked. */
    method Perform(op: Op, config: Config) returns (booked: bool)
      modifies this
      ensures State() == StepOp(old(State()), op, config)
      ensures booked == Records(old(State()), op, config)
    {
      booked := true;
      if op.Tip? {
        var d := CanSpend(op.amount, op.recipient, config, op.checkDay);
        booked := d.allowed && !d.dryRun;
      } else if op.Bet? {
        var d := CheckSessionBudget(op.amount, config, op.checkDay);
        booked := d.allowed && !d.dryRun;
      }
      if booked {
        RecordSpend(TxOf(op), op.recordDay);
      }
    }

    method RecordSpend(tx: Transaction, today: Day)
      modifies this
      ensures State() == Record(old(State()), tx, today)
    {
      if date != today {
        date := today;
        dailySpent := 0.0;
      }
      if !tx.dryRun {
        dailySpent := dailySpent + tx.amount;
      }
      sessionSpent := sessionSpent + tx.amount;
      transactions := transactions + [tx];
      if |transactions| > 100 {
        transactions := transactions[|transactions| - 100..];
      }
    }
  }

  // ---------------------------------------------------------------- whole runs

  /** What a session does with its ledger. A real spend is recorded with the amount that the check
      before it accepted; the two read the clock separately. */
  datatype Op =
    | Tip(amount: real, recipient: string, post: string, checkDay: Day, recordDay: Day)
    | Bet(amount: real, recipient: string, post: string, checkDay: Day, recordDay: Day)
    | RecordDry(amount: real, recipient: string, post: string, recordDay: Day)

  /** One process: load, operate, save. */
  datatype Session = Session(config: Config, loadDay: Day, ops: seq<Op>)

  /** Everything ever recorded, with the day recordSpend booked it on; the ledger does not keep this. */
  type History = seq<(Day, Transaction)>

  function AfterCheck(s: LedgerState, op: Op): LedgerState {
    match op
    case RecordDry(_, _, _, _) => s
    case Bet(amount, _, _, day, _) => if amount <= 0.0 then s else Rollover(s, day)
    case Tip(_, _, _, day, _) => Rollover(s, day)
  }

  /** The check let a real spend through. */
  predicate Spends(s: LedgerState, op: Op, config: Config) {
    match op
    case RecordDry(_, _, _, _) => false
    case Bet(amount, _, _, _, _) => !config.dryRun && amount > 0.0 && WithinCaps(AfterCheck(s, op), amount, config)
    case Tip(amount, recipient, _, _, _) => !config.dryRun && TipAcceptable(AfterCheck(s, op), amount, recipient, config)
  }

  predicate Records(s: LedgerState, op: Op, config: Config) {
    op.RecordDry? || Spends(s, op, config)
  }

  function TxOf(op: Op): Transaction {
    Transaction(op.amount, op.recipient, op.post, op.RecordDry?)
  }

  function StepOp(s: LedgerState, op: Op, config: Config): LedgerState {
    if Records(s, op, config) then Record(AfterCheck(s, op), TxOf(op), op.recordDay) else AfterCheck(s, op)
  }

  function BookedBy(s: LedgerState, op: Op, config: Config): History {
    if Records(s, op, config) then [(op.recordDay, TxOf(op))] else []
  }

  function RunOps(s: LedgerState, ops: seq<Op>, config: Config): LedgerState
    decreases |ops|
  {
    if ops == [] then s else StepOp(RunOps(s, ops[..|ops| - 1], config), ops[|ops| - 1], config)
  }

  function Booked(s: LedgerState, ops: seq<Op>, config: Config): History
    decreases |ops|
  {
    if ops == [] then []
    else
      var most := ops[..|ops| - 1];
      Booked(s, most, config) + BookedBy(RunOps(s, most, config), ops[|ops| - 1], config)
  }

  function Opened(file: LedgerState, session: Session): LedgerState {
    Rollover(file, session.loadDay).(sessionSpent := 0.0)
  }

  /** The file after a number of sessions, and the history they produced. */
  function RunSessions(file: LedgerState, sessions: seq<Session>): LedgerState
    decreases |sessions|
  {
    if sessions == [] then file
    else
      var last := sessions[|sessions| - 1];
      RunOps(Opened(RunSessions(file, sessions[..|sessions| - 1]), last), last.ops, last.config)
  }

  function BookedBySession(file: LedgerState, session: Session): History {
    Booked(Opened(file, session), session.ops, session.config)
  }

  function HistoryOf(file: LedgerState, sessions: seq<Session>): History
    decreases |sessions|
  {
    if sessions == [] then []
    else
      var most := sessions[..|sessions| - 1];
      HistoryOf(file, most) + BookedBySession(RunSessions(file, most), sessions[|sessions| - 1])
  }

  lemma RunGrows(file: LedgerState, most: seq<Session>, last: Session)
    ensures RunSessions(file, most + [last]) == RunOps(Opened(RunSessions(file, most), last), last.ops, last.config)
    ensures HistoryOf(file, most + [last]) == HistoryOf(file, most) + BookedBySession(RunSessions(file, most), last)
  {
    assert (most + [last])[..|most|] == most;
  }

  function Txs(h: History): seq<Transaction> {
    seq(|h|, i requires 0 <= i < |h| => h[i].1)
  }

  /** Real DEM booked on one day, and in all. */
  function SpentOn(h: History, day: Day): real {
    if h == [] then 0.0
    else
      var (d, tx) := h[|h| - 1];
      SpentOn(h[..|h| - 1], day) + if d == day && !tx.dryRun then tx.amount else 0.0
  }

  function Spent(h: History): real {
    if h == [] then 0.0
    else
      var (_, tx) := h[|h| - 1];
      Spent(h[..|h| - 1]) + if tx.dryRun then 0.0 else tx.amount
  }

  /** The clock of one operation does not run backwards. */
  predicate OpDays(op: Op, from: Day) {
    match op
    case RecordDry(_, _, _, day) => from <= day
    case Bet(_, _, _, check, record) => from <= check <= record
    case Tip(_, _, _, check, record) => from <= check <= record
  }

  predicate OpsInOrder(ops: seq<Op>, from: Day)
    decreases |ops|
  {
    ops == [] || (OpsInOrder(ops[..|ops| - 1], from) && OpDays(ops[|ops| - 1], LastDay(ops[..|ops| - 1], from)))
  }

  function LastDay(ops: seq<Op>, from: Day): Day {
    if ops == [] then from else ops[|ops| - 1].recordDay
  }

  /** Dates never go back, across sessions too. */
  predicate Dated(sessions: seq<Session>, from: Day)
    decreases |sessions|
  {
    sessions == [] ||
    var most, last := sessions[..|sessions| - 1], sessions[|sessions| - 1];
    && Dated(most, from)
    && EndDay(most, from) <= last.loadDay
    && OpsInOrder(last.ops, last.loadDay)
  }

  /** The config lets no real tip of a negative amount through. */
  predicate BarsNegativeTips(config: Config) {
    config.dryRun || config.perTipMin >= 0.0 || config.perTipMin > config.perTipMax
  }

  predicate InOrder(sessions: seq<Session>, from: Day) {
    Dated(sessions, from) && forall i :: 0 <= i < |sessions| ==> BarsNegativeTips(sessions[i].config)
  }

  lemma InOrderExtends(most: seq<Session>, last: Session, from: Day)
    requires InOrder(most, from) && EndDay(most, from) <= last.loadDay && OpsInOrder(last.ops, last.loadDay)
    requires BarsNegativeTips(last.config)
    ensures InOrder(most + [last], from) && EndDay(most + [last], from) == LastDay(last.ops, last.loadDay)
  {
    hide OpsInOrder, BarsNegativeTips;
    var sessions := most + [last];
    assert sessions[..|sessions| - 1] == most;
  }

  function EndDay(sessions: seq<Session>, from: Day): Day {
    if sessions == [] then from
    else var last := sessions[|sessions| - 1]; LastDay(last.ops, last.loadDay)
  }

  predicate DailyCapsAtMost(sessions: seq<Session>, daily: real) {
    forall i :: 0 <= i < |sessions| ==> sessions[i].config.dailyCap <= daily
  }

  /** The session caps, of sessions whose dry runs never come to less than nothing. */
  predicate SessionCapsAtMost(sessions: seq<Session>, session: real) {
    forall i :: 0 <= i < |sessions| ==>
      sessions[i].config.sessionCap <= session && NeverNegative(DryAmounts(sessions[i].ops))
  }

  /** The ledger against the history `h` it has forgotten most of; `day` is the latest clock reading. */
  ghost predicate Consistent(s: LedgerState, h: History, day: Day, daily: real) {
    && s.date <= day
    && s.dailySpent == SpentOn(h, s.date)
    && s.transactions == LastN(Txs(h), MAX_TRANSACTIONS)
    && NoneAfter(h, s.date)
    && NoNegativeSpend(h)
    && forall d :: SpentOn(h, d) <= daily
  }

  predicate NoneAfter(h: History, day: Day) {
    forall i :: 0 <= i < |h| ==> h[i].0 <= day
  }

  predicate NoNegativeSpend(h: History) {
    forall i :: 0 <= i < |h| && !h[i].1.dryRun ==> h[i].1.amount >= 0.0
  }

  lemma {:induction false} SpentOnNothing(h: History, day: Day)
    requires forall i :: 0 <= i < |h| ==> h[i].0 < day
    ensures SpentOn(h, day) == 0.0
    decreases |h|
  {
    if h != [] { SpentOnNothing(h[..|h| - 1], day); }
  }

  lemma {:induction false} SpentOnIsNonNegative(h: History, day: Day)
    requires NoNegativeSpend(h)
    ensures 0.0 <= SpentOn(h, day) <= Spent(h)
    decreases |h|
  {
    if h != [] { SpentOnIsNonNegative(h[..|h| - 1], day); }
  }

  lemma {:induction false} SpentOnAdds(g: History, h: History, day: Day)
    ensures SpentOn(g + h, day) == SpentOn(g, day) + SpentOn(h, day)
    decreases |h|
  {
    if h == [] {
      assert g + h == g;
    } else {
      assert (g + h)[..|g + h| - 1] == g + h[..|h| - 1];
      SpentOnAdds(g, h[..|h| - 1], day);
    }
  }

  lemma LastNExtends<T>(s: seq<T>, x: T, n: nat)
    ensures LastN(LastN(s, n) + [x], n) == LastN(s + [x], n)
  {
  }

  lemma RolloverConsistent(s: LedgerState, h: History, day: Day, today: Day, daily: real)
    requires Consistent(s, h, day, daily) && day <= today
    ensures Consistent(Rollover(s, today), h, today, daily)
  {
    if s.date != today { SpentOnNothing(h, today); }
  }

  lemma OneMoreBooked(h: History, tx: Transaction, today: Day, day: Day)
    ensures SpentOn(h + [(today, tx)], day) == SpentOn(h, day) + if today == day && !tx.dryRun then tx.amount else 0.0
    ensures Spent(h + [(today, tx)]) == Spent(h) + if tx.dryRun then 0.0 else tx.amount
    ensures Txs(h + [(today, tx)]) == Txs(h) + [tx]
  {
    assert (h + [(today, tx)])[..|h|] == h;
  }

  lemma RecordConsistent(s: LedgerState, h: History, day: Day, tx: Transaction, today: Day, daily: real)
    requires Consistent(s, h, day, daily) && day <= today
    requires tx.dryRun || (0.0 <= tx.amount && s.dailySpent + tx.amount <= daily)
    ensures Consistent(Record(s, tx, today), h + [(today, tx)], today, daily)
  {
    hide SpentOn, Txs, LastN;
    RolloverConsistent(s, h, day, today, daily);
    SpentOnIsNonNegative(h, s.date);
    OneMoreBooked(h, tx, today, today);
    LastNExtends(Txs(h), tx, MAX_TRANSACTIONS);
    forall d ensures SpentOn(h + [(today, tx)], d) <= daily {
      OneMoreBooked(h, tx, today, d);
    }
  }

  lemma StepConsistent(s: LedgerState, h: History, day: Day, op: Op, config: Config, daily: real)
    requires Consistent(s, h, day, daily) && OpDays(op, day)
    requires config.dailyCap <= daily && BarsNegativeTips(config)
    ensures Consistent(StepOp(s, op, config), h + BookedBy(s, op, config), op.recordDay, daily)
  {
    hide Consistent, Record, Rollover, Allowlisted;
    if !op.RecordDry? {
      RolloverConsistent(s, h, day, op.checkDay, daily);
      Later(s, h, day, op.checkDay, daily);
    }
    var checked := if op.RecordDry? then day else op.checkDay;
    if Records(s, op, config) {
      RecordConsistent(AfterCheck(s, op), h, checked, TxOf(op), op.recordDay, daily);
    } else {
      Later(AfterCheck(s, op), h, checked, op.recordDay, daily);
      assert h + [] == h;
    }
  }

  lemma Later(s: LedgerState, h: History, day: Day, later: Day, daily: real)
    requires Consistent(s, h, day, daily) && day <= later
    ensures Consistent(s, h, later, daily)
  {
  }

  lemma {:induction false} OpsConsistent(s: LedgerState, h: History, ops: seq<Op>, from: Day, config: Config, daily: real)
    requires Consistent(s, h, from, daily) && OpsInOrder(ops, from)
    requires config.dailyCap <= daily && BarsNegativeTips(config)
    ensures Consistent(RunOps(s, ops, config), h + Booked(s, ops, config), LastDay(ops, from), daily)
    decreases |ops|
  {
    hide Consistent, StepOp, BookedBy, BarsNegativeTips, OpDays;
    if ops == [] {
      assert h + [] == h;
    } else {
      var most, op := ops[..|ops| - 1], ops[|ops| - 1];
      OpsConsistent(s, h, most, from, config, daily);
      var t, now := RunOps(s, most, config), Booked(s, most, config);
      StepConsistent(t, h + now, LastDay(most, from), op, config, daily);
      assert h + now + BookedBy(t, op, config) == h + (now + BookedBy(t, op, config));
    }
  }

  lemma {:induction false} SessionsConsistent(file: LedgerState, sessions: seq<Session>, from: Day, daily: real)
    requires daily >= 0.0 && file == LedgerState(from, 0.0, 0.0, [])
    requires InOrder(sessions, from) && DailyCapsAtMost(sessions, daily)
    ensures Consistent(RunSessions(file, sessions), HistoryOf(file, sessions), EndDay(sessions, from), daily)
    decreases |sessions|
  {
    if sessions != [] {
      hide RunOps, Booked, OpsInOrder, BarsNegativeTips, LastDay, LastN, Txs, SpentOn, NoneAfter, NoNegativeSpend;
      var most, last := sessions[..|sessions| - 1], sessions[|sessions| - 1];
      SessionsConsistent(file, most, from, daily);
      var f, done := RunSessions(file, most), HistoryOf(file, most);
      RolloverConsistent(f, done, EndDay(most, from), last.loadDay, daily);
      OpsConsistent(Opened(f, last), done, last.ops, last.loadDay, last.config, daily);
    }
  }

  /** The daily promise. From a fresh ledger, over any number of sessions that load, spend and save,
      with dates that never go back, no UTC day sees more real DEM than the daily cap, wherever
      midnight falls and although the file keeps only the last 100 transactions; and what the file
      keeps is exactly the tail of the history. */
  lemma DailyCapHoldsOverAllRuns(sessions: seq<Session>, from: Day, daily: real)
    requires daily >= 0.0 && InOrder(sessions, from) && DailyCapsAtMost(sessions, daily)
    ensures var file := LedgerState(from, 0.0, 0.0, []);
      var h, end := HistoryOf(file, sessions), RunSessions(file, sessions);
      && (forall day :: SpentOn(h, day) <= daily)
      && end.dailySpent == SpentOn(h, end.date)
      && end.transactions == if |h| <= 100 then Txs(h) else Txs(h)[|h| - 100..]
  {
    SessionsConsistent(LedgerState(from, 0.0, 0.0, []), sessions, from, daily);
  }

  // ---------------------------------------------------------------- the session cap

  function DryAmounts(ops: seq<Op>): seq<real>
    decreases |ops|
  {
    if ops == [] then []
    else
      var op := ops[|ops| - 1];
      DryAmounts(ops[..|ops| - 1]) + if op.RecordDry? then [op.amount] else []
  }

  function Sum(xs: seq<real>): real {
    if xs == [] then 0.0 else Sum(xs[..|xs| - 1]) + xs[|xs| - 1]
  }

  /** No prefix has a negative sum: the dry runs recorded so far never come to less than nothing. */
  predicate NeverNegative(xs: seq<real>) {
    forall n :: 0 <= n <= |xs| ==> Sum(xs[..n]) >= 0.0
  }

  lemma NeverNegativeAppend(xs: seq<real>, x: real)
    ensures Sum(xs + [x]) == Sum(xs) + x
    ensures NeverNegative(xs + [x]) ==> NeverNegative(xs) && Sum(xs) >= 0.0
  {
    var ys := xs + [x];
    assert ys[..|xs|] == xs && xs[..|xs|] == xs;
    if NeverNegative(ys) {
      forall n | 0 <= n <= |xs| ensures Sum(xs[..n]) >= 0.0 {
        assert ys[..n] == xs[..n];
      }
    }
  }

  /** What a step adds to the session's sum, and to the real spending in it. */
  lemma StepAdds(s: LedgerState, h: History, op: Op, config: Config, session: real)
    requires config.sessionCap <= session
    ensures var added := Spent(h + BookedBy(s, op, config)) - Spent(h);
      && StepOp(s, op, config).sessionSpent == s.sessionSpent + added + (if op.RecordDry? then op.amount else 0.0)
      && (added == 0.0 || s.sessionSpent + added <= session)
  {
    if Records(s, op, config) {
      OneMoreBooked(h, TxOf(op), op.recordDay, op.recordDay);
    } else {
      assert h + [] == h;
    }
  }

  /** The session promise: whatever tips, bets and dry runs a session makes, and at whatever times,
      its real spending stays within the session cap, as long as its dry runs never come to less
      than nothing. The session's sum is the real spending plus the dry runs. */
  lemma {:induction false} SessionCapHolds(s: LedgerState, ops: seq<Op>, config: Config, session: real)
    requires s.sessionSpent == 0.0 && session >= 0.0 && config.sessionCap <= session
    requires NeverNegative(DryAmounts(ops))
    ensures Spent(Booked(s, ops, config)) <= session
    ensures RunOps(s, ops, config).sessionSpent == Spent(Booked(s, ops, config)) + Sum(DryAmounts(ops))
    decreases |ops|
  {
    if ops != [] {
      hide StepOp, BookedBy, NeverNegative, Spent, Sum;
      var most, op := ops[..|ops| - 1], ops[|ops| - 1];
      SumOfPrefix(DryAmounts(most), op.amount);
      SessionCapHolds(s, most, config, session);
      StepAdds(RunOps(s, most, config), Booked(s, most, config), op, config, session);
    }
  }

  lemma SumOfPrefix(xs: seq<real>, x: real)
    ensures NeverNegative(xs + [x]) ==> NeverNegative(xs)
    ensures NeverNegative(xs) ==> Sum(xs) >= 0.0
    ensures Sum(xs + [x]) == Sum(xs) + x && xs + [] == xs
  {
    NeverNegativeAppend(xs, x);
    assert xs[..|xs|] == xs;
  }

  /** In every session of every run, then. */
  lemma SessionCapHoldsOverAllRuns(file: LedgerState, sessions: seq<Session>, session: real)
    requires session >= 0.0 && SessionCapsAtMost(sessions, session)
    ensures forall i :: 0 <= i < |sessions| ==>
      Spent(BookedBySession(RunSessions(file, sessions[..i]), sessions[i])) <= session
  {
    forall i | 0 <= i < |sessions| ensures Spent(BookedBySession(RunSessions(file, sessions[..i]), sessions[i])) <= session {
      var f, last := RunSessions(file, sessions[..i]), sessions[i];
      SessionCapHolds(Opened(f, last), last.ops, last.config, session);
    }
  }

  predicate Touches(file: LedgerState, session: Session, day: Day) {
    exists i :: 0 <= i < |BookedBySession(file, session)| && BookedBySession(file, session)[i].0 == day
  }

  /** How many sessions booked something on the day. */
  function SessionsOn(file: LedgerState, sessions: seq<Session>, day: Day): nat
    decreases |sessions|
  {
    if sessions == [] then 0
    else
      var most := sessions[..|sessions| - 1];
      SessionsOn(file, most, day) + if Touches(RunSessions(file, most), sessions[|sessions| - 1], day) then 1 else 0
  }

  lemma {:induction false} SpentOnUntouched(h: History, day: Day)
    requires forall i :: 0 <= i < |h| ==> h[i].0 != day
    ensures SpentOn(h, day) == 0.0
    decreases |h|
  {
    if h != [] { SpentOnUntouched(h[..|h| - 1], day); }
  }

  function Times(k: nat, x: real): real {
    if k == 0 then 0.0 else Times(k - 1, x) + x
  }

  lemma TimesNext(k: nat, x: real)
    ensures Times(k + 1, x) == Times(k, x) + x
  {
  }

  lemma {:induction false} TimesIsProduct(k: nat, x: real)
    ensures Times(k, x) == k as real * x
  {
    if k > 0 {
      TimesIsProduct(k - 1, x);
      calc {
        (k - 1) as real * x + x;
        (k as real - 1.0) * x + x;
        k as real * x;
      }
    }
  }

  lemma {:induction false} NothingNegativeBooked(s: LedgerState, ops: seq<Op>, config: Config)
    requires BarsNegativeTips(config)
    ensures NoNegativeSpend(Booked(s, ops, config))
    decreases |ops|
  {
    if ops != [] { NothingNegativeBooked(s, ops[..|ops| - 1], config); }
  }

  lemma LastSessionOnDay(f: LedgerState, last: Session, day: Day, session: real)
    requires session >= 0.0 && last.config.sessionCap <= session && NeverNegative(DryAmounts(last.ops))
    requires BarsNegativeTips(last.config)
    ensures SpentOn(BookedBySession(f, last), day) <= if Touches(f, last, day) then session else 0.0
  {
    hide NeverNegative, BarsNegativeTips, Booked, SpentOn, Spent;
    var now := BookedBySession(f, last);
    if Touches(f, last, day) {
      SessionCapHolds(Opened(f, last), last.ops, last.config, session);
      NothingNegativeBooked(Opened(f, last), last.ops, last.config);
      SpentOnIsNonNegative(now, day);
    } else {
      SpentOnUntouched(now, day);
    }
  }

  lemma HistoryGrows(file: LedgerState, sessions: seq<Session>, day: Day)
    requires sessions != []
    ensures var most := sessions[..|sessions| - 1];
      var f, last := RunSessions(file, most), sessions[|sessions| - 1];
      && SpentOn(HistoryOf(file, sessions), day) == SpentOn(HistoryOf(file, most), day) + SpentOn(BookedBySession(f, last), day)
      && SessionsOn(file, sessions, day) == SessionsOn(file, most, day) + if Touches(f, last, day) then 1 else 0
  {
    hide BookedBySession, SpentOn, Touches, RunSessions;
    var most := sessions[..|sessions| - 1];
    SpentOnAdds(HistoryOf(file, most), BookedBySession(RunSessions(file, most), sessions[|sessions| - 1]), day);
  }

  lemma {:induction false} SessionCapAddsUp(sessions: seq<Session>, from: Day, day: Day, session: real)
    requires session >= 0.0 && SessionCapsAtMost(sessions, session)
    requires forall i :: 0 <= i < |sessions| ==> BarsNegativeTips(sessions[i].config)
    ensures var file := LedgerState(from, 0.0, 0.0, []);
      SpentOn(HistoryOf(file, sessions), day) <= Times(SessionsOn(file, sessions, day), session)
    decreases |sessions|
  {
    if sessions != [] {
      hide NeverNegative, BarsNegativeTips, BookedBySession, SpentOn, Touches, RunSessions, HistoryOf, SessionsOn, Times;
      var file := LedgerState(from, 0.0, 0.0, []);
      var most, last := sessions[..|sessions| - 1], sessions[|sessions| - 1];
      SessionCapAddsUp(most, from, day, session);
      LastSessionOnDay(RunSessions(file, most), last, day, session);
      HistoryGrows(file, sessions, day);
      TimesNext(SessionsOn(file, most, day), session);
    }
  }

  /** k sessions that book on one day spend at most min(dailyCap, k * sessionCap) on it. */
  lemma DayIsBoundedBySessions(sessions: seq<Session>, from: Day, day: Day, daily: real, session: real)
    requires daily >= 0.0 && session >= 0.0 && InOrder(sessions, from)
    requires DailyCapsAtMost(sessions, daily) && SessionCapsAtMost(sessions, session)
    ensures var file := LedgerState(from, 0.0, 0.0, []);
      SpentOn(HistoryOf(file, sessions), day) <= Min(daily, Times(SessionsOn(file, sessions, day), session))
  {
    hide NeverNegative, BarsNegativeTips, HistoryOf, SessionsOn, SpentOn, RunSessions, Dated;
    DailyCapHoldsOverAllRuns(sessions, from, daily);
    SessionCapAddsUp(sessions, from, day, session);
    assert SpentOn(HistoryOf(LedgerState(from, 0.0, 0.0, []), sessions), day) <= daily;
  }
}
