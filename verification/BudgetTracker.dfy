/**
  The per-session budget tracker of src/lib/budget-tracker.ts.
 */
module BudgetTracker {
  import opened Wrappers

  datatype Category = Gas | Attestation | Tipping | Storage | Operations | Unallocated

  datatype Allocation = Allocation(percentage: real, cap: Option<real>)

  datatype Entry = Spend(category: Category, amount: real) | Income(category: Category, amount: real)

  type Allocations = Category -> Allocation

  /** DEFAULT_ALLOCATIONS */
  function DefaultAllocations(): Allocations {
    (c: Category) =>
      match c
      case Gas => Allocation(10.0, None)
      case Attestation => Allocation(20.0, None)
      case Tipping => Allocation(15.0, None)
      case Storage => Allocation(5.0, None)
      case Operations => Allocation(20.0, None)
      case Unallocated => Allocation(30.0, None)
  }

  /** One amount for each category. */
  datatype Amounts = Amounts(gas: real, attestation: real, tipping: real, storage: real, operations: real, unallocated: real) {
    function Of(c: Category): real {
      match c
      case Gas => gas
      case Attestation => attestation
      case Tipping => tipping
      case Storage => storage
      case Operations => operations
      case Unallocated => unallocated
    }

    function Plus(c: Category, amount: real): Amounts {
      match c
      case Gas => this.(gas := gas + amount)
      case Attestation => this.(attestation := attestation + amount)
      case Tipping => this.(tipping := tipping + amount)
      case Storage => this.(storage := storage + amount)
      case Operations => this.(operations := operations + amount)
      case Unallocated => this.(unallocated := unallocated + amount)
    }

    function Sum(): real {
      gas + attestation + tipping + storage + operations + unallocated
    }
  }

  datatype State = State(totalBalance: real, spend: Amounts, income: Amounts, entries: seq<Entry>)

  function Zeros(): Amounts {
    Amounts(0.0, 0.0, 0.0, 0.0, 0.0, 0.0)
  }

  function Fresh(totalBalance: real): State {
    State(totalBalance, Zeros(), Zeros(), [])
  }

  function Percent(total: real, percentage: real): real {
    total * percentage / 100.0
  }

  function Budget(total: real, a: Allocation): real {
    var p := Percent(total, a.percentage);
    if a.cap.Some? && a.cap.value < p then a.cap.value else p
  }

  function Remaining(total: real, spent: real, a: Allocation): real {
    var left := Budget(total, a) - spent;
    if left > 0.0 then left else 0.0
  }

  class Tracker {
    var totalBalance: real
    var spend: Amounts
    var income: Amounts
    var entries: seq<Entry>
    const allocations: Allocations

    ghost function Value(): State
      reads this
    {
      State(totalBalance, spend, income, entries)
    }

    constructor (totalBalance: real, allocations: Allocations)
      ensures Value() == Fresh(totalBalance) && this.allocations == allocations
    {
      this.totalBalance, this.allocations := totalBalance, allocations;
      spend, income, entries := Zeros(), Zeros(), [];
    }

    method CanAfford(category: Category, amount: real) returns (r: bool)
      ensures r <==> Affordable(Value(), allocations, category, amount)
    {
      r := Remaining(totalBalance, spend.Of(category), allocations(category)) >= amount;
    }

    /** Over budget is reported, and recorded all the same. */
    method RecordSpend(category: Category, amount: real) returns (affordable: bool)
      modifies this
      ensures Value() == Apply(old(Value()), DoSpend(category, amount))
      ensures affordable <==> Affordable(old(Value()), allocations, category, amount)
    {
      affordable := CanAfford(category, amount);
      spend := spend.Plus(category, amount);
      entries := entries + [Spend(category, amount)];
    }

    method RecordIncome(category: Category, amount: real)
      modifies this
      ensures Value() == Apply(old(Value()), DoIncome(category, amount))
    {
      income := income.Plus(category, amount);
      totalBalance := totalBalance + amount;
      entries := entries + [Income(category, amount)];
    }

    method SetBalance(newBalance: real)
      modifies this`totalBalance
      ensures Value() == Apply(old(Value()), DoSetBalance(newBalance))
    {
      totalBalance := newBalance;
    }
  }

  // ---------------------------------------------------------------- runs

  datatype Op = DoSpend(category: Category, amount: real) | DoIncome(category: Category, amount: real) | DoSetBalance(balance: real)

  /** What is not positive is always affordable; anything else if it still fits the category's share,
      and its cap if it has one. */
  ghost predicate Affordable(s: State, allocations: Allocations, category: Category, amount: real) {
    var a, after := allocations(category), s.spend.Of(category) + amount;
    amount <= 0.0 || (after <= s.totalBalance * a.percentage / 100.0 && (a.cap.Some? ==> after <= a.cap.value))
  }

  ghost function Apply(s: State, op: Op): State
  {
    match op
    case DoSpend(c, amount) => s.(spend := s.spend.Plus(c, amount), entries := s.entries + [Spend(c, amount)])
    case DoIncome(c, amount) =>
      State(s.totalBalance + amount, s.spend, s.income.Plus(c, amount), s.entries + [Income(c, amount)])
    case DoSetBalance(balance) => s.(totalBalance := balance)
  }

  ghost function Run(s: State, ops: seq<Op>): State
    decreases |ops|
  {
    if ops == [] then s else Apply(Run(s, ops[..|ops| - 1]), ops[|ops| - 1])
  }

  function Replay(entries: seq<Entry>, category: Category, spends: bool): real {
    if entries == [] then 0.0
    else
      var e := entries[|entries| - 1];
      Replay(entries[..|entries| - 1], category, spends) + if e.category == category && e.Spend? == spends then e.amount else 0.0
  }

  lemma PlusChangesOne(m: Amounts, c: Category, amount: real)
    ensures forall d: Category :: m.Plus(c, amount).Of(d) == m.Of(d) + if d == c then amount else 0.0
    ensures m.Plus(c, amount).Sum() == m.Sum() + amount
  {
  }

  lemma ReplayStep(entries: seq<Entry>, e: Entry, category: Category, spends: bool)
    ensures Replay(entries + [e], category, spends)
      == Replay(entries, category, spends) + if e.category == category && e.Spend? == spends then e.amount else 0.0
  {
    assert (entries + [e])[..|entries|] == entries;
  }

  lemma StepKeepsReplay(s: State, op: Op, category: Category)
    requires Replays(s, category)
    ensures Replays(Apply(s, op), category)
  {
    hide Replay, Amounts.Of, Amounts.Plus;
    if op.DoSpend? {
      PlusAtOne(s.spend, op.category, op.amount, category);
      ReplayStep(s.entries, Spend(op.category, op.amount), category, true);
      ReplayStep(s.entries, Spend(op.category, op.amount), category, false);
    } else if op.DoIncome? {
      PlusAtOne(s.income, op.category, op.amount, category);
      ReplayStep(s.entries, Income(op.category, op.amount), category, true);
      ReplayStep(s.entries, Income(op.category, op.amount), category, false);
    }
  }

  lemma PlusAtOne(m: Amounts, c: Category, amount: real, d: Category)
    ensures m.Plus(c, amount).Of(d) == m.Of(d) + if d == c then amount else 0.0
  {
    PlusChangesOne(m, c, amount);
  }

  /** The entries of a category add up to its two counters. */
  ghost predicate Replays(s: State, category: Category) {
    s.spend.Of(category) == Replay(s.entries, category, true) && s.income.Of(category) == Replay(s.entries, category, false)
  }

  /** The entry list replays to the counters of every category, after any operations. */
  lemma {:induction false} EntriesReplay(totalBalance: real, ops: seq<Op>, category: Category)
    ensures Replays(Run(Fresh(totalBalance), ops), category)
    decreases |ops|
  {
    if ops != [] {
      EntriesReplay(totalBalance, ops[..|ops| - 1], category);
      StepKeepsReplay(Run(Fresh(totalBalance), ops[..|ops| - 1]), ops[|ops| - 1], category);
    }
  }

  predicate SoundAllocations(a: Allocations) {
    && a(Gas).percentage >= 0.0 && a(Attestation).percentage >= 0.0 && a(Tipping).percentage >= 0.0
    && a(Storage).percentage >= 0.0 && a(Operations).percentage >= 0.0 && a(Unallocated).percentage >= 0.0
    && a(Gas).percentage + a(Attestation).percentage + a(Tipping).percentage + a(Storage).percentage
       + a(Operations).percentage + a(Unallocated).percentage <= 100.0
  }

  /** Amounts are not negative, every spend was affordable when it was made, and the balance is
      never set lower. */
  ghost predicate Guarded(s: State, allocations: Allocations, op: Op)
  {
    match op
    case DoSpend(c, amount) => amount >= 0.0 && Affordable(s, allocations, c, amount)
    case DoIncome(_, amount) => amount >= 0.0
    case DoSetBalance(balance) => balance >= s.totalBalance
  }

  ghost predicate AllGuarded(s: State, allocations: Allocations, ops: seq<Op>)
    decreases |ops|
  {
    ops == [] || (AllGuarded(s, allocations, ops[..|ops| - 1]) && Guarded(Run(s, ops[..|ops| - 1]), allocations, ops[|ops| - 1]))
  }

  /** No category has outspent its share of the balance. */
  ghost predicate WithinShares(s: State, allocations: Allocations)
  {
    s.totalBalance >= 0.0 && forall c: Category :: s.spend.Of(c) <= Percent(s.totalBalance, allocations(c).percentage)
  }

  lemma PercentGrows(total: real, more: real, p: real)
    requires total <= more && p >= 0.0
    ensures Percent(total, p) <= Percent(more, p)
  {
    assert (more - total) * p >= 0.0;
    assert more * p == total * p + (more - total) * p;
  }

  lemma SharesAreSound(allocations: Allocations, c: Category)
    requires SoundAllocations(allocations)
    ensures allocations(c).percentage >= 0.0
  {
    match c case Gas => case Attestation => case Tipping => case Storage => case Operations => case Unallocated =>
  }

  lemma AffordableFitsTheShare(s: State, allocations: Allocations, c: Category, amount: real)
    requires Affordable(s, allocations, c, amount)
    requires s.spend.Of(c) <= Percent(s.totalBalance, allocations(c).percentage)
    ensures s.spend.Of(c) + amount <= Percent(s.totalBalance, allocations(c).percentage)
  {
    hide Amounts.Of;
  }

  lemma StepStaysWithinShares(s: State, allocations: Allocations, op: Op)
    requires SoundAllocations(allocations)
    requires WithinShares(s, allocations) && Guarded(s, allocations, op)
    ensures WithinShares(Apply(s, op), allocations)
  {
    hide Percent, Affordable, Amounts.Of, Amounts.Plus, SoundAllocations;
    var t := Apply(s, op);
    forall c: Category ensures t.spend.Of(c) <= Percent(t.totalBalance, allocations(c).percentage) {
      assert s.spend.Of(c) <= Percent(s.totalBalance, allocations(c).percentage);
      SharesAreSound(allocations, c);
      PercentGrows(s.totalBalance, t.totalBalance, allocations(c).percentage);
      if op.DoSpend? {
        PlusChangesOne(s.spend, op.category, op.amount);
        if op.category == c { AffordableFitsTheShare(s, allocations, c, op.amount); }
      }
    }
  }

  lemma {:induction false} RunStaysWithinShares(totalBalance: real, allocations: Allocations, ops: seq<Op>)
    requires totalBalance >= 0.0 && SoundAllocations(allocations)
    requires AllGuarded(Fresh(totalBalance), allocations, ops)
    ensures WithinShares(Run(Fresh(totalBalance), ops), allocations)
    decreases |ops|
  {
    if ops == [] {
      forall c: Category ensures Zeros().Of(c) <= Percent(totalBalance, allocations(c).percentage) {
        SharesAreSound(allocations, c);
        PercentGrows(0.0, totalBalance, allocations(c).percentage);
      }
    } else {
      RunStaysWithinShares(totalBalance, allocations, ops[..|ops| - 1]);
      StepStaysWithinShares(Run(Fresh(totalBalance), ops[..|ops| - 1]), allocations, ops[|ops| - 1]);
    }
  }

  lemma SharesAddUp(t: real, a: real, b: real, c: real, d: real, e: real, f: real)
    requires t >= 0.0 && a + b + c + d + e + f <= 100.0
    ensures Percent(t, a) + Percent(t, b) + Percent(t, c) + Percent(t, d) + Percent(t, e) + Percent(t, f) <= t
  {
    var sum := a + b + c + d + e + f;
    assert Percent(t, a) + Percent(t, b) + Percent(t, c) + Percent(t, d) + Percent(t, e) + Percent(t, f) == t * sum / 100.0;
    assert t * sum <= t * 100.0 by { assert t * (100.0 - sum) >= 0.0; }
  }

  /** Guarded spending over all categories never exceeds the balance. */
  lemma GuardedSpendingIsCovered(totalBalance: real, allocations: Allocations, ops: seq<Op>)
    requires totalBalance >= 0.0 && SoundAllocations(allocations)
    requires AllGuarded(Fresh(totalBalance), allocations, ops)
    ensures var s := Run(Fresh(totalBalance), ops); s.spend.Sum() <= s.totalBalance
  {
    hide Percent, Run, AllGuarded;
    var s := Run(Fresh(totalBalance), ops);
    RunStaysWithinShares(totalBalance, allocations, ops);
    SharesAddUp(s.totalBalance, allocations(Gas).percentage, allocations(Attestation).percentage, allocations(Tipping).percentage,
                allocations(Storage).percentage, allocations(Operations).percentage, allocations(Unallocated).percentage);
    assert s.spend.Of(Gas) <= Percent(s.totalBalance, allocations(Gas).percentage);
    assert s.spend.Of(Attestation) <= Percent(s.totalBalance, allocations(Attestation).percentage);
    assert s.spend.Of(Tipping) <= Percent(s.totalBalance, allocations(Tipping).percentage);
    assert s.spend.Of(Storage) <= Percent(s.totalBalance, allocations(Storage).percentage);
    assert s.spend.Of(Operations) <= Percent(s.totalBalance, allocations(Operations).percentage);
    assert s.spend.Of(Unallocated) <= Percent(s.totalBalance, allocations(Unallocated).percentage);
  }

  // ---------------------------------------------------------------- the balance

  /** The balance that was set last. */
  function BalanceSet(start: real, ops: seq<Op>): real {
    if ops == [] then start
    else
      var op := ops[|ops| - 1];
      if op.DoSetBalance? then op.balance else BalanceSet(start, ops[..|ops| - 1])
  }

  /** The income recorded since then. */
  function IncomeSince(ops: seq<Op>): real {
    if ops == [] then 0.0
    else
      match ops[|ops| - 1]
      case DoSetBalance(_) => 0.0
      case DoIncome(_, amount) => IncomeSince(ops[..|ops| - 1]) + amount
      case DoSpend(_, _) => IncomeSince(ops[..|ops| - 1])
  }

  /** Only income moves the balance, by its amount, unless it is set anew. */
  lemma {:induction false} BalanceIsSetPlusIncome(start: real, ops: seq<Op>)
    ensures Run(Fresh(start), ops).totalBalance == BalanceSet(start, ops) + IncomeSince(ops)
    decreases |ops|
  {
    if ops != [] { BalanceIsSetPlusIncome(start, ops[..|ops| - 1]); }
  }

  /** Without a new balance, what came in over all categories is what the balance grew by. */
  lemma {:induction false} IncomeIsConserved(start: real, ops: seq<Op>)
    requires forall i :: 0 <= i < |ops| ==> !ops[i].DoSetBalance?
    ensures var s := Run(Fresh(start), ops); s.totalBalance == start + s.income.Sum()
    decreases |ops|
  {
    if ops != [] {
      hide Amounts.Plus, Amounts.Sum;
      var most, op := ops[..|ops| - 1], ops[|ops| - 1];
      IncomeIsConserved(start, most);
      if op.DoIncome? { PlusChangesOne(Run(Fresh(start), most).income, op.category, op.amount); }
    } else {
      assert Fresh(start).income.Sum() == 0.0;
    }
  }

  lemma DefaultAllocationsAreSound()
    ensures SoundAllocations(DefaultAllocations())
    ensures var a := DefaultAllocations();
      a(Gas).percentage + a(Attestation).percentage + a(Tipping).percentage + a(Storage).percentage
      + a(Operations).percentage + a(Unallocated).percentage == 100.0
  {
  }
}
