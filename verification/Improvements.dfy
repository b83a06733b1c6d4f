/**
  The improvement tracker: one file, written by cli/improvements.ts and by cli/improve.ts, with the
  rules of src/lib/improvement-utils.ts. Each command loads the file, works on it, and saves it.
 */
module Improvements {
  import opened Wrappers

  datatype Status = Proposed | Approved | Applied | Verified | Rejected | Stale

  predicate IsActive(s: Status) {
    s.Proposed? || s.Approved? || s.Applied?
  }

  /** VALID_TRANSITIONS */
  predicate ValidTransition(from: Status, to: Status) {
    match from
    case Proposed => to.Approved? || to.Rejected? || to.Stale?
    case Approved => to.Applied?
    case Applied => to.Verified? || to.Rejected?
    case _ => false
  }

  /** `history` holds the actions; their timestamps and details are not modelled. */
  datatype Item = Item(id: string, session: nat, description: string, target: string, status: Status,
                       evidence: seq<string>, history: seq<Status>)

  datatype File = File(nextSession: nat, nextSequence: map<nat, nat>, items: seq<Item>)

  const MAX_AGE := 20

  function EmptyFile(): File {
    File(1, map[], [])
  }

  // ---------------------------------------------------------------- ids

  function Digit(n: nat): char
    requires n < 10
  {
    '0' + n as char
  }

  /** String(n) */
  function Decimal(n: nat): (s: string)
    ensures s != "" && forall i :: 0 <= i < |s| ==> '0' <= s[i] <= '9'
  {
    if n < 10 then [Digit(n)] else Decimal(n / 10) + [Digit(n % 10)]
  }

  function IdOf(session: nat, seq_: nat): string {
    "IMP-" + Decimal(session) + "-" + Decimal(seq_)
  }

  lemma {:induction false} DecimalIsInjective(m: nat, n: nat)
    requires Decimal(m) == Decimal(n)
    ensures m == n
  {
    var s, t := Decimal(m), Decimal(n);
    assert s[|s| - 1] == Digit(m % 10) && t[|t| - 1] == Digit(n % 10);
    assert (m >= 10 <==> |s| >= 2) && (n >= 10 <==> |t| >= 2);
    if m >= 10 {
      assert s[..|s| - 1] == Decimal(m / 10) && t[..|t| - 1] == Decimal(n / 10);
      DecimalIsInjective(m / 10, n / 10);
    }
  }

  lemma IdIsInjective(a: nat, b: nat, c: nat, d: nat)
    requires IdOf(a, b) == IdOf(c, d)
    ensures a == c && b == d
  {
    var s, t := Decimal(a), Decimal(c);
    var x, y := IdOf(a, b), IdOf(c, d);
    assert forall i :: 0 <= i < |s| ==> x[4 + i] == s[i];
    assert forall i :: 0 <= i < |t| ==> y[4 + i] == t[i];
    assert x[4 + |s|] == '-' && y[4 + |t|] == '-';
    assert |s| == |t|;
    assert s == x[4..4 + |s|] && t == y[4..4 + |t|];
    assert Decimal(b) == x[5 + |s|..] && Decimal(d) == y[5 + |t|..];
    DecimalIsInjective(a, c);
    DecimalIsInjective(b, d);
  }

  // ---------------------------------------------------------------- commands

  datatype Command =
    | Propose(description: string, evidence: string, target: string, session: Option<int>)
    | Transition(id: string, to: Status, evidence: string, reason: string)
    | SessionNext
    | Cleanup
    | AutoApply(proposals: seq<Proposal>)

  /** What improve --auto-apply proposes for an issue. */
  datatype Proposal = Proposal(description: string, target: string, evidence: seq<string>)

  /** An active item has the same normalised description. */
  predicate IsDuplicate(items: seq<Item>, description: string, norm: string -> string) {
    exists i :: 0 <= i < |items| && IsTwin(items[i], description, norm)
  }

  predicate IsTwin(item: Item, description: string, norm: string -> string) {
    IsActive(item.status) && norm(item.description) == norm(description)
  }

  function NextSeq(f: File, session: nat): nat {
    (if session in f.nextSequence then f.nextSequence[session] else 0) + 1
  }

  function AddItem(f: File, session: nat, description: string, target: string, evidence: seq<string>): File {
    var n := NextSeq(f, session);
    File(f.nextSession, f.nextSequence[session := n],
         f.items + [Item(IdOf(session, n), session, description, target, Proposed, evidence, [Proposed])])
  }

  function ProposeIn(f: File, session: nat, description: string, target: string, evidence: seq<string>, norm: string -> string): File {
    if IsDuplicate(f.items, description, norm) then f else AddItem(f, session, description, target, evidence)
  }

  function ProposeAll(f: File, proposals: seq<Proposal>, norm: string -> string): File
    decreases |proposals|
  {
    if proposals == [] then f
    else
      var n := |proposals| - 1;
      var g := ProposeAll(f, proposals[..n], norm);
      ProposeIn(g, g.nextSession, proposals[n].description, proposals[n].target, proposals[n].evidence, norm)
  }

  /** The first item with the id; |items| if there is none. */
  function Find(items: seq<Item>, id: string): (i: nat)
    ensures i <= |items| && (forall k :: 0 <= k < i ==> items[k].id != id) && (i < |items| ==> items[i].id == id)
  {
    if items == [] || items[0].id == id then 0 else 1 + Find(items[1..], id)
  }

  function Advance(item: Item, to: Status, evidence: string): Item {
    item.(status := to, history := item.history + [to],
          evidence := if to.Verified? && evidence != "" then item.evidence + [evidence] else item.evidence)
  }

  predicate Accepts(item: Item, to: Status, evidence: string, reason: string) {
    ValidTransition(item.status, to) && (to.Verified? ==> evidence != "") && (to.Rejected? ==> reason != "")
  }

  function MoveIn(f: File, id: string, to: Status, evidence: string, reason: string): File {
    var i := Find(f.items, id);
    if id == "" || i == |f.items| || !Accepts(f.items[i], to, evidence, reason) then f
    else f.(items := f.items[i := Advance(f.items[i], to, evidence)])
  }

  function Age(item: Item, currentSession: nat): Item {
    if item.status.Proposed? && currentSession - item.session >= MAX_AGE then Advance(item, Stale, "") else item
  }

  /** How many of the first n items a cleanup makes stale. */
  function AgingCount(items: seq<Item>, currentSession: nat, n: nat): nat
    requires n <= |items|
  {
    if n == 0 then 0
    else AgingCount(items, currentSession, n - 1) + if Age(items[n - 1], currentSession).status != items[n - 1].status then 1 else 0
  }

  function Aged(items: seq<Item>, currentSession: nat): seq<Item> {
    seq(|items|, i requires 0 <= i < |items| => Age(items[i], currentSession))
  }

  /** The file after a command; a refused command leaves it alone. */
  function Execute(f: File, c: Command, norm: string -> string): File {
    match c
    case Propose(description, evidence, target, session) =>
      if description == "" || evidence == "" || target == "" then f
      else if session.Some? && session.value < 1 then f
      else ProposeIn(f, if session.Some? then session.value else f.nextSession, description, target, [evidence], norm)
    case Transition(id, to, evidence, reason) => if to.Proposed? || to.Stale? then f else MoveIn(f, id, to, evidence, reason)
    case SessionNext => f.(nextSession := f.nextSession + 1)
    case Cleanup => f.(items := Aged(f.items, f.nextSession))
    case AutoApply(proposals) => ProposeAll(f, proposals, norm)
  }

  function Run(f: File, cs: seq<Command>, norm: string -> string): File
    decreases |cs|
  {
    if cs == [] then f else Execute(Run(f, cs[..|cs| - 1], norm), cs[|cs| - 1], norm)
  }

  // ---------------------------------------------------------------- the file object

  class Tracker {
    var nextSession: nat
    var nextSequence: map<nat, nat>
    var items: seq<Item>

    ghost function State(): File
      reads this
    {
      File(nextSession, nextSequence, items)
    }

    constructor (f: File)
      ensures State() == f
    {
      nextSession, nextSequence, items := f.nextSession, f.nextSequence, f.items;
    }

    /** isDuplicate, and the id it reports. */
    method CheckDuplicate(description: string, norm: string -> string) returns (existingId: Option<string>)
      ensures existingId.Some? <==> IsDuplicate(items, description, norm)
      ensures existingId.Some? ==> exists i :: 0 <= i < |items| && items[i].id == existingId.value && IsTwin(items[i], description, norm)
    {
      var normalized := norm(description);
      for i := 0 to |items|
        invariant forall k :: 0 <= k < i ==> !IsTwin(items[k], description, norm)
      {
        if !IsActive(items[i].status) {
          continue;
        }
        if norm(items[i].description) == normalized {
          return Some(items[i].id);
        }
      }
      existingId := None;
    }

    /** nextId */
    method NextId(session: nat) returns (id: string)
      modifies this`nextSequence
      ensures id == IdOf(session, NextSeq(old(State()), session))
      ensures nextSequence == old(nextSequence)[session := NextSeq(old(State()), session)]
    {
      var seq_ := (if session in nextSequence then nextSequence[session] else 0) + 1;
      nextSequence := nextSequence[session := seq_];
      id := IdOf(session, seq_);
    }

    /** cmdPropose after its argument checks, and proposeImprovement. */
    method Add(session: nat, description: string, target: string, evidence: seq<string>, norm: string -> string)
      returns (id: Option<string>)
      modifies this
      ensures State() == ProposeIn(old(State()), session, description, target, evidence, norm)
      ensures id.None? <==> IsDuplicate(old(items), description, norm)
    {
      var existing := CheckDuplicate(description, norm);
      if existing.Some? {
        return None;
      }
      var fresh_ := NextId(session);
      items := items + [Item(fresh_, session, description, target, Proposed, evidence, [Proposed])];
      id := Some(fresh_);
    }

    /** The proposing loop of cli/improve.ts --auto-apply. */
    method AddAll(proposals: seq<Proposal>, norm: string -> string)
      modifies this
      ensures State() == ProposeAll(old(State()), proposals, norm)
    {
      for i := 0 to |proposals|
        invariant State() == ProposeAll(old(State()), proposals[..i], norm)
      {
        assert proposals[..i + 1][..i] == proposals[..i];
        var id := Add(nextSession, proposals[i].description, proposals[i].target, proposals[i].evidence, norm);
      }
      assert proposals[..|proposals|] == proposals;
    }

    /** The command switch of both programs. */
    method Perform(c: Command, norm: string -> string)
      modifies this
      ensures State() == Execute(old(State()), c, norm)
    {
      match c {
        case Propose(description, evidence, target, session) =>
          if description == "" || evidence == "" || target == "" {
            return;
          }
          if session.Some? && session.value < 1 {
            return;
          }
          var id := Add(if session.Some? then session.value else nextSession, description, target, [evidence], norm);
        case Transition(id, to, evidence, reason) =>
          if !to.Proposed? && !to.Stale? {
            var done := Move(id, to, evidence, reason);
          }
        case SessionNext =>
          nextSession := nextSession + 1;
        case Cleanup =>
          var count := AgeOutStale();
        case AutoApply(proposals) =>
          AddAll(proposals, norm);
      }
    }

    /** data.items.find */
    method Lookup(id: string) returns (i: nat)
      ensures i == Find(items, id)
    {
      i := 0;
      while i < |items| && items[i].id != id
        invariant 0 <= i <= |items| && forall k :: 0 <= k < i ==> items[k].id != id
      {
        i := i + 1;
      }
    }

    /** cmdTransition */
    method Move(id: string, to: Status, evidence: string, reason: string) returns (done: bool)
      requires !to.Proposed? && !to.Stale?
      modifies this
      ensures State() == MoveIn(old(State()), id, to, evidence, reason)
      ensures done <==> (id != "" && Find(old(items), id) < |old(items)|
        && Accepts(old(items)[Find(old(items), id)], to, evidence, reason))
    {
      if id == "" {
        return false;
      }
      var i := Lookup(id);
      if i == |items| || !ValidTransition(items[i].status, to) {
        return false;
      }
      if to.Verified? && evidence == "" {
        return false;
      }
      if to.Rejected? && reason == "" {
        return false;
      }
      var item := items[i];
      if to.Verified? && evidence != "" {
        item := item.(evidence := item.evidence + [evidence]);
      }
      items := items[i := item.(status := to, history := item.history + [to])];
      done := true;
    }

    /** ageOutStale */
    method AgeOutStale() returns (count: nat)
      modifies this`items
      ensures State() == old(State()).(items := Aged(old(items), nextSession))
      ensures count == AgingCount(old(items), nextSession, |old(items)|)
    {
      ghost var before := items;
      count := 0;
      var i := 0;
      while i < |items|
        invariant 0 <= i <= |items| == |before|
        invariant forall k :: 0 <= k < i ==> items[k] == Age(before[k], nextSession)
        invariant forall k :: i <= k < |items| ==> items[k] == before[k]
        invariant count == AgingCount(before, nextSession, i)
      {
        var item := items[i];
        if item.status.Proposed? && nextSession - item.session >= 20 {
          items := items[i := item.(status := Stale, history := item.history + [Stale])];
          count := count + 1;
        }
        i := i + 1;
      }
      assert items == Aged(before, nextSession);
    }
  }

  // ---------------------------------------------------------------- invariants

  predicate HistoryIsPath(item: Item) {
    && item.history != [] && item.history[0] == Proposed && item.history[|item.history| - 1] == item.status
    && forall k :: 0 <= k < |item.history| - 1 ==> ValidTransition(item.history[k], item.history[k + 1])
  }

  predicate Numbered(item: Item, f: File) {
    item.session in f.nextSequence &&
    exists n :: 1 <= n <= f.nextSequence[item.session] && item.id == IdOf(item.session, n)
  }

  ghost predicate Inv(f: File, norm: string -> string) {
    && (forall i :: 0 <= i < |f.items| ==> HistoryIsPath(f.items[i]) && Numbered(f.items[i], f))
    && (forall i, j :: 0 <= i < j < |f.items| ==> f.items[i].id != f.items[j].id)
    && (forall i, j :: 0 <= i < j < |f.items| && IsActive(f.items[i].status) && IsActive(f.items[j].status) ==>
          norm(f.items[i].description) != norm(f.items[j].description))
  }

  lemma AddKeepsInv(f: File, session: nat, description: string, target: string, evidence: seq<string>, norm: string -> string)
    requires Inv(f, norm)
    ensures Inv(ProposeIn(f, session, description, target, evidence, norm), norm)
  {
    if !IsDuplicate(f.items, description, norm) {
      hide IdOf;
      var g, n := AddItem(f, session, description, target, evidence), NextSeq(f, session);
      var item := g.items[|f.items|];
      forall i | 0 <= i < |f.items| ensures Numbered(f.items[i], g) && f.items[i].id != item.id {
        var k :| 1 <= k <= f.nextSequence[f.items[i].session] && f.items[i].id == IdOf(f.items[i].session, k);
        if f.items[i].id == item.id {
          IdIsInjective(f.items[i].session, k, session, n);
          assert false;
        }
        assert k <= g.nextSequence[f.items[i].session];
      }
      assert item.id == IdOf(item.session, n) && n <= g.nextSequence[session];
      assert Numbered(item, g);
    }
  }

  lemma {:induction false} AddAllKeepsInv(f: File, proposals: seq<Proposal>, norm: string -> string)
    requires Inv(f, norm)
    ensures Inv(ProposeAll(f, proposals, norm), norm)
    decreases |proposals|
  {
    if proposals != [] {
      var n := |proposals| - 1;
      AddAllKeepsInv(f, proposals[..n], norm);
      var g := ProposeAll(f, proposals[..n], norm);
      AddKeepsInv(g, g.nextSession, proposals[n].description, proposals[n].target, proposals[n].evidence, norm);
    }
  }

  /** The item is the old one, or one valid transition further. */
  predicate Moved(before: Item, after: Item) {
    || after == before
    || (ValidTransition(before.status, after.status) && after.history == before.history + [after.status]
        && after.id == before.id && after.session == before.session && after.description == before.description)
  }

  lemma MovesKeepInv(f: File, items: seq<Item>, norm: string -> string)
    requires Inv(f, norm) && |items| == |f.items|
    requires forall i :: 0 <= i < |items| ==> Moved(f.items[i], items[i])
    ensures Inv(f.(items := items), norm)
  {
    hide IdOf;
    forall i | 0 <= i < |items| ensures HistoryIsPath(items[i]) && Numbered(items[i], f.(items := items)) {
      assert HistoryIsPath(f.items[i]) && Numbered(f.items[i], f) && Moved(f.items[i], items[i]);
    }
  }

  /** What any command may do to the items there are. */
  ghost predicate Continues(f: File, g: File) {
    |f.items| <= |g.items| && forall i :: 0 <= i < |f.items| ==> Moved(f.items[i], g.items[i])
  }

  lemma {:induction false} ProposeAllContinues(f: File, proposals: seq<Proposal>, norm: string -> string)
    ensures f.items <= ProposeAll(f, proposals, norm).items
    decreases |proposals|
  {
    if proposals != [] { ProposeAllContinues(f, proposals[..|proposals| - 1], norm); }
  }

  lemma ExecuteKeepsInv(f: File, c: Command, norm: string -> string)
    requires Inv(f, norm)
    ensures Inv(Execute(f, c, norm), norm) && Continues(f, Execute(f, c, norm))
  {
    hide Inv, IdOf, Decimal;
    var g := Execute(f, c, norm);
    match c
    case Propose(description, evidence, target, session) =>
      if !(session.Some? && session.value < 1) {
        AddKeepsInv(f, if session.Some? then session.value else f.nextSession, description, target, [evidence], norm);
      }
    case Transition(_, _, _, _) => MovesKeepInv(f, g.items, norm);
    case SessionNext => SessionKeepsInv(f, norm);
    case Cleanup => MovesKeepInv(f, g.items, norm);
    case AutoApply(proposals) =>
      AddAllKeepsInv(f, proposals, norm);
      ProposeAllContinues(f, proposals, norm);
  }

  lemma SessionKeepsInv(f: File, norm: string -> string)
    requires Inv(f, norm)
    ensures Inv(f.(nextSession := f.nextSession + 1), norm)
  {
    hide IdOf;
    var g := f.(nextSession := f.nextSession + 1);
    forall i | 0 <= i < |f.items| ensures Numbered(f.items[i], g) {
      assert Numbered(f.items[i], f);
    }
  }

  /** Over every sequence of commands from both programs: ids are unique, at most one active item
      per normalised description, and each history is a path of valid transitions from "proposed"
      to the item's status. */
  lemma {:induction false} EveryRunKeepsInv(cs: seq<Command>, norm: string -> string)
    ensures Inv(Run(EmptyFile(), cs, norm), norm)
    decreases |cs|
  {
    if cs != [] {
      EveryRunKeepsInv(cs[..|cs| - 1], norm);
      ExecuteKeepsInv(Run(EmptyFile(), cs[..|cs| - 1], norm), cs[|cs| - 1], norm);
    }
  }

  /** Later commands only ever extend an item's history along valid transitions, and never touch its
      id or description; an item in a terminal status stays exactly as it is forever. */
  ghost predicate Extends(before: Item, after: Item) {
    && before.history <= after.history && before.id == after.id && before.description == after.description
    && (before.status.Verified? || before.status.Rejected? || before.status.Stale? ==> after == before)
  }

  lemma {:induction false} ItemsOnlyMoveForward(cs: seq<Command>, more: seq<Command>, norm: string -> string)
    ensures var f, g := Run(EmptyFile(), cs, norm), Run(EmptyFile(), cs + more, norm);
      |f.items| <= |g.items| && forall i :: 0 <= i < |f.items| ==> Extends(f.items[i], g.items[i])
    decreases |more|
  {
    hide Inv, Execute;
    if more == [] {
      assert cs + more == cs;
    } else {
      var n := |more| - 1;
      var all := cs + more;
      assert all[..|all| - 1] == cs + more[..n];
      ItemsOnlyMoveForward(cs, more[..n], norm);
      EveryRunKeepsInv(cs + more[..n], norm);
      var f, g := Run(EmptyFile(), cs, norm), Run(EmptyFile(), cs + more[..n], norm);
      ExecuteKeepsInv(g, more[n], norm);
      forall i | 0 <= i < |f.items| ensures Extends(f.items[i], Run(EmptyFile(), all, norm).items[i]) {
        assert Extends(f.items[i], g.items[i]) && Moved(g.items[i], Execute(g, more[n], norm).items[i]);
      }
    }
  }
}
