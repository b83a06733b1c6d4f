/**
  What each command of cli/improvements.ts and cli/improve.ts does to the tracker's file, with every
  status, threshold and field written out, and which histories an item can have.
 */
module ImprovementLaws {
  import opened Wrappers
  import opened Improvements

  // ---------------------------------------------------------------- histories

  /** The seven lives of an item. */
  predicate IsLife(h: seq<Status>) {
    || h == [Proposed]
    || h == [Proposed, Stale]
    || h == [Proposed, Rejected]
    || h == [Proposed, Approved]
    || h == [Proposed, Approved, Applied]
    || h == [Proposed, Approved, Applied, Verified]
    || h == [Proposed, Approved, Applied, Rejected]
  }

  lemma PathsAreLives(item: Item)
    ensures HistoryIsPath(item) <==> IsLife(item.history) && item.status == item.history[|item.history| - 1]
  {
    var h := item.history;
    if HistoryIsPath(item) {
      if |h| > 1 { assert ValidTransition(h[0], h[1]); }
      if |h| > 2 { assert ValidTransition(h[1], h[2]); }
      if |h| > 3 { assert ValidTransition(h[2], h[3]); }
      assert |h| <= 4 || ValidTransition(h[3], h[4]);
    }
  }

  /** In every run of both programs every item has one of the seven lives so far. */
  lemma RunsLiveSoFar(cs: seq<Command>, norm: string -> string)
    ensures forall i :: 0 <= i < |Run(EmptyFile(), cs, norm).items| ==>
      IsLife(Run(EmptyFile(), cs, norm).items[i].history)
  {
    hide Run;
    EveryRunKeepsInv(cs, norm);
    var f := Run(EmptyFile(), cs, norm);
    forall i | 0 <= i < |f.items| ensures IsLife(f.items[i].history) {
      PathsAreLives(f.items[i]);
    }
  }

  /** And each of the transitions can be made: the one the command asks for, on the item it names. */
  predicate IsMove(from: Status, to: Status) {
    || (from == Proposed && (to == Approved || to == Rejected))
    || (from == Approved && to == Applied)
    || (from == Applied && (to == Verified || to == Rejected))
  }

  /** The item the command names moves exactly when its status allows it, a verification has evidence
      and a rejection a reason; nothing else in the file changes. */
  lemma TransitionMovesOne(f: File, i: nat, to: Status, evidence: string, reason: string, norm: string -> string)
    requires i < |f.items| && f.items[i].id != "" && forall k :: 0 <= k < i ==> f.items[k].id != f.items[i].id
    ensures var before, g := f.items[i], Execute(f, Transition(f.items[i].id, to, evidence, reason), norm);
      if IsMove(before.status, to) && (to == Verified ==> evidence != "") && (to == Rejected ==> reason != "") then
        && g.nextSession == f.nextSession && g.nextSequence == f.nextSequence
        && |g.items| == |f.items| && (forall k :: 0 <= k < |f.items| && k != i ==> g.items[k] == f.items[k])
        && g.items[i].status == to && g.items[i].history == before.history + [to]
        && g.items[i].evidence == (if to == Verified then before.evidence + [evidence] else before.evidence)
        && g.items[i].id == before.id && g.items[i].description == before.description && g.items[i].target == before.target
        && g.items[i].session == before.session
      else g == f
  {
    assert Find(f.items, f.items[i].id) == i;
  }

  /** A command that names no item, or nothing, changes nothing. */
  lemma UnknownIdIsRefused(f: File, id: string, to: Status, evidence: string, reason: string, norm: string -> string)
    requires id == "" || forall k :: 0 <= k < |f.items| ==> f.items[k].id != id
    ensures Execute(f, Transition(id, to, evidence, reason), norm) == f
  {
  }

  // ---------------------------------------------------------------- proposals

  predicate IsOpen(item: Item) {
    item.status == Proposed || item.status == Approved || item.status == Applied
  }

  /** A complete proposal for a possible session, whose description no open item has, becomes the last
      item of the file, as given; any other proposal changes nothing. */
  lemma ProposalIsAppended(f: File, description: string, evidence: string, target: string, session: Option<int>, norm: string -> string)
    ensures var g := Execute(f, Propose(description, evidence, target, session), norm);
      if description != "" && evidence != "" && target != "" && (session.Some? ==> session.value >= 1)
         && (forall k :: 0 <= k < |f.items| && IsOpen(f.items[k]) ==> norm(f.items[k].description) != norm(description))
      then
        && |g.items| == |f.items| + 1 && g.items[..|f.items|] == f.items && g.nextSession == f.nextSession
        && IsNewItem(g.items[|f.items|], if session.Some? then session.value else f.nextSession, description, target, [evidence])
        && g.items[|f.items|].id == NewId(f, if session.Some? then session.value else f.nextSession)
      else g == f
  {
    assert forall k :: 0 <= k < |f.items| ==>
      (IsTwin(f.items[k], description, norm) <==> IsOpen(f.items[k]) && norm(f.items[k].description) == norm(description));
  }

  /** IMP, the session, and a number one higher than the session's last. */
  function NewId(f: File, session: nat): string {
    "IMP-" + Decimal(session) + "-" + Decimal(1 + if session in f.nextSequence then f.nextSequence[session] else 0)
  }

  /** What a row of decimal digits says. */
  function ValueOf(s: string): int {
    if s == "" then 0 else ValueOf(s[..|s| - 1]) * 10 + (s[|s| - 1] as int - '0' as int)
  }

  lemma {:induction false} DecimalReads(n: nat)
    ensures ValueOf(Decimal(n)) == n && (n > 0 ==> Decimal(n)[0] != '0')
  {
    var s := Decimal(n);
    if n >= 10 {
      DecimalReads(n / 10);
      assert s[..|s| - 1] == Decimal(n / 10) && s[0] == Decimal(n / 10)[0];
    } else {
      assert s[..|s| - 1] == "";
    }
  }

  predicate IsNewItem(item: Item, session: nat, description: string, target: string, evidence: seq<string>) {
    && item.session == session && item.description == description && item.target == target && item.evidence == evidence
    && item.status == Proposed && item.history == [Proposed]
  }

  /** The other program does the same, for the current session. */
  lemma AutoApplyAppends(f: File, p: Proposal, norm: string -> string)
    ensures var g := Execute(f, AutoApply([p]), norm);
      if forall k :: 0 <= k < |f.items| && IsOpen(f.items[k]) ==> norm(f.items[k].description) != norm(p.description)
      then
        && |g.items| == |f.items| + 1 && g.items[..|f.items|] == f.items && g.nextSession == f.nextSession
        && IsNewItem(g.items[|f.items|], f.nextSession, p.description, p.target, p.evidence)
      else g == f
  {
    assert [p][..0] == [];
    assert ProposeAll(f, [p], norm) == ProposeIn(f, f.nextSession, p.description, p.target, p.evidence, norm);
    assert forall k :: 0 <= k < |f.items| ==>
      (IsTwin(f.items[k], p.description, norm) <==> IsOpen(f.items[k]) && norm(f.items[k].description) == norm(p.description));
  }

  // ---------------------------------------------------------------- sessions and age

  /** A cleanup makes exactly the proposed items stale that are twenty sessions old or older. */
  lemma CleanupAgesOut(f: File, norm: string -> string, i: nat)
    requires i < |f.items|
    ensures var g, item := Execute(f, Cleanup, norm), f.items[i];
      && |g.items| == |f.items| && g.nextSession == f.nextSession && g.nextSequence == f.nextSequence
      && if item.status == Proposed && f.nextSession >= item.session + 20
         then g.items[i] == item.(status := Stale, history := item.history + [Stale])
         else g.items[i] == item
  {
  }

  lemma NextSessionCounts(f: File, norm: string -> string)
    ensures Execute(f, SessionNext, norm) == f.(nextSession := f.nextSession + 1)
  {
  }
}
