/**
  The review findings file of src/lib/review-findings.ts: one entry per session, the last five kept.
 */
module ReviewFindings {
  import opened Wrappers

  datatype Findings<+T> = Findings(sessionNumber: int, content: T)

  const MAX_SESSIONS := 5

  function Others<T>(s: seq<Findings<T>>, session: int): seq<Findings<T>> {
    if s == [] then []
    else Others(s[..|s| - 1], session) + if s[|s| - 1].sessionNumber != session then [s[|s| - 1]] else []
  }

  function LastFive<T>(s: seq<Findings<T>>): seq<Findings<T>> {
    if |s| > MAX_SESSIONS then s[|s| - MAX_SESSIONS..] else s
  }

  function Saved<T>(stored: seq<Findings<T>>, f: Findings<T>): seq<Findings<T>> {
    LastFive(Others(stored, f.sessionNumber) + [f])
  }

  /** The file's content. */
  class FindingsFile<T> {
    var sessions: seq<Findings<T>>

    constructor ()
      ensures sessions == []
    {
      sessions := [];
    }

    /** saveReviewFindings */
    method Save(findings: Findings<T>)
      modifies this
      ensures sessions == Saved(old(sessions), findings)
    {
      var kept := [];
      for i := 0 to |sessions|
        invariant kept == Others(sessions[..i], findings.sessionNumber)
        invariant sessions == old(sessions)
      {
        assert sessions[..i + 1][..i] == sessions[..i];
        if sessions[i].sessionNumber != findings.sessionNumber {
          kept := kept + [sessions[i]];
        }
      }
      assert sessions[..|sessions|] == sessions;
      sessions := kept + [findings];
      if |sessions| > 5 {
        sessions := sessions[|sessions| - 5..];
      }
    }

    /** loadLatestFindings: after any history of saves, the findings saved last. */
    method LoadLatest() returns (r: Option<Findings<T>>)
      ensures r == if sessions == [] then None else Some(sessions[|sessions| - 1])
      ensures forall history :: sessions == Stored(history) ==>
        r == if history == [] then None else Some(history[|history| - 1])
    {
      forall history | sessions == Stored(history)
        ensures if history == [] then sessions == [] else sessions != [] && sessions[|sessions| - 1] == history[|history| - 1]
      {
        LastSaveIsLast(history);
      }
      if |sessions| == 0 {
        return None;
      }
      r := Some(sessions[|sessions| - 1]);
    }
  }

  /** What the file holds after a history of saves. */
  function Stored<T>(history: seq<Findings<T>>): seq<Findings<T>> {
    if history == [] then [] else Saved(Stored(history[..|history| - 1]), history[|history| - 1])
  }

  lemma LastSaveIsLast<T>(history: seq<Findings<T>>)
    ensures if history == [] then Stored(history) == []
            else Stored(history) != [] && Stored(history)[|Stored(history)| - 1] == history[|history| - 1]
  {
  }

  predicate Mentions<T>(history: seq<Findings<T>>, session: int) {
    exists i :: 0 <= i < |history| && history[i].sessionNumber == session
  }

  /** The saves that no later save of the same session replaced, in the order they were made. */
  function Latest<T>(history: seq<Findings<T>>): seq<Findings<T>> {
    if history == [] then []
    else (if Mentions(history[1..], history[0].sessionNumber) then [] else [history[0]]) + Latest(history[1..])
  }

  lemma {:induction false} OthersAdd<T>(a: seq<Findings<T>>, b: seq<Findings<T>>, session: int)
    ensures Others(a + b, session) == Others(a, session) + Others(b, session)
    decreases |b|
  {
    if b == [] {
      assert a + b == a;
    } else {
      assert (a + b)[..|a + b| - 1] == a + b[..|b| - 1];
      OthersAdd(a, b[..|b| - 1], session);
    }
  }

  lemma MentionsAppend<T>(history: seq<Findings<T>>, f: Findings<T>, session: int)
    ensures Mentions(history + [f], session) <==> Mentions(history, session) || f.sessionNumber == session
  {
    assert (history + [f])[|history|] == f;
    if Mentions(history, session) {
      var i :| 0 <= i < |history| && history[i].sessionNumber == session;
      assert (history + [f])[i] == history[i];
    }
  }

  lemma LatestOfOne<T>(f: Findings<T>)
    ensures Latest([f]) == [f] && Others(Latest([]), f.sessionNumber) + [f] == [f]
  {
    assert [f][1..] == [];
  }

  lemma OthersOfOne<T>(h: Findings<T>, session: int)
    ensures Others([h], session) == if h.sessionNumber != session then [h] else []
    ensures Others<T>([], session) == []
  {
    assert [h][..0] == [];
  }

  /** One more save drops the session's earlier entry and comes last. */
  lemma {:induction false} LatestAppend<T>(history: seq<Findings<T>>, f: Findings<T>)
    ensures Latest(history + [f]) == Others(Latest(history), f.sessionNumber) + [f]
  {
    hide Others, Mentions;
    if history == [] {
      LatestOfOne(f);
      assert history + [f] == [f];
    } else {
      var rest, h := history[1..], history[0];
      assert (history + [f])[1..] == rest + [f];
      LatestAppend(rest, f);
      MentionsAppend(rest, f, h.sessionNumber);
      var head := if Mentions(rest, h.sessionNumber) then [] else [h];
      OthersAdd(head, Latest(rest), f.sessionNumber);
      OthersOfOne(h, f.sessionNumber);
      assert Others(head, f.sessionNumber) + (Others(Latest(rest), f.sessionNumber) + [f])
          == Others(head, f.sessionNumber) + Others(Latest(rest), f.sessionNumber) + [f];
    }
  }

  predicate Distinct<T>(s: seq<Findings<T>>) {
    forall i, j :: 0 <= i < j < |s| ==> s[i].sessionNumber != s[j].sessionNumber
  }

  lemma {:induction false} OthersMembers<T>(s: seq<Findings<T>>, session: int)
    ensures forall i :: 0 <= i < |Others(s, session)| ==> Others(s, session)[i] in s && Others(s, session)[i].sessionNumber != session
  {
    if s != [] {
      OthersMembers(s[..|s| - 1], session);
      assert s == s[..|s| - 1] + [s[|s| - 1]];
    }
  }

  lemma {:induction false} OthersDistinct<T>(s: seq<Findings<T>>, session: int)
    requires Distinct(s)
    ensures Distinct(Others(s, session))
  {
    if s != [] {
      var most, last := s[..|s| - 1], s[|s| - 1];
      OthersDistinct(most, session);
      OthersMembers(most, session);
      var others := Others(most, session);
      forall i | 0 <= i < |others| ensures others[i].sessionNumber != last.sessionNumber {
        var k :| 0 <= k < |most| && most[k] == others[i];
        assert s[k] == others[i];
      }
      AppendDistinct(others, last);
    }
  }

  lemma AppendDistinct<T>(s: seq<Findings<T>>, x: Findings<T>)
    requires Distinct(s)
    requires forall i :: 0 <= i < |s| ==> s[i].sessionNumber != x.sessionNumber
    ensures Distinct(s + [x])
  {
  }

  lemma {:induction false} OthersIsAll<T>(s: seq<Findings<T>>, session: int)
    requires forall i :: 0 <= i < |s| ==> s[i].sessionNumber != session
    ensures Others(s, session) == s
  {
    if s != [] {
      OthersIsAll(s[..|s| - 1], session);
      assert s == s[..|s| - 1] + [s[|s| - 1]];
    }
  }

  lemma {:induction false} OthersDropsOne<T>(s: seq<Findings<T>>, session: int)
    requires Distinct(s)
    ensures |Others(s, session)| >= |s| - 1
  {
    if s != [] {
      var most := s[..|s| - 1];
      if s[|s| - 1].sessionNumber == session { OthersIsAll(most, session); } else { OthersDropsOne(most, session); }
    }
  }

  lemma {:induction false} LatestIsDistinct<T>(history: seq<Findings<T>>)
    ensures Distinct(Latest(history))
    decreases |history|
  {
    hide Latest, Distinct;
    if history == [] {
      NothingIsDistinct<T>();
    } else {
      var n := |history| - 1;
      var before, f := Latest(history[..n]), history[n];
      LatestIsDistinct(history[..n]);
      assert history == history[..n] + [f];
      LatestAppend(history[..n], f);
      OthersDistinct(before, f.sessionNumber);
      OthersMembers(before, f.sessionNumber);
      var others := Others(before, f.sessionNumber);
      AppendDistinct(others, f);
      assert Latest(history) == others + [f];
    }
  }

  lemma NothingIsDistinct<T>()
    ensures Distinct<T>(Latest([]))
  {
  }

  lemma LastFiveOfSuffix<T>(a: seq<Findings<T>>, b: seq<Findings<T>>)
    requires |b| >= MAX_SESSIONS
    ensures LastFive(a + b) == LastFive(b)
  {
  }

  lemma SuffixDistinct<T>(s: seq<Findings<T>>, k: nat)
    requires k <= |s| && Distinct(s)
    ensures Distinct(s[k..])
  {
  }

  /** Truncating before one more save loses nothing that truncating after it would keep. */
  lemma TruncateEarly<T>(all: seq<Findings<T>>, f: Findings<T>)
    requires Distinct(all)
    ensures Saved(LastFive(all), f) == LastFive(Others(all, f.sessionNumber) + [f])
  {
    hide Others, Distinct;
    if |all| > MAX_SESSIONS {
      var old_, kept := all[..|all| - MAX_SESSIONS], all[|all| - MAX_SESSIONS..];
      assert all == old_ + kept;
      OthersAdd(old_, kept, f.sessionNumber);
      SuffixDistinct(all, |all| - MAX_SESSIONS);
      OthersDropsOne(kept, f.sessionNumber);
      var a, b := Others(old_, f.sessionNumber), Others(kept, f.sessionNumber);
      assert a + b + [f] == a + (b + [f]);
      LastFiveOfSuffix(a, b + [f]);
    }
  }

  /** For every history of saves the file holds exactly the last five sessions of it, each with its
      latest findings, in the order of those latest saves. */
  lemma {:induction false} FileHoldsLastFive<T>(history: seq<Findings<T>>)
    ensures Stored(history) == LastFive(Latest(history))
    ensures Stored(history) == if |Latest(history)| <= 5 then Latest(history) else Latest(history)[|Latest(history)| - 5..]
    decreases |history|
  {
    if history != [] {
      var n := |history| - 1;
      FileHoldsLastFive(history[..n]);
      assert history == history[..n] + [history[n]];
      LatestAppend(history[..n], history[n]);
      LatestIsDistinct(history[..n]);
      TruncateEarly(Latest(history[..n]), history[n]);
    }
  }
}
