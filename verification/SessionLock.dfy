/**
  The session lock of src/lib/state.ts as a state machine over one shared lock file.

  Every file-system call of acquireLock and releaseLock is a step of its own, any process may
  crash between two steps, and the steps of different processes interleave freely. A process id
  is never reused. Inodes are there because acquireLock writes through the descriptor it opened:
  a write to a file that somebody has unlinked meanwhile goes nowhere.
 */
module SessionLock {

  type Pid = nat

  /** The lock file; its content parses, and then names the owner, once `written`. */
  datatype LockFile = NoFile | LockFile(inode: nat, owner: Pid, written: bool)

  /** Where a process stands. */
  datatype Pc =
    | Idle                     // outside both operations
    | Opened(inode: nat)       // created the file with O_CREAT|O_EXCL, content not written yet
    | Contended                // creation failed with EEXIST, about to read
    | Checking(holder: Pid)    // parsed the content, about to probe the pid
    | Recovering               // found the lock stale or corrupt, about to unlink
    | Recreating               // has unlinked, about to create again
    | Holding(inode: nat)      // acquireLock returned
    | ReleaseSeen(inode: nat)  // releaseLock saw the file, about to read it
    | Releasing(inode: nat)    // found its own pid (or no valid content), about to unlink
    | Dead

  datatype System = System(procs: map<Pid, Pc>, file: LockFile, nextInode: nat)

  /** One atomic step of a process, or its crash. */
  datatype Event = Act(pid: Pid) | Crash(pid: Pid)

  predicate Alive(s: System, p: Pid) {
    p in s.procs && s.procs[p] != Dead
  }

  /** acquireLock has returned to this process and releaseLock has not yet unlinked. */
  predicate Holds(s: System, p: Pid) {
    p in s.procs && (s.procs[p].Holding? || s.procs[p].ReleaseSeen? || s.procs[p].Releasing?)
  }

  /** Holds the lock, or has created the file and is about to. */
  predicate Claims(s: System, p: Pid) {
    Holds(s, p) || (p in s.procs && s.procs[p].Opened?)
  }

  /** Between creating the file and writing it, or between reading it and having replaced it. */
  predicate InCritical(s: System, p: Pid) {
    p in s.procs && (s.procs[p].Opened? || s.procs[p].Checking? || s.procs[p].Recovering? || s.procs[p].Recreating?)
  }

  function Goto(s: System, p: Pid, pc: Pc): System {
    s.(procs := s.procs[p := pc])
  }

  /** openSync with O_CREAT|O_EXCL on a path that does not exist. */
  function Create(s: System, p: Pid): System {
    System(s.procs[p := Opened(s.nextInode)], LockFile(s.nextInode, p, false), s.nextInode + 1)
  }

  function Next(s: System, e: Event): System {
    if !Alive(s, e.pid) then s
    else if e.Crash? then Goto(s, e.pid, Dead)
    else ActOf(s, e.pid)
  }

  /** The next file-system call of process `p`. */
  function ActOf(s: System, p: Pid): System
    requires Alive(s, p)
  {
    match s.procs[p]
    case Idle =>
      if s.file.NoFile? then Create(s, p) else Goto(s, p, Contended)
    case Opened(i) =>
      var hit := s.file.LockFile? && s.file.inode == i;
      Goto(if hit then s.(file := s.file.(written := true)) else s, p, Holding(i))
    case Contended =>
      // a missing or unparsable file lands in the catch clause
      if s.file.LockFile? && s.file.written then Goto(s, p, Checking(s.file.owner)) else Goto(s, p, Recovering)
    case Checking(q) =>
      if Alive(s, q) then Goto(s, p, Idle) else Goto(s, p, Recovering)
    case Recovering =>
      if s.file.NoFile? then Goto(s, p, Idle) else Goto(s.(file := NoFile), p, Recreating)
    case Recreating =>
      if s.file.NoFile? then Create(s, p) else Goto(s, p, Idle)
    case Holding(i) =>
      if s.file.NoFile? then Goto(s, p, Idle) else Goto(s, p, ReleaseSeen(i))
    case ReleaseSeen(i) =>
      if s.file.LockFile? && s.file.written && s.file.owner != p then Goto(s, p, Idle) else Goto(s, p, Releasing(i))
    case Releasing(_) =>
      Goto(s.(file := NoFile), p, Idle)
  }

  function Run(s: System, events: seq<Event>): System
    decreases |events|
  {
    if events == [] then s else Run(Next(s, events[0]), events[1..])
  }

  predicate Initial(s: System) {
    s.file.NoFile? && forall p :: p in s.procs ==> s.procs[p] == Idle
  }

  // ---------------------------------------------------------------- safety

  /** No two processes hold the lock at once. */
  ghost predicate MutualExclusion(s: System) {
    forall p, q :: Holds(s, p) && Holds(s, q) ==> p == q
  }

  /** The file belongs to the claimant, and a live owner is a claimant. */
  ghost predicate Inv(s: System) {
    && (forall p :: Claims(s, p) ==> s.file == LockFile(s.procs[p].inode, p, !s.procs[p].Opened?))
    && (s.file.LockFile? && Alive(s, s.file.owner) ==> Claims(s, s.file.owner))
    && (s.file.LockFile? ==> s.file.inode < s.nextInode)
  }

  /** The one dangerous step: recovery unlinks a file whose creator is alive. */
  predicate Steals(s: System, e: Event) {
    && e.Act? && e.pid in s.procs && s.procs[e.pid].Recovering?
    && s.file.LockFile? && Alive(s, s.file.owner)
  }

  /** No recovery of the run unlinks the file of a live process. */
  predicate Clean(s: System, events: seq<Event>)
    decreases |events|
  {
    events == [] || (!Steals(s, events[0]) && Clean(Next(s, events[0]), events[1..]))
  }

  /** One step keeps the invariant exactly when it does not steal. */
  lemma StepIsSafeExactly(s: System, e: Event)
    requires Inv(s)
    ensures Inv(Next(s, e)) <==> !Steals(s, e)
  {
    var t := Next(s, e);
    if Alive(s, e.pid) {
      if Steals(s, e) {
        assert Claims(t, s.file.owner);
      } else {
        forall p | Claims(t, p) ensures t.file == LockFile(t.procs[p].inode, p, !t.procs[p].Opened?) {
          if p != e.pid { assert Claims(s, p); }
          if Claims(s, e.pid) {}
        }
      }
    }
  }

  /** In every clean run, however interleaved and wherever processes crash, at most one process
      holds the lock, and the lock file is a holder's own file, complete, as long as it holds. */
  lemma {:induction false} CleanRunIsSafe(s: System, events: seq<Event>)
    requires Inv(s) && Clean(s, events)
    ensures Inv(Run(s, events)) && MutualExclusion(Run(s, events))
    ensures forall p :: Holds(Run(s, events), p) ==>
      Run(s, events).file == LockFile(Run(s, events).procs[p].inode, p, true)
    decreases |events|
  {
    if events != [] {
      StepIsSafeExactly(s, events[0]);
      CleanRunIsSafe(Next(s, events[0]), events[1..]);
    } else {
      forall p, q | Holds(s, p) && Holds(s, q) ensures p == q {
        assert Claims(s, p) && Claims(s, q);
      }
    }
  }

  /** In a clean step only the claimant itself can change or remove a live claimant's file. */
  lemma LiveFileIsUntouched(s: System, e: Event)
    requires Inv(s) && !Steals(s, e)
    requires s.file.LockFile? && Alive(s, s.file.owner)
    requires Next(s, e).file != s.file
    ensures e == Act(s.file.owner)
    ensures s.procs[s.file.owner].Opened? || s.procs[s.file.owner].Releasing?
  {
    if Claims(s, e.pid) {}
  }

  /** The calls that finish the acquisition of the thief, and of a victim that was still writing. */
  function AfterTheft(s: System, thief: Pid): seq<Event>
    requires s.file.LockFile? && s.file.owner in s.procs
  {
    [Act(thief), Act(thief), Act(thief)] + if s.procs[s.file.owner].Opened? then [Act(s.file.owner)] else []
  }

  /** Conversely a single theft is fatal: letting the two processes involved finish the
      acquireLock calls they are in makes both of them holders. */
  lemma TheftBreaksExclusion(s: System, thief: Pid)
    requires Inv(s) && Steals(s, Act(thief))
    ensures Holds(Run(s, AfterTheft(s, thief)), thief)
    ensures Holds(Run(s, AfterTheft(s, thief)), s.file.owner)
    ensures !MutualExclusion(Run(s, AfterTheft(s, thief)))
  {
    var o := s.file.owner;
    assert Claims(s, o);
    var es := AfterTheft(s, thief);
    var s1 := Next(s, es[0]);
    var s2 := Next(s1, es[1]);
    var s3 := Next(s2, es[2]);
    assert Holds(s3, thief);
    assert Run(s, es) == Run(s3, es[3..]) by {
      assert es[1..][0] == es[1] && es[1..][1..] == es[2..] && es[2..][0] == es[2] && es[2..][1..] == es[3..];
      assert Run(s, es) == Run(s1, es[1..]) == Run(s2, es[2..]) == Run(s3, es[3..]);
    }
    if s.procs[o].Opened? {
      assert es[3..] == [Act(o)];
      assert Run(s3, es[3..]) == Next(s3, Act(o));
    } else {
      assert es[3..] == [];
    }
    assert Holds(Run(s, es), thief) && Holds(Run(s, es), o) && thief != o;
  }

  // ---------------------------------------------------------------- a discipline that suffices

  /** Creating and writing the file is one step, and so is recovery from its reading of the file to
      its last write: while a process is inside one of these, no other process reads, removes or
      creates the file in acquireLock. Any number of processes may wait after a failed creation, and
      failed creations, releases and crashes may come anywhere. */
  predicate Serial(s: System, events: seq<Event>)
    decreases |events|
  {
    events == [] || (Permitted(s, events[0]) && Serial(Next(s, events[0]), events[1..]))
  }

  predicate Permitted(s: System, e: Event) {
    e.Crash? || Holds(s, e.pid) || CreationFails(s, e.pid) || forall q :: q in s.procs && q != e.pid ==> !InCritical(s, q)
  }

  predicate CreationFails(s: System, p: Pid) {
    p in s.procs && s.procs[p].Idle? && s.file.LockFile?
  }

  /** What a process knows half-way through a recovery that nobody else overlaps. */
  ghost predicate SerialInv(s: System) {
    && Inv(s)
    && (forall p, q :: InCritical(s, p) && InCritical(s, q) ==> p == q)
    && (forall p :: p in s.procs && s.procs[p].Checking? && s.file.LockFile? ==> s.file.owner == s.procs[p].holder)
    && (forall p :: p in s.procs && s.procs[p].Recovering? && s.file.LockFile? ==> !Alive(s, s.file.owner))
  }

  lemma SerialStep(s: System, e: Event)
    requires SerialInv(s) && Permitted(s, e)
    ensures !Steals(s, e) && SerialInv(Next(s, e))
  {
    StepIsSafeExactly(s, e);
    var t := Next(s, e);
    if Alive(s, e.pid) {
      if Holds(s, e.pid) { assert Claims(s, e.pid); }
      forall p, q | InCritical(t, p) && InCritical(t, q) ensures p == q {
        if p != e.pid { assert InCritical(s, p); }
        if q != e.pid { assert InCritical(s, q); }
      }
      forall p | p in t.procs && t.procs[p].Recovering? && t.file.LockFile? ensures !Alive(t, t.file.owner) {
        if p != e.pid {
          assert InCritical(s, p);
        } else if s.procs[p].Contended? && Alive(s, s.file.owner) {
          assert Claims(s, s.file.owner);
          assert InCritical(s, s.file.owner);
        }
      }
      forall p | p in t.procs && t.procs[p].Checking? && t.file.LockFile? ensures t.file.owner == t.procs[p].holder {
        if p != e.pid { assert InCritical(s, p); }
      }
    }
  }

  lemma {:induction false} SerialRunIsClean(s: System, events: seq<Event>)
    requires SerialInv(s) && Serial(s, events)
    ensures Clean(s, events)
    decreases |events|
  {
    if events != [] {
      SerialStep(s, events[0]);
      SerialRunIsClean(Next(s, events[0]), events[1..]);
    }
  }

  /** With creation and recovery one step each the protocol is safe in every run. */
  lemma SerialRunIsSafe(s: System, events: seq<Event>)
    requires Initial(s) && Serial(s, events)
    ensures MutualExclusion(Run(s, events))
  {
    SerialRunIsClean(s, events);
    CleanRunIsSafe(s, events);
  }

  /** A process's next call, with all that belongs to the same step; or its crash. */
  datatype Step = Step(pid: Pid) | Failure(pid: Pid)

  /** How many calls are left of a creation or recovery. */
  function CallsLeft(s: System, p: Pid): nat {
    if !InCritical(s, p) then 0
    else match s.procs[p]
      case Opened(_) => 1
      case Recreating => 2
      case Recovering => 3
      case _ => 4
  }

  /** The calls that finish the creation or recovery process `p` is in. */
  function Finish(s: System, p: Pid): seq<Event>
    decreases CallsLeft(s, p)
  {
    if !InCritical(s, p) then [] else [Act(p)] + Finish(Next(s, Act(p)), p)
  }

  /** The calls of a run whose creations and recoveries are single steps. */
  function Calls(s: System, steps: seq<Step>): seq<Event>
    decreases |steps|
  {
    if steps == [] then []
    else
      var first := CallsOf(s, steps[0]);
      first + Calls(Run(s, first), steps[1..])
  }

  function CallsOf(s: System, step: Step): seq<Event> {
    match step
    case Failure(p) => [Crash(p)]
    case Step(p) => [Act(p)] + Finish(Next(s, Act(p)), p)
  }

  ghost predicate NobodyCritical(s: System) {
    forall q :: !InCritical(s, q)
  }

  lemma {:induction false} SerialConcatenation(s: System, xs: seq<Event>, ys: seq<Event>)
    ensures Serial(s, xs + ys) <==> Serial(s, xs) && Serial(Run(s, xs), ys)
    decreases |xs|
  {
    if xs == [] {
      assert xs + ys == ys;
    } else {
      assert (xs + ys)[1..] == xs[1..] + ys;
      SerialConcatenation(Next(s, xs[0]), xs[1..], ys);
    }
  }

  lemma OthersKeepTheirPlace(s: System, e: Event)
    ensures forall q :: q != e.pid ==> (InCritical(Next(s, e), q) <==> InCritical(s, q))
    ensures e.Crash? ==> !InCritical(Next(s, e), e.pid)
  {
  }

  lemma {:induction false} FinishIsSerial(s: System, p: Pid)
    requires forall q :: q != p ==> !InCritical(s, q)
    ensures Serial(s, Finish(s, p)) && NobodyCritical(Run(s, Finish(s, p)))
    decreases CallsLeft(s, p)
  {
    if InCritical(s, p) {
      var t := Next(s, Act(p));
      OthersKeepTheirPlace(s, Act(p));
      FinishIsSerial(t, p);
      assert Finish(s, p)[1..] == Finish(t, p);
    }
  }

  lemma StepIsSerial(s: System, step: Step)
    requires NobodyCritical(s)
    ensures Serial(s, CallsOf(s, step)) && NobodyCritical(Run(s, CallsOf(s, step)))
  {
    var es := CallsOf(s, step);
    var t := Next(s, es[0]);
    OthersKeepTheirPlace(s, es[0]);
    if step.Step? {
      FinishIsSerial(t, step.pid);
      assert es[1..] == Finish(t, step.pid);
    } else {
      assert es[1..] == [];
      assert Run(s, es) == Run(t, []);
    }
  }

  lemma {:induction false} AtomicRunIsSerial(s: System, steps: seq<Step>)
    requires NobodyCritical(s)
    ensures Serial(s, Calls(s, steps))
    decreases |steps|
  {
    if steps != [] {
      hide Serial, Run, CallsOf;
      var first := CallsOf(s, steps[0]);
      StepIsSerial(s, steps[0]);
      AtomicRunIsSerial(Run(s, first), steps[1..]);
      SerialConcatenation(s, first, Calls(Run(s, first), steps[1..]));
    }
  }

  /** With create-and-write as one step and recovery as one step, every interleaving of any number of
      processes, with crashes anywhere between the steps, keeps the lock exclusive and a live
      process's file in place. */
  lemma AtomicRunIsSafe(s: System, steps: seq<Step>)
    requires Initial(s)
    ensures Clean(s, Calls(s, steps)) && MutualExclusion(Run(s, Calls(s, steps)))
  {
    hide Calls, Run;
    AtomicRunIsSerial(s, steps);
    SerialRunIsClean(s, Calls(s, steps));
    SerialRunIsSafe(s, Calls(s, steps));
  }

  // ---------------------------------------------------------------- overlapping calls are unsafe

  /** Process 0 crashed holding the lock; 1 and 2 both find its pid dead, 1 recovers, and 2 then
      unlinks the lock that 1 holds. */
  lemma OverlappingRecoveriesBothWin() returns (s: System, events: seq<Event>)
    ensures Initial(s) && !Clean(s, events)
    ensures Holds(Run(s, events), 1) && Holds(Run(s, events), 2)
  {
    s := Trio(Idle, Idle, Idle, NoFile, 0);
    var t := Trio(Dead, Holding(1), Recovering, LockFile(1, 1, true), 2);
    assert Inv(t) && Steals(t, Act(2));
    assert Initial(s);
    hide Run, Inv, Steals, Holds, StaleRace, MutualExclusion, Trio, Initial;
    var start := StaleRace();
    StaleRaceReaches();
    TheftBreaksExclusion(t, 2);
    TheftIsNotClean(t, 2);
    Concatenation(s, start, AfterTheft(t, 2));
    events := start + AfterTheft(t, 2);
  }

  lemma TheftIsNotClean(s: System, thief: Pid)
    requires Steals(s, Act(thief))
    ensures !Clean(s, AfterTheft(s, thief))
  {
  }

  function StaleRace(): seq<Event> {
    [Act(0), Act(0), Crash(0)] + (Repeat(Act(1), 3) + Repeat(Act(2), 3) + Repeat(Act(1), 3))
  }

  lemma StaleRaceReaches()
    ensures Run(Trio(Idle, Idle, Idle, NoFile, 0), StaleRace())
         == Trio(Dead, Holding(1), Recovering, LockFile(1, 1, true), 2)
  {
    var xs, ys, zs := [Act(0), Act(0), Crash(0)], Repeat(Act(1), 3) + Repeat(Act(2), 3), Repeat(Act(1), 3);
    CrashWhileHolding();
    BothFindItStale();
    OneRecovers();
    Concatenation(Trio(Dead, Idle, Idle, LockFile(0, 0, true), 1), ys, zs);
    Concatenation(Trio(Idle, Idle, Idle, NoFile, 0), xs, ys + zs);
  }

  /** Process 0 has created the file but not written it; 1 reads an empty file, takes it for
      corrupt and removes it. */
  lemma EmptyFileWindowBreaksExclusion() returns (s: System, events: seq<Event>)
    ensures Initial(s) && !Clean(s, events)
    ensures Holds(Run(s, events), 0) && Holds(Run(s, events), 1)
  {
    s := System(map[0 := Idle, 1 := Idle], NoFile, 0);
    var t := System(map[0 := Opened(0), 1 := Recovering], LockFile(0, 0, false), 1);
    var s1 := System(map[0 := Opened(0), 1 := Idle], LockFile(0, 0, false), 1);
    assert Next(s, Act(0)) == s1;
    assert Next(Next(s1, Act(1)), Act(1)) == t;
    Three(s, Act(0), Act(1), Act(1));
    TheftBreaksExclusion(t, 1);
    Concatenation(s, [Act(0), Act(1), Act(1)], AfterTheft(t, 1));
    events := [Act(0), Act(1), Act(1)] + AfterTheft(t, 1);
  }

  function Trio(a: Pc, b: Pc, c: Pc, file: LockFile, n: nat): System {
    System(map[0 := a, 1 := b, 2 := c], file, n)
  }

  lemma CrashWhileHolding()
    ensures Run(Trio(Idle, Idle, Idle, NoFile, 0), [Act(0), Act(0), Crash(0)])
         == Trio(Dead, Idle, Idle, LockFile(0, 0, true), 1)
  {
    hide Run;
    Three(Trio(Idle, Idle, Idle, NoFile, 0), Act(0), Act(0), Crash(0));
    assert Next(Trio(Idle, Idle, Idle, NoFile, 0), Act(0)) == Trio(Opened(0), Idle, Idle, LockFile(0, 0, false), 1);
    assert Next(Trio(Opened(0), Idle, Idle, LockFile(0, 0, false), 1), Act(0))
        == Trio(Holding(0), Idle, Idle, LockFile(0, 0, true), 1);
  }

  lemma BothFindItStale()
    ensures Run(Trio(Dead, Idle, Idle, LockFile(0, 0, true), 1), Repeat(Act(1), 3) + Repeat(Act(2), 3))
         == Trio(Dead, Recovering, Recovering, LockFile(0, 0, true), 1)
  {
    hide Run, Next, Trio;
    OneFindsItStale();
    TwoFindsItStale();
    Concatenation(Trio(Dead, Idle, Idle, LockFile(0, 0, true), 1), Repeat(Act(1), 3), Repeat(Act(2), 3));
  }

  lemma OneFindsItStale()
    ensures Run(Trio(Dead, Idle, Idle, LockFile(0, 0, true), 1), Repeat(Act(1), 3))
         == Trio(Dead, Recovering, Idle, LockFile(0, 0, true), 1)
  {
    hide Run, Repeat;
    var f := LockFile(0, 0, true);
    var s0 := Trio(Dead, Idle, Idle, f, 1);
    Thrice(s0, 1);
    assert Next(s0, Act(1)) == Trio(Dead, Contended, Idle, f, 1);
    assert Next(Trio(Dead, Contended, Idle, f, 1), Act(1)) == Trio(Dead, Checking(0), Idle, f, 1);
  }

  lemma TwoFindsItStale()
    ensures Run(Trio(Dead, Recovering, Idle, LockFile(0, 0, true), 1), Repeat(Act(2), 3))
         == Trio(Dead, Recovering, Recovering, LockFile(0, 0, true), 1)
  {
    hide Run, Repeat;
    var f := LockFile(0, 0, true);
    var s3 := Trio(Dead, Recovering, Idle, f, 1);
    Thrice(s3, 2);
    assert Next(s3, Act(2)) == Trio(Dead, Recovering, Contended, f, 1);
    assert Next(Trio(Dead, Recovering, Contended, f, 1), Act(2)) == Trio(Dead, Recovering, Checking(0), f, 1);
  }

  lemma OneRecovers()
    ensures Run(Trio(Dead, Recovering, Recovering, LockFile(0, 0, true), 1), Repeat(Act(1), 3))
         == Trio(Dead, Holding(1), Recovering, LockFile(1, 1, true), 2)
  {
    var s0 := Trio(Dead, Recovering, Recovering, LockFile(0, 0, true), 1);
    Thrice(s0, 1);
    assert Next(s0, Act(1)) == Trio(Dead, Recreating, Recovering, NoFile, 1);
    assert Next(Trio(Dead, Recreating, Recovering, NoFile, 1), Act(1))
        == Trio(Dead, Opened(1), Recovering, LockFile(1, 1, false), 2);
  }

  lemma Three(s: System, a: Event, b: Event, c: Event)
    ensures Run(s, [a, b, c]) == Next(Next(Next(s, a), b), c)
  {
    assert [a, b, c][1..] == [b, c] && [b, c][1..] == [c];
    assert Run(Next(Next(s, a), b), [c]) == Run(Next(Next(Next(s, a), b), c), []);
  }

  lemma Thrice(s: System, p: Pid)
    ensures Run(s, Repeat(Act(p), 3)) == Next(Next(Next(s, Act(p)), Act(p)), Act(p))
  {
    Three(s, Act(p), Act(p), Act(p));
    assert Repeat(Act(p), 3) == [Act(p), Act(p), Act(p)];
  }

  lemma {:induction false} Concatenation(s: System, xs: seq<Event>, ys: seq<Event>)
    ensures Run(s, xs + ys) == Run(Run(s, xs), ys)
    ensures Clean(s, xs + ys) <==> Clean(s, xs) && Clean(Run(s, xs), ys)
    decreases |xs|
  {
    if xs == [] {
      assert xs + ys == ys;
    } else {
      assert (xs + ys)[1..] == xs[1..] + ys;
      Concatenation(Next(s, xs[0]), xs[1..], ys);
    }
  }

  // ---------------------------------------------------------------- progress

  /** How many calls acquireLock makes when nobody interferes. */
  function AcquireCalls(s: System): nat {
    if s.file.NoFile? then 2 else if !s.file.written then 5 else if Alive(s, s.file.owner) then 3 else 6
  }

  function Repeat(e: Event, n: nat): seq<Event> {
    seq(n, _ => e)
  }

  /** An undisturbed acquireLock succeeds unless the file names a live process, which then holds the
      lock; in particular a crashed holder, or a process that crashed between creating and writing
      the file, never blocks it. A refused call leaves the file alone. */
  lemma UndisturbedAcquire(s: System, p: Pid)
    requires Inv(s) && p in s.procs && s.procs[p] == Idle
    ensures var t := Run(s, Repeat(Act(p), AcquireCalls(s)));
      var blocked := s.file.LockFile? && s.file.written && Alive(s, s.file.owner);
      && (blocked ==> t.file == s.file && p in t.procs && t.procs[p] == Idle && Holds(s, s.file.owner))
      && (!blocked ==> Holds(t, p) && t.file.LockFile? && t.file.owner == p && t.file.written)
      && (forall q :: q in s.procs && q != p ==> q in t.procs && t.procs[q] == s.procs[q])
  {
    hide Run, Repeat;
    var s1 := Next(s, Act(p));
    var s2 := Next(s1, Act(p));
    if s.file.LockFile? && s.file.written && Alive(s, s.file.owner) { assert Claims(s, s.file.owner); }
    Unroll(s, p, AcquireCalls(s));
    Unroll(s1, p, AcquireCalls(s) - 1);
    if s.file.NoFile? {
      NoMore(s2, p);
    } else if !s.file.written {
      RecoveryTakesOver(s2, p);
    } else {
      Unroll(s2, p, AcquireCalls(s) - 2);
      if Alive(s, s.file.owner) { NoMore(Next(s2, Act(p)), p); } else { RecoveryTakesOver(Next(s2, Act(p)), p); }
    }
  }

  lemma RecoveryTakesOver(s: System, p: Pid)
    requires p in s.procs && s.procs[p].Recovering? && s.file.LockFile?
    ensures var t := Run(s, Repeat(Act(p), 3));
      t.file == LockFile(s.nextInode, p, true) && t.procs == s.procs[p := Holding(s.nextInode)]
  {
    hide Run, Repeat;
    Thrice(s, p);
  }

  lemma NoMore(s: System, p: Pid)
    ensures Run(s, Repeat(Act(p), 0)) == s
  {
  }

  lemma Unroll(s: System, p: Pid, n: nat)
    requires n > 0
    ensures Run(s, Repeat(Act(p), n)) == Run(Next(s, Act(p)), Repeat(Act(p), n - 1))
  {
    assert Repeat(Act(p), n)[1..] == Repeat(Act(p), n - 1);
  }

  // ---------------------------------------------------------------- release

  lemma StepKeepsInv(s: System, p: Pid)
    requires Inv(s) && (p in s.procs ==> !s.procs[p].Recovering?)
    ensures Inv(Next(s, Act(p)))
  {
    StepIsSafeExactly(s, Act(p));
  }

  /** An undisturbed releaseLock of a holder removes the lock file and changes nothing else, */
  lemma UndisturbedRelease(s: System, p: Pid)
    requires Inv(s) && p in s.procs && s.procs[p].Holding?
    ensures Run(s, Repeat(Act(p), 3)) == s.(procs := s.procs[p := Idle], file := NoFile)
    ensures Inv(Run(s, Repeat(Act(p), 3)))
  {
    hide Run, Repeat, Inv;
    assert s.file == LockFile(s.procs[p].inode, p, true) by { HolderOwnsTheFile(s, p); }
    Thrice(s, p);
    var s1 := Next(s, Act(p));
    var s2 := Next(s1, Act(p));
    StepKeepsInv(s, p);
    StepKeepsInv(s1, p);
    StepKeepsInv(s2, p);
    assert s1.procs[p].ReleaseSeen? && s2.procs[p].Releasing?;
    assert Next(s2, Act(p)).procs == s.procs[p := Idle];
  }

  lemma HolderOwnsTheFile(s: System, p: Pid)
    requires Inv(s) && Holds(s, p)
    ensures s.file == LockFile(s.procs[p].inode, p, true)
  {
    assert Claims(s, p);
  }

  /** so that the next process can take the lock. */
  lemma ReleasedLockIsFree(s: System, p: Pid, q: Pid)
    requires Inv(s) && p in s.procs && s.procs[p].Holding?
    requires q == p || (q in s.procs && s.procs[q] == Idle)
    ensures var t := Run(Run(s, Repeat(Act(p), 3)), Repeat(Act(q), 2));
      Holds(t, q) && t.file.LockFile? && t.file.owner == q && t.file.written
  {
    hide Run, Repeat, Inv;
    UndisturbedRelease(s, p);
    UndisturbedAcquire(Run(s, Repeat(Act(p), 3)), q);
  }

  /** A process that has lost the lock to another leaves the other's file alone. */
  lemma ReleaseSparesAnother(s: System, p: Pid)
    requires p in s.procs && s.procs[p].Holding? && s.file.LockFile? && s.file.written && s.file.owner != p
    ensures Run(s, Repeat(Act(p), 2)) == s.(procs := s.procs[p := Idle])
  {
    hide Run, Repeat;
    var s1 := Next(s, Act(p));
    Unroll(s, p, 2);
    Unroll(s1, p, 1);
    NoMore(Next(s1, Act(p)), p);
    assert Next(s1, Act(p)).procs == s.procs[p := Idle];
  }

  /** How many calls of process p a run holds. */
  function CallsBy(p: Pid, events: seq<Event>): nat {
    if events == [] then 0 else (if events[0] == Act(p) then 1 else 0) + CallsBy(p, events[1..])
  }

  /** Process p has `left` calls of a releaseLock to go for the file with this inode. */
  ghost predicate ReleaseLeft(s: System, p: Pid, inode: nat, left: nat) {
    && p in s.procs && inode < s.nextInode
    && match left
       case 3 => s.procs[p] == Holding(inode)
       case 2 => s.procs[p] == ReleaseSeen(inode)
       case 1 => s.procs[p] == Releasing(inode)
       case 0 => s.procs[p] == Idle && (s.file.LockFile? ==> s.file.inode != inode)
       case _ => false
  }

  lemma ReleaseStep(s: System, e: Event, p: Pid, inode: nat, left: nat)
    requires Inv(s) && !Steals(s, e) && e != Crash(p) && ReleaseLeft(s, p, inode, left)
    requires left == 0 ==> e != Act(p)
    ensures Inv(Next(s, e)) && ReleaseLeft(Next(s, e), p, inode, if e == Act(p) then left - 1 else left)
  {
    StepIsSafeExactly(s, e);
    hide Inv;
    if left > 0 { HolderOwnsTheFile(s, p); }
  }

  /** In any clean run, whatever other processes do between its calls, a holder that has made the
      three calls of its releaseLock no longer holds the lock, and its file is gone. */
  lemma {:induction false} InterleavedRelease(s: System, events: seq<Event>, p: Pid, inode: nat, left: nat)
    requires Inv(s) && Clean(s, events) && ReleaseLeft(s, p, inode, left)
    requires CallsBy(p, events) == left && Crash(p) !in events
    ensures var t := Run(s, events);
      p in t.procs && t.procs[p] == Idle && !Holds(t, p) && (t.file.LockFile? ==> t.file.inode != inode)
    decreases |events|
  {
    if events != [] {
      hide Inv, Next, Steals, ReleaseLeft;
      ReleaseStep(s, events[0], p, inode, left);
      InterleavedRelease(Next(s, events[0]), events[1..], p, inode, if events[0] == Act(p) then left - 1 else left);
    }
  }

  lemma HolderReleases(s: System, events: seq<Event>, p: Pid)
    requires Inv(s) && Clean(s, events) && p in s.procs && s.procs[p].Holding?
    requires CallsBy(p, events) == 3 && Crash(p) !in events
    ensures var t := Run(s, events);
      !Holds(t, p) && (t.file.LockFile? ==> t.file.inode != s.procs[p].inode)
  {
    HolderOwnsTheFile(s, p);
    InterleavedRelease(s, events, p, s.procs[p].inode, 3);
  }

  // ---------------------------------------------------------------- every call ends

  /** How many calls acquireLock may still make, inside it. */
  function AcquireLeft(pc: Pc): nat {
    match pc
    case Opened(_) => 1
    case Recreating => 2
    case Recovering => 3
    case Checking(_) => 4
    case Contended => 5
    case _ => 0
  }

  /** Whatever the others do, even in runs that are not clean: an acquireLock that is under way has
      ended, refused or successful, after at most so many calls of its own. */
  lemma {:induction false} AcquireEnds(s: System, events: seq<Event>, p: Pid)
    requires p in s.procs && AcquireLeft(s.procs[p]) > 0
    requires CallsBy(p, events) >= AcquireLeft(s.procs[p]) && Crash(p) !in events
    ensures exists n :: 0 < n <= |events| && CallsBy(p, events[..n]) <= AcquireLeft(s.procs[p]) && HasEnded(Run(s, events[..n]), p)
    decreases |events|
  {
    var t := Next(s, events[0]);
    if events[0] == Act(p) && HasEnded(t, p) {
      assert events[..1][1..] == [];
      assert Run(s, events[..1]) == t;
      assert CallsBy(p, events[..1]) == 1;
    } else {
      AcquireEnds(t, events[1..], p);
      var m :| 0 < m <= |events[1..]| && CallsBy(p, events[1..][..m]) <= AcquireLeft(t.procs[p]) && HasEnded(Run(t, events[1..][..m]), p);
      assert events[..m + 1][1..] == events[1..][..m] && events[..m + 1][0] == events[0];
    }
  }

  predicate HasEnded(s: System, p: Pid) {
    p in s.procs && (s.procs[p].Idle? || s.procs[p].Holding?)
  }
}
