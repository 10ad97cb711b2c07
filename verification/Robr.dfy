/**
 The hand-off of vma->vm_file between faulting threads (robr.c, aufs_fault in f_op.c).

 aufs_fault replaces vm_file by the lower file while the lower handler runs.  A list of vmas
 (si_lvma), guarded by a spinlock, is meant to keep other threads out meanwhile; vm_file itself is
 read without it.  The model interleaves any number of threads faulting on one vma, a step being
 one access to vm_file or one critical section.
 */
module Robr {

  /** The values vm_file can take: the aufs file mapped by the user, and the lower file behind it. */
  datatype File = Outer | Lower | Deeper

  /** Where a thread is inside aufs_fault. */
  datatype Pc =
    | Out                                  // not in aufs_fault
    | Trying(woken: bool)                  // about to read vm_file; woken until it is on the wait queue
    | Seen(file: File, woken: bool)        // vm_file read, list not yet looked at
    | Refused(woken: bool)                 // au_robr_safe_file returned NULL, about to sleep
    | Asleep                               // in schedule()
    | Granted(file: File)                  // au_robr_safe_file returned file and listed the vma
    | Faulting(file: File)                 // vm_file replaced, lower handler running
    | Restored(file: File)                 // vm_file written back, the list entry still there
    | Waking                               // entry removed, wake_up to come

  type Tid = nat

  /** vm_file, the threads that own a list entry of the outer or the lower file's mount, and the threads. */
  datatype State = State(vmFile: File, entry: map<File, Tid>, pc: map<Tid, Pc>)

  /** au_test_aufs on a file: the lower file is one too when a branch is itself an aufs mount. */
  predicate IsAufs(nested: bool, f: File) {
    f == Outer || (f == Lower && nested)
  }

  function LowerOf(f: File): File {
    if f == Outer then Lower else Deeper
  }

  /** wake_up on the queue: everybody on it becomes runnable. */
  function Wake(p: Pc): Pc {
    match p
    case Trying(_) => Trying(true)
    case Seen(f, _) => Seen(f, true)
    case Refused(_) => Refused(true)
    case Asleep => Trying(false)
    case _ => p
  }

  function WakeAll(pc: map<Tid, Pc>): map<Tid, Pc> {
    map t | t in pc :: Wake(pc[t])
  }

  /**
   A step of thread t, whose GFP_ATOMIC allocation succeeds or not, or a wake_up by a thread that faults
   on another vma: the queue is shared.
   */
  datatype Move = Move(t: Tid, alloc: bool) | Spurious

  function Step(nested: bool, s: State, m: Move): State {
    if m.Spurious? then s.(pc := WakeAll(s.pc)) else StepOf(nested, s, m.t, m.alloc)
  }

  /** One step of thread t. */
  function StepOf(nested: bool, s: State, t: Tid, alloc: bool): State {
    match if t in s.pc then s.pc[t] else Out
    case Out => s.(pc := s.pc[t := Trying(true)])
    case Trying(w) => s.(pc := s.pc[t := Seen(s.vmFile, w)])
    case Seen(f, w) =>
      if !IsAufs(nested, f) || f in s.entry || !alloc then s.(pc := s.pc[t := Refused(w)])
      else s.(entry := s.entry[f := t], pc := s.pc[t := Granted(f)])
    case Refused(w) => s.(pc := s.pc[t := if w then Trying(false) else Asleep])
    case Asleep => s
    case Granted(f) => s.(vmFile := LowerOf(f), pc := s.pc[t := Faulting(f)])
    case Faulting(f) => s.(vmFile := f, pc := s.pc[t := Restored(f)])
    case Restored(f) => s.(entry := s.entry - {f}, pc := s.pc[t := Waking])
    case Waking => s.(pc := WakeAll(s.pc)[t := Out])
  }

  const START := State(Outer, map[], map[])

  function Run(nested: bool, s: State, moves: seq<Move>): State
    decreases |moves|
  {
    if moves == [] then s else Run(nested, Step(nested, s, moves[0]), moves[1..])
  }

  // ----- what the protocol is for

  /** t was let through and has not given the entry back. */
  predicate Holds(p: Pc) { p.Granted? || p.Faulting? || p.Restored? }

  predicate In(s: State, t: Tid) { t in s.pc && Holds(s.pc[t]) }

  ghost predicate MutualExclusion(s: State) {
    forall t, u :: In(s, t) && In(s, u) ==> t == u
  }

  /** Whoever was let through saw the aufs file. */
  ghost predicate SawOuter(s: State) {
    forall t :: In(s, t) ==> s.pc[t].file == Outer
  }

  /**
   With nobody listed vm_file is the aufs file; a lower handler runs with the file below the one it was let
   through with.
   */
  ghost predicate FileInPlace(s: State) {
    && (s.entry == map[] ==> s.vmFile == Outer)
    && forall t :: t in s.pc && s.pc[t].Faulting? ==> s.vmFile == LowerOf(s.pc[t].file)
  }

  ghost predicate Safe(s: State) {
    MutualExclusion(s) && SawOuter(s) && FileInPlace(s)
  }

  // ----- the invariant for a lower file that is not aufs

  ghost predicate Inv(s: State) {
    && s.entry.Keys <= {Outer}
    && (Outer in s.entry ==> In(s, s.entry[Outer]))
    && (forall t :: In(s, t) ==> Outer in s.entry && s.entry[Outer] == t)
    && (forall t :: In(s, t) ==> s.pc[t].file == Outer)
    && s.vmFile == if Outer in s.entry && s.pc[s.entry[Outer]].Faulting? then Lower else Outer
  }

  lemma StepKeepsInv(s: State, m: Move)
    requires Inv(s)
    ensures Inv(Step(false, s, m))
  {
    var s' := Step(false, s, m);
    forall t | m.Spurious? || t != m.t ensures In(s', t) <==> In(s, t) {}
    forall t | (m.Spurious? || t != m.t) && In(s, t) ensures s'.pc[t] == s.pc[t] {}
  }

  lemma {:induction false} RunKeepsInv(s: State, moves: seq<Move>)
    requires Inv(s)
    ensures Inv(Run(false, s, moves))
    decreases |moves|
  {
    if moves != [] {
      StepKeepsInv(s, moves[0]);
      RunKeepsInv(Step(false, s, moves[0]), moves[1..]);
    }
  }

  lemma InvIsSafe(s: State)
    requires Inv(s)
    ensures Safe(s)
  {
    if Outer !in s.entry { assert s.vmFile == Outer; } else { assert Outer in s.entry; }
    forall t | t in s.pc && s.pc[t].Faulting? ensures s.vmFile == LowerOf(s.pc[t].file) {
      assert In(s, t);
    }
  }

  lemma RunOne(nested: bool, s: State, m: Move, rest: seq<Move>)
    ensures Run(nested, s, [m] + rest) == Run(nested, Step(nested, s, m), rest)
  {
    assert ([m] + rest)[1..] == rest;
  }

  function Repeat(m: Move, n: nat): seq<Move> { seq(n, _ => m) }

  /** Two threads break exclusion when the lower file is aufs too: the second reads it off vm_file. */
  const BREAKING := Repeat(Move(0, true), 4) + Repeat(Move(1, true), 3)

  lemma NestedRunBreaks()
    ensures !MutualExclusion(Run(true, START, BREAKING))
  {
    var a, b := Move(0, true), Move(1, true);
    var s1 := Step(true, START, Move(0, true));
    var s2 := Step(true, s1, Move(0, true));
    var s3 := Step(true, s2, Move(0, true));
    var s4 := Step(true, s3, Move(0, true));
    var s5 := Step(true, s4, Move(1, true));
    var s6 := Step(true, s5, Move(1, true));
    var s7 := Step(true, s6, Move(1, true));
    RunOne(true, START, a, [a, a, a, b, b, b]);
    RunOne(true, s1, a, [a, a, b, b, b]);
    RunOne(true, s2, a, [a, b, b, b]);
    RunOne(true, s3, a, [b, b, b]);
    RunOne(true, s4, b, [b, b]);
    RunOne(true, s5, b, [b]);
    RunOne(true, s6, b, []);
    assert BREAKING == [a] + [a, a, a, b, b, b];
    assert In(s7, 0) && In(s7, 1);
  }

  /**
   Every interleaving of any number of threads is safe exactly when the lower file is not an aufs file.
   */
  lemma SafeIffNotNested(nested: bool)
    ensures (forall moves :: Safe(Run(nested, START, moves))) <==> !nested
  {
    if nested {
      NestedRunBreaks();
      assert !Safe(Run(true, START, BREAKING));
    } else {
      forall moves ensures Safe(Run(false, START, moves)) {
        RunKeepsInv(START, moves);
        InvIsSafe(Run(false, START, moves));
      }
    }
  }

  // ----- no wake-up is lost

  /** A thread in one of these states still has wake_up ahead of it. */
  predicate WillWake(p: Pc) { Holds(p) || p.Waking? }

  /** t relies on a wake-up: it sleeps, or is bound to, and has not been woken since it queued. */
  predicate Relies(s: State, t: Tid) {
    t in s.pc && (s.pc[t].Asleep? || (s.pc[t].Refused? && !s.pc[t].woken)
                  || (s.pc[t].Seen? && !s.pc[t].woken && s.pc[t].file != Outer))
  }

  ghost predicate WakerAhead(s: State) {
    (exists t :: Relies(s, t)) ==> exists u :: u in s.pc && WillWake(s.pc[u])
  }

  lemma StepKeepsWaker(s: State, m: Move)
    requires Inv(s) && WakerAhead(s) && (m.Move? ==> m.alloc)
    ensures WakerAhead(Step(false, s, m))
  {
    var s' := Step(false, s, m);
    StepKeepsInv(s, m);
    if m.Spurious? || (m.t in s.pc && s.pc[m.t].Waking?) {
      forall r ensures !Relies(s', r) {
        if r in s.pc && s'.pc[r] != Out { assert s'.pc[r] == Wake(s.pc[r]); }
      }
    } else if r :| Relies(s', r) {
      if Relies(s, r) {
        var u :| u in s.pc && WillWake(s.pc[u]);
        assert WillWake(s'.pc[u]);
      } else {
        assert r == m.t;
        assert Outer in s.entry;
        assert WillWake(s'.pc[s.entry[Outer]]);
      }
    }
  }

  /**
   As long as the list entries can be allocated, whenever a thread sleeps some thread is on its way to
   wake_up: no interleaving leaves everybody asleep.
   */
  lemma {:induction false} NoLostWakeup(s: State, moves: seq<Move>)
    requires Inv(s) && WakerAhead(s) && forall m :: m in moves && m.Move? ==> m.alloc
    ensures WakerAhead(Run(false, s, moves))
    decreases |moves|
  {
    if moves != [] {
      assert moves[0] in moves;
      StepKeepsInv(s, moves[0]);
      StepKeepsWaker(s, moves[0]);
      NoLostWakeup(Step(false, s, moves[0]), moves[1..]);
    }
  }

  /** A thread whose allocation keeps failing goes to sleep with nobody left to wake it. */
  const STARVING := [Move(0, true), Move(0, true), Move(0, false), Move(0, true), Move(0, true), Move(0, false),
      Move(0, true)]

  lemma FailedAllocationSleeps()
    ensures !WakerAhead(Run(false, START, STARVING))
  {
    var a, f := Move(0, true), Move(0, false);
    var s1 := Step(false, START, Move(0, true));
    var s2 := Step(false, s1, Move(0, true));
    var s3 := Step(false, s2, Move(0, false));
    var s4 := Step(false, s3, Move(0, true));
    var s5 := Step(false, s4, Move(0, true));
    var s6 := Step(false, s5, Move(0, false));
    var s7 := Step(false, s6, Move(0, true));
    RunOne(false, START, a, [a, f, a, a, f, a]);
    RunOne(false, s1, a, [f, a, a, f, a]);
    RunOne(false, s2, f, [a, a, f, a]);
    RunOne(false, s3, a, [a, f, a]);
    RunOne(false, s4, a, [f, a]);
    RunOne(false, s5, f, [a]);
    RunOne(false, s6, a, []);
    assert STARVING == [a] + [a, f, a, a, f, a];
    assert s7.pc.Keys == {0} && s7.pc[0].Asleep?;
    assert Relies(s7, 0);
  }

  /** Every list entry asked for is allocated. */
  ghost predicate Allocates(moves: seq<Move>) {
    forall m :: m in moves && m.Move? ==> m.alloc
  }

  /** Whenever a thread sleeps somebody is on its way to wake it, in all runs exactly if no allocation may fail. */
  lemma WakerIffAllocates(mayFail: bool)
    ensures (forall moves :: mayFail || Allocates(moves) ==> WakerAhead(Run(false, START, moves))) <==> !mayFail
  {
    if mayFail {
      FailedAllocationSleeps();
    } else {
      forall moves | Allocates(moves) ensures WakerAhead(Run(false, START, moves)) { NoLostWakeup(START, moves); }
    }
  }
}
