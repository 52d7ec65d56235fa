/**
 The debounced saver of session state: mutations signal it through an unbounded
 queue, it waits, drains the queue, takes a snapshot and writes it to a temporary
 file that is then renamed over the canonical one. Any step may be the last one
 before a crash, and any file operation may fail.
 */
module Persistence {
  import opened Wrappers

  /** The serialised session state. */
  type Image = seq<nat>

  /**
   Where the saver is. It listens for a shutdown only while it waits in select,
   and `told` says that one came while it did. `last` marks the save after which
   the saver ends.
   */
  datatype Phase =
    | Looping
    | Idle(told: bool)
    | Sleeping
    | Draining
    | Snapshotting(last: bool)
    | Opening(image: Image, last: bool)
    | Writing(image: Image, last: bool)
    | Renaming(image: Image, last: bool)
    | Cleaning(last: bool)
    | Exited

  /** `memory` is what a snapshot taken now would hold; `failed` says that the last finished save failed. */
  datatype State = State(memory: Image, queued: nat, closed: bool, phase: Phase,
                         tmp: Option<Image>, file: Option<Image>, failed: bool)

  datatype Step =
    | Mutate(image: Image)
    | Shutdown
    | HandlesDropped
    | Listen
    | Receive
    | Heed
    | Wake
    | DrainOne
    | DrainEnd
    | TakeSnapshot
    | Open
    | WriteSome(upTo: nat)
    | Rename
    | SaveFails
    | Clean(removed: bool)

  predicate Enabled(s: State, step: Step) {
    match step
    case Mutate(_) => !s.closed
    case Shutdown => true
    case HandlesDropped => true
    case Listen => s.phase.Looping?
    case Receive => s.phase.Idle? && (s.queued > 0 || s.closed)
    case Heed => s.phase.Idle? && s.phase.told
    case Wake => s.phase.Sleeping?
    case DrainOne => s.phase.Draining? && s.queued > 0
    case DrainEnd => s.phase.Draining? && s.queued == 0
    case TakeSnapshot => s.phase.Snapshotting?
    case Open => s.phase.Opening?
    case WriteSome(upTo) => s.phase.Writing? && s.tmp.Some? && |s.tmp.value| < upTo <= |s.phase.image|
    case Rename => s.phase.Renaming?
    case SaveFails => s.phase.Opening? || s.phase.Writing? || s.phase.Renaming?
    case Clean(_) => s.phase.Cleaning?
  }

  function AfterSave(last: bool): Phase {
    if last then Exited else Looping
  }

  function Next(s: State, step: Step): State
    requires Enabled(s, step)
  {
    match step
    case Mutate(image) => s.(memory := image, queued := s.queued + 1)
    // Only a saver that waits in select is woken; the signal is not stored.
    case Shutdown => if s.phase.Idle? then s.(phase := Idle(true)) else s
    case HandlesDropped => s.(closed := true)
    case Listen => s.(phase := Idle(false))
    // With both ready select takes either: taking the dirty signal drops the shutdown.
    case Receive =>
      if s.queued > 0 then s.(queued := s.queued - 1, phase := Sleeping) else s.(phase := Snapshotting(true))
    case Heed => s.(phase := Snapshotting(true))
    case Wake => s.(phase := Draining)
    case DrainOne => s.(queued := s.queued - 1)
    case DrainEnd => s.(phase := Snapshotting(false))
    case TakeSnapshot => s.(phase := Opening(s.memory, s.phase.last))
    case Open =>
      s.(tmp := Some([]), phase := if s.phase.image == [] then Renaming([], s.phase.last)
          else Writing(s.phase.image, s.phase.last))
    case WriteSome(upTo) =>
      var written := s.phase.image[..upTo];
      if written == s.phase.image then s.(tmp := Some(written), phase := Renaming(s.phase.image, s.phase.last))
      else s.(tmp := Some(written))
    case Rename => s.(file := s.tmp, tmp := None, failed := false, phase := AfterSave(s.phase.last))
    case SaveFails =>
      // A failed rename removes the temporary file, a failed write leaves it.
      if s.phase.Renaming? then s.(phase := Cleaning(s.phase.last))
      else s.(failed := true, phase := AfterSave(s.phase.last))
    case Clean(removed) =>
      s.(tmp := if removed then None else s.tmp, failed := true, phase := AfterSave(s.phase.last))
  }

  ghost predicate AllEnabled(s: State, steps: seq<Step>)
    decreases |steps|, 0
  {
    steps == [] ||
    (AllEnabled(s, steps[..|steps| - 1]) && Enabled(Run(s, steps[..|steps| - 1]), steps[|steps| - 1]))
  }

  ghost function Run(s: State, steps: seq<Step>): State
    requires AllEnabled(s, steps)
    decreases |steps|, 1
  {
    if steps == [] then s else Next(Run(s, steps[..|steps| - 1]), steps[|steps| - 1])
  }

  /** What a daemon started now would restore; without a file it starts from `blank`. */
  function Restored(file: Option<Image>, blank: Image): Image {
    file.GetOr(blank)
  }

  /** A started daemon holds what it restored, and the saver is about to wait. */
  predicate Started(s: State, blank: Image) {
    s.phase.Looping? && s.queued == 0 && !s.failed && s.memory == Restored(s.file, blank)
  }

  // ── No change is forgotten ───────────────────────────────────────────────

  /** The saver has a change in hand: it will take a snapshot, or the one it writes is current. */
  predicate InHand(s: State) {
    match s.phase
    case Looping | Idle(_) | Exited => false
    case Sleeping | Draining | Snapshotting(_) => true
    case Opening(image, _) => image == s.memory
    case Writing(image, _) => image == s.memory
    case Renaming(image, _) => image == s.memory
    case Cleaning(_) => false
  }

  predicate Covered(s: State, blank: Image) {
    && (Restored(s.file, blank) == s.memory || s.queued > 0 || InHand(s) || s.failed || s.phase.Cleaning?)
    && (Saving(s) && s.phase.image != s.memory ==> s.queued > 0)
  }

  predicate Saving(s: State) {
    s.phase.Opening? || s.phase.Writing? || s.phase.Renaming?
  }

  /** The temporary file holds a beginning of the snapshot, all of it once it is renamed. */
  predicate TmpOK(s: State) {
    (s.phase.Writing? ==> s.tmp.Some? && s.tmp.value < s.phase.image)
        && (s.phase.Renaming? ==> s.tmp == Some(s.phase.image))
  }

  lemma StepKeeps(s: State, step: Step, blank: Image)
    requires Enabled(s, step) && Covered(s, blank) && TmpOK(s)
    ensures Covered(Next(s, step), blank) && TmpOK(Next(s, step))
  {
  }

  lemma {:induction false} RunKeeps(s: State, steps: seq<Step>, blank: Image)
    requires Started(s, blank) && AllEnabled(s, steps)
    ensures Covered(Run(s, steps), blank) && TmpOK(Run(s, steps))
  {
    if steps != [] {
      var before := steps[..|steps| - 1];
      RunKeeps(s, before, blank);
      StepKeeps(Run(s, before), steps[|steps| - 1], blank);
    }
  }

  /**
   In every run the file restores to what is in memory, or a signal is queued, or
   the saver has every unsignalled change in hand, or the last save failed.
   */
  lemma NoChangeIsForgotten(s: State, steps: seq<Step>, t: State, blank: Image)
    requires Started(s, blank) && AllEnabled(s, steps) && t == Run(s, steps)
    ensures Restored(t.file, blank) == t.memory || t.queued > 0 || InHand(t) || t.failed || t.phase.Cleaning?
    ensures (t.phase.Idle? || t.phase.Looping?) && t.queued == 0 && !t.failed ==> Restored(t.file, blank) == t.memory
  {
    RunKeeps(s, steps, blank);
  }

  /**
   A save that fails leaves the canonical file and memory alone and is not tried again
   before the next change. A failed rename takes the temporary file away if it can, any
   earlier failure leaves what was written of it.
   */
  lemma FailedSaveIsGivenUp(s: State, removed: bool)
    requires Enabled(s, SaveFails)
    ensures
      var t := Next(s, SaveFails);
      var u := if s.phase.Renaming? then Next(t, Clean(removed)) else t;
      && u.file == s.file && u.memory == s.memory && u.queued == s.queued && u.failed
      && u.phase == (if s.phase.last then Exited else Looping)
      && u.tmp == (if s.phase.Renaming? && removed then None else s.tmp)
  {
  }

  /** From a new snapshot without failures the file comes to hold it, and no temporary file is left. */
  lemma SaveWithoutFailure(s: State)
    requires s.phase.Opening? && s.phase.image != []
    ensures
      var w := Next(Next(s, Open), WriteSome(|s.phase.image|));
      && Enabled(Next(s, Open), WriteSome(|s.phase.image|)) && Enabled(w, Rename)
      && w.tmp == Some(s.phase.image) && w.file == s.file
      && Next(w, Rename).file == Some(s.phase.image) && Next(w, Rename).tmp == None && !Next(w, Rename).failed
  {
    assert s.phase.image[..|s.phase.image|] == s.phase.image;
  }

  // ── The canonical file is always a whole snapshot, and never an older one ─

  /** How many steps had been taken when the snapshot now being written was taken. */
  ghost function SnapshotAt(steps: seq<Step>): nat {
    if steps == [] then 0
    else if steps[|steps| - 1].TakeSnapshot? then |steps| - 1 else SnapshotAt(steps[..|steps| - 1])
  }

  /** How many steps had been taken when the snapshot now in the file was taken; 0 while the file is the initial one. */
  ghost function SavedAt(steps: seq<Step>): nat {
    if steps == [] then 0
    else if steps[|steps| - 1].Rename? then SnapshotAt(steps) else SavedAt(steps[..|steps| - 1])
  }

  lemma {:induction false} SnapshotInHand(s: State, steps: seq<Step>)
    requires s.phase.Looping? && AllEnabled(s, steps)
    ensures SavedAt(steps) <= SnapshotAt(steps) <= |steps|
    ensures TmpOK(Run(s, steps))
    ensures AllEnabled(s, steps[..SnapshotAt(steps)])
    ensures Saving(Run(s, steps)) ==> Run(s, steps).phase.image == Run(s, steps[..SnapshotAt(steps)]).memory
  {
    if steps != [] {
      var before, step := steps[..|steps| - 1], steps[|steps| - 1];
      SnapshotInHand(s, before);
      SnapshotStep(s, before, step, Run(s, before));
      if !step.TakeSnapshot? { assert before[..SnapshotAt(before)] == steps[..SnapshotAt(steps)]; }
    }
  }

  lemma SnapshotStep(s: State, before: seq<Step>, step: Step, b: State)
    requires AllEnabled(s, before) && b == Run(s, before) && Enabled(b, step) && TmpOK(b)
    ensures TmpOK(Next(b, step))
    ensures Saving(Next(b, step)) && !step.TakeSnapshot? ==> Saving(b) && Next(b, step).phase.image == b.phase.image
    ensures step.TakeSnapshot? ==> Next(b, step).phase.Opening? && Next(b, step).phase.image == b.memory
  {
    hide Run, AllEnabled;
  }

  /**
   At every point of every run, so after a crash at any step, the canonical file
   is the initial one or exactly the state memory held at an earlier moment.
   */
  lemma {:induction false} FileIsAWholeSnapshot(s: State, steps: seq<Step>, t: State)
    requires s.phase.Looping? && AllEnabled(s, steps) && t == Run(s, steps)
    ensures SavedAt(steps) <= |steps| && AllEnabled(s, steps[..SavedAt(steps)])
    ensures t.file == s.file || t.file == Some(Run(s, steps[..SavedAt(steps)]).memory)
  {
    if steps != [] {
      var before, step := steps[..|steps| - 1], steps[|steps| - 1];
      FileIsAWholeSnapshot(s, before, Run(s, before));
      SnapshotInHand(s, before);
      SnapshotInHand(s, steps);
      assert step.Rename? || Next(Run(s, before), step).file == Run(s, before).file;
      if step.Rename? {
        assert steps[..SnapshotAt(steps)] == before[..SnapshotAt(before)];
      } else {
        assert steps[..SavedAt(steps)] == before[..SavedAt(before)];
      }
    }
  }

  /** A later file never holds an older snapshot. */
  lemma {:induction false} FileNeverGoesBack(s: State, steps: seq<Step>, k: nat)
    requires s.phase.Looping? && AllEnabled(s, steps) && k <= |steps|
    ensures SavedAt(steps[..k]) <= SavedAt(steps)
  {
    if k == |steps| {
      assert steps[..k] == steps;
    } else {
      var before := steps[..|steps| - 1];
      FileNeverGoesBack(s, before, k);
      assert before[..k] == steps[..k];
      SnapshotInHand(s, before);
    }
  }

  // ── The saver always gets there ──────────────────────────────────────────

  /** The saver's own steps, failing ones included. */
  predicate Own(step: Step) {
    !step.Mutate? && !step.Shutdown? && !step.HandlesDropped?
  }

  /** The saver has ended, or waits for something that is not there. */
  predicate AtRest(s: State) {
    s.phase.Exited? || (s.phase == Idle(false) && s.queued == 0 && !s.closed)
  }

  /** At most how many steps the saver has left before it rests. */
  function Left(s: State): nat {
    var last := |s.memory| + 6;
    var waiting := if s.closed then 1 + last else 0;
    var again := 1 + (if s.queued > 0 then s.queued + 3 + last + 1 else 0) + waiting;
    match s.phase
    case Exited => 0
    case Looping => again
    case Idle(told) => again - 1 + (if told then 1 + last else 0)
    case Sleeping => s.queued + 2 + last + 1 + waiting
    case Draining => s.queued + 1 + last + 1 + waiting
    case Snapshotting(final) => |s.memory| + 5 + (if final then 0 else again)
    case Opening(image, final) => |image| + 4 + (if final then 0 else again)
    case Writing(image, final) =>
      (if s.tmp.Some? && |s.tmp.value| < |image| then |image| - |s.tmp.value| else 0) + 3 + (if final then 0 else again)
    case Renaming(_, final) => 2 + (if final then 0 else again)
    case Cleaning(final) => 1 + (if final then 0 else again)
  }

  lemma StepShrinks(s: State, step: Step)
    requires Enabled(s, step) && Own(step) && TmpOK(s)
    ensures Left(Next(s, step)) < Left(s) && TmpOK(Next(s, step))
  {
  }

  lemma {:induction false} WorkShrinks(s: State, work: seq<Step>)
    requires AllEnabled(s, work) && TmpOK(s) && forall i :: 0 <= i < |work| ==> Own(work[i])
    ensures Left(Run(s, work)) + |work| <= Left(s) && TmpOK(Run(s, work))
  {
    if work != [] {
      hide Left, TmpOK, Own;
      WorkShrinks(s, work[..|work| - 1]);
      assert Own(work[|work| - 1]);
      StepShrinks(Run(s, work[..|work| - 1]), work[|work| - 1]);
    }
  }

  /** What a saver that does not rest can always do next. */
  function NextStep(s: State): Step {
    match s.phase
    case Looping => Listen
    case Idle(told) => if told then Heed else Receive
    case Exited => Receive
    case Sleeping => Wake
    case Draining => if s.queued > 0 then DrainOne else DrainEnd
    case Snapshotting(_) => TakeSnapshot
    case Opening(_, _) => Open
    case Writing(image, _) => WriteSome(|image|)
    case Renaming(_, _) => Rename
    case Cleaning(_) => Clean(true)
  }

  lemma NextStepEnabled(s: State)
    requires TmpOK(s)
    ensures Own(NextStep(s)) && (Enabled(s, NextStep(s)) <==> !AtRest(s))
    ensures AtRest(s) ==> forall step :: Own(step) ==> !Enabled(s, step)
  {
  }

  /**
   While nothing is mutated the saver cannot go on for ever: a bound for all its
   runs is known from the state. It is stuck exactly when it has ended, or waits
   with an empty queue, where NoChangeIsForgotten says what the file holds.
   */
  lemma SaverSettles(s: State, work: seq<Step>, t: State)
    requires TmpOK(s) && AllEnabled(s, work) && t == Run(s, work) && forall i :: 0 <= i < |work| ==> Own(work[i])
    ensures |work| <= Left(s)
    ensures AtRest(t) <==> forall step :: Own(step) ==> !Enabled(t, step)
  {
    WorkShrinks(s, work);
    hide Left, TmpOK, Own, AtRest;
    NextStepEnabled(t);
  }

  lemma {:induction false} RunCons(s: State, step: Step, steps: seq<Step>)
    requires Enabled(s, step) && AllEnabled(Next(s, step), steps)
    ensures AllEnabled(s, [step] + steps) && Run(s, [step] + steps) == Run(Next(s, step), steps)
  {
    var all := [step] + steps;
    hide Enabled, Next;
    if steps == [] {
      assert all == [step] && all[..0] == [];
    } else {
      RunCons(s, step, steps[..|steps| - 1]);
      assert all[..|all| - 1] == [step] + steps[..|steps| - 1];
    }
  }

  /** From every state the saver can bring itself to rest. */
  lemma {:induction false} Settle(s: State) returns (work: seq<Step>)
    requires TmpOK(s)
    ensures AllEnabled(s, work) && (forall i :: 0 <= i < |work| ==> Own(work[i])) && AtRest(Run(s, work))
    decreases Left(s)
  {
    NextStepEnabled(s);
    if AtRest(s) {
      work := [];
    } else {
      StepShrinks(s, NextStep(s));
      hide Left, TmpOK, Own, AtRest, Enabled, Next, NextStep;
      var rest := Settle(Next(s, NextStep(s)));
      RunCons(s, NextStep(s), rest);
      work := [NextStep(s)] + rest;
    }
  }

  // ── Which shutdowns are heard ────────────────────────────────────────────

  predicate Ending(s: State) {
    match s.phase
    case Snapshotting(last) => last
    case Opening(_, last) => last
    case Writing(_, last) => last
    case Renaming(_, last) => last
    case Cleaning(last) => last
    case Exited => true
    case _ => false
  }

  /** The saver is in its last save, or has nothing to take but the shutdown. */
  predicate MustEnd(s: State) {
    Ending(s) || (s.phase == Idle(true) && s.queued == 0)
  }

  lemma {:induction false} MustEndIsKept(s: State, work: seq<Step>)
    requires AllEnabled(s, work) && !s.closed && MustEnd(s) && forall i :: 0 <= i < |work| ==> Own(work[i])
    ensures MustEnd(Run(s, work)) && !Run(s, work).closed
  {
    if work != [] { MustEndIsKept(s, work[..|work| - 1]); }
  }

  lemma {:induction false} UntoldIsKept(s: State, work: seq<Step>)
    requires AllEnabled(s, work) && !s.closed && !Ending(s) && s.phase != Idle(true)
      && forall i :: 0 <= i < |work| ==> Own(work[i])
    ensures !Ending(Run(s, work)) && Run(s, work).phase != Idle(true)
  {
    if work != [] {
      UntoldIsKept(s, work[..|work| - 1]);
      ClosedIsKept(s, work[..|work| - 1]);
    }
  }

  lemma {:induction false} ClosedIsKept(s: State, work: seq<Step>)
    requires AllEnabled(s, work) && forall i :: 0 <= i < |work| ==> Own(work[i])
    ensures Run(s, work).closed == s.closed
  {
    if work != [] { ClosedIsKept(s, work[..|work| - 1]); }
  }

  /**
   A shutdown certainly ends the saver if it waits with an empty queue, or is in
   its last save already; one that finds it anywhere else but waiting is lost.
   */
  lemma ShutdownHeard(s: State, work: seq<Step>, t: State)
    requires AllEnabled(Next(s, Shutdown), work) && t == Run(Next(s, Shutdown), work)
    requires !s.closed && AtRest(t) && forall i :: 0 <= i < |work| ==> Own(work[i])
    ensures (s.phase.Idle? && s.queued == 0) || Ending(s) ==> t.phase.Exited?
    ensures !s.phase.Idle? && !Ending(s) ==> !t.phase.Exited?
  {
    if MustEnd(Next(s, Shutdown)) { MustEndIsKept(Next(s, Shutdown), work); }
    if !s.phase.Idle? && !Ending(s) { UntoldIsKept(s, work); }
  }

  /** In between, with the shutdown and a dirty signal both ready, the saver may end or may go on waiting for ever. */
  lemma ShutdownMayBeLost(s: State) returns (heard: seq<Step>, lost: seq<Step>)
    requires s.phase.Idle? && s.queued > 0 && !s.closed
    ensures
      var u := Next(s, Shutdown);
      && AllEnabled(u, heard) && (forall i :: 0 <= i < |heard| ==> Own(heard[i])) && Run(u, heard).phase.Exited?
      && AllEnabled(u, lost) && (forall i :: 0 <= i < |lost| ==> Own(lost[i])) && AtRest(Run(u, lost))
          && Run(u, lost).phase.Idle?
  {
    var u := Next(s, Shutdown);
    var ending, working := Next(u, Heed), Next(u, Receive);
    var rest := Settle(ending);
    MustEndIsKept(ending, rest);
    RunCons(u, Heed, rest);
    heard := [Heed] + rest;
    rest := Settle(working);
    UntoldIsKept(working, rest);
    RunCons(u, Receive, rest);
    lost := [Receive] + rest;
  }

  /** The saver's own steps bring it to rest. */
  ghost predicate Rests(s: State, work: seq<Step>) {
    AllEnabled(s, work) && (forall i :: 0 <= i < |work| ==> Own(work[i])) && AtRest(Run(s, work))
  }

  /**
   A shutdown ends the saver in every run of its own steps that comes to rest if
   and only if it waits with an empty queue, or is in its last save already.
   */
  lemma ShutdownCertainIff(s: State, u: State)
    requires TmpOK(s) && !s.closed && u == Next(s, Shutdown)
    ensures (forall work :: Rests(u, work) ==> Run(u, work).phase.Exited?) <==>
      (s.phase.Idle? && s.queued == 0) || Ending(s)
  {
    hide TmpOK, AtRest, Own, Next;
    if (s.phase.Idle? && s.queued == 0) || Ending(s) {
      forall work | Rests(u, work) ensures Run(u, work).phase.Exited? { ShutdownHeard(s, work, Run(u, work)); }
    } else if s.phase.Idle? {
      var heard, lost := ShutdownMayBeLost(s);
      assert Rests(u, lost);
    } else {
      assert u == s by { ShutdownIgnored(s); }
      var work := Settle(s);
      ShutdownHeard(s, work, Run(s, work));
      assert Rests(u, work);
    }
  }

  lemma ShutdownIgnored(s: State)
    requires !s.phase.Idle?
    ensures Next(s, Shutdown) == s
  {
  }
}
