/** Leases, publication, retirement and crashes over whole runs (crates/reflink-forest-maintenance, -daemon). */
module GcProtocol {
  import opened Bytes
  import opened Core
  import opened Host
  import opened Catalog
  import opened Generations

  // One daemon instance and its disk. `busy` is a retirement that passed its catalog checks and
  // still holds the catalog mutex; `handles` are the leases readers hold; `moved` records every
  // generation ever moved to trash.
  datatype System = System(
    catalog: State,
    files: Files,
    open: bool,
    handles: set<nat>,
    busy: Option<(u32, u32)>,
    moved: set<u32>)

  datatype Step =
    | ChangeCatalog(catalog: State)
    | Bootstrap(generation: u32)
    | CreateDirectory(generation: u32)
    | Publish(catalog: State, target: u32, outcome: WriteOutcome)
    | BeginRetire(source: u32, target: u32, outcome: WriteOutcome)
    | FinishRetire(faults: RetireFaults)
    | TakeLease(generation: u32, name: nat, outcome: WriteOutcome)
    | DropLease(name: nat, removed: bool)
    | CancelRetirement(generation: u32, outcome: WriteOutcome)
    | DisturbPointer(pointer: Pointer)
    | EmptyTrash(generation: u32)
    | Crash
    | ReopenFails(names: set<nat>)
    | Reopen(outcome: WriteOutcome)

  ghost predicate Enabled(s: System, step: Step) {
    match step
    // Pins, snapshots and locations change through the catalog mutex, the current generation only by publication.
    case ChangeCatalog(catalog) => s.open && s.busy.None? && catalog.current == s.catalog.current
    case Bootstrap(_) => s.open && s.busy.None? && s.catalog.current.None?
    // Chunks are only ever written to the current generation or to a later one.
    case CreateDirectory(generation) => s.open && (s.catalog.current.None? || s.catalog.current.value <= generation)
    case Publish(catalog, target, _) =>
      && s.open && s.busy.None? && s.catalog.current.Some? && s.catalog.current.value < target
      && catalog.current == Some(target)
    case BeginRetire(source, target, _) =>
      s.open && s.busy.None? && source < target && s.catalog.current == Some(target) && !Pinned(s.catalog, source)
    case FinishRetire(_) => s.busy.Some?
    case TakeLease(_, name, _) => s.open && name !in s.files.leases
    case DropLease(name, _) => s.open && name in s.handles
    // A generation that reached the trash is never re-admitted.
    case CancelRetirement(generation, _) => s.open && generation !in s.moved
    case DisturbPointer(_) => true
    case EmptyTrash(generation) => generation in s.files.trash
    case Crash => s.open
    case ReopenFails(_) => !s.open
    case Reopen(_) => !s.open
  }

  ghost function Take(s: System, step: Step): System
    requires Enabled(s, step)
  {
    match step
    case ChangeCatalog(catalog) => s.(catalog := catalog)
    case Bootstrap(generation) => s.(catalog := s.catalog.(current := Some(generation)))
    case CreateDirectory(generation) => s.(files := s.files.(live := s.files.live + {generation}))
    case Publish(catalog, target, outcome) =>
      s.(catalog := catalog, files := s.files.(pointer := AfterWrite(outcome, s.files.pointer, Active(target))))
    case BeginRetire(source, target, outcome) =>
      s.(files := s.files.(pointer := AfterWrite(outcome, s.files.pointer, Active(target))),
         busy := if outcome == Written then Some((source, target)) else None)
    case FinishRetire(faults) =>
      var source := s.busy.value.0;
      var (files, _) := Retire(s.files, source, faults);
      s.(files := files, busy := None, moved := s.moved + (files.trash - s.files.trash))
    case TakeLease(generation, name, outcome) =>
      if generation in s.files.retiring then s
      else s.(files := s.files.(leases := AfterWrite(outcome, s.files.leases, s.files.leases[name := generation])),
              handles := if outcome == Written then s.handles + {name} else s.handles)
    case DropLease(name, removed) =>
      s.(files := s.files.(leases := if removed then s.files.leases - {name} else s.files.leases),
         handles := s.handles - {name})
    case CancelRetirement(generation, outcome) =>
      s.(files := s.files.(retiring := AfterWrite(outcome, s.files.retiring, s.files.retiring - {generation})))
    case DisturbPointer(pointer) => s.(files := s.files.(pointer := pointer))
    case EmptyTrash(generation) => s.(files := s.files.(trash := s.files.trash - {generation}))
    // A crash ends the process; the disk keeps whatever the last step left.
    case Crash => s.(open := false, handles := {}, busy := None)
    case ReopenFails(names) => s.(files := s.files.(leases := s.files.leases - names))
    case Reopen(outcome) =>
      s.(open := outcome == Written || s.catalog.current.None?,
         files := s.files.(leases := map[], pointer := Repaired(s.catalog, s.files.pointer, outcome)))
  }

  ghost predicate Init(s: System) {
    s.moved == {} && s.files.trash == {} && s.handles == {} && s.busy.None?
  }

  // ---------- The invariant ----------

  ghost predicate Inv(s: System) {
    && s.moved <= s.files.retiring
    && (forall g :: g in s.moved ==> s.catalog.current.Some? && g < s.catalog.current.value)
    && (forall g :: g in s.moved ==> !Leased(s.files.leases, g))
    && s.handles <= s.files.leases.Keys
    && (!s.open ==> s.handles == {} && s.busy.None?)
    && (s.busy.Some? ==>
          && s.busy.value.0 < s.busy.value.1 && s.catalog.current == Some(s.busy.value.1)
          && !Pinned(s.catalog, s.busy.value.0))
  }

  lemma RetireKeeps(f: Files, generation: u32, faults: RetireFaults)
    ensures var f' := Retire(f, generation, faults).0;
            && f'.leases == f.leases && f'.pointer == f.pointer
            && f.retiring <= f'.retiring <= f.retiring + {generation}
            && ((f'.trash == f.trash && f'.live == f.live)
                || (&& generation !in f.trash && f'.trash == f.trash + {generation} && f'.live == f.live - {generation}
                    && !Leased(f.leases, generation) && generation in f'.retiring))
  {
  }

  lemma StepKeepsInv(s: System, step: Step)
    requires Inv(s) && Enabled(s, step)
    ensures Inv(Take(s, step))
  {
    hide Pinned, Retire;
    if step.FinishRetire? {
      RetireKeeps(s.files, s.busy.value.0, step.faults);
    }
  }

  // A generation is moved only when no reader leases it, no pin names it and it is not current;
  // and the marker that refuses later leases is already in place.
  lemma MoveIsSafe(s: System, step: Step, g: u32)
    requires Inv(s) && Enabled(s, step) && g !in s.moved && g in Take(s, step).moved
    ensures !Leased(s.files.leases, g) && !Pinned(s.catalog, g)
    ensures s.catalog.current.Some? && g < s.catalog.current.value
    ensures g in Take(s, step).files.retiring && g !in Take(s, step).files.live
  {
    hide Pinned, Retire;
    RetireKeeps(s.files, s.busy.value.0, step.faults);
  }

  // ---------- Whole runs ----------

  // `states` is driven by `steps`.
  ghost predicate IsRun(states: seq<System>, steps: seq<Step>) {
    && |states| == |steps| + 1 && Init(states[0])
    && forall i :: 0 <= i < |steps| ==> Enabled(states[i], steps[i]) && states[i + 1] == Take(states[i], steps[i])
  }

  lemma {:induction false} RunKeepsInv(states: seq<System>, steps: seq<Step>, n: nat)
    requires IsRun(states, steps) && n < |states|
    ensures Inv(states[n])
  {
    hide Enabled, Take;
    if n > 0 {
      RunKeepsInv(states, steps, n - 1);
      StepKeepsInv(states[n - 1], steps[n - 1]);
    }
  }

  lemma {:induction false} MovedForever(states: seq<System>, steps: seq<Step>, i: nat, j: nat)
    requires IsRun(states, steps) && i <= j < |states|
    ensures states[i].moved <= states[j].moved
    decreases j
  {
    hide Retire, Pinned;
    if i < j {
      MovedForever(states, steps, i, j - 1);
    }
  }

  // From the move on, in every later state of every run: the generation is not current, no lease
  // file names it, and the marker keeps refusing new leases.
  lemma TrashedStaysUnreadable(states: seq<System>, steps: seq<Step>, i: nat, j: nat, g: u32)
    requires IsRun(states, steps) && i <= j < |states| && g in states[i].moved
    ensures !Leased(states[j].files.leases, g)
    ensures g in states[j].files.retiring
    ensures states[j].catalog.current != Some(g)
  {
    hide IsRun;
    MovedForever(states, steps, i, j);
    RunKeepsInv(states, steps, j);
  }

  // A moved generation is in no directory but the trash.
  ghost predicate Apart(s: System) {
    forall g :: g in s.moved ==> g !in s.files.live
  }

  lemma StepKeepsApart(s: System, step: Step)
    requires Inv(s) && Apart(s) && Enabled(s, step)
    ensures Apart(Take(s, step))
    ensures forall g :: g in s.moved && g !in s.files.trash ==> g !in Take(s, step).files.trash
    ensures step.EmptyTrash? ==> step.generation !in Take(s, step).files.trash
  {
    hide Pinned, Retire;
    if step.FinishRetire? {
      RetireDoes(s.files, s.busy.value.0, step.faults);
    }
  }

  lemma RetireDoes(f: Files, generation: u32, faults: RetireFaults)
    ensures var f' := Retire(f, generation, faults).0;
            || (f'.trash == f.trash && f'.live == f.live)
            || (&& generation in f.live && generation !in f.trash
                && f'.trash == f.trash + {generation} && f'.live == f.live - {generation})
  {
  }

  lemma {:induction false} RunKeepsApart(states: seq<System>, steps: seq<Step>, n: nat)
    requires IsRun(states, steps) && n < |states|
    ensures Apart(states[n])
  {
    hide Enabled, Take, Inv, Apart;
    if n > 0 {
      RunKeepsApart(states, steps, n - 1);
      RunKeepsInv(states, steps, n - 1);
      StepKeepsApart(states[n - 1], steps[n - 1]);
    } else {
      StartsApart(states[0]);
    }
  }

  lemma StartsApart(s: System)
    requires Init(s)
    ensures Apart(s)
  {
  }

  // Emptying the trash is final: the generation is never a directory again, live or trashed.
  lemma {:induction false} EmptiedIsGone(states: seq<System>, steps: seq<Step>, i: nat, j: nat, g: u32)
    requires IsRun(states, steps) && i < j < |states| && steps[i] == EmptyTrash(g) && g in states[i].moved
    ensures g !in states[j].files.live && g !in states[j].files.trash && g in states[j].moved
    decreases j
  {
    hide Enabled, Take, Inv;
    MovedForever(states, steps, i, j);
    RunKeepsApart(states, steps, j);
    RunKeepsInv(states, steps, j - 1);
    RunKeepsApart(states, steps, j - 1);
    StepKeepsApart(states[j - 1], steps[j - 1]);
    if i < j - 1 {
      EmptiedIsGone(states, steps, i, j - 1, g);
    }
  }

  // A lease that a reader holds over a step keeps its generation's directory in place.
  lemma LeaseKeepsDirectory(s: System, step: Step, name: nat)
    requires Inv(s) && Enabled(s, step) && name in s.handles && name in Take(s, step).handles
    requires s.files.leases[name] in s.files.live
    ensures Take(s, step).files.leases[name] == s.files.leases[name]
    ensures s.files.leases[name] in Take(s, step).files.live
  {
    hide Pinned, Retire;
    if step.FinishRetire? {
      RetireKeeps(s.files, s.busy.value.0, step.faults);
    }
  }

  lemma {:induction false} LeaseKeepsDirectoryOverRun(states: seq<System>, steps: seq<Step>, i: nat, j: nat, name: nat)
    requires IsRun(states, steps) && i <= j < |states|
    requires forall k :: i <= k <= j ==> name in states[k].handles
    requires name in states[i].files.leases && states[i].files.leases[name] in states[i].files.live
    ensures name in states[j].files.leases && states[j].files.leases[name] == states[i].files.leases[name]
    ensures states[i].files.leases[name] in states[j].files.live
    decreases j
  {
    hide Enabled, Take;
    if i < j {
      LeaseKeepsDirectoryOverRun(states, steps, i, j - 1, name);
      RunKeepsInv(states, steps, j - 1);
      RunKeepsInv(states, steps, j);
      LeaseKeepsDirectory(states[j - 1], steps[j - 1], name);
    }
  }

  // The catalog's generation never goes back, across crashes and failed writes.
  lemma {:induction false} CurrentNeverDecreases(states: seq<System>, steps: seq<Step>, i: nat, j: nat)
    requires IsRun(states, steps) && i <= j < |states| && states[i].catalog.current.Some?
    ensures states[j].catalog.current.Some?
    ensures states[i].catalog.current.value <= states[j].catalog.current.value
    decreases j
  {
    hide Retire, Pinned;
    if i < j {
      CurrentNeverDecreases(states, steps, i, j - 1);
    }
  }

  // ---------- The methods are the steps ----------

  // Retiring a compacted generation is the two retirement steps; when its checks refuse, nothing happened.
  lemma RetirementIsTwoSteps(s: System, source: u32, target: u32, faults: RetirementFaults)
    requires s.open && s.busy.None?
    ensures var begin := BeginRetire(source, target, faults.pointer);
            var (files, _) := RetireBehind(s.catalog, true, s.files, source, target, faults);
            if !Enabled(s, begin) then files == s.files
            else if faults.pointer != Written then Take(s, begin).files == files && Take(s, begin).busy.None?
            else Enabled(Take(s, begin), FinishRetire(faults.retire))
                 && Take(Take(s, begin), FinishRetire(faults.retire)).files == files
  {
    hide Pinned, Retire;
  }

  // A lease is granted exactly when no retirement has closed its generation and its file was
  // synchronized, and then its file names that generation.
  lemma LeaseGrantedExactlyWhen(s: System, generation: u32, name: nat, outcome: WriteOutcome)
    requires Inv(s) && Enabled(s, TakeLease(generation, name, outcome))
    ensures var s' := Take(s, TakeLease(generation, name, outcome));
            && (name in s'.handles <==> generation !in s.files.retiring && outcome == Written)
            && (name in s'.files.leases <==> generation !in s.files.retiring && outcome != FailedOld)
            && (name in s'.files.leases ==> s'.files.leases[name] == generation)
            && (forall other :: other in s.files.leases ==> other in s'.files.leases && s'.files.leases[other] == s.files.leases[other])
  {
    hide Pinned;
  }

  // Cancelling a retirement that has not moved its generation lets readers in again.
  lemma CancelledRetirementReadmits(s: System, generation: u32, name: nat)
    requires Inv(s) && s.open && generation !in s.moved && name !in s.files.leases
    ensures var cancel, lease := CancelRetirement(generation, Written), TakeLease(generation, name, Written);
            && Enabled(s, cancel) && Enabled(Take(s, cancel), lease)
            && name in Take(Take(s, cancel), lease).handles
            && Take(s, cancel).files.retiring == s.files.retiring - {generation}
  {
    hide Pinned;
  }

  // A restart opens exactly when the pointer could be brought back, or there is nothing to point to.
  lemma ReopensExactlyWhen(s: System, outcome: WriteOutcome)
    requires !s.open
    ensures var s' := Take(s, Reopen(outcome));
            && (s'.open <==> outcome == Written || s.catalog.current.None?)
            && s'.files.leases == map[] && s'.catalog == s.catalog && s'.files.live == s.files.live
            && (s'.open && s.catalog.current.Some? ==> s'.files.pointer == Active(s.catalog.current.value))
  {
  }

  // A reopening that fails stays closed and takes away only the leases it got to.
  lemma FailedReopenRemovesOnly(s: System, names: set<nat>)
    requires !s.open
    ensures var s' := Take(s, ReopenFails(names));
            && !s'.open && s' == s.(files := s.files.(leases := s'.files.leases))
            && forall name :: name in s'.files.leases <==> name in s.files.leases && name !in names
  {
  }

  // The first generation can be read and collected like any other.
  lemma BootstrappedIsCurrent(s: System, generation: u32, catalog: State, target: u32)
    requires Enabled(s, Bootstrap(generation)) && generation < target && catalog.current == Some(target)
    ensures var s' := Take(s, Bootstrap(generation));
            && s'.catalog == s.catalog.(current := Some(generation)) && s'.files == s.files
            && Enabled(s', Publish(catalog, target, Written)) && !Enabled(s', Bootstrap(generation))
  {
  }

  // A restart frees every lease of the process that crashed and brings the pointer back, so a
  // retirement that those leases held up completes.
  lemma RestartFreesLeases(s: System, source: u32, target: u32)
    requires Inv(s) && s.open && source < target && s.catalog.current == Some(target) && !Pinned(s.catalog, source)
    requires source in s.files.live && source !in s.files.trash
    ensures Enabled(s, Crash) && Enabled(Take(s, Crash), Reopen(Written))
    ensures var restarted := Take(Take(s, Crash), Reopen(Written));
            var begin, finish := BeginRetire(source, target, Written), FinishRetire(RetireFaults(Written, Written));
            && restarted.open && restarted.handles == {} && restarted.files.leases == map[]
            && restarted.files.pointer == Active(target)
            && Enabled(restarted, begin) && Enabled(Take(restarted, begin), finish)
            && source in Take(Take(restarted, begin), finish).moved
  {
    hide Pinned;
    var restarted := Take(Take(s, Crash), Reopen(Written));
    StepKeepsInv(s, Crash);
    StepKeepsInv(Take(s, Crash), Reopen(Written));
    assert !Leased(restarted.files.leases, source);
    DeferredRetirementCompletes(restarted, source, target);
  }

  // Dropping a lease removes its file if the host does, and no other.
  lemma DropFreesOnly(s: System, name: nat, removed: bool)
    requires Enabled(s, DropLease(name, removed))
    ensures var s' := Take(s, DropLease(name, removed));
            && name !in s'.handles && (name in s'.files.leases <==> name in s.files.leases && !removed)
            && forall other :: other != name ==>
                 && (other in s'.handles <==> other in s.handles)
                 && (other in s'.files.leases <==> other in s.files.leases)
                 && (other in s.files.leases ==> s'.files.leases[other] == s.files.leases[other])
  {
  }

  // A deferred retirement completes once its readers and pins are gone.
  lemma DeferredRetirementCompletes(s: System, source: u32, target: u32)
    requires Inv(s) && s.open && s.busy.None? && source < target && s.catalog.current == Some(target)
    requires !Pinned(s.catalog, source) && !Leased(s.files.leases, source)
    requires source in s.files.live && source !in s.files.trash
    ensures var begin, finish := BeginRetire(source, target, Written), FinishRetire(RetireFaults(Written, Written));
            Enabled(s, begin) && Enabled(Take(s, begin), finish) && source in Take(Take(s, begin), finish).moved
  {
  }

  // The guard on cancelling is needed: removing the marker of a moved generation re-admits a reader to it.
  lemma CancellingMovedReadmits(s: System, g: u32, name: nat)
    requires Inv(s) && s.open && g in s.moved && name !in s.files.leases
    ensures var cancelled := s.(files := s.files.(retiring := s.files.retiring - {g}));
            var lease := TakeLease(g, name, Written);
            Enabled(cancelled, lease) && Leased(Take(cancelled, lease).files.leases, g) && !Inv(Take(cancelled, lease))
  {
    hide Pinned;
    var cancelled := s.(files := s.files.(retiring := s.files.retiring - {g}));
    var leased := Take(cancelled, TakeLease(g, name, Written));
    assert leased.files.leases[name] == g;
  }
}
