/** Concurrent hydration of one blob (crates/reflink-forest-cache). */
module Singleflight {
  import opened Bytes
  import opened Core

  datatype Outcome = Hydrated | Failed

  // Where one caller is: verifying the entry, taking the hydration lock, waiting for a flight,
  // or leading one: re-verifying, reading the cold store, signalling, and removing the flight.
  datatype Pc =
    | Checking
    | Joining
    | Waiting(flight: nat)
    | Leading(flight: nat)
    | Reading(flight: nat)
    | Signalling(flight: nat, outcome: Outcome)
    | Removing(flight: nat, outcome: Outcome)
    | Unwound(flight: nat)
    | Done(outcome: Outcome)

  // `owns` says whether the caller still has its hydration closure.
  datatype Caller = Caller(id: ContentId, pc: Pc, owns: bool)

  // `owners[f]` is the caller that created flight `f`.
  datatype System = System(
    entries: map<ContentId, seq<byte>>,
    active: map<ContentId, nat>,
    completed: set<nat>,
    owners: seq<nat>,
    callers: map<nat, Caller>)

  // What an entry must satisfy to be served: its bytes hash to its ID.
  type Verifier = (ContentId, seq<byte>) -> bool

  predicate Verified(v: Verifier, s: System, id: ContentId) {
    id in s.entries && v(id, s.entries[id])
  }

  datatype Step =
    | Call(t: nat, id: ContentId)
    | Check(t: nat, readable: bool)
    | Join(t: nat)
    | Recheck(t: nat, readable: bool)
    | Publish(t: nat, bytes: Option<seq<byte>>)
    | Signal(t: nat)
    | Remove(t: nat)
    | Wake(t: nat)
    | Unwind(t: nat)
    | Disturb(entries: map<ContentId, seq<byte>>)

  predicate At(s: System, t: nat, pc: Pc) {
    t in s.callers && s.callers[t].pc == pc
  }

  predicate Enabled(v: Verifier, s: System, step: Step) {
    match step
    case Call(t, _) => t !in s.callers
    case Check(t, _) => At(s, t, Checking)
    case Join(t) => At(s, t, Joining)
    case Recheck(t, _) => t in s.callers && s.callers[t].pc.Leading?
    // Streaming verifies what it reads, so only good bytes can be published.
    case Publish(t, bytes) =>
      t in s.callers && s.callers[t].pc.Reading? && (bytes.Some? ==> v(s.callers[t].id, bytes.value))
    case Signal(t) => t in s.callers && s.callers[t].pc.Signalling?
    case Remove(t) => t in s.callers && s.callers[t].pc.Removing?
    case Wake(t) => t in s.callers && s.callers[t].pc.Waiting? && s.callers[t].pc.flight in s.completed
    case Unwind(t) => t in s.callers && (s.callers[t].pc.Leading? || s.callers[t].pc.Reading?)
    case Disturb(_) => true
  }

  function Moved(s: System, t: nat, pc: Pc): System
    requires t in s.callers
  {
    s.(callers := s.callers[t := s.callers[t].(pc := pc)])
  }

  function Take(v: Verifier, s: System, step: Step): System
    requires Enabled(v, s, step)
  {
    match step
    case Call(t, id) => s.(callers := s.callers[t := Caller(id, Checking, true)])
    case Check(t, readable) =>
      if !readable then Moved(s, t, Done(Failed))
      else if Verified(v, s, s.callers[t].id) then Moved(s, t, Done(Hydrated))
      else Moved(s, t, Joining)
    case Join(t) =>
      var id := s.callers[t].id;
      if id in s.active then Moved(s, t, Waiting(s.active[id]))
      else
        s.(active := s.active[id := |s.owners|], owners := s.owners + [t],
           callers := s.callers[t := Caller(id, Leading(|s.owners|), false)])
    case Recheck(t, readable) =>
      var id, f := s.callers[t].id, s.callers[t].pc.flight;
      if !readable then Moved(s, t, Signalling(f, Failed))
      else if Verified(v, s, id) then Moved(s, t, Signalling(f, Hydrated))
      else Moved(s, t, Reading(f)).(entries := s.entries - {id})
    case Publish(t, bytes) =>
      var id, f := s.callers[t].id, s.callers[t].pc.flight;
      if bytes.None? then Moved(s, t, Signalling(f, Failed))
      else Moved(s, t, Signalling(f, Hydrated)).(entries := if Verified(v, s, id) then s.entries else s.entries[id := bytes.value])
    case Signal(t) =>
      Moved(s, t, Removing(s.callers[t].pc.flight, s.callers[t].pc.outcome)).(completed := s.completed + {s.callers[t].pc.flight})
    case Remove(t) =>
      var id, f := s.callers[t].id, s.callers[t].pc.flight;
      Moved(s, t, Done(s.callers[t].pc.outcome)).(active := if id in s.active && s.active[id] == f then s.active - {id} else s.active)
    case Wake(t) => Moved(s, t, Checking)
    case Unwind(t) => Moved(s, t, Unwound(s.callers[t].pc.flight))
    // Entries are derived state: they may be evicted or damaged at any time.
    case Disturb(entries) => s.(entries := entries)
  }

  // ---------- The invariant ----------

  // The flight a caller has created and not yet removed.
  function Flight(c: Caller): Option<nat> {
    match c.pc
    case Leading(f) => Some(f)
    case Reading(f) => Some(f)
    case Signalling(f, _) => Some(f)
    case Removing(f, _) => Some(f)
    case Unwound(f) => Some(f)
    case _ => None
  }

  predicate CallerOk(s: System, t: nat)
    requires t in s.callers
  {
    var c := s.callers[t];
    && (c.pc.Checking? || c.pc.Joining? || c.pc.Waiting? ==> c.owns)
    && (Flight(c).Some? ==>
          && Flight(c).value < |s.owners| && s.owners[Flight(c).value] == t
          && c.id in s.active && s.active[c.id] == Flight(c).value
          && (Flight(c).value in s.completed <==> c.pc.Removing?))
    && (c.pc.Waiting? ==>
          && c.pc.flight < |s.owners|
          && (c.pc.flight in s.completed || (c.id in s.active && s.active[c.id] == c.pc.flight)))
  }

  predicate FlightOk(s: System, id: ContentId)
    requires id in s.active
  {
    && s.active[id] < |s.owners| && s.owners[s.active[id]] in s.callers
    && var c := s.callers[s.owners[s.active[id]]]; c.id == id && Flight(c) == Some(s.active[id])
  }

  ghost predicate Inv(s: System) {
    && (forall t :: t in s.callers ==> CallerOk(s, t))
    && (forall id :: id in s.active ==> FlightOk(s, id))
    && (forall f :: f in s.completed ==> f < |s.owners|)
  }

  // At most one caller leads an ID.
  lemma OneLeader(s: System, t: nat, u: nat)
    requires Inv(s) && t in s.callers && u in s.callers && s.callers[t].id == s.callers[u].id
    requires Flight(s.callers[t]).Some? && Flight(s.callers[u]).Some?
    ensures t == u
  {
    assert CallerOk(s, t) && CallerOk(s, u);
  }

  // One caller moved, with the flight it had, and nothing shared changed.
  lemma MoveKeepsInv(s: System, t: nat, c: Caller)
    requires Inv(s) && CallerOk(s.(callers := s.callers[t := c]), t)
    requires if t in s.callers then Flight(c) == Flight(s.callers[t]) && c.id == s.callers[t].id else Flight(c).None?
    ensures Inv(s.(callers := s.callers[t := c]))
  {
    var s' := s.(callers := s.callers[t := c]);
    assert forall u :: u in s.callers && u != t ==> CallerOk(s', u) == CallerOk(s, u);
    assert forall id :: id in s.active ==> FlightOk(s, id) ==> FlightOk(s', id);
  }

  lemma LeadKeepsInv(v: Verifier, s: System, t: nat)
    requires Inv(s) && Enabled(v, s, Join(t)) && s.callers[t].id !in s.active
    ensures Inv(Take(v, s, Join(t)))
  {
    var s' := Take(v, s, Join(t));
    forall u | u in s'.callers
      ensures CallerOk(s', u)
    {
      assert CallerOk(s, u);
    }
    forall id | id in s'.active
      ensures FlightOk(s', id)
    {
      if id != s.callers[t].id {
        assert FlightOk(s, id);
      }
    }
  }

  lemma SignalKeepsInv(v: Verifier, s: System, t: nat)
    requires Inv(s) && Enabled(v, s, Signal(t))
    ensures Inv(Take(v, s, Signal(t)))
  {
    var s' := Take(v, s, Signal(t));
    assert CallerOk(s, t);
    forall u | u in s'.callers
      ensures CallerOk(s', u)
    {
      assert CallerOk(s, u);
    }
    forall id | id in s'.active
      ensures FlightOk(s', id)
    {
      assert FlightOk(s, id);
    }
  }

  lemma RemoveKeepsInv(v: Verifier, s: System, t: nat)
    requires Inv(s) && Enabled(v, s, Remove(t))
    ensures Inv(Take(v, s, Remove(t)))
  {
    var s' := Take(v, s, Remove(t));
    assert CallerOk(s, t);
    forall u | u in s'.callers
      ensures CallerOk(s', u)
    {
      assert CallerOk(s, u);
    }
    forall id | id in s'.active
      ensures FlightOk(s', id)
    {
      assert FlightOk(s, id);
    }
  }

  lemma EntriesKeepInv(s: System, entries: map<ContentId, seq<byte>>)
    requires Inv(s)
    ensures Inv(s.(entries := entries))
  {
    var s' := s.(entries := entries);
    assert forall t :: t in s.callers ==> CallerOk(s', t) == CallerOk(s, t);
    assert forall id :: id in s.active ==> FlightOk(s', id) == FlightOk(s, id);
  }

  lemma WaitKeepsInv(v: Verifier, s: System, t: nat)
    requires Inv(s) && Enabled(v, s, Join(t)) && s.callers[t].id in s.active
    ensures Inv(Take(v, s, Join(t)))
  {
    assert CallerOk(s, t) && FlightOk(s, s.callers[t].id);
    MoveKeepsInv(s, t, s.callers[t].(pc := Waiting(s.active[s.callers[t].id])));
  }

  lemma CallerIsOk(s: System, t: nat)
    requires Inv(s) && t in s.callers
    ensures CallerOk(s, t)
  {
  }

  // The remaining steps move one caller and may replace an entry.
  lemma LocalKeepsInv(v: Verifier, s: System, step: Step)
    requires Inv(s) && Enabled(v, s, step)
    requires step.Check? || step.Recheck? || step.Publish? || step.Wake? || step.Unwind?
    ensures Inv(Take(v, s, step))
  {
    hide Inv, Verified;
    var t, s' := step.t, Take(v, s, step);
    CallerIsOk(s, t);
    MoveKeepsInv(s, t, s'.callers[t]);
    EntriesKeepInv(s.(callers := s.callers[t := s'.callers[t]]), s'.entries);
    assert s' == s.(callers := s.callers[t := s'.callers[t]]).(entries := s'.entries);
  }

  lemma StepKeepsInv(v: Verifier, s: System, step: Step)
    requires Inv(s) && Enabled(v, s, step)
    ensures Inv(Take(v, s, step))
  {
    hide Inv, Verified;
    match step {
      case Call(t, id) => MoveKeepsInv(s, t, Caller(id, Checking, true));
      case Join(t) =>
        if s.callers[t].id in s.active {
          WaitKeepsInv(v, s, t);
        } else {
          LeadKeepsInv(v, s, t);
        }
      case Signal(t) => SignalKeepsInv(v, s, t);
      case Remove(t) => RemoveKeepsInv(v, s, t);
      case Disturb(entries) => EntriesKeepInv(s, entries);
      case _ => LocalKeepsInv(v, s, step);
    }
  }

  // ---------- One step ----------

  // A caller that becomes leader still owns the closure it is about to run.
  lemma LeaderOwnsClosure(s: System, t: nat)
    requires Inv(s) && At(s, t, Joining)
    ensures s.callers[t].owns
  {
    assert CallerOk(s, t);
  }

  // A flight succeeds, and a caller without a flight returns success, only on a verified entry.
  lemma SuccessIsVerified(v: Verifier, s: System, step: Step, t: nat)
    requires Enabled(v, s, step) && t in s.callers && s.callers[t].pc != Take(v, s, step).callers[t].pc
    ensures var id, before, after := s.callers[t].id, s.callers[t].pc, Take(v, s, step).callers[t].pc;
            && (Verified(v, Take(v, s, step), id) ==>
                  id in Take(v, s, step).entries && v(id, Take(v, s, step).entries[id]))
            && (after.Signalling? && after.outcome == Hydrated ==> Verified(v, Take(v, s, step), id))
            && (after == Done(Hydrated) ==>
                  Verified(v, Take(v, s, step), id) || (before.Removing? && before.outcome == Hydrated))
  {
  }

  // A waiter's flight is over, or its leader can move on, or the leader unwound.
  lemma WaiterIsNotForgotten(v: Verifier, s: System, t: nat)
    requires Inv(s) && t in s.callers && s.callers[t].pc.Waiting?
    ensures var f := s.callers[t].pc.flight;
            || Enabled(v, s, Wake(t))
            || (f < |s.owners| && At(s, s.owners[f], Unwound(f)))
            || (f < |s.owners| && (|| Enabled(v, s, Recheck(s.owners[f], true)) || Enabled(v, s, Publish(s.owners[f], None))
                                   || Enabled(v, s, Signal(s.owners[f]))))
  {
    assert CallerOk(s, t);
    var f, id := s.callers[t].pc.flight, s.callers[t].id;
    if f !in s.completed {
      assert FlightOk(s, id);
      assert CallerOk(s, s.owners[f]);
    }
  }

  // ---------- Whole runs ----------

  ghost predicate IsRun(v: Verifier, states: seq<System>, steps: seq<Step>) {
    && |states| == |steps| + 1
    && states[0] == System(states[0].entries, map[], {}, [], map[])
    && forall i :: 0 <= i < |steps| ==> Enabled(v, states[i], steps[i]) && states[i + 1] == Take(v, states[i], steps[i])
  }

  lemma {:induction false} RunKeepsInv(v: Verifier, states: seq<System>, steps: seq<Step>, n: nat)
    requires IsRun(v, states, steps) && n < |states|
    ensures Inv(states[n])
  {
    hide Enabled, Take;
    if n > 0 {
      RunKeepsInv(v, states, steps, n - 1);
      StepKeepsInv(v, states[n - 1], steps[n - 1]);
    }
  }

  // Caller `t` becomes a leader.
  predicate Leads(s: System, step: Step, t: nat) {
    step == Join(t) && t in s.callers && s.callers[t].id !in s.active
  }

  lemma {:induction false} ClosureStaysSpent(v: Verifier, states: seq<System>, steps: seq<Step>, i: nat, j: nat, t: nat)
    requires IsRun(v, states, steps) && i <= j < |states| && t in states[i].callers && !states[i].callers[t].owns
    ensures t in states[j].callers && !states[j].callers[t].owns
    decreases j
  {
    hide Enabled, Take;
    if i < j {
      ClosureStaysSpent(v, states, steps, i, j - 1, t);
      ReadingStep(v, states[j - 1], steps[j - 1], t);
    }
  }

  // No caller leads twice: its closure is spent, and joining needs one.
  lemma LeadsOnce(v: Verifier, states: seq<System>, steps: seq<Step>, i: nat, j: nat, t: nat)
    requires IsRun(v, states, steps) && i < j < |steps| && Leads(states[i], steps[i], t)
    ensures steps[j] != Join(t)
  {
    assert states[i + 1] == Take(v, states[i], steps[i]);
    ClosureStaysSpent(v, states, steps, i + 1, j, t);
    RunKeepsInv(v, states, steps, j);
    if At(states[j], t, Joining) {
      LeaderOwnsClosure(states[j], t);
    }
  }

  // Between the two states caller `t` turns to the cold store.
  predicate StartsRead(s: System, s': System, t: nat) {
    t in s.callers && t in s'.callers && !s.callers[t].pc.Reading? && s'.callers[t].pc.Reading?
  }

  // Only a leader that found no verified entry does, and it first discards the bad one.
  lemma ReadStartsUnverified(v: Verifier, s: System, step: Step, t: nat)
    requires Enabled(v, s, step) && StartsRead(s, Take(v, s, step), t)
    ensures s.callers[t].pc.Leading? && !Verified(v, s, s.callers[t].id)
    ensures s.callers[t].id !in Take(v, s, step).entries
  {
  }

  // No step of a caller touches a verified entry, or an entry of another ID, or stores bad bytes.
  lemma EntriesChangeOnly(v: Verifier, s: System, step: Step, id: ContentId)
    requires Enabled(v, s, step) && !step.Disturb?
    ensures var s' := Take(v, s, step);
            || ((id in s'.entries <==> id in s.entries) && (id in s.entries ==> s'.entries[id] == s.entries[id]))
            || (!Verified(v, s, id) && step.t in s.callers && s.callers[step.t].id == id
                && (id in s'.entries ==> Verified(v, s', id)))
  {
  }

  // ---------- Who fails, and what a woken waiter does ----------

  predicate StepOf(step: Step, t: nat) { !step.Disturb? && step.t == t }

  // Caller `t` itself could not check the entry, or could not read the object.
  predicate Fails(step: Step, t: nat) {
    && StepOf(step, t)
    && ((step.Check? && !step.readable) || (step.Recheck? && !step.readable) || (step.Publish? && step.bytes.None?))
  }

  // The caller's outcome is settled, if not yet returned.
  function Settled(pc: Pc): Option<Outcome> {
    match pc
    case Signalling(_, outcome) => Some(outcome)
    case Removing(_, outcome) => Some(outcome)
    case Done(outcome) => Some(outcome)
    case _ => None
  }

  // The steps of others leave a caller where it is.
  lemma OthersLeaveCaller(v: Verifier, s: System, step: Step, t: nat)
    requires Enabled(v, s, step) && t in s.callers && !StepOf(step, t)
    ensures t in Take(v, s, step).callers && Take(v, s, step).callers[t] == s.callers[t]
  {
    hide Verified;
  }

  // A caller's own step settles on failure exactly when it fails, and a settled outcome stays.
  lemma OwnStepSettles(v: Verifier, s: System, step: Step, t: nat)
    requires Enabled(v, s, step) && t in s.callers && StepOf(step, t)
    ensures t in Take(v, s, step).callers
    ensures var before, after := Settled(s.callers[t].pc), Settled(Take(v, s, step).callers[t].pc);
            if before.Some? then after == before && !Fails(step, t) else after == Some(Failed) <==> Fails(step, t)
  {
    hide Verified;
  }

  lemma {:induction false} FailedExactlyWhen(v: Verifier, states: seq<System>, steps: seq<Step>, n: nat, t: nat)
    requires IsRun(v, states, steps) && n < |states|
    ensures t !in states[n].callers ==> forall k :: 0 <= k < n ==> !StepOf(steps[k], t)
    ensures t in states[n].callers ==>
              (Settled(states[n].callers[t].pc) == Some(Failed) <==> exists k :: 0 <= k < n && Fails(steps[k], t))
  {
    hide Take, Enabled;
    if n > 0 {
      var s, step := states[n - 1], steps[n - 1];
      FailedExactlyWhen(v, states, steps, n - 1, t);
      assert Enabled(v, s, step) && states[n - 1 + 1] == Take(v, s, step);
      if t in s.callers {
        if StepOf(step, t) {
          OwnStepSettles(v, s, step, t);
        } else {
          OthersLeaveCaller(v, s, step, t);
        }
      } else {
        FirstStepCalls(v, s, step, t);
      }
    }
  }

  lemma FirstStepCalls(v: Verifier, s: System, step: Step, t: nat)
    requires Enabled(v, s, step) && t !in s.callers
    ensures StepOf(step, t) ==>
              step.Call? && t in Take(v, s, step).callers && Take(v, s, step).callers[t] == Caller(step.id, Checking, true)
    ensures !StepOf(step, t) ==> t !in Take(v, s, step).callers
  {
    hide Verified;
  }

  // A caller returns a failure exactly when a step of its own failed: never because a flight it
  // waited for did.
  lemma ReturnsFailureExactlyWhen(v: Verifier, states: seq<System>, steps: seq<Step>, n: nat, t: nat)
    requires IsRun(v, states, steps) && n < |states| && t in states[n].callers && states[n].callers[t].pc.Done?
    ensures states[n].callers[t].pc.outcome == Failed <==> exists k :: 0 <= k < n && Fails(steps[k], t)
  {
    FailedExactlyWhen(v, states, steps, n, t);
  }

  lemma {:induction false} StaysBetweenSteps(v: Verifier, states: seq<System>, steps: seq<Step>, i: nat, j: nat, t: nat)
    requires IsRun(v, states, steps) && i <= j < |states| && t in states[i].callers
    requires forall k :: i <= k < j ==> !StepOf(steps[k], t)
    ensures t in states[j].callers && states[j].callers[t] == states[i].callers[t]
    decreases j
  {
    hide Take, Enabled;
    if i < j {
      StaysBetweenSteps(v, states, steps, i, j - 1, t);
      OthersLeaveCaller(v, states[j - 1], steps[j - 1], t);
    }
  }

  // A woken waiter's next step checks the entry again: it succeeds on a verified one and joins
  // again without one.
  lemma WokenChecksAgain(v: Verifier, states: seq<System>, steps: seq<Step>, i: nat, j: nat, t: nat)
    requires IsRun(v, states, steps) && i < j < |steps| && steps[i] == Wake(t)
    requires StepOf(steps[j], t) && forall k :: i < k < j ==> !StepOf(steps[k], t)
    ensures steps[j].Check?
    ensures steps[j].readable ==>
              At(states[j + 1], t, if Verified(v, states[j], states[i].callers[t].id) then Done(Hydrated) else Joining)
  {
    hide Verified;
    assert Enabled(v, states[i], steps[i]) && states[i + 1] == Take(v, states[i], steps[i]);
    StaysBetweenSteps(v, states, steps, i + 1, j, t);
    assert Enabled(v, states[j], steps[j]) && states[j + 1] == Take(v, states[j], steps[j]);
  }

  predicate Publishes(steps: seq<Step>, k: nat, t: nat) {
    k < |steps| && steps[k].Publish? && steps[k].t == t
  }

  lemma ReadingStep(v: Verifier, s: System, step: Step, t: nat)
    requires Enabled(v, s, step) && t in s.callers
    ensures t in Take(v, s, step).callers && Take(v, s, step).callers[t].id == s.callers[t].id
    ensures !s.callers[t].owns ==> !Take(v, s, step).callers[t].owns
    ensures s.callers[t].pc.Unwound? ==> Take(v, s, step).callers[t] == s.callers[t]
    ensures s.callers[t].pc.Reading? ==>
              Take(v, s, step).callers[t].pc.Reading? || Take(v, s, step).callers[t].pc.Unwound? || (step.Publish? && step.t == t)
  {
    hide Verified;
  }

  // A reader keeps reading or unwinds, until it publishes or reports a failure.
  lemma {:induction false} ReaderFinishes(v: Verifier, states: seq<System>, steps: seq<Step>, i: nat, j: nat, t: nat)
    requires IsRun(v, states, steps) && i <= j < |states| && t in states[i].callers && states[i].callers[t].pc.Reading?
    ensures t in states[j].callers && states[j].callers[t].id == states[i].callers[t].id
    ensures || states[j].callers[t].pc.Reading? || states[j].callers[t].pc.Unwound?
            || exists k :: i <= k < j && Publishes(steps, k, t)
    decreases j
  {
    hide Enabled, Take;
    if i < j {
      ReaderFinishes(v, states, steps, i, j - 1, t);
      ReadingStep(v, states[j - 1], steps[j - 1], t);
      if steps[j - 1].Publish? && steps[j - 1].t == t {
        assert Publishes(steps, j - 1, t);
      }
    }
  }

  // The cold store is read again for an ID only if the earlier read failed, or the entry it
  // published was verified and has since been lost.
  lemma ReadsAreSeparated(v: Verifier, states: seq<System>, steps: seq<Step>, i: nat, j: nat, t: nat, u: nat)
    requires IsRun(v, states, steps) && i < j < |steps|
    requires StartsRead(states[i], states[i + 1], t) && StartsRead(states[j], states[j + 1], u)
    requires states[i].callers[t].id == states[j].callers[u].id
    ensures exists k :: i < k < j && Publishes(steps, k, t) &&
              (steps[k].bytes.None? || (Verified(v, states[k + 1], states[i].callers[t].id) && !Verified(v, states[j], states[i].callers[t].id)))
  {
    hide Verified, Take, Enabled;
    ReadStartsUnverified(v, states[j], steps[j], u);
    ReadingStep(v, states[i], steps[i], t);
    ReaderFinishes(v, states, steps, i + 1, j, t);
    RunKeepsInv(v, states, steps, j);
    LeadingIsNotReading(states[j], t, u);
    var k :| i + 1 <= k < j && Publishes(steps, k, t);
    ReaderFinishes(v, states, steps, i + 1, k, t);
    if steps[k].bytes.Some? {
      PublishLeavesVerified(v, states[k], steps[k]);
    }
  }

  lemma LeadingIsNotReading(s: System, t: nat, u: nat)
    requires Inv(s) && t in s.callers && u in s.callers && s.callers[t].id == s.callers[u].id && s.callers[u].pc.Leading?
    ensures !s.callers[t].pc.Reading? && !s.callers[t].pc.Unwound?
  {
    assert CallerOk(s, t) && CallerOk(s, u);
  }

  lemma PublishLeavesVerified(v: Verifier, s: System, step: Step)
    requires Enabled(v, s, step) && step.Publish? && step.bytes.Some?
    ensures Verified(v, Take(v, s, step), s.callers[step.t].id)
  {
  }

  // A leader that unwinds leaves its flight open: no one reads that ID again, and its waiters stay.
  lemma {:induction false} UnwoundBlocks(v: Verifier, states: seq<System>, steps: seq<Step>, i: nat, j: nat, t: nat, f: nat)
    requires IsRun(v, states, steps) && i <= j < |states| && At(states[i], t, Unwound(f))
    ensures At(states[j], t, Unwound(f)) && states[j].callers[t].id == states[i].callers[t].id
    ensures var id := states[i].callers[t].id;
            id in states[j].active && states[j].active[id] == f && f !in states[j].completed
    ensures j < |steps| ==>
              forall u :: StartsRead(states[j], states[j + 1], u) ==> states[j].callers[u].id != states[i].callers[t].id
    decreases j
  {
    hide Enabled, Take;
    if i < j {
      UnwoundBlocks(v, states, steps, i, j - 1, t, f);
      ReadingStep(v, states[j - 1], steps[j - 1], t);
    }
    RunKeepsInv(v, states, steps, j);
    assert CallerOk(states[j], t);
    if j < |steps| {
      forall u | StartsRead(states[j], states[j + 1], u)
        ensures states[j].callers[u].id != states[i].callers[t].id
      {
        ReadStartsUnverified(v, states[j], steps[j], u);
        assert CallerOk(states[j], u);
      }
    }
  }
}
