/** One entry of the shared fetch cache as a state machine over the file-system steps of its
    callers: fetchers that take the entry's lock, fetchers of an older version that do not,
    removers, and crashes at any point. Every interleaving is a run; `Safe` holds of each of
    its states. */
module CacheEntry {
  import opened Options

  /** What a directory holds: an unfinished tree, or the whole checkout one call cloned. */
  datatype Content = Partial | Complete(cloner: nat)

  datatype Dir = Absent | Present(content: Content)

  datatype Role = Fetcher | OldFetcher | Remover

  datatype Pc =
    | Entering       // about to test `dir.exists()` for the first time
    | Waiting        // about to acquire the lock
    | Rechecking     // a fetcher about to test `dir.exists()` again
    | Clearing       // about to remove whatever has its temporary name
    | ReadyToClone
    | Cloning        // `clone(&tmp)` is running
    | ReadyToRename  // the clone returned Ok
    | CloneFailed    // the clone returned Err; about to remove the temporary directory
    | AfterFailure   // about to test `dir.exists()` after a failed clone
    | RenameFailed   // about to test `dir.exists()` after a failed rename
    | Discarding(ok: bool) // about to remove the temporary directory and return
    | Returned(ok: bool)
    | Crashed

  /** A call. `temp` is the sibling directory only this call names (a remover's is the one it
      moves the entry to); it may hold what a crashed process with the same id left. The other
      fields record history: `owned` that the call has put `temp` in its own charge, `saw` that
      it has seen the entry present, `missed` that it has seen it absent or made it so, `failed` that
      its clone or rename failed, `unlocked` that it could not acquire the lock at all. */
  datatype Call = Call(role: Role, offline: bool, pc: Pc, temp: Dir,
                       owned: bool, saw: bool, failed: bool, missed: bool, unlocked: bool)

  datatype State = State(entry: Dir, lock: Option<nat>, clones: nat, calls: map<nat, Call>)

  /** What one step of a call can read and write: the shared part and its own record. */
  datatype View = View(entry: Dir, lock: Option<nat>, clones: nat, call: Call)

  function ViewOf(s: State, id: nat): View
    requires id in s.calls
  {
    View(s.entry, s.lock, s.clones, s.calls[id])
  }

  function Apply(s: State, id: nat, v: View): State {
    State(v.entry, v.lock, v.clones, s.calls[id := v.call])
  }

  // ---------------------------------------------------------------- steps

  function Go(v: View, pc: Pc): View {
    v.(call := v.call.(pc := pc))
  }

  /** Returning drops the lock. */
  function Return(id: nat, v: View, ok: bool): View {
    Go(v, Returned(ok)).(lock := if v.lock == Some(id) then None else v.lock)
  }

  function Saw(v: View): View {
    v.(call := v.call.(saw := true))
  }

  function Missed(v: View): View {
    v.(call := v.call.(missed := true))
  }

  function Failed(v: View): View {
    v.(call := v.call.(failed := true))
  }

  function WithTemp(v: View, temp: Dir): View {
    v.(call := v.call.(temp := temp))
  }

  /** The next step of a call that is under way, when the clone and the rename succeed.
      `Entering` is the first `dir.exists()` and the offline refusal, after which an older
      fetcher goes on without a lock. A directory is renamed only onto a name that is free: a
      checkout is not empty. A remover moves the entry aside whole, then deletes it under that
      name. */
  function Step(id: nat, v: View): View
    requires UnderWay(v.call)
  {
    var c := v.call;
    match c.pc
    case Entering =>
      if c.role.Remover? then (if v.entry.Absent? then Return(id, Missed(v), true) else Go(v, Waiting))
      else if v.entry.Present? then Return(id, Saw(v), true)
      else if c.offline then Return(id, Missed(v), false)
      else Go(v, if c.role.OldFetcher? then Clearing else Waiting)
    case Waiting =>
      Go(v, if c.role.Remover? then ReadyToRename else Rechecking).(lock := Some(id))
    case Rechecking =>
      if v.entry.Present? then Return(id, Saw(v), true) else Go(v, Clearing)
    case Clearing =>
      v.(call := c.(pc := ReadyToClone, temp := Absent, owned := true))
    case ReadyToClone =>
      WithTemp(Go(v, Cloning), Present(Partial)).(clones := v.clones + 1)
    case Cloning =>
      WithTemp(Go(v, ReadyToRename), Present(Complete(id)))
    case CloneFailed =>
      WithTemp(Go(v, AfterFailure), Absent)
    case AfterFailure =>
      if v.entry.Present? then Return(id, Saw(v), true) else Return(id, Missed(v), false)
    case ReadyToRename =>
      if c.role.Remover? then
        if v.entry.Absent? || c.temp.Present? then Failed(Go(v, RenameFailed))
        else v.(entry := Absent, call := c.(pc := Discarding(true), temp := v.entry, owned := true, missed := true))
      else
        if v.entry.Present? || c.temp.Absent? then Failed(Go(v, RenameFailed))
        else Return(id, Saw(WithTemp(v, Absent).(entry := c.temp)), true)
    case RenameFailed =>
      if c.role.Remover? then (if v.entry.Absent? then Return(id, Missed(v), true) else Return(id, Saw(v), false))
      else if v.entry.Present? then Saw(Go(v, Discarding(true)))
      else Missed(Go(v, Discarding(false)))
    case Discarding(ok) =>
      Return(id, WithTemp(v, Absent), ok)
  }

  predicate UnderWay(c: Call) {
    !c.pc.Returned? && !c.pc.Crashed?
  }

  /** The lock is acquired only while nobody holds it. */
  predicate CanStep(v: View) {
    UnderWay(v.call) && (v.call.pc.Waiting? ==> v.lock == None)
  }

  /** The lock file cannot be made, opened or locked: the call returns an error. */
  function LockFails(v: View): View {
    v.(call := v.call.(pc := Returned(false), unlocked := true))
  }

  /** What a step may do instead: the lock cannot be acquired, a clone or a rename fails, and a tree
      being written or removed is unfinished in between. */
  ghost predicate Slips(v: View, w: View) {
    match v.call.pc
    case Waiting => w == LockFails(v)
    case Cloning =>
      w == Failed(Go(v, CloneFailed)) || w == WithTemp(Failed(Go(v, CloneFailed)), Absent)
    case ReadyToRename => w == Failed(Go(v, RenameFailed))
    case Clearing | CloneFailed | Discarding(_) => v.call.temp.Present? && w == WithTemp(v, Present(Partial))
    case _ => false
  }

  ghost predicate Acts(id: nat, v: View, w: View) {
    (CanStep(v) && w == Step(id, v)) || Slips(v, w)
  }

  /** The operating system drops the lock of a process that dies. */
  ghost predicate Crashes(id: nat, v: View, w: View) {
    UnderWay(v.call) && w == Go(v, Crashed).(lock := if v.lock == Some(id) then None else v.lock)
  }

  ghost predicate Begins(s: State, t: State, id: nat) {
    && id !in s.calls
    && id in t.calls
    && var c := t.calls[id];
       && c == Call(c.role, c.offline, Entering, c.temp, false, false, false, false, false)
       && t == s.(calls := s.calls[id := c])
  }

  ghost predicate StepBy(s: State, t: State, id: nat) {
    || Begins(s, t, id)
    || (&& id in s.calls && id in t.calls
        && var v, w := ViewOf(s, id), ViewOf(t, id);
           (Acts(id, v, w) || Crashes(id, v, w)) && t == Apply(s, id, w))
  }

  ghost predicate Next(s: State, t: State) {
    exists id :: StepBy(s, t, id)
  }

  /** Before any call the entry is absent or a checkout some earlier call completed. */
  ghost predicate Init(s: State) {
    s.calls == map[] && s.lock == None && s.clones == 0 && s.entry != Present(Partial)
  }

  ghost predicate IsRun(run: seq<State>) {
    && run != [] && Init(run[0])
    && forall i :: 0 < i < |run| ==> Next(run[i - 1], run[i])
  }

  // ---------------------------------------------------------------- the invariant

  ghost predicate NeedsLock(c: Call) {
    !c.role.OldFetcher? && UnderWay(c) && !c.pc.Entering? && !c.pc.Waiting?
  }

  ghost predicate CallOk(lock: Option<nat>, id: nat, c: Call) {
    && (NeedsLock(c) <==> lock == Some(id))
    // a clone that returned Ok is whole until its rename
    && (!c.role.Remover? && (c.pc.ReadyToRename? || c.pc.RenameFailed?) ==> c.temp == Present(Complete(id)))
    && (c.role.OldFetcher? ==> !c.pc.Waiting? && !c.pc.Rechecking?)
    && (c.role.Remover? && UnderWay(c) ==>
          c.pc.Entering? || c.pc.Waiting? || c.pc.ReadyToRename? || c.pc.RenameFailed? || c.pc == Discarding(true))
    && (c.owned ==> !c.pc.Entering? && !c.pc.Waiting? && !c.pc.Rechecking? && !c.pc.Clearing?)
    // the directory in its charge is gone on every way out
    && (c.pc.AfterFailure? ==> c.temp.Absent?)
    && (c.pc.Returned? && c.owned ==> c.temp.Absent?)
    && (c.role.Remover? && c.owned ==> !UnderWay(c) || c.pc == Discarding(true))
    // a successful return saw the entry; a refusal tried and then missed it
    && (!c.role.Remover? && (c.pc == Discarding(true) || c.pc == Returned(true)) ==> c.saw)
    && (!c.role.Remover? && c.pc == Returned(false) ==> c.unlocked || (c.missed && (c.offline || c.failed)))
    // a removal ends with the entry seen absent, or tried and then saw it there
    && (c.role.Remover? && (c.pc == Discarding(true) || c.pc == Returned(true)) ==> c.missed)
    && (c.role.Remover? && c.pc == Returned(false) ==> c.unlocked || (c.failed && c.saw))
    && (!c.role.Remover? && c.pc == Discarding(false) ==> c.failed && c.missed)
    && (c.pc.CloneFailed? || c.pc.AfterFailure? || c.pc.RenameFailed? ==> c.failed)
    // without the lock it returns at once, having cloned nothing
    && (c.unlocked ==> c.pc == Returned(false) && !c.owned)
  }

  ghost predicate Safe(s: State) {
    && s.entry != Present(Partial)
    && (s.lock.Some? ==> s.lock.value in s.calls)
    && (forall id :: id in s.calls ==> CallOk(s.lock, id, s.calls[id]))
  }

  /** A step leaves the lock alone, takes it when it is free, or gives up its own. */
  ghost predicate LockMoves(id: nat, before: Option<nat>, after: Option<nat>) {
    after == before || (before == None && after == Some(id)) || (before == Some(id) && after == None)
  }

  ghost predicate ViewOk(id: nat, v: View) {
    v.entry != Present(Partial) && CallOk(v.lock, id, v.call)
  }

  lemma RemoverStepStaysOk(id: nat, v: View)
    requires ViewOk(id, v) && CanStep(v) && v.call.role.Remover?
    ensures ViewOk(id, Step(id, v)) && LockMoves(id, v.lock, Step(id, v).lock)
  {
    if v.call.pc.ReadyToRename? {
      RemoverRenameStaysOk(id, v);
    }
  }

  lemma RemoverRenameStaysOk(id: nat, v: View)
    requires ViewOk(id, v) && CanStep(v) && v.call.role.Remover? && v.call.pc.ReadyToRename?
    ensures ViewOk(id, Step(id, v)) && Step(id, v).lock == v.lock
  {
    assert Step(id, v) ==
      if v.entry.Absent? || v.call.temp.Present? then Failed(Go(v, RenameFailed))
      else v.(entry := Absent, call := v.call.(pc := Discarding(true), temp := v.entry, owned := true, missed := true));
    hide Step;
  }

  ghost predicate BeforeClone(c: Call) {
    c.pc.Entering? || c.pc.Waiting? || c.pc.Rechecking? || c.pc.Clearing?
  }

  lemma EarlyStepStaysOk(id: nat, v: View)
    requires ViewOk(id, v) && CanStep(v) && !v.call.role.Remover? && BeforeClone(v.call)
    ensures ViewOk(id, Step(id, v)) && LockMoves(id, v.lock, Step(id, v).lock)
  {
  }

  lemma BlockedRenameStaysOk(id: nat, v: View)
    requires ViewOk(id, v) && CanStep(v) && !v.call.role.Remover? && v.call.pc.ReadyToRename?
    requires v.entry.Present? || v.call.temp.Absent?
    ensures ViewOk(id, Step(id, v)) && Step(id, v).lock == v.lock
  {
    assert Step(id, v) == Failed(Go(v, RenameFailed));
    hide Step;
  }

  lemma RenameStepStaysOk(id: nat, v: View)
    requires ViewOk(id, v) && CanStep(v) && !v.call.role.Remover? && v.call.pc.ReadyToRename?
    ensures ViewOk(id, Step(id, v)) && LockMoves(id, v.lock, Step(id, v).lock)
  {
    if v.entry.Present? || v.call.temp.Absent? {
      BlockedRenameStaysOk(id, v);
    } else {
      assert Step(id, v) == Return(id, Saw(WithTemp(v, Absent).(entry := v.call.temp)), true);
    }
    hide Step;
  }

  lemma CloneStepStaysOk(id: nat, v: View)
    requires ViewOk(id, v) && CanStep(v) && !v.call.role.Remover? && (v.call.pc.ReadyToClone? || v.call.pc.Cloning?)
    ensures ViewOk(id, Step(id, v)) && LockMoves(id, v.lock, Step(id, v).lock)
  {
  }

  lemma FailureStepStaysOk(id: nat, v: View)
    requires ViewOk(id, v) && CanStep(v) && !v.call.role.Remover? && (v.call.pc.CloneFailed? || v.call.pc.AfterFailure?)
    ensures ViewOk(id, Step(id, v)) && LockMoves(id, v.lock, Step(id, v).lock)
  {
  }

  lemma LateStepStaysOk(id: nat, v: View)
    requires ViewOk(id, v) && CanStep(v) && !v.call.role.Remover? && (v.call.pc.RenameFailed? || v.call.pc.Discarding?)
    ensures ViewOk(id, Step(id, v)) && LockMoves(id, v.lock, Step(id, v).lock)
  {
  }

  lemma SlipStaysOk(id: nat, v: View, w: View)
    requires ViewOk(id, v) && Slips(v, w)
    ensures ViewOk(id, w) && w.lock == v.lock && w.entry == v.entry
  {
  }

  lemma CrashStaysOk(id: nat, v: View, w: View)
    requires ViewOk(id, v) && Crashes(id, v, w)
    ensures ViewOk(id, w) && LockMoves(id, v.lock, w.lock)
  {
  }

  lemma ViewStaysOk(id: nat, v: View, w: View)
    requires ViewOk(id, v)
    requires Acts(id, v, w) || Crashes(id, v, w)
    ensures ViewOk(id, w) && LockMoves(id, v.lock, w.lock)
  {
    if Crashes(id, v, w) {
      CrashStaysOk(id, v, w);
    } else if Slips(v, w) {
      SlipStaysOk(id, v, w);
    } else if v.call.role.Remover? {
      RemoverStepStaysOk(id, v);
    } else if BeforeClone(v.call) {
      EarlyStepStaysOk(id, v);
    } else if v.call.pc.ReadyToRename? {
      RenameStepStaysOk(id, v);
    } else if v.call.pc.RenameFailed? || v.call.pc.Discarding? {
      LateStepStaysOk(id, v);
    } else if v.call.pc.CloneFailed? || v.call.pc.AfterFailure? {
      FailureStepStaysOk(id, v);
    } else {
      CloneStepStaysOk(id, v);
    }
  }

  lemma StepKeepsSafe(s: State, t: State, id: nat)
    requires Safe(s) && StepBy(s, t, id)
    ensures Safe(t)
  {
    if id in s.calls {
      assert CallOk(s.lock, id, s.calls[id]);
      ViewStaysOk(id, ViewOf(s, id), ViewOf(t, id));
    }
    forall other | other in t.calls
      ensures CallOk(t.lock, other, t.calls[other])
    {
      if other != id {
        assert CallOk(s.lock, other, s.calls[other]);
      }
    }
  }

  /** Safety: in every state of every run, the entry is absent or one complete checkout, at
      most one call works under the lock, every fetcher that returned Ok saw the entry, every
      one that returned an error could not acquire the lock, or found no entry and was offline or had
      failed by itself; a remover that returned Ok found the entry absent or made it so, and one that
      returned an error could not acquire the lock, or failed and then saw the entry; and no caller
      that returned left the directory it made. */
  lemma {:induction false} RunsAreSafe(run: seq<State>)
    requires IsRun(run)
    ensures Safe(run[|run| - 1])
  {
    if |run| > 1 {
      var before := run[..|run| - 1];
      assert IsRun(before);
      RunsAreSafe(before);
      assert Next(run[|run| - 2], run[|run| - 1]);
      var id :| StepBy(run[|run| - 2], run[|run| - 1], id);
      StepKeepsSafe(run[|run| - 2], run[|run| - 1], id);
    }
  }

  // ---------------------------------------------------------------- what the history fields mean

  ghost predicate PresentDuring(run: seq<State>, id: nat, k: nat) {
    k < |run| && run[k].entry.Present? && id in run[k].calls
  }

  ghost predicate SawIt(s: State, id: nat) {
    id in s.calls && s.calls[id].saw
  }

  lemma SeeingMeansPresent(s: State, t: State, id: nat)
    requires Next(s, t) && SawIt(t, id) && !SawIt(s, id)
    ensures t.entry.Present? || (s.entry.Present? && id in s.calls)
  {
    var actor :| StepBy(s, t, actor);
    assert actor == id && id in s.calls;
    StepSees(id, ViewOf(s, id), ViewOf(t, id));
  }

  lemma StepSees(id: nat, v: View, w: View)
    requires Acts(id, v, w) || Crashes(id, v, w)
    requires !v.call.saw && w.call.saw
    ensures v.entry.Present? || w.entry.Present?
  {
    if Slips(v, w) {
      SlipSeesNothing(v, w);
    } else if CanStep(v) {
      RealStepSees(id, v);
    }
    hide Step;
    hide Slips;
  }

  lemma SlipSeesNothing(v: View, w: View)
    requires Slips(v, w)
    ensures w.call.saw == v.call.saw
  {
  }

  lemma RealStepSees(id: nat, v: View)
    requires CanStep(v)
    ensures Step(id, v).call.saw && !v.call.saw ==> v.entry.Present? || Step(id, v).entry.Present?
  {
    if v.entry.Absent? {
      FindsNothing(id, v);
    }
    hide Step;
  }

  lemma FindsNothing(id: nat, v: View)
    requires CanStep(v) && v.entry.Absent?
    ensures Step(id, v).call.saw ==> v.call.saw || Step(id, v).entry.Present?
  {
  }

  /** `saw` is not a claim of the call's own: the entry was present in some state of the run
      while the call was under way or at the moment it returned. */
  lemma {:induction false} SawMeansPresent(run: seq<State>, id: nat)
    requires IsRun(run) && SawIt(run[|run| - 1], id)
    ensures exists k: nat :: PresentDuring(run, id, k)
  {
    var n := |run| - 1;
    if n > 0 {
      var before := run[..n];
      assert IsRun(before);
      assert Next(run[n - 1], run[n]);
      if SawIt(run[n - 1], id) {
        SawMeansPresent(before, id);
        var k: nat :| PresentDuring(before, id, k);
        assert PresentDuring(run, id, k);
      } else {
        SeeingMeansPresent(run[n - 1], run[n], id);
        assert PresentDuring(run, id, n) || PresentDuring(run, id, n - 1);
      }
    }
  }

  /** A fetcher's Ok: at some moment of its call the whole checkout was there. */
  lemma OkSawAWholeCheckout(run: seq<State>, id: nat)
    requires IsRun(run)
    requires id in run[|run| - 1].calls
    requires run[|run| - 1].calls[id].pc == Returned(true) && !run[|run| - 1].calls[id].role.Remover?
    ensures exists k: nat :: PresentDuring(run, id, k) && run[k].entry.content.Complete?
  {
    RunsAreSafe(run);
    var last := run[|run| - 1];
    assert CallOk(last.lock, id, last.calls[id]);
    SawMeansPresent(run, id);
    var k: nat :| PresentDuring(run, id, k);
    var front := run[..k + 1];
    assert IsRun(front);
    RunsAreSafe(front);
    assert front[k] == run[k];
  }

  ghost predicate AbsentDuring(run: seq<State>, id: nat, k: nat) {
    k < |run| && run[k].entry.Absent? && id in run[k].calls
  }

  ghost predicate MissedIt(s: State, id: nat) {
    id in s.calls && s.calls[id].missed
  }

  lemma MissingMeansAbsent(s: State, t: State, id: nat)
    requires Next(s, t) && MissedIt(t, id) && !MissedIt(s, id)
    ensures t.entry.Absent? || (s.entry.Absent? && id in s.calls)
  {
    var actor :| StepBy(s, t, actor);
    assert actor == id && id in s.calls;
    StepMisses(id, ViewOf(s, id), ViewOf(t, id));
  }

  lemma StepMisses(id: nat, v: View, w: View)
    requires Acts(id, v, w) || Crashes(id, v, w)
    requires !v.call.missed && w.call.missed
    ensures v.entry.Absent? || w.entry.Absent?
  {
    if Slips(v, w) {
      SlipMissesNothing(v, w);
    } else if CanStep(v) {
      RealStepMisses(id, v);
    }
    hide Step;
    hide Slips;
  }

  lemma SlipMissesNothing(v: View, w: View)
    requires Slips(v, w)
    ensures w.call.missed == v.call.missed
  {
  }

  lemma RealStepMisses(id: nat, v: View)
    requires CanStep(v)
    ensures Step(id, v).call.missed && !v.call.missed ==> v.entry.Absent? || Step(id, v).entry.Absent?
  {
    if v.entry.Present? && v.call.role.Remover? {
      RemoverFindsIt(id, v);
    } else if v.entry.Present? {
      FetcherFindsIt(id, v);
    }
    hide Step;
  }

  lemma RemoverFindsIt(id: nat, v: View)
    requires CanStep(v) && v.entry.Present? && v.call.role.Remover?
    ensures Step(id, v).call.missed ==> v.call.missed || Step(id, v).entry.Absent?
  {
  }

  lemma FetcherFindsIt(id: nat, v: View)
    requires CanStep(v) && v.entry.Present? && !v.call.role.Remover?
    ensures Step(id, v).call.missed ==> v.call.missed
  {
  }

  /** Nor is `missed`: the entry was absent in some state of the run during the call. */
  lemma {:induction false} MissedMeansAbsent(run: seq<State>, id: nat)
    requires IsRun(run) && MissedIt(run[|run| - 1], id)
    ensures exists k: nat :: AbsentDuring(run, id, k)
  {
    var n := |run| - 1;
    if n > 0 {
      var before := run[..n];
      assert IsRun(before);
      assert Next(run[n - 1], run[n]);
      if MissedIt(run[n - 1], id) {
        MissedMeansAbsent(before, id);
        var k: nat :| AbsentDuring(before, id, k);
        assert AbsentDuring(run, id, k);
      } else {
        MissingMeansAbsent(run[n - 1], run[n], id);
        assert AbsentDuring(run, id, n) || AbsentDuring(run, id, n - 1);
      }
    }
  }

  /** A remover's Ok: at some moment of its call the entry was absent. */
  lemma RemovedMeansAbsent(run: seq<State>, id: nat)
    requires IsRun(run)
    requires id in run[|run| - 1].calls
    requires run[|run| - 1].calls[id].pc == Returned(true) && run[|run| - 1].calls[id].role.Remover?
    ensures exists k: nat :: AbsentDuring(run, id, k)
  {
    RunsAreSafe(run);
    var last := run[|run| - 1];
    assert CallOk(last.lock, id, last.calls[id]);
    MissedMeansAbsent(run, id);
  }

  /** An error: the call could not acquire the lock, or, for a fetcher, at some moment the entry was
      absent while it was offline or had failed by itself; for a remover, its rename failed and at
      some moment the entry was present. */
  lemma ErrorMeansFailure(run: seq<State>, id: nat)
    requires IsRun(run)
    requires id in run[|run| - 1].calls && run[|run| - 1].calls[id].pc == Returned(false)
    ensures var c := run[|run| - 1].calls[id];
      || c.unlocked
      || (!c.role.Remover? && (c.offline || c.failed) && exists k: nat :: AbsentDuring(run, id, k))
      || (c.role.Remover? && c.failed && exists k: nat :: PresentDuring(run, id, k))
  {
    RunsAreSafe(run);
    var last := run[|run| - 1];
    var c := last.calls[id];
    assert CallOk(last.lock, id, c);
    if c.missed {
      MissedMeansAbsent(run, id);
    }
    if c.saw {
      SawMeansPresent(run, id);
    }
  }

  /** The entry seen from outside is a cell that is filled when empty with the checkout its
      filler cloned, or emptied by the remover holding the lock; nothing overwrites a checkout
      or changes it in place. */
  lemma EntryChangesWhole(s: State, t: State, id: nat)
    requires Safe(s) && StepBy(s, t, id) && s.entry != t.entry
    ensures id in s.calls
    ensures || (s.entry.Absent? && t.entry == Present(Complete(id)) && !s.calls[id].role.Remover?)
            || (s.entry.Present? && t.entry.Absent? && s.calls[id].role.Remover? && s.lock == Some(id))
  {
    if id in s.calls {
      assert CallOk(s.lock, id, s.calls[id]);
      ViewChangesEntry(id, ViewOf(s, id), ViewOf(t, id));
      hide CallOk;
      hide Step;
      hide Slips;
    }
  }

  lemma ViewChangesEntry(id: nat, v: View, w: View)
    requires CallOk(v.lock, id, v.call) && (Acts(id, v, w) || Crashes(id, v, w)) && v.entry != w.entry
    ensures || (v.entry.Absent? && w.entry == Present(Complete(id)) && !v.call.role.Remover?)
            || (v.entry.Present? && w.entry.Absent? && v.call.role.Remover? && v.lock == Some(id))
  {
    assert !Slips(v, w) && v.call.pc.ReadyToRename?;
  }

  /** Two calls never work under the lock at once. */
  lemma LockExcludes(run: seq<State>, a: nat, b: nat)
    requires IsRun(run)
    requires a in run[|run| - 1].calls && b in run[|run| - 1].calls
    requires NeedsLock(run[|run| - 1].calls[a]) && NeedsLock(run[|run| - 1].calls[b])
    ensures a == b
  {
    RunsAreSafe(run);
    var s := run[|run| - 1];
    assert CallOk(s.lock, a, s.calls[a]) && CallOk(s.lock, b, s.calls[b]);
  }

  ghost predicate CanAct(s: State, id: nat) {
    id in s.calls && exists w :: Acts(id, ViewOf(s, id), w)
  }

  /** No wedge: while some call is under way, some call can take a step of its own. The holder
      of the lock is always under way, because a crash drops the lock. */
  lemma SomeCallCanAct(s: State, id: nat)
    requires Safe(s)
    requires id in s.calls && UnderWay(s.calls[id])
    ensures exists actor :: CanAct(s, actor)
  {
    assert CallOk(s.lock, id, s.calls[id]);
    if s.calls[id].pc.Waiting? && s.lock.Some? {
      assert CallOk(s.lock, s.lock.value, s.calls[s.lock.value]);
      assert Acts(s.lock.value, ViewOf(s, s.lock.value), Step(s.lock.value, ViewOf(s, s.lock.value)));
      assert CanAct(s, s.lock.value);
    } else {
      assert Acts(id, ViewOf(s, id), Step(id, ViewOf(s, id)));
      assert CanAct(s, id);
    }
  }

  // ---------------------------------------------------------------- one clone

  /** A step of locked fetchers only, none of which crashes, whose lock can be acquired, whose clones
      succeed and whose renames fail only where the entry is in the way. */
  ghost predicate CalmStep(s: State, t: State, id: nat) {
    && StepBy(s, t, id)
    && id in t.calls && t.calls[id].role.Fetcher?
    && !t.calls[id].pc.Crashed? && !t.calls[id].pc.CloneFailed? && !t.calls[id].unlocked
    && (t.calls[id].pc.RenameFailed? ==> s.entry.Present?)
  }

  ghost predicate CalmNext(s: State, t: State) {
    exists id :: CalmStep(s, t, id)
  }

  ghost predicate IsCalmRun(run: seq<State>) {
    && run != [] && Init(run[0]) && run[0].entry.Absent?
    && forall i :: 0 < i < |run| ==> CalmNext(run[i - 1], run[i])
  }

  ghost predicate Idle(c: Call) {
    c.pc.Entering? || c.pc.Waiting? || c.pc.Rechecking? || c.pc.Returned?
  }

  ghost predicate HasCloned(c: Call) {
    c.pc.Cloning? || c.pc.ReadyToRename?
  }

  ghost predicate CalmCall(entry: Dir, clones: nat, c: Call) {
    && c.role.Fetcher?
    && (|| Idle(c)
        || (entry.Absent? && clones == 0 && (c.pc.Clearing? || c.pc.ReadyToClone?))
        || (entry.Absent? && clones == 1 && HasCloned(c)))
    && (c.pc == Returned(true) ==> entry.Present?)
    && (c.pc == Returned(false) ==> c.offline) && !c.unlocked
  }

  /** The one clone belongs to the call under the lock, or filled the entry. */
  ghost predicate OneClone(s: State) {
    && Safe(s)
    && (if s.entry.Present? then s.clones == 1
        else if s.lock.Some? && HasCloned(s.calls[s.lock.value]) then s.clones == 1
        else s.clones == 0)
    && (forall id :: id in s.calls ==> CalmCall(s.entry, s.clones, s.calls[id]))
  }

  lemma CalmStepKeepsOneClone(s: State, t: State, id: nat)
    requires OneClone(s) && CalmStep(s, t, id)
    ensures OneClone(t)
  {
    StepKeepsSafe(s, t, id);
    if id in s.calls {
      assert CallOk(s.lock, id, s.calls[id]) && CalmCall(s.entry, s.clones, s.calls[id]);
      CalmViewStays(id, ViewOf(s, id), ViewOf(t, id));
    }
    forall other | other in t.calls
      ensures CalmCall(t.entry, t.clones, t.calls[other])
    {
      if other != id {
        assert CalmCall(s.entry, s.clones, s.calls[other]) && CallOk(s.lock, other, s.calls[other]);
      }
    }
    if t.lock.Some? {
      assert CallOk(s.lock, t.lock.value, t.calls[t.lock.value]) || t.lock.value == id;
    }
  }

  /** Where the clone counter is one only because the entry is present or this call made it. */
  ghost predicate CloneCounted(id: nat, v: View) {
    (v.lock == None || v.lock == Some(id)) ==> v.clones == if v.entry.Present? || HasCloned(v.call) then 1 else 0
  }

  lemma CalmViewStays(id: nat, v: View, w: View)
    requires CallOk(v.lock, id, v.call) && CalmCall(v.entry, v.clones, v.call) && CloneCounted(id, v)
    requires Acts(id, v, w) && !w.call.pc.CloneFailed? && !w.call.unlocked && (w.call.pc.RenameFailed? ==> v.entry.Present?)
    ensures CalmCall(w.entry, w.clones, w.call) && CloneCounted(id, w)
    ensures w.entry != v.entry || w.clones != v.clones ==> v.lock == Some(id)
  {
    if Slips(v, w) {
      assert v.call.pc.Clearing? || v.call.pc.ReadyToRename?;
    } else if Idle(v.call) {
      CalmIdleStays(id, v);
    } else if HasCloned(v.call) {
      CalmCloneStays(id, v);
    } else {
      CalmStartStays(id, v);
    }
  }

  lemma CalmIdleStays(id: nat, v: View)
    requires CallOk(v.lock, id, v.call) && CalmCall(v.entry, v.clones, v.call) && CloneCounted(id, v)
    requires CanStep(v) && Idle(v.call)
    ensures CalmCall(Step(id, v).entry, Step(id, v).clones, Step(id, v).call) && CloneCounted(id, Step(id, v))
    ensures Step(id, v).entry == v.entry && Step(id, v).clones == v.clones
  {
  }

  lemma CalmStartStays(id: nat, v: View)
    requires CallOk(v.lock, id, v.call) && CalmCall(v.entry, v.clones, v.call)
    requires CanStep(v) && !Idle(v.call) && !HasCloned(v.call)
    ensures CalmCall(Step(id, v).entry, Step(id, v).clones, Step(id, v).call) && CloneCounted(id, Step(id, v))
    ensures v.lock == Some(id)
  {
  }

  lemma CalmCloneStays(id: nat, v: View)
    requires CallOk(v.lock, id, v.call) && CalmCall(v.entry, v.clones, v.call)
    requires CanStep(v) && HasCloned(v.call) && !Step(id, v).call.pc.RenameFailed?
    ensures CalmCall(Step(id, v).entry, Step(id, v).clones, Step(id, v).call) && CloneCounted(id, Step(id, v))
    ensures v.lock == Some(id)
  {
  }

  ghost predicate ServedByOneClone(s: State, c: Call) {
    c.pc.Returned? && !c.offline ==> c.pc.ok && s.clones == 1
  }

  ghost predicate AllServed(s: State) {
    forall id :: id in s.calls ==> ServedByOneClone(s, s.calls[id])
  }

  /** However many fetchers race for an absent entry, one clone runs: never a second one, and
      exactly one once any caller that may fetch has returned, and they all return Ok. */
  lemma {:induction false} ExactlyOneClone(run: seq<State>)
    requires IsCalmRun(run)
    ensures OneClone(run[|run| - 1]) && run[|run| - 1].clones <= 1
    ensures AllServed(run[|run| - 1])
  {
    if |run| > 1 {
      var before := run[..|run| - 1];
      assert IsCalmRun(before);
      ExactlyOneClone(before);
      assert CalmNext(run[|run| - 2], run[|run| - 1]);
      var id :| CalmStep(run[|run| - 2], run[|run| - 1], id);
      CalmStepKeepsOneClone(run[|run| - 2], run[|run| - 1], id);
    }
    var s := run[|run| - 1];
    forall id | id in s.calls
      ensures ServedByOneClone(s, s.calls[id])
    {
      assert CalmCall(s.entry, s.clones, s.calls[id]);
    }
  }

  // ---------------------------------------------------------------- one call alone

  /** Up to `n` steps of one call, with nobody else in between. */
  function Alone(id: nat, v: View, n: nat): View
    decreases n
  {
    if n == 0 || !CanStep(v) then v else Alone(id, Step(id, v), n - 1)
  }

  /** The first state of a call, whatever stands under its temporary name. */
  ghost predicate IsNew(c: Call) {
    c.pc.Entering? && !c.owned && !c.saw && !c.failed && !c.missed && !c.unlocked
  }

  /** A fetcher on its own finds the entry, or is offline, or fills it with one clone and leaves
      nothing else behind. */
  lemma FetcherAlone(id: nat, v: View)
    requires IsNew(v.call) && !v.call.role.Remover? && v.lock == None
    ensures Alone(id, v, 7) ==
      if v.entry.Present? then v.(call := v.call.(pc := Returned(true), saw := true))
      else if v.call.offline then v.(call := v.call.(pc := Returned(false), missed := true))
      else View(Present(Complete(id)), None, v.clones + 1,
                v.call.(pc := Returned(true), temp := Absent, owned := true, saw := true))
  {
    var c := v.call;
    if v.entry.Absent? && !c.offline {
      var clearing := v.(lock := if c.role.Fetcher? then Some(id) else None, call := c.(pc := Clearing));
      if c.role.Fetcher? {
        assert Alone(id, v, 7) == Alone(id, v.(call := c.(pc := Waiting)), 6);
        assert Alone(id, v, 7) == Alone(id, v.(lock := Some(id), call := c.(pc := Rechecking)), 5);
        assert Alone(id, v, 7) == Alone(id, clearing, 4);
        ClonesAlone(id, clearing, 4);
      } else {
        assert Alone(id, v, 7) == Alone(id, clearing, 6);
        ClonesAlone(id, clearing, 6);
      }
    }
  }

  lemma ClonesAlone(id: nat, v: View, n: nat)
    requires v.call.pc.Clearing? && !v.call.role.Remover? && v.entry.Absent? && n >= 4
    requires v.lock == None || v.lock == Some(id)
    ensures Alone(id, v, n) ==
      View(Present(Complete(id)), None, v.clones + 1,
           v.call.(pc := Returned(true), temp := Absent, owned := true, saw := true))
  {
    var c := v.call;
    var ready := v.(call := c.(pc := ReadyToClone, temp := Absent, owned := true));
    var cloning := ready.(clones := v.clones + 1, call := ready.call.(pc := Cloning, temp := Present(Partial)));
    var cloned := cloning.(call := ready.call.(pc := ReadyToRename, temp := Present(Complete(id))));
    assert Step(id, v) == ready && Step(id, ready) == cloning && Step(id, cloning) == cloned;
    var done := Step(id, cloned);
    assert done == View(Present(Complete(id)), None, v.clones + 1,
                        c.(pc := Returned(true), temp := Absent, owned := true, saw := true));
    hide Step;
    assert Alone(id, done, n - 4) == done;
    assert Alone(id, cloned, n - 3) == done;
    assert Alone(id, ready, n - 1) == Alone(id, cloning, n - 2) == done;
  }

  /** A remover on its own leaves the entry absent and nothing behind, unless the name it moves the
      entry to is taken: then it changes nothing and returns an error. */
  lemma RemoverAlone(id: nat, v: View)
    requires IsNew(v.call) && v.call.role.Remover? && v.lock == None
    ensures Alone(id, v, 4) ==
      if v.entry.Absent? then v.(call := v.call.(pc := Returned(true), missed := true))
      else if v.call.temp.Absent? then
        v.(entry := Absent, call := v.call.(pc := Returned(true), owned := true, missed := true))
      else v.(call := v.call.(pc := Returned(false), failed := true, saw := true))
  {
    var c := v.call;
    if v.entry.Present? {
      assert Alone(id, v, 4) == Alone(id, v.(call := c.(pc := Waiting)), 3);
      var ready := v.(lock := Some(id), call := c.(pc := ReadyToRename));
      assert Alone(id, v, 4) == Alone(id, ready, 2);
      assert Alone(id, ready, 2) == Alone(id, Step(id, ready), 1) == Step(id, Step(id, ready));
    }
  }

  /** After a failed clone or rename the temporary directory goes, the lock is dropped, and the answer
      is Ok exactly if the entry is there after all. */
  lemma FailedFetcherAlone(id: nat, v: View)
    requires !v.call.role.Remover? && (v.call.pc.CloneFailed? || v.call.pc.RenameFailed?)
    requires v.lock == None || v.lock == Some(id)
    ensures Alone(id, v, 2) == GivenUp(v)
  {
    if v.call.pc.CloneFailed? {
      FailedCloneAlone(id, v);
    } else {
      FailedRenameAlone(id, v);
    }
    hide *;
  }

  function GivenUp(v: View): View {
    v.(lock := None, call := v.call.(temp := Absent, pc := Returned(v.entry.Present?),
        saw := v.call.saw || v.entry.Present?, missed := v.call.missed || v.entry.Absent?))
  }

  lemma FailedCloneAlone(id: nat, v: View)
    requires !v.call.role.Remover? && v.call.pc.CloneFailed? && (v.lock == None || v.lock == Some(id))
    ensures Alone(id, v, 2) == GivenUp(v)
  {
    var w := v.(call := v.call.(temp := Absent, pc := AfterFailure));
    assert Step(id, v) == w;
    assert Alone(id, v, 2) == Alone(id, w, 1) == Step(id, w);
  }

  lemma FailedRenameAlone(id: nat, v: View)
    requires !v.call.role.Remover? && v.call.pc.RenameFailed? && (v.lock == None || v.lock == Some(id))
    ensures Alone(id, v, 2) == GivenUp(v)
  {
    var c := v.call;
    var w := v.(call := if v.entry.Present? then c.(saw := true, pc := Discarding(true))
                        else c.(missed := true, pc := Discarding(false)));
    assert Step(id, v) == w;
    assert Alone(id, v, 2) == Alone(id, w, 1) == Step(id, w);
  }
}
