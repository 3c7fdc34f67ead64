/**
 The life of published runs: operations that hold the policy lock, retirements that do not, and holders
 that may die at any moment, as interleaved steps over an atomic directory.

 A run's lease is the lock its holder keeps on the lease file; it disappears with the holder.
 */
module PolicyRuns {
  import opened HttpText

  datatype Name = Published(id: nat) | Temporary(id: nat) | Dead(id: nat)

  datatype Purpose = Publish(id: nat) | Inspect

  /** What the holder of the policy lock is doing. `doomed` records what the operation found without a
      live lease when it began; no step depends on it. */
  datatype Operation =
    | Reaping(todo: set<Name>, purpose: Purpose, doomed: set<Name>)
    | CheckLog(id: nat, doomed: set<Name>)
    | MakeTemporary(id: nat)
    | TakeLease(id: nat)
    | Build(id: nat)

  datatype State = State(
    dirs: set<Name>,
    // Runs whose lease is locked, and runs whose holder has set its retired flag.
    held: set<nat>,
    retired: set<nat>,
    operation: Option<Operation>,
    used: set<nat>,
    denials: nat)

  predicate Initial(s: State)
  {
    s.held == {} && s.retired == {} && s.operation.None? && s.dirs == {} && s.used == {}
  }

  function IdOf(operation: Operation): Option<nat>
  {
    match operation
    case Reaping(_, purpose, _) => if purpose.Publish? then Some(purpose.id) else None
    case CheckLog(id, _) => Some(id)
    case MakeTemporary(id) => Some(id)
    case TakeLease(id) => Some(id)
    case Build(id) => Some(id)
  }

  /** Neither temporary nor retired, and its lease is held. */
  predicate Live(s: State, id: nat)
  {
    Published(id) in s.dirs && id in s.held
  }

  function Unleased(dirs: set<Name>, held: set<nat>): set<Name>
  {
    set n | n in dirs && !(n.Published? && n.id in held)
  }

  // ---- locked operations ----

  /** Taking the lock and listing the directory. A publication's id is one never used before. */
  predicate BeginStep(s: State, t: State, purpose: Purpose)
  {
    && s.operation.None?
    && (purpose.Publish? ==> purpose.id !in s.used)
    && t == s.(operation := Some(Reaping(s.dirs, purpose, Unleased(s.dirs, s.held))),
               used := s.used + if purpose.Publish? then {purpose.id} else {})
  }

  /** One entry of the listing: hidden directories go, and so do runs whose lease can be locked. */
  predicate ReapStep(s: State, t: State, n: Name)
  {
    && s.operation.Some? && s.operation.value.Reaping? && n in s.operation.value.todo
    && var next := Some(s.operation.value.(todo := s.operation.value.todo - {n}));
       if n !in s.dirs then t == s.(operation := None)
       else if n.Published? && n.id in s.held then t == s.(operation := next)
       else t == s.(operation := next, dirs := s.dirs - {n})
  }

  /** What follows reaping: an inspection is done; a publication resets the log if no run is listed. */
  predicate PublishStep(s: State, t: State)
  {
    && s.operation.Some?
    && match s.operation.value
       case Reaping(todo, purpose, doomed) =>
         && todo == {}
         && t == s.(operation := if purpose.Publish? then Some(CheckLog(purpose.id, doomed)) else None)
       case CheckLog(id, _) =>
         t == s.(denials := if exists n :: n in s.dirs && n.Published? then s.denials else 0,
                 operation := Some(MakeTemporary(id)))
       case MakeTemporary(id) => t == s.(dirs := s.dirs + {Temporary(id)}, operation := Some(TakeLease(id)))
       case TakeLease(id) => t == s.(held := s.held + {id}, operation := Some(Build(id)))
       case Build(id) =>
         || t == s.(dirs := s.dirs - {Temporary(id)} + {Published(id)}, operation := None)
         || t == s.(dirs := s.dirs - {Temporary(id)}, held := s.held - {id}, operation := None)
  }

  /** An operation that fails, or whose process dies, lets go of the lock and of a lease in the making;
      what it had created stays. */
  predicate AbandonStep(s: State, t: State)
  {
    && s.operation.Some?
    && t == s.(operation := None, held := if s.operation.value.Build? then s.held - {s.operation.value.id} else s.held)
  }

  // ---- holders, without the lock ----

  /** `retire_inner`: the rename and the flag, then the removal. */
  predicate RetireStep(s: State, t: State, id: nat)
  {
    && id in s.held && id !in s.retired && IsPublic(s, id)
    && t == s.(dirs := if Published(id) in s.dirs then s.dirs - {Published(id)} + {Dead(id)} else s.dirs,
               retired := s.retired + {id})
  }

  /** The id does not belong to a publication still in progress. */
  predicate IsPublic(s: State, id: nat)
  {
    s.operation.Some? ==> IdOf(s.operation.value) != Some(id)
  }

  predicate RemoveDeadStep(s: State, t: State, id: nat)
  {
    id in s.retired && t == s.(dirs := s.dirs - {Dead(id)})
  }

  /** The holder exits or dies. */
  predicate ReleaseStep(s: State, t: State, id: nat)
  {
    id in s.held && IsPublic(s, id) && t == s.(held := s.held - {id})
  }

  predicate DenialStep(s: State, t: State)
  {
    t == s.(denials := s.denials + 1)
  }

  ghost predicate Next(s: State, t: State)
  {
    || (exists purpose :: BeginStep(s, t, purpose))
    || (exists n :: ReapStep(s, t, n))
    || PublishStep(s, t)
    || AbandonStep(s, t)
    || (exists id :: RetireStep(s, t, id))
    || (exists id :: RemoveDeadStep(s, t, id))
    || (exists id :: ReleaseStep(s, t, id))
    || DenialStep(s, t)
  }

  // ---- the invariant ----

  ghost predicate Inv(s: State)
  {
    && (forall n :: n in s.dirs ==> n.id in s.used && (n.Dead? ==> n.id in s.retired))
    && (forall id :: id in s.held || id in s.retired ==> id in s.used)
    && (s.operation.Some? && IdOf(s.operation.value).Some? ==> IdOf(s.operation.value).value in s.used)
    && OperationInv(s)
  }

  ghost predicate OperationInv(s: State)
  {
    s.operation.Some? ==>
      match s.operation.value
      case Reaping(todo, purpose, doomed) =>
        // What is doomed and still there is still to be reaped; everything else unleased appeared since.
        && (forall n :: n in doomed && n in s.dirs ==> n in todo)
        && (purpose.Publish? ==> Fresh(s, purpose.id))
        && DoomedStay(s, doomed)
      case CheckLog(id, doomed) =>
        && (forall n :: n in doomed ==> n !in s.dirs)
        && Fresh(s, id) && DoomedStay(s, doomed)
      case MakeTemporary(id) => Fresh(s, id)
      case TakeLease(id) => Temporary(id) in s.dirs && Published(id) !in s.dirs && id !in s.held && id !in s.retired
      case Build(id) => Temporary(id) in s.dirs && Published(id) !in s.dirs && id in s.held && id !in s.retired
  }

  /** A run found without a lease never gets one again, and a retirement is not repeated. */
  ghost predicate DoomedStay(s: State, doomed: set<Name>)
  {
    forall n :: n in doomed ==>
      n.id in s.used && (n.Published? ==> n.id !in s.held) && (n.Dead? ==> n.id in s.retired)
  }

  /** Nothing exists yet under this id. */
  ghost predicate Fresh(s: State, id: nat)
  {
    id !in s.held && id !in s.retired && Published(id) !in s.dirs && Temporary(id) !in s.dirs && Dead(id) !in s.dirs
  }

  lemma {:induction false} BeginKeepsInv(s: State, t: State, purpose: Purpose)
    requires Inv(s) && BeginStep(s, t, purpose)
    ensures Inv(t)
  {
  }

  lemma {:induction false} ReapKeepsInv(s: State, t: State, n: Name)
    requires Inv(s) && ReapStep(s, t, n)
    ensures Inv(t)
  {
  }

  lemma {:induction false} PublishKeepsInv(s: State, t: State)
    requires Inv(s) && PublishStep(s, t)
    ensures Inv(t)
  {
  }

  lemma {:induction false} AbandonKeepsInv(s: State, t: State)
    requires Inv(s) && AbandonStep(s, t)
    ensures Inv(t)
  {
  }

  lemma {:induction false} RetireKeepsInv(s: State, t: State, id: nat)
    requires Inv(s) && RetireStep(s, t, id)
    ensures Inv(t)
  {
  }

  lemma {:induction false} RemoveDeadKeepsInv(s: State, t: State, id: nat)
    requires Inv(s) && RemoveDeadStep(s, t, id)
    ensures Inv(t)
  {
  }

  lemma {:induction false} ReleaseKeepsInv(s: State, t: State, id: nat)
    requires Inv(s) && ReleaseStep(s, t, id)
    ensures Inv(t)
  {
  }

  lemma {:induction false} NextKeepsInv(s: State, t: State)
    requires Inv(s) && Next(s, t)
    ensures Inv(t)
  {
    hide Inv, BeginStep, ReapStep, PublishStep, AbandonStep, RetireStep, RemoveDeadStep, ReleaseStep;
    if purpose :| BeginStep(s, t, purpose) {
      BeginKeepsInv(s, t, purpose);
    } else if n :| ReapStep(s, t, n) {
      ReapKeepsInv(s, t, n);
    } else if PublishStep(s, t) {
      PublishKeepsInv(s, t);
    } else if AbandonStep(s, t) {
      AbandonKeepsInv(s, t);
    } else if id :| RetireStep(s, t, id) {
      RetireKeepsInv(s, t, id);
    } else if id :| RemoveDeadStep(s, t, id) {
      RemoveDeadKeepsInv(s, t, id);
    } else if id :| ReleaseStep(s, t, id) {
      ReleaseKeepsInv(s, t, id);
    } else {
      DenialKeepsInv(s, t);
    }
  }

  lemma {:induction false} DenialKeepsInv(s: State, t: State)
    requires Inv(s) && DenialStep(s, t)
    ensures Inv(t)
  {
  }

  // ---- every interleaving ----

  ghost predicate Behaviour(b: seq<State>)
  {
    && b != [] && Initial(b[0])
    && forall i :: 0 <= i < |b| - 1 ==> Next(b[i], b[i + 1])
  }

  lemma {:induction false} ReachableInv(b: seq<State>, i: nat)
    requires Behaviour(b) && i < |b|
    ensures Inv(b[i])
    decreases i
  {
    hide Inv, Next, Initial;
    if i == 0 {
      InitialInv(b[0]);
    } else {
      ReachableInv(b, i - 1);
      assert Next(b[i - 1], b[i - 1 + 1]);
      NextKeepsInv(b[i - 1], b[i]);
    }
  }

  lemma {:induction false} InitialInv(s: State)
    requires Initial(s)
    ensures Inv(s)
  {
  }

  /** Only its own retirement takes a run with a held lease away. */
  lemma {:induction false} LeaseProtects(s: State, t: State, id: nat)
    requires Next(s, t) && Live(s, id) && id in t.held && id !in t.retired
    ensures Live(t, id)
  {
  }

  /** A published run whose lease is held and that is not retired is never reaped, whatever operations
      run meanwhile. */
  lemma {:induction false} LiveRunStays(b: seq<State>, i: nat, j: nat, id: nat)
    requires Behaviour(b) && i <= j < |b| && Live(b[i], id)
    requires forall k :: i <= k <= j ==> id in b[k].held && id !in b[k].retired
    ensures Live(b[j], id)
    decreases j
  {
    hide Next, Initial, Live;
    if i < j {
      LiveRunStays(b, i, j - 1, id);
      assert Next(b[j - 1], b[j - 1 + 1]);
      assert id in b[j].held && id !in b[j].retired;
      LeaseProtects(b[j - 1], b[j], id);
    }
  }

  predicate ReapingFor(s: State, doomed: set<Name>)
  {
    s.operation.Some? && s.operation.value.Reaping? && s.operation.value.doomed == doomed
  }

  /** The commitment does not change while the operation reaps. */
  lemma {:induction false} DoomedIsKept(s: State, t: State, doomed: set<Name>)
    requires Next(s, t) && ReapingFor(s, doomed) && t.operation.Some? && t.operation.value.Reaping?
    ensures ReapingFor(t, doomed)
  {
  }

  lemma {:induction false} DoomedThroughout(b: seq<State>, i: nat, j: nat, doomed: set<Name>)
    requires Behaviour(b) && i <= j < |b| && ReapingFor(b[i], doomed)
    requires forall k :: i <= k <= j ==> b[k].operation.Some? && b[k].operation.value.Reaping?
    ensures ReapingFor(b[j], doomed)
    decreases j
  {
    hide Next, Initial, ReapingFor;
    if i < j {
      DoomedThroughout(b, i, j - 1, doomed);
      assert Next(b[j - 1], b[j - 1 + 1]);
      assert b[j].operation.Some? && b[j].operation.value.Reaping?;
      DoomedIsKept(b[j - 1], b[j], doomed);
    }
  }

  /** Whatever an operation finds without a live lease when it begins is gone once its reaping has
      succeeded: runs whose holder has died, and the leftovers of broken publications and retirements. */
  lemma {:induction false} CrashedRunIsGone(b: seq<State>, i: nat, j: nat, purpose: Purpose, n: Name)
    requires Behaviour(b) && i + 1 <= j && j + 1 < |b|
    requires BeginStep(b[i], b[i + 1], purpose)
    requires forall k :: i + 1 <= k <= j ==> b[k].operation.Some? && b[k].operation.value.Reaping?
    requires PublishStep(b[j], b[j + 1])
    requires n in b[i].dirs && !(n.Published? && n.id in b[i].held)
    ensures n !in b[j + 1].dirs
  {
    var doomed := Unleased(b[i].dirs, b[i].held);
    DoomedThroughout(b, i + 1, j, doomed);
    ReachableInv(b, j);
    assert n in doomed;
  }

  /** A publication in progress is never deleted: its directory is there until the operation ends. */
  lemma {:induction false} PublicationIsSafe(b: seq<State>, i: nat, id: nat)
    requires Behaviour(b) && i < |b|
    requires b[i].operation == Some(TakeLease(id)) || b[i].operation == Some(Build(id))
    ensures Temporary(id) in b[i].dirs && Published(id) !in b[i].dirs
    ensures b[i].operation == Some(Build(id)) ==> id in b[i].held
  {
    ReachableInv(b, i);
  }

  /** The part of a publication before it creates anything, with what it found doomed. */
  predicate BeforeCreating(s: State, doomed: set<Name>)
  {
    s.operation.Some? &&
    match s.operation.value
    case Reaping(_, _, d) => d == doomed
    case CheckLog(_, d) => d == doomed
    case _ => false
  }

  predicate StillBefore(s: State)
  {
    s.operation.Some? && (s.operation.value.Reaping? || s.operation.value.CheckLog?)
  }

  /** Nobody publishes while the lock is held for something else. */
  lemma {:induction false} NothingAppears(s: State, t: State, doomed: set<Name>)
    requires Next(s, t) && BeforeCreating(s, doomed) && StillBefore(t)
    ensures BeforeCreating(t, doomed)
    ensures forall n :: n in t.dirs && n.Published? ==> n in s.dirs
  {
  }

  lemma {:induction false} NothingAppeared(b: seq<State>, i: nat, j: nat, doomed: set<Name>)
    requires Behaviour(b) && i <= j < |b| && BeforeCreating(b[i], doomed)
    requires forall k :: i <= k <= j ==> StillBefore(b[k])
    ensures BeforeCreating(b[j], doomed)
    ensures forall n :: n in b[j].dirs && n.Published? ==> n in b[i].dirs
    decreases j
  {
    hide Next, Initial, BeforeCreating, StillBefore;
    if i < j {
      NothingAppeared(b, i, j - 1, doomed);
      assert Next(b[j - 1], b[j - 1 + 1]);
      assert StillBefore(b[j]);
      NothingAppears(b[j - 1], b[j], doomed);
    }
  }

  /** From the moment a publication takes the lock to its look at the log: whatever is still published then
      was live when it began. So the log is cleared whenever no run was live at that moment, it is left alone
      whenever some run stays live throughout, and in between it depends on whether a run is still published. */
  lemma {:induction false} LogClearedWhenIdle(b: seq<State>, i: nat, j: nat, id: nat)
    requires Behaviour(b) && i < j && j + 1 < |b| && BeginStep(b[i], b[i + 1], Publish(id))
    requires forall k :: i + 1 <= k <= j ==> StillBefore(b[k])
    requires b[j].operation.Some? && b[j].operation.value.CheckLog? && PublishStep(b[j], b[j + 1])
    ensures forall n :: n in b[j].dirs && n.Published? ==> Live(b[i], n.id)
    ensures if forall n :: n in b[j].dirs ==> !n.Published? then b[j + 1].denials == 0
            else b[j + 1].denials == b[j].denials
    ensures (forall n :: n in b[i].dirs && n.Published? ==> n.id !in b[i].held) ==> b[j + 1].denials == 0
    ensures forall r :: Live(b[i], r) && (forall k :: i <= k <= j ==> r in b[k].held && r !in b[k].retired) ==>
              b[j + 1].denials == b[j].denials
  {
    hide Initial, Next;
    var doomed := Unleased(b[i].dirs, b[i].held);
    NothingAppeared(b, i + 1, j, doomed);
    ReachableInv(b, j);
    forall r | Live(b[i], r) && forall k :: i <= k <= j ==> r in b[k].held && r !in b[k].retired
      ensures Published(r) in b[j].dirs
    {
      LiveRunStays(b, i, j, r);
    }
  }

  /** No other step clears the log. */
  lemma {:induction false} OnlyPublishClears(s: State, t: State)
    requires Next(s, t) && t.denials < s.denials
    ensures s.operation.Some? && s.operation.value.CheckLog? && PublishStep(s, t)
  {
  }

  /** A publication that succeeds leaves a live run behind, and one that fails leaves nothing. */
  lemma {:induction false} PublicationEnds(s: State, t: State, id: nat)
    requires Inv(s) && s.operation == Some(Build(id)) && PublishStep(s, t)
    ensures Live(t, id) || (Temporary(id) !in t.dirs && Published(id) !in t.dirs && id !in t.held)
  {
  }
}
