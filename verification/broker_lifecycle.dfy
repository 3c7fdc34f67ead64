/**
 The loopback broker's accept thread, its workers and `stop`, as interleaved steps. Each critical
 section of the source holds one lock and is one step here; what clients, the listener and thread
 creation do is free.
 */
module BrokerLifecycle {
  import opened HttpText

  datatype AcceptPc =
    | NotStarted
    | CheckStopped
    | Reap
    | AcceptClient
    | Acquire
    | Register
    | Spawn(client: nat)
    | PushHandle(worker: nat)
    | RefusePermit
    | UnspawnPermit(client: nat)
    | UnspawnSocket(client: nat)
    | LastReap
    | Finished

  datatype Phase = Serving | Closing | PermitBack | Gone

  /** A worker thread with the registrations it owns. */
  datatype Worker = Worker(phase: Phase, client: nat, upstream: Option<nat>)

  datatype StopPc =
    | NotStopped
    | NotifyReady
    | Drain
    | ShutDown(pending: set<nat>)
    | JoinAccept
    | TakeWorkers
    | JoinWorkers(left: set<nat>)
    | RemoveSecret
    | Stopped

  /** The stopped flag, the listener and accept handle slots, and whether `stop` took a handle. */
  datatype Lifecycle = Lifecycle(stopped: bool, listener: bool, handle: bool, joining: bool)

  datatype Permits = Permits(available: nat, holders: set<nat>)

  datatype Owner = AcceptThread | OfWorker(worker: nat)

  /** `live` says who holds which registration, and `shut` which sockets `stop` has shut down; both
      only record history and no step depends on them. */
  datatype Table = Table(sockets: set<nat>, next: nat, live: map<nat, Owner>, shut: set<nat>)

  function Insert(table: Table, owner: Owner): Table
  {
    Table(table.sockets + {table.next}, table.next + 1, table.live[table.next := owner], table.shut)
  }

  /** A registration's drop. */
  function Remove(table: Table, id: nat): Table
  {
    Table(table.sockets - {id}, table.next, table.live - {id}, table.shut)
  }

  datatype Workers = Workers(threads: map<nat, Worker>, handles: set<nat>, next: nat)

  datatype State = State(
    limit: nat,
    life: Lifecycle,
    accept: AcceptPc,
    stop: StopPc,
    permits: Permits,
    table: Table,
    workers: Workers)

  predicate Initial(s: State)
  {
    && s.limit > 0
    && s == State(s.limit, Lifecycle(false, true, false, false), NotStarted, NotStopped,
                  Permits(s.limit, {}), Table({}, 0, map[], {}), Workers(map[], {}, 0))
  }

  function Ended(workers: Workers): set<nat>
  {
    set w | w in workers.threads && workers.threads[w].phase.Gone?
  }

  // ---- the accept thread ----

  /** `start_accepting` and the accept loop. */
  predicate AcceptStep(s: State, t: State)
  {
    match s.accept
    case NotStarted =>
      && !s.life.stopped && s.life.listener
      && t == s.(life := s.life.(listener := false, handle := true), accept := CheckStopped)
    case CheckStopped => t == s.(accept := if s.life.stopped then LastReap else Reap)
    case Reap => t == s.(workers := s.workers.(handles := s.workers.handles - Ended(s.workers)), accept := AcceptClient)
    case AcceptClient => t == s.(accept := CheckStopped) || t == s.(accept := Acquire) || t == s.(accept := LastReap)
    case Acquire =>
      t == if s.permits.available == 0 || s.life.stopped then s.(accept := CheckStopped)
           else s.(permits := s.permits.(available := s.permits.available - 1), accept := Register)
    case Register =>
      // `try_clone` may fail; a stopped broker registers nothing.
      || t == s.(accept := RefusePermit)
      || (!s.life.stopped &&
          t == s.(table := Insert(s.table, AcceptThread), accept := Spawn(s.table.next)))
    case RefusePermit =>
      t == s.(permits := s.permits.(available := s.permits.available + 1), accept := CheckStopped)
    case Spawn(client) =>
      || t == s.(accept := UnspawnPermit(client))
      || t == s.(workers := s.workers.(threads := s.workers.threads[s.workers.next := Worker(Serving, client, None)],
                                       next := s.workers.next + 1),
                 permits := s.permits.(holders := s.permits.holders + {s.workers.next}),
                 table := s.table.(live := s.table.live[client := OfWorker(s.workers.next)]),
                 accept := PushHandle(s.workers.next))
    case PushHandle(worker) =>
      t == s.(workers := s.workers.(handles := s.workers.handles + {worker}), accept := CheckStopped)
    case UnspawnPermit(client) =>
      t == s.(permits := s.permits.(available := s.permits.available + 1), accept := UnspawnSocket(client))
    case UnspawnSocket(client) =>
      t == s.(table := Remove(s.table, client), accept := CheckStopped)
    case LastReap => t == s.(workers := s.workers.(handles := s.workers.handles - Ended(s.workers)), accept := Finished)
    case Finished => false
  }

  // ---- a worker ----

  predicate WorkerStep(s: State, t: State, w: nat)
  {
    w in s.workers.threads &&
    var worker := s.workers.threads[w];
    match worker.phase
    case Serving =>
      || (worker.upstream.None? && !s.life.stopped &&
          t == s.(table := Insert(s.table, OfWorker(w)),
                  workers := Moved(s.workers, w, worker.(upstream := Some(s.table.next)))))
      || (worker.upstream.None? && t == s.(workers := Moved(s.workers, w, worker.(phase := Closing))))
      || (worker.upstream.Some? &&
          t == s.(table := Remove(s.table, worker.upstream.value),
                  workers := Moved(s.workers, w, worker.(upstream := None, phase := Closing))))
    case Closing =>
      t == s.(permits := Permits(s.permits.available + 1, s.permits.holders - {w}),
              workers := Moved(s.workers, w, worker.(phase := PermitBack)))
    case PermitBack =>
      t == s.(table := Remove(s.table, worker.client),
              workers := Moved(s.workers, w, worker.(phase := Gone)))
    case Gone => false
  }

  function Moved(workers: Workers, w: nat, worker: Worker): Workers
  {
    workers.(threads := workers.threads[w := worker])
  }

  // ---- stop ----

  /** The first call of `stop`; every later one sees the flag and returns at once. */
  predicate StopStep(s: State, t: State)
  {
    match s.stop
    case NotStopped =>
      t == s.(life := Lifecycle(true, false, false, s.life.handle), stop := NotifyReady)
    case NotifyReady => t == s.(stop := Drain)
    case Drain => t == s.(table := s.table.(sockets := {}), stop := ShutDown(s.table.sockets))
    case ShutDown(pending) =>
      if pending == {} then t == s.(stop := JoinAccept)
      else exists x :: x in pending &&
             t == s.(table := s.table.(shut := s.table.shut + {x}), stop := ShutDown(pending - {x}))
    case JoinAccept => (s.life.joining ==> s.accept.Finished?) && t == s.(stop := TakeWorkers)
    case TakeWorkers => t == s.(workers := s.workers.(handles := {}), stop := JoinWorkers(s.workers.handles))
    case JoinWorkers(left) =>
      if left == {} then t == s.(stop := RemoveSecret)
      else exists w :: w in left && w in Ended(s.workers) && t == s.(stop := JoinWorkers(left - {w}))
    case RemoveSecret => t == s.(stop := Stopped)
    case Stopped => false
  }

  ghost predicate Next(s: State, t: State)
  {
    AcceptStep(s, t) || StopStep(s, t) || exists w :: WorkerStep(s, t, w)
  }

  // ---- the invariant ----

  predicate AcceptHolds(pc: AcceptPc)
  {
    pc.Register? || pc.Spawn? || pc.RefusePermit? || pc.UnspawnPermit?
  }

  predicate WorkerHolds(worker: Worker)
  {
    worker.phase.Serving? || worker.phase.Closing?
  }

  /** Permits are conserved. */
  ghost predicate PermitInv(s: State)
  {
    && s.permits.available + |s.permits.holders| + (if AcceptHolds(s.accept) then 1 else 0) == s.limit
    && (forall w :: w in s.permits.holders <==> w in s.workers.threads && WorkerHolds(s.workers.threads[w]))
  }

  predicate Drained(pc: StopPc)
  {
    !pc.NotStopped? && !pc.NotifyReady? && !pc.Drain?
  }

  /** A registration that has not been dropped: still in the table, or shut down by `stop`. */
  predicate Accounted(s: State, id: nat)
  {
    || id in s.table.sockets
    || id in s.table.shut
    || (s.stop.ShutDown? && id in s.stop.pending)
  }

  /** The registration the accept thread holds. */
  function AcceptOwned(pc: AcceptPc): Option<nat>
  {
    if pc.Spawn? || pc.UnspawnPermit? || pc.UnspawnSocket? then Some(pc.client) else None
  }

  predicate Holds(live: map<nat, Owner>, id: nat, owner: Owner)
  {
    id in live && live[id] == owner
  }

  predicate WorkerLinked(table: Table, w: nat, worker: Worker)
  {
    && (!worker.phase.Gone? ==> Holds(table.live, worker.client, OfWorker(w)))
    && (worker.upstream.Some? ==>
          && worker.phase.Serving? && worker.upstream.value != worker.client
          && Holds(table.live, worker.upstream.value, OfWorker(w)))
  }

  /** Every registration belongs to the thread that will drop it, and none is lost before it is
      dropped or its socket shut down. */
  ghost predicate TableInv(s: State)
  {
    && (Drained(s.stop) ==> s.table.sockets == {})
    && (forall id: nat :: id in s.table.live ==> id < s.table.next && Accounted(s, id))
    && (AcceptOwned(s.accept).Some? ==> Holds(s.table.live, AcceptOwned(s.accept).value, AcceptThread))
    && (forall w: nat :: w in s.workers.threads ==> WorkerLinked(s.table, w, s.workers.threads[w]))
  }

  /** Every spawned worker is finished, or its handle is where `stop` will find it. */
  ghost predicate HandleInv(s: State)
  {
    && (forall w :: w in s.workers.threads ==> w < s.workers.next)
    && (forall w :: w in s.workers.threads && !s.workers.threads[w].phase.Gone? ==>
          || w in s.workers.handles
          || s.accept == PushHandle(w)
          || (s.stop.JoinWorkers? && w in s.stop.left))
    && (forall w :: w in s.workers.handles ==> w in s.workers.threads)
    && (s.accept.PushHandle? ==> s.accept.worker in s.workers.threads)
    && (s.stop.JoinWorkers? ==> forall w :: w in s.stop.left ==> w in s.workers.threads)
  }

  predicate AcceptEnded(pc: StopPc)
  {
    pc.TakeWorkers? || pc.JoinWorkers? || pc.RemoveSecret? || pc.Stopped?
  }

  predicate LifeInv(s: State)
  {
    && (s.life.stopped <==> !s.stop.NotStopped?)
    && (s.life.stopped ==> (s.life.joining <==> !s.accept.NotStarted?))
    && (!s.life.stopped ==> (s.life.handle <==> !s.accept.NotStarted?))
    && (AcceptEnded(s.stop) ==> s.accept.NotStarted? || s.accept.Finished?)
    && (s.stop.RemoveSecret? || s.stop.Stopped? ==>
          s.workers.handles == {})
    && (s.stop.JoinWorkers? ==> s.workers.handles == {})
  }

  ghost predicate Inv(s: State)
  {
    PermitInv(s) && TableInv(s) && HandleInv(s) && LifeInv(s)
  }

  lemma {:induction false} InitialInv(s: State)
    requires Initial(s)
    ensures Inv(s)
  {
  }

  lemma {:induction false} AcceptKeepsLife(s: State, t: State)
    requires LifeInv(s) && AcceptStep(s, t)
    ensures LifeInv(t)
  {
  }

  lemma {:induction false} AcceptKeepsPermits(s: State, t: State)
    requires PermitInv(s) && HandleInv(s) && AcceptStep(s, t)
    ensures PermitInv(t)
  {
  }

  lemma {:induction false} AcceptKeepsHandles(s: State, t: State)
    requires HandleInv(s) && LifeInv(s) && AcceptStep(s, t)
    ensures HandleInv(t)
  {
  }

  lemma {:induction false} AcceptKeepsTable(s: State, t: State)
    requires TableInv(s) && HandleInv(s) && LifeInv(s) && AcceptStep(s, t)
    ensures TableInv(t)
  {
  }

  lemma {:induction false} StopKeepsInv(s: State, t: State)
    requires Inv(s) && StopStep(s, t)
    ensures Inv(t)
  {
  }

  lemma {:induction false} WorkerKeepsPermits(s: State, t: State, w: nat)
    requires PermitInv(s) && WorkerStep(s, t, w)
    ensures PermitInv(t)
  {
  }

  lemma {:induction false} WorkerKeepsTable(s: State, t: State, w: nat)
    requires TableInv(s) && LifeInv(s) && WorkerStep(s, t, w)
    ensures TableInv(t)
  {
  }

  lemma {:induction false} WorkerKeepsHandles(s: State, t: State, w: nat)
    requires HandleInv(s) && LifeInv(s) && WorkerStep(s, t, w)
    ensures HandleInv(t) && LifeInv(t)
  {
  }

  lemma {:induction false} NextKeepsInv(s: State, t: State)
    requires Inv(s) && Next(s, t)
    ensures Inv(t)
  {
    hide AcceptStep, StopStep, WorkerStep, PermitInv, TableInv, HandleInv, LifeInv;
    if AcceptStep(s, t) {
      AcceptKeepsLife(s, t);
      AcceptKeepsPermits(s, t);
      AcceptKeepsHandles(s, t);
      AcceptKeepsTable(s, t);
    } else if StopStep(s, t) {
      StopKeepsInv(s, t);
    } else {
      var w :| WorkerStep(s, t, w);
      WorkerKeepsPermits(s, t, w);
      WorkerKeepsTable(s, t, w);
      WorkerKeepsHandles(s, t, w);
    }
  }

  // ---- every interleaving ----

  ghost predicate Behaviour(b: seq<State>)
  {
    && b != [] && Initial(b[0])
    && forall i :: 0 <= i < |b| - 1 ==> Next(b[i], b[i + 1])
  }

  lemma {:induction false} ReachableInv(b: seq<State>, i: nat)
    requires Behaviour(b) && i < |b|
    ensures Inv(b[i])
    decreases i
  {
    hide Inv, Next, Initial;
    if i == 0 {
      InitialInv(b[0]);
    } else {
      ReachableInv(b, i - 1);
      assert Next(b[i - 1], b[i - 1 + 1]);
      NextKeepsInv(b[i - 1], b[i]);
    }
  }

  /** Available permits and held permits always make up the limit, so there are never more than that
      many workers with a connection. */
  lemma {:induction false} PermitsConserved(b: seq<State>, i: nat)
    requires Behaviour(b) && i < |b|
    ensures var s := b[i];
            && s.permits.available + |s.permits.holders| + (if AcceptHolds(s.accept) then 1 else 0) == s.limit
            && s.permits.holders == (set w | w in s.workers.threads && WorkerHolds(s.workers.threads[w]))
            && |s.permits.holders| <= s.limit
  {
    ReachableInv(b, i);
  }

  lemma {:induction false} DrainedStays(s: State, t: State)
    requires Next(s, t) && Drained(s.stop)
    ensures Drained(t.stop)
  {
  }

  /** Once `stop` has drained the socket table, it is empty in every later state. */
  lemma {:induction false} DrainedStaysEmpty(b: seq<State>, i: nat, j: nat)
    requires Behaviour(b) && i <= j < |b| && Drained(b[i].stop)
    ensures Drained(b[j].stop) && b[j].table.sockets == {}
    decreases j
  {
    hide Next, Initial, Drained;
    ReachableInv(b, j);
    if i < j {
      DrainedStaysEmpty(b, i, j - 1);
      assert Next(b[j - 1], b[j - 1 + 1]);
      DrainedStays(b[j - 1], b[j]);
    }
  }

  /** When the first `stop` returns, the accept thread and every worker ever spawned have ended, every
      permit is back and no socket is registered. */
  lemma {:induction false} StopIsComplete(b: seq<State>, i: nat)
    requires Behaviour(b) && i < |b| && b[i].stop.Stopped?
    ensures var s := b[i];
            && (s.accept.NotStarted? || s.accept.Finished?)
            && (forall w :: w in s.workers.threads ==> s.workers.threads[w].phase.Gone?)
            && s.permits.available == s.limit && s.permits.holders == {}
            && s.table.sockets == {}
  {
    ReachableInv(b, i);
    var s := b[i];
    assert forall w :: w in s.workers.threads ==> s.workers.threads[w].phase.Gone?;
    assert forall w :: w in s.workers.threads ==> !WorkerHolds(s.workers.threads[w]);
    assert s.permits.holders == {};
  }

  /** While `stop` waits for a thread, every socket that thread could still be blocked on has been
      shut down. */
  lemma {:induction false} JoinedSocketsAreShut(b: seq<State>, i: nat, w: nat)
    requires Behaviour(b) && i < |b|
    requires b[i].stop.JoinAccept? || b[i].stop.TakeWorkers? || b[i].stop.JoinWorkers?
    requires w in b[i].workers.threads && !b[i].workers.threads[w].phase.Gone?
    ensures var worker := b[i].workers.threads[w];
            && worker.client in b[i].table.shut
            && (worker.upstream.Some? ==> worker.upstream.value in b[i].table.shut)
  {
    ReachableInv(b, i);
    var s := b[i];
    assert WorkerLinked(s.table, w, s.workers.threads[w]);
    assert Accounted(s, s.workers.threads[w].client);
  }

  // ---- `stop` ends ----

  function PhaseRank(phase: Phase): nat
  {
    match phase
    case Serving => 3
    case Closing => 2
    case PermitBack => 1
    case Gone => 0
  }

  /** What all workers together still have to do. */
  ghost function WorkerRank(threads: map<nat, Worker>): nat
  {
    if threads == map[] then 0
    else
      var w :| w in threads;
      PhaseRank(threads[w].phase) + WorkerRank(threads - {w})
  }

  lemma {:induction false} WorkerRankSplit(threads: map<nat, Worker>, w: nat)
    requires w in threads
    ensures WorkerRank(threads) == PhaseRank(threads[w].phase) + WorkerRank(threads - {w})
    decreases |threads|
  {
    var x :| x in threads && WorkerRank(threads) == PhaseRank(threads[x].phase) + WorkerRank(threads - {x});
    if x != w {
      WorkerRankSplit(threads - {x}, w);
      WorkerRankSplit(threads - {w}, x);
      assert threads - {x} - {w} == threads - {w} - {x};
    }
  }

  lemma {:induction false} WorkerRankSet(threads: map<nat, Worker>, w: nat, worker: Worker)
    ensures WorkerRank(threads[w := worker]) ==
            WorkerRank(threads) + PhaseRank(worker.phase) - if w in threads then PhaseRank(threads[w].phase) else 0
  {
    var after := threads[w := worker];
    WorkerRankSplit(after, w);
    assert after - {w} == threads - {w};
    if w in threads {
      WorkerRankSplit(threads, w);
    } else {
      assert threads - {w} == threads;
    }
  }

  /** Steps left to the accept thread of a stopped broker, a last spawned worker included. */
  function AcceptRank(pc: AcceptPc): nat
  {
    match pc
    case NotStarted => 0
    case CheckStopped => 2
    case Reap => 5
    case AcceptClient => 4
    case Acquire => 3
    case Register => 4
    case Spawn(_) => 8
    case PushHandle(_) => 4
    case RefusePermit => 3
    case UnspawnPermit(_) => 4
    case UnspawnSocket(_) => 3
    case LastReap => 1
    case Finished => 0
  }

  function StopRank(pc: StopPc, sockets: set<nat>, handles: set<nat>): nat
  {
    match pc
    case NotStopped => 0
    case NotifyReady => |sockets| + |handles| + 7
    case Drain => |sockets| + |handles| + 6
    case ShutDown(pending) => |pending| + |handles| + 5
    case JoinAccept => |handles| + 4
    case TakeWorkers => |handles| + 3
    case JoinWorkers(left) => |left| + 2
    case RemoveSecret => 1
    case Stopped => 0
  }

  /** Bounds the steps any thread of a stopped broker can still take. */
  ghost function Rank(s: State): nat
  {
    AcceptRank(s.accept) + WorkerRank(s.workers.threads) + StopRank(s.stop, s.table.sockets, s.workers.handles)
  }

  lemma {:induction false} Subset(a: set<nat>, b: set<nat>)
    requires a <= b
    ensures |a| <= |b|
  {
    if a != {} {
      var x :| x in a;
      Subset(a - {x}, b - {x});
    }
  }

  lemma {:induction false} StopRankShrinks(pc: StopPc, sockets: set<nat>, handles: set<nat>,
                                           fewer: set<nat>, left: set<nat>)
    requires fewer <= sockets && left <= handles
    ensures StopRank(pc, fewer, left) <= StopRank(pc, sockets, handles)
  {
    Subset(fewer, sockets);
    Subset(left, handles);
  }

  lemma {:induction false} StopRankGrows(pc: StopPc, sockets: set<nat>, handles: set<nat>, w: nat)
    ensures StopRank(pc, sockets, handles + {w}) <= StopRank(pc, sockets, handles) + 1
  {
    if w in handles {
      assert handles + {w} == handles;
    }
  }

  lemma {:induction false} AcceptRanks(s: State, t: State)
    requires HandleInv(s) && LifeInv(s) && s.life.stopped && AcceptStep(s, t)
    ensures t.life.stopped && Rank(t) < Rank(s)
  {
    hide HandleInv, WorkerRank, StopRank;
    if s.accept.Spawn? {
      WorkerRankSet(s.workers.threads, s.workers.next, Worker(Serving, s.accept.client, None));
    } else if s.accept.PushHandle? {
      StopRankGrows(s.stop, s.table.sockets, s.workers.handles, s.accept.worker);
    } else {
      StopRankShrinks(s.stop, s.table.sockets, s.workers.handles, t.table.sockets, t.workers.handles);
    }
  }

  lemma {:induction false} WorkerRanks(s: State, t: State, w: nat)
    requires s.life.stopped && WorkerStep(s, t, w)
    ensures t.life.stopped && Rank(t) < Rank(s)
  {
    hide WorkerRank, StopRank;
    WorkerRankSet(s.workers.threads, w, t.workers.threads[w]);
    StopRankShrinks(s.stop, s.table.sockets, s.workers.handles, t.table.sockets, t.workers.handles);
  }

  lemma {:induction false} StopRanks(s: State, t: State)
    requires s.life.stopped && !s.stop.NotStopped? && StopStep(s, t)
    ensures t.life.stopped && Rank(t) < Rank(s)
  {
    hide WorkerRank, Ended;
    if s.stop.ShutDown? && s.stop.pending != {} {
      var x :| x in s.stop.pending && t.stop == ShutDown(s.stop.pending - {x});
      assert t.workers == s.workers;
    } else if s.stop.JoinWorkers? && s.stop.left != {} {
      var w :| w in s.stop.left && t.stop == JoinWorkers(s.stop.left - {w});
    }
  }

  lemma {:induction false} StoppedFacts(s: State)
    requires Inv(s) && s.life.stopped
    ensures HandleInv(s) && LifeInv(s) && TableInv(s) && !s.stop.NotStopped?
    ensures s.stop.JoinAccept? && s.life.joining ==> !s.accept.NotStarted?
  {
    hide HandleInv, TableInv, PermitInv;
  }

  lemma {:induction false} NextRanks(s: State, t: State)
    requires Inv(s) && s.life.stopped && Next(s, t)
    ensures t.life.stopped && Rank(t) < Rank(s)
  {
    hide Inv, AcceptStep, StopStep, WorkerStep, Rank;
    StoppedFacts(s);
    if AcceptStep(s, t) {
      AcceptRanks(s, t);
    } else if StopStep(s, t) {
      StopRanks(s, t);
    } else {
      var w :| WorkerStep(s, t, w);
      WorkerRanks(s, t, w);
    }
  }

  /** However busy the clients are, a stopped broker takes at most `Rank` more steps. */
  lemma {:induction false} StopIsBounded(b: seq<State>, i: nat, j: nat)
    requires Behaviour(b) && i <= j < |b| && b[i].life.stopped
    ensures b[j].life.stopped && Rank(b[j]) + (j - i) <= Rank(b[i])
    decreases j
  {
    hide Next, Initial, Inv, Rank;
    if i < j {
      StopIsBounded(b, i, j - 1);
      ReachableInv(b, j - 1);
      assert Next(b[j - 1], b[j - 1 + 1]);
      NextRanks(b[j - 1], b[j]);
    }
  }

  /** A worker whose blocking calls return whatever its peers do: every socket it holds is shut down. */
  predicate Woken(s: State, worker: Worker)
  {
    worker.client in s.table.shut && (worker.upstream.Some? ==> worker.upstream.value in s.table.shut)
  }

  /** Steps that need nobody outside the broker: no client connects, no peer sends or hangs up, and a serving
      worker goes on only when its sockets have been shut down under it. */
  ghost predicate QuietStep(s: State, t: State)
  {
    || StopStep(s, t)
    || (AcceptStep(s, t) && (s.accept.AcceptClient? ==> t.accept.CheckStopped?))
    || exists w :: WorkerStep(s, t, w) && (s.workers.threads[w].phase.Serving? ==> Woken(s, s.workers.threads[w]))
  }

  ghost predicate CanGoOn(s: State)
  {
    exists t :: QuietStep(s, t)
  }

  /** No wait of `stop` depends on a client: until it has returned, some quiet step is possible. */
  lemma {:induction false} StopNeverWaitsForClients(s: State)
    requires Inv(s) && s.life.stopped && !s.stop.Stopped?
    ensures CanGoOn(s)
  {
    hide AcceptStep, WorkerStep, StopStep, TableInv, PermitInv, HandleInv, LifeInv, Woken;
    StoppedFacts(s);
    if s.stop.JoinAccept? && s.life.joining && !s.accept.Finished? {
      var t := AcceptMoves(s);
      assert QuietStep(s, t);
    } else if s.stop.JoinWorkers? && s.stop.left * Ended(s.workers) == {} && s.stop.left != {} {
      var w :| w in s.stop.left;
      assert w !in s.stop.left * Ended(s.workers);
      LeftIsAwake(s, w);
      var t := WorkerMoves(s, w);
      assert QuietStep(s, t);
    } else {
      var t := StopMoves(s);
      assert QuietStep(s, t);
    }
  }

  lemma {:induction false} LeftIsAwake(s: State, w: nat)
    requires HandleInv(s) && TableInv(s) && s.stop.JoinWorkers? && w in s.stop.left && w !in Ended(s.workers)
    ensures w in s.workers.threads && !s.workers.threads[w].phase.Gone? && Woken(s, s.workers.threads[w])
  {
    assert WorkerLinked(s.table, w, s.workers.threads[w]);
    assert Accounted(s, s.workers.threads[w].client);
  }

  /** Every run of a stopped broker that nobody outside helps, carried on for as long as it can be, ends with `stop`
      having returned. */
  lemma {:induction false} StopReturns(b: seq<State>)
    requires Behaviour(b) && b[|b| - 1].life.stopped && !CanGoOn(b[|b| - 1])
    ensures b[|b| - 1].stop.Stopped?
  {
    hide CanGoOn, Inv, Next, Initial;
    ReachableInv(b, |b| - 1);
    if !b[|b| - 1].stop.Stopped? {
      StopNeverWaitsForClients(b[|b| - 1]);
    }
  }

  lemma {:induction false} StopMoves(s: State) returns (t: State)
    requires s.life.stopped && !s.stop.NotStopped? && !s.stop.Stopped?
    requires s.stop.JoinAccept? ==> !s.life.joining || s.accept.Finished?
    requires s.stop.JoinWorkers? ==> s.stop.left == {} || s.stop.left * Ended(s.workers) != {}
    ensures StopStep(s, t)
  {
    if s.stop.NotifyReady? {
      t := s.(stop := Drain);
    } else if s.stop.Drain? {
      t := s.(table := s.table.(sockets := {}), stop := ShutDown(s.table.sockets));
    } else if s.stop.ShutDown? {
      if s.stop.pending == {} {
        t := s.(stop := JoinAccept);
      } else {
        var x :| x in s.stop.pending;
        t := s.(table := s.table.(shut := s.table.shut + {x}), stop := ShutDown(s.stop.pending - {x}));
      }
    } else if s.stop.JoinAccept? {
      t := s.(stop := TakeWorkers);
    } else if s.stop.TakeWorkers? {
      t := s.(workers := s.workers.(handles := {}), stop := JoinWorkers(s.workers.handles));
    } else if s.stop.JoinWorkers? && s.stop.left != {} {
      var w :| w in s.stop.left * Ended(s.workers);
      t := s.(stop := JoinWorkers(s.stop.left - {w}));
    } else if s.stop.JoinWorkers? {
      t := s.(stop := RemoveSecret);
    } else {
      t := s.(stop := Stopped);
    }
  }

  lemma {:induction false} AcceptMoves(s: State) returns (t: State)
    requires !s.accept.NotStarted? && !s.accept.Finished?
    ensures AcceptStep(s, t) && (s.accept.AcceptClient? ==> t.accept.CheckStopped?)
  {
    var pc := s.accept;
    var back := s.permits.(available := s.permits.available + 1);
    var reaped := s.workers.(handles := s.workers.handles - Ended(s.workers));
    t :=
      match pc
      case CheckStopped => s.(accept := if s.life.stopped then LastReap else Reap)
      case Reap => s.(workers := reaped, accept := AcceptClient)
      case AcceptClient => s.(accept := CheckStopped)
      case Acquire =>
        if s.permits.available == 0 || s.life.stopped then s.(accept := CheckStopped)
        else s.(permits := s.permits.(available := s.permits.available - 1), accept := Register)
      case Register => s.(accept := RefusePermit)
      case RefusePermit => s.(permits := back, accept := CheckStopped)
      case Spawn(client) => s.(accept := UnspawnPermit(client))
      case PushHandle(worker) =>
        s.(workers := s.workers.(handles := s.workers.handles + {worker}), accept := CheckStopped)
      case UnspawnPermit(client) => s.(permits := back, accept := UnspawnSocket(client))
      case UnspawnSocket(client) => s.(table := Remove(s.table, client), accept := CheckStopped)
      case LastReap => s.(workers := reaped, accept := Finished)
      case _ => s;
  }

  lemma {:induction false} WorkerMoves(s: State, w: nat) returns (t: State)
    requires w in s.workers.threads && !s.workers.threads[w].phase.Gone?
    ensures WorkerStep(s, t, w)
  {
    var worker := s.workers.threads[w];
    t :=
      match worker.phase
      case Serving =>
        if worker.upstream.None? then s.(workers := Moved(s.workers, w, worker.(phase := Closing)))
        else s.(table := Remove(s.table, worker.upstream.value),
                workers := Moved(s.workers, w, worker.(upstream := None, phase := Closing)))
      case Closing =>
        s.(permits := Permits(s.permits.available + 1, s.permits.holders - {w}),
           workers := Moved(s.workers, w, worker.(phase := PermitBack)))
      case PermitBack =>
        s.(table := Remove(s.table, worker.client), workers := Moved(s.workers, w, worker.(phase := Gone)))
      case Gone => s;
  }
}
