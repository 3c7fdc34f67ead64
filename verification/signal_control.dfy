/**
 The run path against the SIGTERM thread: one gate, one flag and take-once cleanup slots.

 Each step below is one lock operation, one atomic access, one slot access or one engine call, so a
 behaviour is any interleaving of the two threads. What the engine answers is free.
 */
module SignalControl {
  import opened HttpText

  datatype Thread = RunPath | SignalThread

  /** `ProxyCleanup`: the shared `done` flag, and how often its action was begun and ended. */
  datatype Cleanup = Cleanup(done: bool, begun: nat, ended: nat)

  /** Where the run path goes once it has released the gate. */
  datatype Section = ToProxy | ToReady | ToAttach | ToWait | ToFinish | ToDrop

  datatype RunPc =
    | BrokerLock | BrokerCheck | StartBroker | InstallBroker
    | ProxyLock | ProxyCheck | StartProxy | InstallProxy | InspectProxy
    | BrokerReady
    | CreateLock | CreateCheck | CreateAgent | InstallAgent | CreateRecheck
    | AttachLock | AttachCheck | SpawnClient | InstallClient
    | WaitAgent
    | FinishLock | DisarmClient | ReapClient | FinishAgent
    | TakeAgent | RunAgent(last: bool) | EndAgent(last: bool)
    | ReleaseGate(next: Section)
    | DropGuard(gated: bool) | EndProxy(gated: bool) | DropPolicy | Returned

  datatype SignalPc =
    | Idle | StoreFlag | LockGate
    | SigTakeClient | SigKillClient | SigTakeAgent | SigRunAgent | SigEndAgent
    | SigTakeProxy | SigRunProxy | SigEndProxy | SigTakeBroker | SigStopBroker | SigRetire
    | SigRelease | SigExit | Exited

  datatype Lock = Lock(holder: Option<Thread>, terminating: bool, torndown: bool)

  /** The attached engine client and the slot of its cleanup. */
  datatype Client = Client(slot: bool, child: bool, attached: bool)

  datatype Agent = Agent(created: bool, slot: bool, cleanup: Cleanup)

  /** `guarded`: the run path still owns the proxy's guard. */
  datatype Proxy = Proxy(created: bool, slot: bool, guarded: bool, cleanup: Cleanup)

  datatype State = State(
    run: RunPc,
    signal: SignalPc,
    lock: Lock,
    client: Client,
    agent: Agent,
    proxy: Proxy,
    brokerSlot: bool,
    retired: nat)

  function Fresh(): Cleanup
  {
    Cleanup(false, 0, 0)
  }

  /** `done.swap(true)`: only the first caller begins the action. */
  function Begin(c: Cleanup): Cleanup
  {
    if c.done then c else Cleanup(true, c.begun + 1, c.ended)
  }

  function End(c: Cleanup): Cleanup
  {
    c.(ended := c.ended + 1)
  }

  predicate Initial(s: State)
  {
    s == State(BrokerLock, Idle, Lock(None, false, false), Client(false, false, false), Agent(false, false, Fresh()),
               Proxy(false, false, false, Fresh()), false, 0)
  }

  // ---- the run path ----

  function AfterRelease(next: Section): RunPc
  {
    match next
    case ToProxy => ProxyLock
    case ToReady => BrokerReady
    case ToAttach => AttachLock
    case ToWait => WaitAgent
    case ToFinish => FinishLock
    case ToDrop => DropGuard(false)
  }

  /** The first two gated sections of `start_container`. */
  predicate BrokerStep(s: State, t: State)
  {
    match s.run
    case BrokerLock => s.lock.holder.None? && t == s.(lock := s.lock.(holder := Some(RunPath)), run := BrokerCheck)
    case BrokerCheck => t == s.(run := if s.lock.terminating then ReleaseGate(ToDrop) else StartBroker)
    case StartBroker => t == s.(run := ReleaseGate(ToDrop)) || t == s.(run := InstallBroker)
    case InstallBroker => t == s.(brokerSlot := true, run := ReleaseGate(ToProxy))
    // Ready or not, the broker handle is dropped here, which stops the broker outside the gate.
    case BrokerReady => t == s.(run := DropGuard(false)) || t == s.(run := CreateLock)
    case _ => false
  }

  predicate ProxyStep(s: State, t: State)
  {
    match s.run
    case ProxyLock => s.lock.holder.None? && t == s.(lock := s.lock.(holder := Some(RunPath)), run := ProxyCheck)
    case ProxyCheck => t == s.(run := if s.lock.terminating then ReleaseGate(ToDrop) else StartProxy)
    case StartProxy =>
      || t == s.(run := ReleaseGate(ToDrop))
      || t == s.(proxy := s.proxy.(created := true, guarded := true), run := InstallProxy)
    case InstallProxy => t == s.(proxy := s.proxy.(slot := true), run := InspectProxy)
    case InspectProxy => t == s.(run := DropGuard(true)) || t == s.(run := ReleaseGate(ToReady))
    case _ => false
  }

  /** `create_agent_with`. */
  predicate CreateStep(s: State, t: State)
  {
    match s.run
    case CreateLock => s.lock.holder.None? && t == s.(lock := s.lock.(holder := Some(RunPath)), run := CreateCheck)
    case CreateCheck => t == s.(run := if s.lock.terminating then ReleaseGate(ToFinish) else CreateAgent)
    case CreateAgent =>
      || t == s.(run := ReleaseGate(ToFinish))
      || t == s.(agent := s.agent.(created := true), run := InstallAgent)
    case InstallAgent => t == s.(agent := s.agent.(slot := true), run := CreateRecheck)
    case CreateRecheck => t == s.(run := if s.lock.terminating then TakeAgent else ReleaseGate(ToAttach))
    case _ => false
  }

  /** `begin_agent_attach`, and the wait for the client to exit or to be taken away. */
  predicate AttachStep(s: State, t: State)
  {
    match s.run
    case AttachLock => s.lock.holder.None? && t == s.(lock := s.lock.(holder := Some(RunPath)), run := AttachCheck)
    case AttachCheck => t == s.(run := if s.lock.terminating then TakeAgent else SpawnClient)
    case SpawnClient =>
      || t == s.(run := TakeAgent)
      || t == s.(client := s.client.(child := true, attached := true), run := InstallClient)
    case InstallClient => t == s.(client := s.client.(slot := true), run := ReleaseGate(ToWait))
    case WaitAgent => t == s.(run := FinishLock)
    case _ => false
  }

  /** `finish_agent_lifecycle`. */
  predicate FinishStep(s: State, t: State)
  {
    match s.run
    case FinishLock => s.lock.holder.None? && t == s.(lock := s.lock.(holder := Some(RunPath)), run := DisarmClient)
    case DisarmClient => t == s.(client := s.client.(slot := false), run := ReapClient)
    case ReapClient => t == s.(client := s.client.(child := false), run := FinishAgent)
    case FinishAgent =>
      t == if s.agent.slot then s.(agent := s.agent.(slot := false), run := RunAgent(true))
           else s.(run := ReleaseGate(ToDrop))
    case _ => false
  }

  function AfterAgent(last: bool): RunPc
  {
    ReleaseGate(if last then ToDrop else ToFinish)
  }

  /** Taking the agent's cleanup after a failed launch, running it, and giving the gate back. */
  predicate CleanupStep(s: State, t: State)
  {
    match s.run
    case TakeAgent =>
      t == if s.agent.slot then s.(agent := s.agent.(slot := false), run := RunAgent(false))
           else s.(run := ReleaseGate(ToFinish))
    case RunAgent(last) =>
      t == s.(agent := s.agent.(cleanup := Begin(s.agent.cleanup)),
              run := if s.agent.cleanup.done then AfterAgent(last) else EndAgent(last))
    case EndAgent(last) => t == s.(agent := s.agent.(cleanup := End(s.agent.cleanup)), run := AfterAgent(last))
    case ReleaseGate(next) => t == s.(lock := s.lock.(holder := None), run := AfterRelease(next))
    case _ => false
  }

  /** The drops at the end. The guard's drop takes no lock; it is gated only inside proxy startup. */
  predicate DropStep(s: State, t: State)
  {
    match s.run
    case DropGuard(gated) =>
      t == s.(proxy := s.proxy.(guarded := false,
                                cleanup := if s.proxy.guarded then Begin(s.proxy.cleanup) else s.proxy.cleanup),
              run := if s.proxy.guarded && !s.proxy.cleanup.done then EndProxy(gated) else AfterGuard(gated))
    case EndProxy(gated) => t == s.(proxy := s.proxy.(cleanup := End(s.proxy.cleanup)), run := AfterGuard(gated))
    case DropPolicy => t == s.(retired := s.retired + 1, run := Returned)
    case _ => false
  }

  function AfterGuard(gated: bool): RunPc
  {
    if gated then ReleaseGate(ToDrop) else DropPolicy
  }

  // ---- the signal thread ----

  predicate GateStep(s: State, t: State)
  {
    match s.signal
    case Idle => t == s.(signal := StoreFlag)
    case StoreFlag => t == s.(lock := s.lock.(terminating := true), signal := LockGate)
    case LockGate => s.lock.holder.None? &&
      t == s.(lock := s.lock.(holder := Some(SignalThread)), signal := SigTakeClient)
    case SigRelease => t == s.(lock := s.lock.(holder := None, torndown := true), signal := SigExit)
    case SigExit => t == s.(signal := Exited)
    case _ => false
  }

  predicate AgentTeardownStep(s: State, t: State)
  {
    match s.signal
    case SigTakeClient =>
      t == if s.client.slot then s.(client := s.client.(slot := false), signal := SigKillClient)
           else s.(signal := SigTakeAgent)
    case SigKillClient => t == s.(client := s.client.(child := false), signal := SigTakeAgent)
    case SigTakeAgent =>
      t == if s.agent.slot then s.(agent := s.agent.(slot := false), signal := SigRunAgent)
           else s.(signal := SigTakeProxy)
    case SigRunAgent =>
      t == s.(agent := s.agent.(cleanup := Begin(s.agent.cleanup)),
              signal := if s.agent.cleanup.done then SigTakeProxy else SigEndAgent)
    case SigEndAgent => t == s.(agent := s.agent.(cleanup := End(s.agent.cleanup)), signal := SigTakeProxy)
    case _ => false
  }

  predicate ProxyTeardownStep(s: State, t: State)
  {
    match s.signal
    case SigTakeProxy =>
      t == if s.proxy.slot then s.(proxy := s.proxy.(slot := false), signal := SigRunProxy)
           else s.(signal := SigTakeBroker)
    case SigRunProxy =>
      t == s.(proxy := s.proxy.(cleanup := Begin(s.proxy.cleanup)),
              signal := if s.proxy.cleanup.done then SigTakeBroker else SigEndProxy)
    case SigEndProxy => t == s.(proxy := s.proxy.(cleanup := End(s.proxy.cleanup)), signal := SigTakeBroker)
    case SigTakeBroker =>
      t == if s.brokerSlot then s.(brokerSlot := false, signal := SigStopBroker) else s.(signal := SigRetire)
    case SigStopBroker => t == s.(signal := SigRetire)
    case SigRetire => t == s.(retired := s.retired + 1, signal := SigRelease)
    case _ => false
  }

  predicate RunStep(s: State, t: State)
  {
    || BrokerStep(s, t) || ProxyStep(s, t) || CreateStep(s, t) || AttachStep(s, t) || FinishStep(s, t)
    || CleanupStep(s, t) || DropStep(s, t)
  }

  predicate SignalStep(s: State, t: State)
  {
    GateStep(s, t) || AgentTeardownStep(s, t) || ProxyTeardownStep(s, t)
  }

  /** One step of either thread, until the process has exited or the run path has returned. */
  predicate Next(s: State, t: State)
  {
    !s.signal.Exited? && !s.run.Returned? && (RunStep(s, t) || SignalStep(s, t))
  }

  // ---- the invariant ----

  predicate InGate(pc: RunPc)
  {
    || pc.BrokerCheck? || pc.StartBroker? || pc.InstallBroker?
    || pc.ProxyCheck? || pc.StartProxy? || pc.InstallProxy? || pc.InspectProxy?
    || pc.CreateCheck? || pc.CreateAgent? || pc.InstallAgent? || pc.CreateRecheck?
    || pc.AttachCheck? || pc.SpawnClient? || pc.InstallClient?
    || pc.DisarmClient? || pc.ReapClient? || pc.FinishAgent?
    || pc.TakeAgent? || pc.RunAgent? || pc.EndAgent? || pc.ReleaseGate?
    || (pc.DropGuard? && pc.gated) || (pc.EndProxy? && pc.gated)
  }

  predicate InTeardown(pc: SignalPc)
  {
    !pc.Idle? && !pc.StoreFlag? && !pc.LockGate? && !pc.SigExit? && !pc.Exited?
  }

  /** The agent's part of the teardown is behind the signal thread. */
  predicate PastAgent(pc: SignalPc)
  {
    || pc.SigTakeProxy? || pc.SigRunProxy? || pc.SigEndProxy? || pc.SigTakeBroker?
    || pc.SigStopBroker? || pc.SigRetire? || pc.SigRelease? || pc.SigExit? || pc.Exited?
  }

  /** The run path has not yet created the agent. */
  predicate BeforeAgent(pc: RunPc)
  {
    || pc.BrokerLock? || pc.BrokerCheck? || pc.StartBroker? || pc.InstallBroker?
    || pc.ProxyLock? || pc.ProxyCheck? || pc.StartProxy? || pc.InstallProxy? || pc.InspectProxy?
    || pc.BrokerReady? || pc.CreateLock? || pc.CreateCheck? || pc.CreateAgent?
    || (pc.ReleaseGate? && (pc.next.ToProxy? || pc.next.ToReady?))
  }

  /** The run path is done with the agent. */
  predicate Leaving(pc: RunPc)
  {
    || pc.DropGuard? || pc.EndProxy? || pc.DropPolicy? || pc.Returned?
    || (pc.ReleaseGate? && pc.next.ToDrop?)
  }

  /** Between creating the agent and giving it up. */
  predicate Holding(pc: RunPc)
  {
    || pc.InstallAgent? || pc.CreateRecheck? || pc.AttachLock? || pc.AttachCheck?
    || pc.SpawnClient? || pc.InstallClient? || pc.WaitAgent? || pc.TakeAgent?
    || (pc.ReleaseGate? && (pc.next.ToAttach? || pc.next.ToWait?))
  }

  predicate Launching(pc: RunPc)
  {
    || pc.CreateAgent? || pc.InstallAgent? || pc.CreateRecheck?
    || pc.SpawnClient? || pc.InstallClient?
  }

  predicate Once(c: Cleanup)
  {
    c.begun <= 1 && c.ended <= c.begun && (c.done <==> c.begun == 1)
  }

  predicate AgentGone(s: State)
  {
    s.agent.created ==> s.agent.cleanup.ended == 1
  }

  predicate GateInv(s: State)
  {
    && (s.lock.holder == Some(RunPath) <==> InGate(s.run))
    && (s.lock.holder == Some(SignalThread) <==> InTeardown(s.signal))
    && (s.lock.terminating <==> !s.signal.Idle? && !s.signal.StoreFlag?)
    && (s.lock.torndown <==> s.signal.SigExit? || s.signal.Exited?)
  }

  /** Exactly one party is responsible for a created agent until its cleanup has begun. */
  predicate AgentInv(s: State)
  {
    && Once(s.agent.cleanup)
    && (s.agent.cleanup.begun == 1 && s.agent.cleanup.ended == 0 <==> s.run.EndAgent? || s.signal.SigEndAgent?)
    && (s.agent.cleanup.done || s.agent.slot || s.run.RunAgent? || s.signal.SigRunAgent? ==> s.agent.created)
    && (BeforeAgent(s.run) ==> !s.agent.created)
    && (Holding(s.run) ==> s.agent.created)
    && (s.agent.created && !s.agent.cleanup.done ==>
          s.agent.slot || s.run.InstallAgent? || s.run.RunAgent? || s.signal.SigRunAgent?)
    && (s.agent.slot || s.run.InstallAgent? || s.run.RunAgent? || s.signal.SigRunAgent? ==> !s.agent.cleanup.done)
    && (s.agent.slot ==> !s.run.InstallAgent? && !s.run.RunAgent? && !s.signal.SigRunAgent?)
    && (Leaving(s.run) ==> AgentGone(s))
    && (PastAgent(s.signal) ==> AgentGone(s) && !Launching(s.run))
  }

  predicate ProxyInv(s: State)
  {
    && Once(s.proxy.cleanup)
    && (s.proxy.cleanup.begun == 1 && s.proxy.cleanup.ended == 0 <==> s.run.EndProxy? || s.signal.SigEndProxy?)
    && !(s.run.EndProxy? && s.signal.SigEndProxy?)
    && (s.proxy.cleanup.done || s.proxy.slot || s.proxy.guarded || s.signal.SigRunProxy? ==> s.proxy.created)
    && (s.run.InstallProxy? || s.run.InspectProxy? ==> s.proxy.created && s.proxy.guarded)
    && (s.proxy.created && !s.proxy.cleanup.done ==>
          s.proxy.guarded && (s.proxy.slot || s.run.InstallProxy? || s.signal.SigRunProxy?))
    && (s.proxy.cleanup.begun > 0 ==>
          (Leaving(s.run) && !s.proxy.guarded) || (PastAgent(s.signal) && !s.signal.SigTakeProxy?))
    && (PastProxy(s.signal) && s.proxy.created ==> s.proxy.cleanup.done)
    && (PastProxy(s.signal) ==> !s.run.StartProxy? && !s.run.InstallProxy?)
    && (s.run.DropPolicy? || s.run.Returned? ==> !s.proxy.guarded)
    && (s.run.EndProxy? ==> !s.proxy.guarded)
  }

  predicate PastProxy(pc: SignalPc)
  {
    || pc.SigTakeBroker? || pc.SigStopBroker? || pc.SigRetire? || pc.SigRelease? || pc.SigExit? || pc.Exited?
    || pc.SigEndProxy?
  }

  predicate ClientInv(s: State)
  {
    && (s.client.child ==> s.client.slot || s.run.InstallClient? || s.run.ReapClient? || s.signal.SigKillClient?)
    && (s.lock.torndown ==> !s.client.child && !s.client.slot)
    && (PastClient(s.signal) ==> !s.client.child && !s.client.slot)
    && (s.signal.SigKillClient? ==> !s.client.slot)
    && (s.client.attached ==> s.agent.created)
    && (s.retired > 0 ==> Leaving(s.run) || PastAgent(s.signal))
  }

  predicate PastClient(pc: SignalPc)
  {
    pc.SigTakeAgent? || pc.SigRunAgent? || pc.SigEndAgent? || PastAgent(pc)
  }

  predicate Inv(s: State)
  {
    GateInv(s) && AgentInv(s) && ProxyInv(s) && ClientInv(s)
  }

  /** Creating and attaching the agent happen inside the gate. */
  lemma {:induction false} RunOrder(pc: RunPc)
    ensures Launching(pc) ==> InGate(pc)
    ensures BeforeAgent(pc) ==> !Holding(pc) && !Leaving(pc)
    ensures Leaving(pc) ==> !Launching(pc) && !Holding(pc)
    ensures InGate(pc) || !(pc.InstallAgent? || pc.RunAgent? || pc.EndAgent? || pc.InstallProxy? || pc.StartProxy? ||
                            pc.InstallClient? || pc.ReapClient?)
    ensures pc.EndProxy? ==> Leaving(pc)
  {
  }

  lemma {:induction false} SignalOrder(pc: SignalPc)
    ensures (PastAgent(pc) ==> PastClient(pc)) && (pc.SigExit? || pc.Exited? ==> PastAgent(pc))
    ensures PastProxy(pc) ==> PastAgent(pc)
    ensures PastClient(pc) ==> !pc.Idle? && !pc.StoreFlag? && !pc.LockGate?
    ensures PastClient(pc) || InTeardown(pc) ==> !pc.Idle? && !pc.StoreFlag?
    ensures PastClient(pc) ==> InTeardown(pc) || PastAgent(pc)
    ensures pc.SigRunAgent? || pc.SigEndAgent? || pc.SigKillClient? || pc.SigRunProxy? || pc.SigEndProxy? ==>
            InTeardown(pc)
  {
  }

  lemma {:induction false} InitialInv(s: State)
    requires Initial(s)
    ensures Inv(s)
  {
  }

  lemma {:induction false} BrokerKeepsInv(s: State, t: State)
    requires Inv(s) && BrokerStep(s, t)
    ensures Inv(t)
  {
    hide InTeardown, PastAgent, PastProxy, PastClient;
    SignalOrder(s.signal);
    if s.run.BrokerLock? {
      assert Inv(t);
    } else if s.run.BrokerCheck? {
      assert Inv(t);
    } else if s.run.StartBroker? {
      assert Inv(t);
    } else if s.run.InstallBroker? {
      assert Inv(t);
    } else {
      assert Inv(t);
    }
  }

  lemma {:induction false} ProxyKeepsInv(s: State, t: State)
    requires Inv(s) && ProxyStep(s, t)
    ensures Inv(t)
  {
    hide InTeardown, PastAgent, PastProxy, PastClient;
    SignalOrder(s.signal);
    if s.run.ProxyLock? {
      assert Inv(t);
    } else if s.run.ProxyCheck? {
      assert Inv(t);
    } else if s.run.StartProxy? {
      assert Inv(t);
    } else if s.run.InstallProxy? {
      assert Inv(t);
    } else {
      assert Inv(t);
    }
  }

  lemma {:induction false} CreateKeepsInv(s: State, t: State)
    requires Inv(s) && CreateStep(s, t)
    ensures Inv(t)
  {
    hide InTeardown, PastAgent, PastProxy, PastClient;
    SignalOrder(s.signal);
    if s.run.CreateLock? {
      assert Inv(t);
    } else if s.run.CreateCheck? {
      assert Inv(t);
    } else if s.run.CreateAgent? {
      assert Inv(t);
    } else if s.run.InstallAgent? {
      assert Inv(t);
    } else {
      assert Inv(t);
    }
  }

  lemma {:induction false} AttachKeepsInv(s: State, t: State)
    requires Inv(s) && AttachStep(s, t)
    ensures Inv(t)
  {
    hide InTeardown, PastAgent, PastProxy, PastClient;
    SignalOrder(s.signal);
    if s.run.AttachLock? {
      assert Inv(t);
    } else if s.run.AttachCheck? {
      assert Inv(t);
    } else if s.run.SpawnClient? {
      assert Inv(t);
    } else if s.run.InstallClient? {
      assert Inv(t);
    } else {
      assert Inv(t);
    }
  }

  lemma {:induction false} FinishKeepsInv(s: State, t: State)
    requires Inv(s) && FinishStep(s, t)
    ensures Inv(t)
  {
    hide InTeardown, PastAgent, PastProxy, PastClient;
    SignalOrder(s.signal);
    if s.run.FinishLock? {
      assert Inv(t);
    } else if s.run.DisarmClient? {
      assert Inv(t);
    } else if s.run.ReapClient? {
      assert Inv(t);
    } else {
      assert Inv(t);
    }
  }

  lemma {:induction false} CleanupKeepsInv(s: State, t: State)
    requires Inv(s) && CleanupStep(s, t)
    ensures Inv(t)
  {
    hide InTeardown, PastAgent, PastProxy, PastClient;
    SignalOrder(s.signal);
    if s.run.TakeAgent? {
      assert Inv(t);
    } else if s.run.RunAgent? {
      assert Inv(t);
    } else if s.run.EndAgent? {
      assert Inv(t);
    } else {
      assert Inv(t);
    }
  }

  lemma {:induction false} DropKeepsInv(s: State, t: State)
    requires Inv(s) && DropStep(s, t)
    ensures Inv(t)
  {
    hide InTeardown, PastAgent, PastProxy, PastClient;
    SignalOrder(s.signal);
    if s.run.DropGuard? {
      assert Inv(t);
    } else if s.run.EndProxy? {
      assert Inv(t);
    } else {
      assert Inv(t);
    }
  }

  lemma {:induction false} GateKeepsInv(s: State, t: State)
    requires Inv(s) && GateStep(s, t)
    ensures Inv(t)
  {
    hide InGate, BeforeAgent, Holding, Leaving, Launching;
    RunOrder(s.run);
    if s.signal.Idle? {
      assert Inv(t);
    } else if s.signal.StoreFlag? {
      assert Inv(t);
    } else if s.signal.LockGate? {
      assert Inv(t);
    } else if s.signal.SigRelease? {
      assert Inv(t);
    } else {
      assert Inv(t);
    }
  }

  lemma {:induction false} AgentTeardownKeepsInv(s: State, t: State)
    requires Inv(s) && AgentTeardownStep(s, t)
    ensures Inv(t)
  {
    hide InGate, BeforeAgent, Holding, Leaving, Launching;
    RunOrder(s.run);
    if s.signal.SigTakeClient? {
      assert Inv(t);
    } else if s.signal.SigKillClient? {
      assert Inv(t);
    } else if s.signal.SigTakeAgent? {
      assert Inv(t);
    } else if s.signal.SigRunAgent? {
      assert Inv(t);
    } else {
      assert Inv(t);
    }
  }

  lemma {:induction false} ProxyTeardownKeepsInv(s: State, t: State)
    requires Inv(s) && ProxyTeardownStep(s, t)
    ensures Inv(t)
  {
    hide InGate, BeforeAgent, Holding, Leaving, Launching;
    RunOrder(s.run);
    if s.signal.SigTakeProxy? {
      assert Inv(t);
    } else if s.signal.SigRunProxy? {
      assert Inv(t);
    } else if s.signal.SigEndProxy? {
      assert Inv(t);
    } else if s.signal.SigTakeBroker? {
      assert Inv(t);
    } else if s.signal.SigStopBroker? {
      assert Inv(t);
    } else {
      assert Inv(t);
    }
  }

  lemma {:induction false} NextKeepsInv(s: State, t: State)
    requires Inv(s) && Next(s, t)
    ensures Inv(t)
  {
    hide Inv, BrokerStep, ProxyStep, CreateStep, AttachStep, FinishStep, CleanupStep, DropStep;
    hide GateStep, AgentTeardownStep, ProxyTeardownStep;
    if BrokerStep(s, t) { BrokerKeepsInv(s, t); }
    if ProxyStep(s, t) { ProxyKeepsInv(s, t); }
    if CreateStep(s, t) { CreateKeepsInv(s, t); }
    if AttachStep(s, t) { AttachKeepsInv(s, t); }
    if FinishStep(s, t) { FinishKeepsInv(s, t); }
    if CleanupStep(s, t) { CleanupKeepsInv(s, t); }
    if DropStep(s, t) { DropKeepsInv(s, t); }
    if GateStep(s, t) { GateKeepsInv(s, t); }
    if AgentTeardownStep(s, t) { AgentTeardownKeepsInv(s, t); }
    if ProxyTeardownStep(s, t) { ProxyTeardownKeepsInv(s, t); }
  }

  // ---- every interleaving ----

  ghost predicate Behaviour(b: seq<State>)
  {
    && b != [] && Initial(b[0])
    && forall i :: 0 <= i < |b| - 1 ==> Next(b[i], b[i + 1])
  }

  lemma {:induction false} ReachableInv(b: seq<State>, i: nat)
    requires Behaviour(b) && i < |b|
    ensures Inv(b[i])
    decreases i
  {
    hide Inv, Next, Initial;
    if i == 0 {
      InitialInv(b[0]);
    } else {
      ReachableInv(b, i - 1);
      assert Next(b[i - 1], b[i - 1 + 1]);
      NextKeepsInv(b[i - 1], b[i]);
    }
  }

  /** In every reachable state of every interleaving: each cleanup ran at most once; the proxy's
      cleanup and the policy's retirement only ever follow the agent's finished one; a completed
      teardown, and a return, leave no agent behind and no proxy whose stop was not begun. */
  lemma {:induction false} Safety(b: seq<State>, i: nat)
    requires Behaviour(b) && i < |b|
    ensures var s := b[i];
            && s.agent.cleanup.begun <= 1 && s.proxy.cleanup.begun <= 1
            && (s.proxy.cleanup.begun > 0 || s.retired > 0 ==> AgentGone(s))
            && (s.lock.torndown || s.run.Returned? ==>
                  AgentGone(s) && (s.proxy.created ==> s.proxy.cleanup.begun == 1))
            && (s.lock.torndown ==> !s.client.child)
            && (s.client.attached ==> s.agent.created)
  {
    ReachableInv(b, i);
  }

  /** After a completed teardown the proxy's stop has also ended, unless the run path is itself in
      the middle of it: the flag that makes it run once is set before it runs. */
  lemma {:induction false} ProxyStopAfterTeardown(b: seq<State>, i: nat)
    requires Behaviour(b) && i < |b| && b[i].lock.torndown && b[i].proxy.created
    ensures b[i].proxy.cleanup.ended == 1 <==> !b[i].run.EndProxy?
  {
    ReachableInv(b, i);
  }

  predicate SameWorld(s: State, t: State)
  {
    s.agent.created == t.agent.created && s.client.attached == t.client.attached && s.proxy.created == t.proxy.created
  }

  /** A proxy stays created, and a stop that has ended stays ended. */
  predicate ProxyGrows(s: State, t: State)
  {
    s.proxy.created ==> t.proxy.created && s.proxy.cleanup.ended <= t.proxy.cleanup.ended
  }

  lemma {:induction false} SignalChangesWorld(s: State, t: State)
    requires SignalStep(s, t)
    ensures SameWorld(s, t) && ProxyGrows(s, t) && (s.lock.torndown ==> t.lock.torndown)
  {
  }

  lemma {:induction false} TeardownIsFinal(s: State, t: State)
    requires Inv(s) && Next(s, t) && s.lock.torndown
    ensures t.lock.torndown && SameWorld(s, t)
  {
    hide RunStep, SignalStep, SameWorld, ClientInv, RunRank;
    if RunStep(s, t) {
      RunStepEffect(s, t);
    } else {
      SignalChangesWorld(s, t);
    }
  }

  /** Nothing is created or attached once a teardown has completed. */
  lemma {:induction false} NothingAfterTeardown(b: seq<State>, i: nat, j: nat)
    requires Behaviour(b) && i <= j < |b| && b[i].lock.torndown
    ensures b[j].lock.torndown && SameWorld(b[i], b[j])
    decreases j
  {
    hide Inv, Next, Initial;
    if i < j {
      NothingAfterTeardown(b, i, j - 1);
      ReachableInv(b, j - 1);
      assert Next(b[j - 1], b[j - 1 + 1]);
      TeardownIsFinal(b[j - 1], b[j]);
    }
  }

  // ---- progress ----

  function RunRank(pc: RunPc): nat
  {
    match pc
    case BrokerLock => 40
    case BrokerCheck => 39
    case StartBroker => 38
    case InstallBroker => 37
    case ProxyLock => 35
    case ProxyCheck => 34
    case StartProxy => 33
    case InstallProxy => 32
    case InspectProxy => 31
    case BrokerReady => 29
    case CreateLock => 28
    case CreateCheck => 27
    case CreateAgent => 26
    case InstallAgent => 25
    case CreateRecheck => 24
    case AttachLock => 22
    case AttachCheck => 21
    case SpawnClient => 20
    case InstallClient => 19
    case WaitAgent => 17
    case TakeAgent => 16
    case RunAgent(last) => if last then 8 else 15
    case EndAgent(last) => if last then 7 else 14
    case FinishLock => 12
    case DisarmClient => 11
    case ReapClient => 10
    case FinishAgent => 9
    case ReleaseGate(next) =>
      (match next
       case ToProxy => 36
       case ToReady => 30
       case ToAttach => 23
       case ToWait => 18
       case ToFinish => 13
       case ToDrop => 4)
    case DropGuard(gated) => if gated then 6 else 3
    case EndProxy(gated) => if gated then 5 else 2
    case DropPolicy => 1
    case Returned => 0
  }

  function SignalRank(pc: SignalPc): nat
  {
    match pc
    case Idle => 16
    case StoreFlag => 15
    case LockGate => 14
    case SigTakeClient => 13
    case SigKillClient => 12
    case SigTakeAgent => 11
    case SigRunAgent => 10
    case SigEndAgent => 9
    case SigTakeProxy => 8
    case SigRunProxy => 7
    case SigEndProxy => 6
    case SigTakeBroker => 5
    case SigStopBroker => 4
    case SigRetire => 3
    case SigRelease => 2
    case SigExit => 1
    case Exited => 0
  }

  function Rank(s: State): nat
  {
    RunRank(s.run) + SignalRank(s.signal)
  }

  /** What a step of the run path can do to the world, and that it always moves on. */
  predicate RunEffect(s: State, t: State)
  {
    && (SameWorld(s, t) || s.run.StartProxy? || s.run.CreateAgent? || s.run.SpawnClient?)
    && ProxyGrows(s, t)
    && t.lock.torndown == s.lock.torndown
    && t.signal == s.signal && RunRank(t.run) < RunRank(s.run)
  }

  lemma {:induction false} BrokerEffect(s: State, t: State)
    requires BrokerStep(s, t)
    ensures RunEffect(s, t)
  {
  }

  lemma {:induction false} ProxyEffect(s: State, t: State)
    requires ProxyStep(s, t)
    ensures RunEffect(s, t)
  {
  }

  lemma {:induction false} CreateEffect(s: State, t: State)
    requires CreateStep(s, t)
    ensures RunEffect(s, t)
  {
  }

  lemma {:induction false} AttachEffect(s: State, t: State)
    requires AttachStep(s, t)
    ensures RunEffect(s, t)
  {
  }

  lemma {:induction false} FinishEffect(s: State, t: State)
    requires FinishStep(s, t)
    ensures RunEffect(s, t)
  {
  }

  lemma {:induction false} CleanupEffect(s: State, t: State)
    requires CleanupStep(s, t)
    ensures RunEffect(s, t)
  {
  }

  lemma {:induction false} DropEffect(s: State, t: State)
    requires DropStep(s, t)
    ensures RunEffect(s, t)
  {
  }

  lemma {:induction false} RunStepEffect(s: State, t: State)
    requires RunStep(s, t)
    ensures RunEffect(s, t)
  {
    hide BrokerStep, ProxyStep, CreateStep, AttachStep, FinishStep, CleanupStep, DropStep, RunEffect;
    if BrokerStep(s, t) { BrokerEffect(s, t); }
    if ProxyStep(s, t) { ProxyEffect(s, t); }
    if CreateStep(s, t) { CreateEffect(s, t); }
    if AttachStep(s, t) { AttachEffect(s, t); }
    if FinishStep(s, t) { FinishEffect(s, t); }
    if CleanupStep(s, t) { CleanupEffect(s, t); }
    if DropStep(s, t) { DropEffect(s, t); }
  }

  lemma {:induction false} SignalRanks(s: State, t: State)
    requires SignalStep(s, t)
    ensures t.run == s.run && SignalRank(t.signal) < SignalRank(s.signal)
  {
  }

  /** Every behaviour is finite. */
  lemma {:induction false} BoundedRun(b: seq<State>, i: nat)
    requires Behaviour(b) && i < |b|
    ensures Rank(b[i]) + i <= 56
    decreases i
  {
    hide Next, RunRank, SignalRank;
    if i == 0 {
      InitialRank(b[0]);
    } else {
      BoundedRun(b, i - 1);
      assert Next(b[i - 1], b[i - 1 + 1]);
      NextRanks(b[i - 1], b[i]);
    }
  }

  lemma {:induction false} InitialRank(s: State)
    requires Initial(s)
    ensures Rank(s) == 56
  {
  }

  lemma {:induction false} NextRanks(s: State, t: State)
    requires Next(s, t)
    ensures Rank(t) < Rank(s)
  {
    hide RunStep, SignalStep, RunRank, SignalRank;
    if RunStep(s, t) {
      RunStepEffect(s, t);
    } else {
      SignalRanks(s, t);
    }
  }

  /** One way on for a run path that is not waiting for the gate. */
  function RunMove(s: State): State
  {
    var locked := s.lock.(holder := Some(RunPath));
    match s.run
    case BrokerLock => s.(lock := locked, run := BrokerCheck)
    case BrokerCheck => s.(run := if s.lock.terminating then ReleaseGate(ToDrop) else StartBroker)
    case StartBroker => s.(run := InstallBroker)
    case InstallBroker => s.(brokerSlot := true, run := ReleaseGate(ToProxy))
    case BrokerReady => s.(run := CreateLock)
    case ProxyLock => s.(lock := locked, run := ProxyCheck)
    case ProxyCheck => s.(run := if s.lock.terminating then ReleaseGate(ToDrop) else StartProxy)
    case StartProxy => s.(run := ReleaseGate(ToDrop))
    case InstallProxy => s.(proxy := s.proxy.(slot := true), run := InspectProxy)
    case InspectProxy => s.(run := ReleaseGate(ToReady))
    case CreateLock => s.(lock := locked, run := CreateCheck)
    case CreateCheck => s.(run := if s.lock.terminating then ReleaseGate(ToFinish) else CreateAgent)
    case CreateAgent => s.(run := ReleaseGate(ToFinish))
    case InstallAgent => s.(agent := s.agent.(slot := true), run := CreateRecheck)
    case CreateRecheck => s.(run := if s.lock.terminating then TakeAgent else ReleaseGate(ToAttach))
    case AttachLock => s.(lock := locked, run := AttachCheck)
    case AttachCheck => s.(run := if s.lock.terminating then TakeAgent else SpawnClient)
    case SpawnClient => s.(run := TakeAgent)
    case InstallClient => s.(client := s.client.(slot := true), run := ReleaseGate(ToWait))
    case WaitAgent => s.(run := FinishLock)
    case FinishLock => s.(lock := locked, run := DisarmClient)
    case DisarmClient => s.(client := s.client.(slot := false), run := ReapClient)
    case ReapClient => s.(client := s.client.(child := false), run := FinishAgent)
    case FinishAgent =>
      if s.agent.slot then s.(agent := s.agent.(slot := false), run := RunAgent(true))
      else s.(run := ReleaseGate(ToDrop))
    case TakeAgent =>
      if s.agent.slot then s.(agent := s.agent.(slot := false), run := RunAgent(false))
      else s.(run := ReleaseGate(ToFinish))
    case RunAgent(last) =>
      s.(agent := s.agent.(cleanup := Begin(s.agent.cleanup)),
         run := if s.agent.cleanup.done then AfterAgent(last) else EndAgent(last))
    case EndAgent(last) => s.(agent := s.agent.(cleanup := End(s.agent.cleanup)), run := AfterAgent(last))
    case ReleaseGate(next) => s.(lock := s.lock.(holder := None), run := AfterRelease(next))
    case DropGuard(gated) =>
      s.(proxy := s.proxy.(guarded := false,
                           cleanup := if s.proxy.guarded then Begin(s.proxy.cleanup) else s.proxy.cleanup),
         run := if s.proxy.guarded && !s.proxy.cleanup.done then EndProxy(gated) else AfterGuard(gated))
    case EndProxy(gated) => s.(proxy := s.proxy.(cleanup := End(s.proxy.cleanup)), run := AfterGuard(gated))
    case DropPolicy => s.(retired := s.retired + 1, run := Returned)
    case Returned => s
  }

  lemma {:induction false} RunMoves(s: State)
    requires !s.run.Returned? && (s.lock.holder.None? || InGate(s.run))
    ensures RunStep(s, RunMove(s))
  {
  }

  lemma {:induction false} SignalMoves(s: State) returns (t: State)
    requires !s.signal.Exited? && (s.signal.LockGate? ==> s.lock.holder.None?)
    ensures SignalStep(s, t)
  {
    match s.signal {
      case Idle => t := s.(signal := StoreFlag);
      case StoreFlag => t := s.(lock := s.lock.(terminating := true), signal := LockGate);
      case LockGate => t := s.(lock := s.lock.(holder := Some(SignalThread)), signal := SigTakeClient);
      case SigTakeClient =>
        t := if s.client.slot then s.(client := s.client.(slot := false), signal := SigKillClient)
             else s.(signal := SigTakeAgent);
      case SigKillClient => t := s.(client := s.client.(child := false), signal := SigTakeAgent);
      case SigTakeAgent =>
        t := if s.agent.slot then s.(agent := s.agent.(slot := false), signal := SigRunAgent)
             else s.(signal := SigTakeProxy);
      case SigRunAgent =>
        t := s.(agent := s.agent.(cleanup := Begin(s.agent.cleanup)),
                signal := if s.agent.cleanup.done then SigTakeProxy else SigEndAgent);
      case SigEndAgent => t := s.(agent := s.agent.(cleanup := End(s.agent.cleanup)), signal := SigTakeProxy);
      case SigTakeProxy =>
        t := if s.proxy.slot then s.(proxy := s.proxy.(slot := false), signal := SigRunProxy)
             else s.(signal := SigTakeBroker);
      case SigRunProxy =>
        t := s.(proxy := s.proxy.(cleanup := Begin(s.proxy.cleanup)),
                signal := if s.proxy.cleanup.done then SigTakeBroker else SigEndProxy);
      case SigEndProxy => t := s.(proxy := s.proxy.(cleanup := End(s.proxy.cleanup)), signal := SigTakeBroker);
      case SigTakeBroker =>
        t := if s.brokerSlot then s.(brokerSlot := false, signal := SigStopBroker)
             else s.(signal := SigRetire);
      case SigStopBroker => t := s.(signal := SigRetire);
      case SigRetire => t := s.(retired := s.retired + 1, signal := SigRelease);
      case SigRelease => t := s.(lock := s.lock.(holder := None, torndown := true), signal := SigExit);
      case SigExit => t := s.(signal := Exited);
    }
  }

  /** No deadlock, and no waiting for a signal that may never come: until the run path has returned
      or the process has exited, some thread can step. With `BoundedRun`, every run ends. */
  lemma {:induction false} NeverStuck(s: State) returns (t: State)
    requires Inv(s) && !s.signal.Exited? && !s.run.Returned?
    ensures RunStep(s, t) || (SignalStep(s, t) && !s.signal.Idle?)
  {
    hide RunStep, SignalStep, AgentInv, ProxyInv, ClientInv, InGate, InTeardown;
    SignalOrder(s.signal);
    if s.lock.holder.None? || InGate(s.run) {
      RunMoves(s);
      t := RunMove(s);
    } else {
      HolderTeardown(s);
      t := SignalMoves(s);
    }
  }

  lemma {:induction false} HolderTeardown(s: State)
    requires GateInv(s) && !s.lock.holder.None? && !InGate(s.run)
    ensures !s.signal.Exited? && !s.signal.LockGate? && !s.signal.Idle?
  {
    var holder := s.lock.holder.value;
    assert holder.RunPath? || holder.SignalThread?;
  }

  // ---- when the proxy's stop outlives the teardown ----

  function Current(b: seq<State>): State
    requires b != []
  {
    b[|b| - 1]
  }

  lemma {:induction false} Extended(b: seq<State>, t: State)
    requires Behaviour(b) && Next(Current(b), t)
    ensures Behaviour(b + [t]) && b <= b + [t] && Current(b + [t]) == t
  {
    hide Next, Initial;
  }

  /** The run path can reach the middle of the proxy's stop without the gate. */
  predicate CanStopUngated(s: State)
  {
    || s.run.BrokerReady?
    || (s.run == DropGuard(false) && s.proxy.guarded)
    || s.run == EndProxy(false)
  }

  ghost predicate StopOutlives(b: seq<State>, prefix: seq<State>)
  {
    && Behaviour(b) && prefix <= b
    && Current(b).lock.torndown && Current(b).proxy.created && Current(b).proxy.cleanup.ended == 0
  }

  /** Some continuation completes the teardown and leaves the stop unfinished. */
  ghost predicate MayOutlive(prefix: seq<State>)
  {
    exists c :: StopOutlives(c, prefix)
  }

  /** One step on in a teardown under way. */
  lemma {:induction false} TeardownGoesOn(s: State) returns (t: State)
    requires InTeardown(s.signal) && !s.run.Returned?
    ensures Next(s, t) && t.run == s.run && SignalRank(t.signal) < SignalRank(s.signal)
    ensures t.lock.torndown || InTeardown(t.signal)
  {
    hide RunStep, SignalRank;
    t := SignalMoves(s);
    SignalRanks(s, t);
  }

  /** A teardown under way completes while the run path sits in the proxy's stop. */
  lemma {:induction false} TeardownCompletes(b: seq<State>) returns (c: seq<State>)
    requires Behaviour(b) && InTeardown(Current(b).signal) && Current(b).run.EndProxy?
    ensures Behaviour(c) && b <= c && Current(c).lock.torndown && Current(c).run == Current(b).run
    decreases SignalRank(Current(b).signal)
  {
    hide Next, Initial, SignalRank, InTeardown;
    var t := TeardownGoesOn(Current(b));
    Extended(b, t);
    c := b + [t];
    if !t.lock.torndown {
      c := TeardownCompletes(c);
    }
  }

  /** From where it can, the run path enters the stop; what it does there needs no gate. */
  lemma {:induction false} StopEntered(b: seq<State>) returns (c: seq<State>)
    requires Behaviour(b) && Current(b).signal.SigTakeClient? && Current(b).proxy.created
    requires CanStopUngated(Current(b))
    ensures Behaviour(c) && b <= c && Current(c).run == EndProxy(false) && Current(c).signal.SigTakeClient?
    decreases RunRank(Current(b).run)
  {
    hide Initial, AgentInv, ClientInv, InGate, BeforeAgent, Holding, Launching, RunRank;
    var s := Current(b);
    ReachableInv(b, |b| - 1);
    if s.run == EndProxy(false) {
      return b;
    }
    var t := if s.run.BrokerReady? then s.(run := DropGuard(false)) else RunMove(s);
    assert BrokerStep(s, t) || DropStep(s, t);
    RunStepEffect(s, t);
    Extended(b, t);
    c := StopEntered(b + [t]);
  }

  /** While the signal thread holds the gate, a run path that cannot stop the proxy stays unable to; and
      when the gate is given back, it is not in the middle of the stop. */
  lemma {:induction false} StaysBlocked(s: State, t: State)
    requires Inv(s) && Next(s, t) && InTeardown(s.signal) && !CanStopUngated(s)
    ensures !CanStopUngated(t) && ProxyGrows(s, t)
    ensures if t.lock.torndown then !t.run.EndProxy? else InTeardown(t.signal)
  {
    hide AgentInv, ClientInv, RunEffect;
    if SignalStep(s, t) {
      SignalRanks(s, t);
    }
    NextGrows(s, t);
  }

  lemma {:induction false} NextGrows(s: State, t: State)
    requires Next(s, t)
    ensures ProxyGrows(s, t)
  {
    hide RunStep, SignalStep, ProxyGrows, RunRank;
    if RunStep(s, t) {
      RunStepEffect(s, t);
    } else {
      SignalChangesWorld(s, t);
    }
  }

  /** Blocked until the gate is given back; and from then on the stop has ended. */
  lemma {:induction false} BlockedToTheEnd(b: seq<State>, k: nat, i: nat)
    requires Behaviour(b) && k <= i < |b|
    requires InTeardown(b[k].signal) && b[k].proxy.created && !CanStopUngated(b[k])
    ensures b[i].proxy.created
    ensures if b[i].lock.torndown then b[i].proxy.cleanup.ended > 0
            else InTeardown(b[i].signal) && !CanStopUngated(b[i])
    decreases i
  {
    hide Next, Initial, AgentInv, ProxyInv, ClientInv, InGate, CanStopUngated;
    ReachableInv(b, i);
    if k < i {
      BlockedToTheEnd(b, k, i - 1);
      assert Next(b[i - 1], b[i - 1 + 1]);
      ReachableInv(b, i - 1);
      NextGrows(b[i - 1], b[i]);
      if b[i - 1].lock.torndown {
        TeardownIsFinal(b[i - 1], b[i]);
      } else {
        StaysBlocked(b[i - 1], b[i]);
        if b[i].lock.torndown {
          ProxyStopAfterTeardown(b, i);
        }
      }
    }
  }

  /** When the signal thread has taken the gate, the proxy's stop can outlive the teardown exactly when the run
      path stands where it reaches that stop without the gate: about to drop the proxy's guard after a failed
      broker, or in the drop already. From anywhere else, both have ended in every continuation. */
  lemma {:induction false} StopOutlivesIff(b: seq<State>, k: nat)
    requires Behaviour(b) && k < |b| && b[k].signal.SigTakeClient? && b[k].proxy.created
    ensures CanStopUngated(b[k]) <==> MayOutlive(b[..k + 1])
  {
    hide Next, Initial, GateInv, AgentInv, ClientInv, CanStopUngated, RunRank, SignalRank, InGate, BeforeAgent;
    var prefix := b[..k + 1];
    assert Behaviour(prefix) && Current(prefix) == b[k] by {
      forall i | 0 <= i < |prefix| - 1 ensures Next(prefix[i], prefix[i + 1]) {
        assert Next(b[i], b[i + 1]);
      }
    }
    if CanStopUngated(b[k]) {
      var entered := StopEntered(prefix);
      var c := TeardownCompletes(entered);
      ReachableInv(c, |c| - 1);
      assert StopOutlives(c, prefix);
    } else if MayOutlive(prefix) {
      var c :| StopOutlives(c, prefix);
      assert c[k] == prefix[k];
      BlockedToTheEnd(c, k, |c| - 1);
      assert false;
    }
  }

  /** The run path as far as the broker's readiness, and then the signal thread into the gate. */
  function Opening(): (b: seq<State>)
    ensures |b| == 15
  {
    var client, agent := Client(false, false, false), Agent(false, false, Fresh());
    var none, up := Proxy(false, false, false, Fresh()), Proxy(true, true, true, Fresh());
    var free, ours := Lock(None, false, false), Lock(Some(RunPath), false, false);
    [ State(BrokerLock, Idle, free, client, agent, none, false, 0),
      State(BrokerCheck, Idle, ours, client, agent, none, false, 0),
      State(StartBroker, Idle, ours, client, agent, none, false, 0),
      State(InstallBroker, Idle, ours, client, agent, none, false, 0),
      State(ReleaseGate(ToProxy), Idle, ours, client, agent, none, true, 0),
      State(ProxyLock, Idle, free, client, agent, none, true, 0),
      State(ProxyCheck, Idle, ours, client, agent, none, true, 0),
      State(StartProxy, Idle, ours, client, agent, none, true, 0),
      State(InstallProxy, Idle, ours, client, agent, up.(slot := false), true, 0),
      State(InspectProxy, Idle, ours, client, agent, up, true, 0),
      State(ReleaseGate(ToReady), Idle, ours, client, agent, up, true, 0),
      State(BrokerReady, Idle, free, client, agent, up, true, 0),
      State(BrokerReady, StoreFlag, free, client, agent, up, true, 0),
      State(BrokerReady, LockGate, free.(terminating := true), client, agent, up, true, 0),
      State(BrokerReady, SigTakeClient, Lock(Some(SignalThread), true, false), client, agent, up, true, 0) ]
  }

  lemma {:induction false} OpeningStep(i: nat)
    requires i < 14
    ensures Next(Opening()[i], Opening()[i + 1])
  {
    hide CreateStep, AttachStep, FinishStep, DropStep, AgentTeardownStep, ProxyTeardownStep;
    var s, t := Opening()[i], Opening()[i + 1];
    if i == 4 || i == 10 {
      assert CleanupStep(s, t);
    } else if i < 4 {
      assert BrokerStep(s, t);
    } else if i < 10 {
      assert ProxyStep(s, t);
    } else {
      assert GateStep(s, t);
    }
  }

  /** A teardown after which the proxy has not stopped: the broker fails, the run path begins the stop, and
      the whole teardown passes before it ends. */
  lemma {:induction false} StopOutlivesTeardown() returns (b: seq<State>)
    ensures StopOutlives(b, [])
  {
    hide Next;
    var c := Opening();
    forall i: nat | i < |c| - 1 ensures Next(c[i], c[i + 1]) {
      OpeningStep(i);
    }
    StopOutlivesIff(c, 14);
    assert c[..15] == c;
    b :| StopOutlives(b, c);
  }
}
