/**
 Upstream capacity across dialling, pooling and dropping, as interleaved steps. A permit is taken from
 the semaphore before the active counter is raised, and the counter is lowered before the permit is
 given back; the pool moves sockets only between its callers and its entries.
 */
module UpstreamPermits {
  import opened IdlePools

  datatype Phase =
    | Taken
    | Counted(seen: nat)
    | Dialing
    | CheckedOut
    | Pooled
    | Dropping
    | Uncounted

  type Queue = seq<Item<string, nat>>

  datatype Counters = Counters(available: nat, active: nat, maximum: nat, peak: nat)

  /** `holding` and `counting` name the sockets behind the semaphore and behind the counter; `peak`
      is the largest value the counter ever had. No step depends on these three. */
  datatype State = State(
    limit: nat,
    counters: Counters,
    sockets: map<nat, Phase>,
    next: nat,
    holding: set<nat>,
    counting: set<nat>,
    pool: Queue,
    closed: bool)

  predicate Initial(s: State)
  {
    s == State(s.limit, Counters(s.limit, 0, 0, 0), map[], 0, {}, {}, [], false)
  }

  function Values(queue: Queue): set<nat>
  {
    set item | item in queue :: item.entry.value
  }

  function Larger(a: nat, b: nat): nat
  {
    if a < b then b else a
  }

  // ---- the admission counter ----

  predicate AdmissionStep(s: State, t: State, x: nat)
  {
    if x !in s.sockets then
      && s.counters.available > 0 && x == s.next
      && t == s.(counters := s.counters.(available := s.counters.available - 1),
                 sockets := s.sockets[x := Taken], next := x + 1, holding := s.holding + {x})
    else
      match s.sockets[x]
      case Taken =>
        var active := s.counters.active + 1;
        t == s.(counters := s.counters.(active := active, peak := Larger(s.counters.peak, active)),
                sockets := s.sockets[x := Counted(active)], counting := s.counting + {x})
      case Counted(seen) =>
        t == s.(counters := s.counters.(maximum := Larger(s.counters.maximum, seen)),
                sockets := s.sockets[x := Dialing])
      case Dialing => t == s.(sockets := s.sockets[x := CheckedOut]) || t == s.(sockets := s.sockets[x := Dropping])
      case CheckedOut => t == s.(sockets := s.sockets[x := Dropping])
      case Dropping =>
        && s.counters.active > 0
        && t == s.(counters := s.counters.(active := s.counters.active - 1),
                   sockets := s.sockets[x := Uncounted], counting := s.counting - {x})
      case Uncounted =>
        t == s.(counters := s.counters.(available := s.counters.available + 1),
                sockets := s.sockets - {x}, holding := s.holding - {x})
      case Pooled => false
  }

  // ---- the pool ----

  /** Sockets entering the pool, leaving it to `taken`, or dropped by it. */
  function Rehome(sockets: map<nat, Phase>, before: set<nat>, after: set<nat>, taken: set<nat>): map<nat, Phase>
  {
    map x | x in sockets ::
      if x in after then Pooled
      else if x in before then (if x in taken then CheckedOut else Dropping)
      else sockets[x]
  }

  datatype PoolCall =
    | PutSocket(key: string, socket: nat, reusable: bool, sequence: nat, since: nat)
    | TakeSocket(key: string, usable: set<nat>)
    | Prune
    | Close

  /** The queue a call leaves behind, as `IdlePool`'s methods are proved to. */
  function QueueAfter(call: PoolCall, queue: Queue, closed: bool, lifetime: nat, capacity: nat, now: nat): Queue
  {
    match call
    case PutSocket(key, socket, reusable, sequence, since) =>
      if !reusable || closed then queue
      else Newest(Without(Live(queue, lifetime, now), key) + [Item(key, Entry(socket, since, sequence))], capacity)
    case TakeSocket(key, _) => Without(Live(queue, lifetime, now), key)
    case Prune => Live(queue, lifetime, now)
    case Close => []
  }

  /** What a call gives back to its caller instead of dropping it. */
  function TakenBy(call: PoolCall, queue: Queue, lifetime: nat, now: nat): set<nat>
  {
    if call.TakeSocket? then
      set item | item in Live(queue, lifetime, now) && item.key == call.key && item.entry.value in call.usable ::
        item.entry.value
    else {}
  }

  /** A put hands over a socket its caller had checked out. */
  predicate PoolStep(s: State, t: State, call: PoolCall, lifetime: nat, capacity: nat, now: nat)
  {
    var given := if call.PutSocket? then {call.socket} else {};
    var queue := QueueAfter(call, s.pool, s.closed, lifetime, capacity, now);
    && (call.PutSocket? ==> call.socket in s.sockets && s.sockets[call.socket] == CheckedOut)
    && t == s.(pool := queue, closed := s.closed || call.Close?,
               sockets := Rehome(s.sockets, Values(s.pool) + given, Values(queue),
                                   TakenBy(call, s.pool, lifetime, now)))
  }

  ghost predicate Next(s: State, t: State)
  {
    || (exists x :: AdmissionStep(s, t, x))
    || (exists call, lifetime, capacity, now :: PoolStep(s, t, call, lifetime, capacity, now))
  }

  // ---- the invariant ----

  ghost predicate SizesInv(s: State)
  {
    && s.counters.available + |s.holding| == s.limit
    && s.counters.active == |s.counting|
    && s.counting <= s.holding
    && s.counters.peak <= s.limit
  }

  ghost predicate PeakInv(s: State)
  {
    && s.counters.maximum <= s.counters.peak
    && s.counters.active <= s.counters.peak
    && (s.counters.peak == s.counters.maximum ||
        exists x :: x in s.sockets && s.sockets[x] == Counted(s.counters.peak))
    && (forall x :: x in s.sockets && s.sockets[x].Counted? ==> s.sockets[x].seen <= s.counters.peak)
  }

  ghost predicate SocketsInv(s: State)
  {
    && (forall x :: x in s.sockets <==> x in s.holding)
    && (forall x :: x in s.counting ==> x in s.sockets)
    && (forall x :: x in s.sockets ==> x < s.next)
    && (forall x :: x in s.sockets ==> (x in s.counting <==> !s.sockets[x].Taken? && !s.sockets[x].Uncounted?))
  }

  ghost predicate PoolInv(s: State)
  {
    && (forall x :: x in Values(s.pool) ==> x in s.sockets)
    && (forall x :: x in s.sockets ==> (s.sockets[x].Pooled? <==> x in Values(s.pool)))
    && DistinctValues(s.pool)
  }

  /** No socket is pooled twice. */
  ghost predicate DistinctValues(queue: Queue)
  {
    queue != [] ==> DistinctValues(Init(queue)) && Last(queue).entry.value !in Values(Init(queue))
  }

  ghost predicate Inv(s: State)
  {
    SizesInv(s) && PeakInv(s) && SocketsInv(s) && PoolInv(s)
  }

  lemma {:induction false} SmallerSet(a: set<nat>, b: set<nat>)
    requires a <= b
    ensures |a| <= |b|
  {
    if a != {} {
      var x :| x in a;
      SmallerSet(a - {x}, b - {x});
    }
  }

  lemma {:induction false} AdmissionKeepsSockets(s: State, t: State, x: nat)
    requires SocketsInv(s) && AdmissionStep(s, t, x)
    ensures SocketsInv(t)
  {
  }

  lemma {:induction false} AdmissionKeepsPool(s: State, t: State, x: nat)
    requires PoolInv(s) && AdmissionStep(s, t, x)
    ensures PoolInv(t)
  {
  }

  lemma {:induction false} AdmissionKeepsSizes(s: State, t: State, x: nat)
    requires SizesInv(s) && SocketsInv(s) && AdmissionStep(s, t, x)
    ensures SizesInv(t)
  {
    if x in s.sockets && s.sockets[x].Taken? {
      SmallerSet(s.counting + {x}, s.holding);
    }
  }

  lemma {:induction false} AdmissionKeepsPeak(s: State, t: State, x: nat)
    requires PeakInv(s) && AdmissionStep(s, t, x)
    ensures PeakInv(t)
  {
    if x in s.sockets && s.sockets[x].Taken? {
      assert t.sockets[x] == Counted(t.counters.active);
    }
    if s.counters.peak != s.counters.maximum {
      var y :| y in s.sockets && s.sockets[y] == Counted(s.counters.peak);
      assert y != x ==> y in t.sockets && t.sockets[y] == Counted(s.counters.peak);
    }
  }

  // ---- pool operations ----

  lemma {:induction false} ValuesSnoc(queue: Queue, item: Item<string, nat>)
    ensures Values(queue + [item]) == Values(queue) + {item.entry.value}
    ensures Init(queue + [item]) == queue && Last(queue + [item]) == item
  {
  }

  lemma {:induction false} ValuesSplit(queue: Queue)
    requires queue != []
    ensures Values(queue) == Values(Init(queue)) + {Last(queue).entry.value}
  {
  }

  lemma {:induction false} LiveDistinct(queue: Queue, lifetime: nat, now: nat)
    requires DistinctValues(queue)
    ensures DistinctValues(Live(queue, lifetime, now)) && Values(Live(queue, lifetime, now)) <= Values(queue)
  {
    if queue != [] {
      hide Values, Fresh;
      var init, last := Init(queue), Last(queue);
      LiveDistinct(init, lifetime, now);
      ValuesSplit(queue);
      ValuesSnoc(Live(init, lifetime, now), last);
      assert Live(init, lifetime, now) + [] == Live(init, lifetime, now);
    }
  }

  lemma {:induction false} WithoutDistinct(queue: Queue, key: string)
    requires DistinctValues(queue)
    ensures DistinctValues(Without(queue, key)) && Values(Without(queue, key)) <= Values(queue)
  {
    if queue != [] {
      hide Values;
      var init, last := Init(queue), Last(queue);
      WithoutDistinct(init, key);
      ValuesSplit(queue);
      ValuesSnoc(Without(init, key), last);
      assert Without(init, key) + [] == Without(init, key);
    }
  }

  lemma {:induction false} SuffixDistinct(queue: Queue, from: nat)
    requires DistinctValues(queue) && from <= |queue|
    ensures DistinctValues(queue[from..]) && Values(queue[from..]) <= Values(queue)
    decreases |queue|
  {
    if from < |queue| {
      var init, last := Init(queue), Last(queue);
      SuffixDistinct(init, from);
      assert queue[from..] == init[from..] + [last];
      ValuesSplit(queue);
      ValuesSnoc(init[from..], last);
    }
  }

  /** A call only drops what was pooled, and never pools a socket twice. */
  lemma {:induction false} QueueAfterDistinct(call: PoolCall, queue: Queue, closed: bool, lifetime: nat,
                                              capacity: nat, now: nat)
    requires DistinctValues(queue)
    requires call.PutSocket? ==> call.socket !in Values(queue)
    ensures var after := QueueAfter(call, queue, closed, lifetime, capacity, now);
            && DistinctValues(after)
            && Values(after) <= Values(queue) + if call.PutSocket? then {call.socket} else {}
  {
    hide Values, Live, Without, DistinctValues;
    LiveDistinct(queue, lifetime, now);
    match call
    case PutSocket(key, socket, reusable, sequence, since) =>
      WithoutDistinct(Live(queue, lifetime, now), key);
      var kept := Without(Live(queue, lifetime, now), key);
      var item := Item(key, Entry(socket, since, sequence));
      ValuesSnoc(kept, item);
      AppendDistinct(kept, item);
      var all := kept + [item];
      if |all| > capacity {
        SuffixDistinct(all, |all| - capacity);
      }
    case TakeSocket(key, _) => WithoutDistinct(Live(queue, lifetime, now), key);
    case Prune =>
    case Close => NothingDistinct();
  }

  lemma {:induction false} AppendDistinct(queue: Queue, item: Item<string, nat>)
    requires DistinctValues(queue) && item.entry.value !in Values(queue)
    ensures DistinctValues(queue + [item])
  {
  }

  lemma {:induction false} NothingDistinct()
    ensures DistinctValues([]) && Values([]) == {}
  {
  }

  /** A socket the counter knows and no dial is using. */
  predicate AtRest(phase: Phase)
  {
    phase.CheckedOut? || phase.Pooled? || phase.Dropping?
  }

  ghost predicate OnlyRehomed(before: map<nat, Phase>, after: map<nat, Phase>)
  {
    && before.Keys == after.Keys
    && forall x :: x in before ==> before[x] == after[x] || (AtRest(before[x]) && AtRest(after[x]))
  }

  lemma {:induction false} RehomeOnly(s: State, t: State, call: PoolCall, lifetime: nat, capacity: nat, now: nat)
    requires PoolInv(s) && PoolStep(s, t, call, lifetime, capacity, now)
    ensures OnlyRehomed(s.sockets, t.sockets) && PoolInv(t)
  {
    hide DistinctValues, Values, QueueAfter, TakenBy;
    QueueAfterDistinct(call, s.pool, s.closed, lifetime, capacity, now);
  }

  lemma {:induction false} RehomedInv(s: State, t: State)
    requires PeakInv(s) && SocketsInv(s) && OnlyRehomed(s.sockets, t.sockets)
    requires t == s.(pool := t.pool, closed := t.closed, sockets := t.sockets)
    ensures PeakInv(t) && SocketsInv(t)
  {
  }

  lemma {:induction false} PoolKeepsInv(s: State, t: State, call: PoolCall, lifetime: nat, capacity: nat, now: nat)
    requires Inv(s) && PoolStep(s, t, call, lifetime, capacity, now)
    ensures Inv(t)
  {
    hide PoolInv, PeakInv, SocketsInv, OnlyRehomed, Values, QueueAfter, TakenBy, Rehome;
    RehomeOnly(s, t, call, lifetime, capacity, now);
    RehomedInv(s, t);
  }

  lemma {:induction false} NextKeepsInv(s: State, t: State)
    requires Inv(s) && Next(s, t)
    ensures Inv(t)
  {
    hide AdmissionStep, PoolStep, SizesInv, PeakInv, SocketsInv, PoolInv;
    if x :| AdmissionStep(s, t, x) {
      AdmissionKeepsSizes(s, t, x);
      AdmissionKeepsPeak(s, t, x);
      AdmissionKeepsSockets(s, t, x);
      AdmissionKeepsPool(s, t, x);
    } else {
      var call, lifetime, capacity, now :| PoolStep(s, t, call, lifetime, capacity, now);
      PoolKeepsInv(s, t, call, lifetime, capacity, now);
    }
  }

  // ---- every interleaving ----

  ghost predicate Behaviour(b: seq<State>)
  {
    && b != [] && Initial(b[0])
    && forall i :: 0 <= i < |b| - 1 ==> Next(b[i], b[i + 1])
  }

  lemma {:induction false} InitialInv(s: State)
    requires Initial(s)
    ensures Inv(s)
  {
  }

  lemma {:induction false} ReachableInv(b: seq<State>, i: nat)
    requires Behaviour(b) && i < |b|
    ensures Inv(b[i])
    decreases i
  {
    hide Inv, Next, Initial;
    if i == 0 {
      InitialInv(b[0]);
    } else {
      ReachableInv(b, i - 1);
      assert Next(b[i - 1], b[i - 1 + 1]);
      NextKeepsInv(b[i - 1], b[i]);
    }
  }

  function InPhase(s: State, pooled: bool): set<nat>
  {
    set x | x in s.sockets && s.sockets[x].Pooled? == pooled
  }

  /** Permits in use are exactly the pooled sockets and those still dialled, checked out or being
      dropped; neither the counter nor its recorded maximum ever passes the limit, although neither is
      updated together with the semaphore. */
  lemma {:induction false} PermitsConserved(b: seq<State>, i: nat)
    requires Behaviour(b) && i < |b|
    ensures var s := b[i];
            && s.counters.available + |Values(s.pool)| + |InPhase(s, false)| == s.limit
            && s.counters.active <= s.limit
            && s.counters.maximum <= s.limit
  {
    ReachableInv(b, i);
    var s := b[i];
    SmallerSet(s.counting, s.holding);
    assert Values(s.pool) == InPhase(s, true);
    assert s.holding == InPhase(s, true) + InPhase(s, false);
    assert InPhase(s, true) !! InPhase(s, false);
  }

  /** Once every raise has been recorded, the recorded maximum is the true high-water mark. */
  lemma {:induction false} MaximumIsPeak(b: seq<State>, i: nat, j: nat)
    requires Behaviour(b) && i <= j < |b|
    requires forall x :: x in b[j].sockets ==> !b[j].sockets[x].Counted?
    ensures b[i].counters.active <= b[j].counters.maximum
  {
    ReachableInv(b, i);
    ReachableInv(b, j);
    PeakGrows(b, i, j);
  }

  lemma {:induction false} PeakGrows(b: seq<State>, i: nat, j: nat)
    requires Behaviour(b) && i <= j < |b|
    ensures b[i].counters.peak <= b[j].counters.peak
    decreases j
  {
    hide Next, Initial;
    if i < j {
      PeakGrows(b, i, j - 1);
      assert Next(b[j - 1], b[j - 1 + 1]);
      PeakStep(b[j - 1], b[j]);
    }
  }

  lemma {:induction false} PeakStep(s: State, t: State)
    requires Next(s, t)
    ensures s.counters.peak <= t.counters.peak
  {
  }
}
