/**
 The idle connection pool: a hash map of stamped entries that behaves as a bounded recency queue.
 Every method runs under the pool's lock, so each is one atomic step.
 */
module IdlePools {
  import opened HttpText
  import opened Numerals

  datatype Entry<V> = Entry(value: V, idleSince: nat, sequence: nat)

  datatype Item<K, V> = Item(key: K, entry: Entry<V>)

  /** A monotone clock. */
  class Clock {
    var time: nat

    method Now() returns (now: nat)
      modifies this
      ensures now == time >= old(time)
    {
      var later: nat :| later >= time;
      time := later;
      return time;
    }
  }

  // ---- the queue the pool stands for, oldest first ----

  predicate Fresh<V>(entry: Entry<V>, lifetime: nat, now: nat)
  {
    now - entry.idleSince < lifetime
  }

  function Init<T>(s: seq<T>): seq<T>
    requires s != []
  {
    s[..|s| - 1]
  }

  function Last<T>(s: seq<T>): T
    requires s != []
  {
    s[|s| - 1]
  }

  function Live<K, V>(queue: seq<Item<K, V>>, lifetime: nat, now: nat): seq<Item<K, V>>
  {
    if queue == [] then []
    else Live(Init(queue), lifetime, now) + if Fresh(Last(queue).entry, lifetime, now) then [Last(queue)] else []
  }

  function Without<K(==), V>(queue: seq<Item<K, V>>, key: K): seq<Item<K, V>>
  {
    if queue == [] then []
    else Without(Init(queue), key) + if Last(queue).key != key then [Last(queue)] else []
  }

  function Newest<K, V>(queue: seq<Item<K, V>>, count: nat): seq<Item<K, V>>
  {
    if |queue| <= count then queue else queue[|queue| - count..]
  }

  /** Distinct keys, increasing stamps, non-decreasing idle times. */
  predicate Before<K(==), V>(a: Item<K, V>, b: Item<K, V>)
  {
    && a.key != b.key
    && a.entry.sequence < b.entry.sequence
    && a.entry.idleSince <= b.entry.idleSince
  }

  ghost predicate Ordered<K(!new), V(!new)>(queue: seq<Item<K, V>>)
  {
    queue != [] ==> Ordered(Init(queue)) && forall x :: x in Init(queue) ==> Before(x, Last(queue))
  }

  /** The hash map a queue amounts to. */
  function Table<K, V>(queue: seq<Item<K, V>>): map<K, Entry<V>>
  {
    if queue == [] then map[] else Table(Init(queue))[Last(queue).key := Last(queue).entry]
  }

  lemma {:induction false} NewestMembers<K(!new), V(!new)>(queue: seq<Item<K, V>>, count: nat)
    ensures |Newest(queue, count)| <= count && forall x :: x in Newest(queue, count) ==> x in queue
  {
  }

  /** Nothing enters with a put but the value put, and it does enter any pool that holds values. */
  lemma {:induction false} PutMembers<K(!new), V(!new)>(queue: seq<Item<K, V>>, item: Item<K, V>, lifetime: nat,
                                                        now: nat, capacity: nat)
    ensures var after := Newest(Without(Live(queue, lifetime, now), item.key) + [item], capacity);
            && (forall x :: x in after ==> x in queue || x == item)
            && (capacity > 0 ==> item in after)
  {
    hide Live, Without;
    LiveMembers(queue, lifetime, now);
    WithoutMembers(Live(queue, lifetime, now), item.key);
    var all := Without(Live(queue, lifetime, now), item.key) + [item];
    NewestMembers(all, capacity);
    assert capacity > 0 ==> Newest(all, capacity)[|Newest(all, capacity)| - 1] == item;
  }

  /** `HashMap::retain` of the entries that have not expired. */
  function Retained<K, V>(entries: map<K, Entry<V>>, lifetime: nat, now: nat): map<K, Entry<V>>
  {
    map k | k in entries && Fresh(entries[k], lifetime, now) :: entries[k]
  }

  lemma {:induction false} RetainedUpdate<K(!new), V(!new)>(entries: map<K, Entry<V>>, key: K, entry: Entry<V>,
                                       lifetime: nat, now: nat)
    requires key !in entries
    ensures Retained(entries[key := entry], lifetime, now) ==
            if Fresh(entry, lifetime, now) then Retained(entries, lifetime, now)[key := entry]
            else Retained(entries, lifetime, now)
  {
  }

  lemma {:induction false} RemovedUpdate<K(!new), V(!new)>(entries: map<K, Entry<V>>, key: K, entry: Entry<V>,
                                      removed: K)
    requires key !in entries
    ensures entries[key := entry] - {removed} ==
            if key == removed then entries - {removed} else (entries - {removed})[key := entry]
  {
  }

  lemma {:induction false} FreshKey<K(!new), V(!new)>(queue: seq<Item<K, V>>)
    requires Ordered(queue) && queue != []
    ensures Last(queue).key !in Table(Init(queue))
  {
    TableMembers(Init(queue));
  }

  lemma {:induction false} LiveMembers<K(!new), V(!new)>(queue: seq<Item<K, V>>, lifetime: nat, now: nat)
    ensures forall x :: x in Live(queue, lifetime, now) <==> x in queue && Fresh(x.entry, lifetime, now)
    ensures |Live(queue, lifetime, now)| <= |queue|
  {
    if queue != [] {
      LiveMembers(Init(queue), lifetime, now);
      assert queue == Init(queue) + [Last(queue)];
    }
  }

  lemma {:induction false} WithoutMembers<K(!new), V(!new)>(queue: seq<Item<K, V>>, key: K)
    ensures forall x :: x in Without(queue, key) <==> x in queue && x.key != key
    ensures |Without(queue, key)| <= |queue|
  {
    if queue != [] {
      WithoutMembers(Init(queue), key);
      assert queue == Init(queue) + [Last(queue)];
    }
  }

  lemma {:induction false} OrderedSnoc<K(!new), V(!new)>(queue: seq<Item<K, V>>, item: Item<K, V>)
    ensures Init(queue + [item]) == queue && Last(queue + [item]) == item
    ensures Table(queue + [item]) == Table(queue)[item.key := item.entry]
    ensures Ordered(queue) && (forall x :: x in queue ==> Before(x, item)) ==> Ordered(queue + [item])
  {
  }

  lemma {:induction false} TableMembers<K(!new), V(!new)>(queue: seq<Item<K, V>>)
    requires Ordered(queue)
    ensures forall x :: x in queue ==> x.key in Table(queue) && Table(queue)[x.key] == x.entry
    ensures forall k :: k in Table(queue) ==> Item(k, Table(queue)[k]) in queue
  {
    if queue != [] {
      TableMembers(Init(queue));
      assert queue == Init(queue) + [Last(queue)];
    }
  }

  lemma {:induction false} TableSize<K(!new), V(!new)>(queue: seq<Item<K, V>>)
    requires Ordered(queue)
    ensures |Table(queue)| == |queue|
  {
    if queue != [] {
      TableSize(Init(queue));
      TableMembers(Init(queue));
      assert Table(queue).Keys == Table(Init(queue)).Keys + {Last(queue).key};
    }
  }

  lemma {:induction false} LiveTable<K(!new), V(!new)>(queue: seq<Item<K, V>>, lifetime: nat, now: nat)
    requires Ordered(queue)
    ensures Ordered(Live(queue, lifetime, now))
    ensures Table(Live(queue, lifetime, now)) ==
            Retained(Table(queue), lifetime, now)
  {
    hide Retained;
    if queue != [] {
      var init, last := Init(queue), Last(queue);
      LiveTable(init, lifetime, now);
      LiveMembers(init, lifetime, now);
      FreshKey(queue);
      RetainedUpdate(Table(init), last.key, last.entry, lifetime, now);
      forall x | x in Live(init, lifetime, now) ensures Before(x, last) {
        assert x in init;
      }
      OrderedSnoc(Live(init, lifetime, now), last);
      assert Live(queue, lifetime, now) ==
             if Fresh(last.entry, lifetime, now) then Live(init, lifetime, now) + [last] else Live(init, lifetime, now);
      hide Live, Table, Ordered;
    } else {
      RetainedNothing<K, V>(lifetime, now);
    }
  }

  lemma {:induction false} RetainedNothing<K(!new), V(!new)>(lifetime: nat, now: nat)
    ensures Retained<K, V>(map[], lifetime, now) == map[]
  {
  }

  lemma {:induction false} WithoutTable<K(!new), V(!new)>(queue: seq<Item<K, V>>, key: K)
    requires Ordered(queue)
    ensures Ordered(Without(queue, key)) && Table(Without(queue, key)) == Table(queue) - {key}
  {
    if queue != [] {
      var init, last := Init(queue), Last(queue);
      WithoutTable(init, key);
      WithoutMembers(init, key);
      FreshKey(queue);
      RemovedUpdate(Table(init), last.key, last.entry, key);
      forall x | x in Without(init, key) ensures Before(x, last) {
        assert x in init;
      }
      OrderedSnoc(Without(init, key), last);
      assert Without(queue, key) == if last.key != key then Without(init, key) + [last] else Without(init, key);
      hide Without, Table, Ordered;
    }
  }

  /** The first item has the smallest stamp, and dropping it drops its key. */
  lemma {:induction false} DropOldest<K(!new), V(!new)>(queue: seq<Item<K, V>>)
    requires Ordered(queue) && queue != []
    ensures Ordered(queue[1..]) && Table(queue[1..]) == Table(queue) - {queue[0].key}
    ensures forall x :: x in queue[1..] ==> Before(queue[0], x)
  {
    var init, last := Init(queue), Last(queue);
    if init == [] {
      assert queue[1..] == [] && Table(init) == map[];
    } else {
      hide Table;
      DropOldest(init);
      assert init[0] in init;
      assert queue == init + [last] && queue[1..] == init[1..] + [last];
      OrderedSnoc(init, last);
      OrderedSnoc(init[1..], last);
      forall x | x in init[1..] ensures Before(x, last) {
        assert x in init;
      }
      FreshKey(queue);
      RemovedUpdate(Table(init), last.key, last.entry, init[0].key);
      hide Ordered, Before;
    }
  }

  lemma {:induction false} OldestIsFirst<K(!new), V(!new)>(queue: seq<Item<K, V>>, oldest: K)
    requires Ordered(queue) && queue != [] && oldest in Table(queue)
    requires forall k :: k in Table(queue) ==> Table(queue)[oldest].sequence <= Table(queue)[k].sequence
    ensures oldest == queue[0].key
  {
    hide Ordered, Table;
    TableMembers(queue);
    DropOldest(queue);
    var found := Item(oldest, Table(queue)[oldest]);
    assert queue == [queue[0]] + queue[1..];
    assert found in queue && queue[0] in queue;
  }

  lemma {:induction false} StaleLast<K(!new), V(!new)>(queue: seq<Item<K, V>>, lifetime: nat, now: nat)
    requires Ordered(queue) && queue != [] && !Fresh(Last(queue).entry, lifetime, now)
    ensures forall x :: x in Init(queue) ==> !Fresh(x.entry, lifetime, now)
  {
  }

  /** Entries expire oldest first: what expires is a prefix of the queue. */
  lemma {:induction false} ExpiredArePrefix<K(!new), V(!new)>(queue: seq<Item<K, V>>, lifetime: nat, now: nat)
    returns (cut: nat)
    requires Ordered(queue)
    ensures cut <= |queue| && Live(queue, lifetime, now) == queue[cut..]
    ensures forall i :: 0 <= i < |queue| ==> (Fresh(queue[i].entry, lifetime, now) <==> cut <= i)
  {
    hide Fresh, Before;
    cut := 0;
    if queue != [] {
      var init, last := Init(queue), Last(queue);
      cut := ExpiredArePrefix(init, lifetime, now);
      if Fresh(last.entry, lifetime, now) {
        assert queue[cut..] == init[cut..] + [last];
      } else {
        StaleLast(queue, lifetime, now);
        assert forall i :: 0 <= i < |init| ==> init[i] in init;
        assert cut == |init|;
        cut := |queue|;
      }
    }
  }

  /** `min_by_key` over a non-empty map, in whatever order the map iterates. */
  method OldestKey<K(==, !new), V(!new)>(entries: map<K, Entry<V>>) returns (oldest: K)
    requires entries != map[]
    ensures oldest in entries
    ensures forall k :: k in entries ==> entries[oldest].sequence <= entries[k].sequence
  {
    var rest := entries.Keys;
    oldest :| oldest in entries;
    rest := rest - {oldest};
    while rest != {}
      invariant rest <= entries.Keys && oldest in entries
      invariant forall k :: k in entries && k !in rest ==> entries[oldest].sequence <= entries[k].sequence
      decreases rest
    {
      var k :| k in rest;
      if entries[k].sequence < entries[oldest].sequence {
        oldest := k;
      }
      rest := rest - {k};
    }
  }

  class IdlePool<K(==, !new), V(!new)> {
    const capacity: nat
    const lifetime: nat
    const clock: Clock
    var entries: map<K, Entry<V>>
    var nextSequence: nat
    var closed: bool
    ghost var queue: seq<Item<K, V>>
    // Stored values so far; the wrapping stamp is exact below 2^64 of them.
    ghost var puts: nat

    ghost predicate Valid()
      reads this, clock
    {
      && entries == Table(queue) && Ordered(queue)
      && |queue| <= capacity
      && (closed ==> queue == [])
      && nextSequence == puts % U64_END
      && (puts <= U64_END ==>
            forall x :: x in queue ==> x.entry.sequence < puts)
      && (forall x :: x in queue ==> x.entry.idleSince <= clock.time)
    }

    constructor (capacity: nat, lifetime: nat, clock: Clock)
      ensures Valid() && queue == [] && !closed && puts == 0
      ensures this.capacity == capacity && this.lifetime == lifetime && this.clock == clock
    {
      this.capacity := capacity;
      this.lifetime := lifetime;
      this.clock := clock;
      entries := map[];
      nextSequence := 0;
      closed := false;
      queue := [];
      puts := 0;
    }

    method PruneLocked(now: nat)
      requires Valid()
      modifies this`entries, this`queue
      ensures Valid() && queue == Live(old(queue), lifetime, now)
    {
      hide Table, Ordered, Live, Fresh;
      LiveTable(queue, lifetime, now);
      LiveMembers(queue, lifetime, now);
      entries := Retained(entries, lifetime, now);
      queue := Live(queue, lifetime, now);
    }

    method Prune()
      requires Valid()
      modifies this`entries, this`queue, clock
      ensures Valid() && queue == Live(old(queue), lifetime, clock.time)
    {
      var now := clock.Now();
      PruneLocked(now);
    }

    method TakeIfReusable(key: K, reusable: V -> bool) returns (taken: Option<V>)
      requires Valid()
      modifies this`entries, this`queue, clock
      ensures Valid()
      ensures var live := Live(old(queue), lifetime, clock.time);
              && queue == Without(live, key)
              && (taken.None? <==> forall x :: x in live && x.key == key ==> !reusable(x.entry.value))
              && (taken.Some? ==>
                    exists x :: x in live && x.key == key && x.entry.value == taken.value && reusable(taken.value))
    {
      hide Table, Ordered, Live, Fresh, Without;
      var now := clock.Now();
      PruneLocked(now);
      if closed {
        assert Without(queue, key) == [] by { WithoutMembers(queue, key); }
        return None;
      }
      ghost var live := queue;
      TableMembers(live);
      WithoutTable(live, key);
      WithoutMembers(live, key);
      var entry := if key in entries then Some(entries[key]) else None;
      entries := entries - {key};
      queue := Without(queue, key);
      if entry.None? || !reusable(entry.value.value) {
        return None;
      }
      assert Item(key, entry.value) in live;
      return Some(entry.value.value);
    }

    /** Moves the key to the newest end; overflow drops the oldest. */
    method PutIfReusable(key: K, value: V, reusable: V -> bool)
      requires Valid() && puts < U64_END
      modifies this`entries, this`queue, this`nextSequence, this`puts, clock
      ensures Valid()
      ensures !reusable(value) || closed ==>
                puts == old(puts) && (queue == old(queue) || queue == Live(old(queue), lifetime, clock.time))
      ensures reusable(value) && !closed ==>
                && puts == old(puts) + 1
                && exists now, since :: old(clock.time) <= now <= since == clock.time &&
                     var kept := Without(Live(old(queue), lifetime, now), key);
                     queue == Newest(kept + [Item(key, Entry(value, since, old(puts)))], capacity)
    {
      hide Table, Ordered, Live, Fresh, Without, Newest;
      if !reusable(value) {
        return;
      }
      var now := clock.Now();
      PruneLocked(now);
      if closed {
        return;
      }
      ghost var kept := Without(queue, key);
      WithoutTable(queue, key);
      WithoutMembers(queue, key);
      var sequence := nextSequence;
      nextSequence := (nextSequence + 1) % U64_END;
      puts := puts + 1;
      var since := clock.Now();
      var entry := Entry(value, since, sequence);
      OrderedSnoc(kept, Item(key, entry));
      entries := entries[key := entry];
      queue := kept + [Item(key, entry)];
      NewestMembers(queue, capacity);
      Evict();
    }

    method Evict()
      requires entries == Table(queue) && Ordered(queue)
      modifies this`entries, this`queue
      ensures entries == Table(queue) && Ordered(queue) && queue == Newest(old(queue), capacity)
    {
      hide Table, Ordered, Init, Last;
      TableSize(queue);
      while |entries| > capacity
        invariant entries == Table(queue) && Ordered(queue) && |entries| == |queue| <= |old(queue)|
        invariant queue == Newest(old(queue), |queue|)
        invariant |queue| >= capacity || queue == old(queue)
        decreases |queue|
      {
        var oldest := OldestKey(entries);
        OldestIsFirst(queue, oldest);
        DropOldest(queue);
        TableSize(queue[1..]);
        entries := entries - {oldest};
        queue := queue[1..];
      }
    }

    method Close()
      requires Valid()
      modifies this`entries, this`queue, this`closed
      ensures Valid() && closed && queue == []
    {
      closed := true;
      entries := map[];
      queue := [];
    }
  }
}
