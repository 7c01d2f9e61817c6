/** The response cache of an LLM provider: least-recently-used with a time to live.
    Times and the time to live are in seconds. */
module LlmCacheModel {
  import opened Options
  import opened Lists

  datatype Config = Config(enabled: bool, ttl: int, maxEntries: int)

  datatype Slot<V> = Slot(content: V, timestamp: int)

  /** An `OrderedDict`: `order` runs from the least to the most recently used key. */
  datatype Cache<K, V> = Cache(order: seq<K>, slots: map<K, Slot<V>>)

  datatype Op<K, V> = Get(key: K, now: int) | Set(key: K, content: V, now: int)

  /** `max(1, int(cache_max_entries or 1))` */
  function Capacity(c: Config): nat {
    if c.maxEntries < 1 then 1 else c.maxEntries
  }

  function MoveToEnd<K(==)>(keys: seq<K>, key: K): seq<K> {
    Without(keys, key) + [key]
  }

  predicate Fresh<V>(c: Config, slot: Slot<V>, now: int) {
    now - slot.timestamp < c.ttl
  }

  function Lookup<K, V>(c: Config, s: Cache<K, V>, key: K, now: int): Option<V> {
    if c.enabled && key in s.slots && Fresh(c, s.slots[key], now) then Some(s.slots[key].content) else None
  }

  function AfterGet<K(==), V>(c: Config, s: Cache<K, V>, key: K, now: int): Cache<K, V> {
    if !c.enabled || key !in s.slots then s
    else if Fresh(c, s.slots[key], now) then Cache(MoveToEnd(s.order, key), s.slots)
    else Cache(Without(s.order, key), s.slots - {key})
  }

  /** `popitem(last=False)` until at most `capacity` entries are left. */
  function Evict<K(==), V>(s: Cache<K, V>, capacity: nat): Cache<K, V>
    decreases |s.order|
  {
    if |s.order| <= capacity then s
    else Evict(Cache(s.order[1..], s.slots - {s.order[0]}), capacity)
  }

  function AfterSet<K(==), V>(c: Config, s: Cache<K, V>, key: K, content: V, now: int): Cache<K, V> {
    if !c.enabled then s
    else Evict(Cache(MoveToEnd(s.order, key), s.slots[key := Slot(content, now)]), Capacity(c))
  }

  function Empty<K, V>(): Cache<K, V> {
    Cache([], map[])
  }

  function Step<K(==), V>(c: Config, s: Cache<K, V>, op: Op<K, V>): Cache<K, V> {
    match op
    case Get(key, now) => AfterGet(c, s, key, now)
    case Set(key, content, now) => AfterSet(c, s, key, content, now)
  }

  function Run<K(==), V>(c: Config, ops: seq<Op<K, V>>): Cache<K, V> {
    if ops == [] then Empty() else Step(c, Run(c, ops[..|ops| - 1]), ops[|ops| - 1])
  }

  // ----- The history a run is judged by -----

  ghost predicate ClockForward<K, V>(ops: seq<Op<K, V>>) {
    forall i, j :: 0 <= i <= j < |ops| ==> ops[i].now <= ops[j].now
  }

  /** Content and time of the last `Set` of this key. */
  function LatestSet<K(==), V>(ops: seq<Op<K, V>>, key: K): Option<Slot<V>> {
    if ops == [] then None
    else
      var op := ops[|ops| - 1];
      if op.Set? && op.key == key then Some(Slot(op.content, op.now)) else LatestSet(ops[..|ops| - 1], key)
  }

  /** The key was set, and its latest `Set` is too old now. */
  predicate Expired<K(==), V>(c: Config, ops: seq<Op<K, V>>, key: K, now: int) {
    LatestSet(ops, key).Some? && !Fresh(c, LatestSet(ops, key).value, now)
  }

  /** `op` is a `Get` that comes too late for the latest `Set` before it. */
  predicate MeetsExpired<K(==), V>(c: Config, before: seq<Op<K, V>>, op: Op<K, V>) {
    op.Get? && Expired(c, before, op.key, op.now)
  }

  /** `op` makes its key the most recent one: a `Set`, or a `Get` that finds something. */
  predicate Uses<K(==), V>(c: Config, before: seq<Op<K, V>>, op: Op<K, V>)
    decreases |before|, 4
  {
    op.Set? || (Kept(c, before, op.key) && !Expired(c, before, op.key, op.now))
  }

  /** The other keys used since this one was last used, without those that a `Get` has
      met expired. */
  function LiveSince<K(==), V>(c: Config, ops: seq<Op<K, V>>, key: K): set<K>
    decreases |ops|, 0
  {
    if ops == [] then {}
    else
      var before, op := ops[..|ops| - 1], ops[|ops| - 1];
      if Uses(c, before, op) then (if op.key == key then {} else LiveSince(c, before, key) + {op.key})
      else if MeetsExpired(c, before, op) then LiveSince(c, before, key) - {op.key}
      else LiveSince(c, before, key)
  }

  /** At some point since the key was last used, as many others were live as the cache holds. */
  predicate Crowded<K(==), V>(c: Config, ops: seq<Op<K, V>>, key: K)
    decreases |ops|, 1
  {
    ops != [] &&
    var before, op := ops[..|ops| - 1], ops[|ops| - 1];
    && !(Uses(c, before, op) && op.key == key)
    && (Crowded(c, before, key) || |LiveSince(c, ops, key)| >= Capacity(c))
  }

  /** A `Get` has met the key expired since it was last used. */
  predicate Dropped<K(==), V>(c: Config, ops: seq<Op<K, V>>, key: K)
    decreases |ops|, 2
  {
    ops != [] &&
    var before, op := ops[..|ops| - 1], ops[|ops| - 1];
    && !(Uses(c, before, op) && op.key == key)
    && (Dropped(c, before, key) || (MeetsExpired(c, before, op) && op.key == key))
  }

  /** By the history alone: the key was set and has since been neither crowded out nor dropped. */
  predicate Kept<K(==), V>(c: Config, ops: seq<Op<K, V>>, key: K)
    decreases |ops|, 3
  {
    LatestSet(ops, key).Some? && !Crowded(c, ops, key) && !Dropped(c, ops, key)
  }

  /** The history after one more operation. */
  lemma HistoryStep<K, V>(c: Config, ops: seq<Op<K, V>>, op: Op<K, V>, key: K)
    ensures var after, uses := ops + [op], Uses(c, ops, op);
            && LatestSet(after, key) ==
                 (if op.Set? && op.key == key then Some(Slot(op.content, op.now)) else LatestSet(ops, key))
            && LiveSince(c, after, key) ==
                 (if uses then (if op.key == key then {} else LiveSince(c, ops, key) + {op.key})
                  else if MeetsExpired(c, ops, op) then LiveSince(c, ops, key) - {op.key}
                  else LiveSince(c, ops, key))
            && Crowded(c, after, key) == (!(uses && op.key == key) &&
                 (Crowded(c, ops, key) || |LiveSince(c, after, key)| >= Capacity(c)))
            && Dropped(c, after, key) == (!(uses && op.key == key) &&
                 (Dropped(c, ops, key) || (MeetsExpired(c, ops, op) && op.key == key)))
            && Run(c, after) == Step(c, Run(c, ops), op)
  {
    assert (ops + [op])[..|ops|] == ops;
  }

  // ----- The cache is its history -----

  /** Order and slots name the same keys, each once. */
  ghost predicate Paired<K, V>(s: Cache<K, V>) {
    && NoRepeats(s.order)
    && (forall k :: k in s.order ==> k in s.slots)
    && (forall k :: k in s.slots ==> k in s.order)
  }

  /** What is stored is the latest `Set` of its key. */
  ghost predicate Current<K, V>(s: Cache<K, V>, ops: seq<Op<K, V>>) {
    forall k :: k in s.slots ==> LatestSet(ops, k) == Some(s.slots[k])
  }

  /** The keys behind a key in the order are those live since it was used. */
  ghost predicate Behind<K, V>(c: Config, order: seq<K>, ops: seq<Op<K, V>>) {
    forall i :: 0 <= i < |order| ==> Members(order[i + 1..]) == LiveSince(c, ops, order[i])
  }

  /** Exactly the keys that the history keeps are stored. */
  ghost predicate StoresKept<K(!new), V>(c: Config, s: Cache<K, V>, ops: seq<Op<K, V>>) {
    forall k: K :: k in s.slots <==> Kept(c, ops, k)
  }

  ghost predicate Inv<K(!new), V>(c: Config, s: Cache<K, V>, ops: seq<Op<K, V>>) {
    Paired(s) && |s.order| <= Capacity(c) && Current(s, ops) && Behind(c, s.order, ops) && StoresKept(c, s, ops)
  }

  lemma EvictOnce<K, V>(s: Cache<K, V>, capacity: nat)
    requires |s.order| <= capacity + 1
    ensures Evict(s, capacity) == if |s.order| <= capacity then s else Cache(s.order[1..], s.slots - {s.order[0]})
  {
  }

  /** Dropping the first key of the order drops exactly its slot. */
  lemma DropFirst<K, V>(s: Cache<K, V>)
    requires Paired(s) && s.order != []
    ensures Paired(Cache(s.order[1..], s.slots - {s.order[0]}))
  {
    assert s.order == [s.order[0]] + s.order[1..];
  }

  lemma {:induction false} WithoutTail<K>(order: seq<K>, key: K, i: nat)
    requires i < |Without(order, key)| && NoRepeats(order)
    ensures exists j :: 0 <= j < |order| && order[j] == Without(order, key)[i]
                        && Members(Without(order, key)[i + 1..]) == Members(order[j + 1..]) - {key}
    decreases |order|
  {
    var rest := order[1..];
    var kept := Without(order, key);
    WithoutSpec(rest, key);
    if order[0] == key {
      assert kept == Without(rest, key);
      WithoutTail(rest, key, i);
      var j :| 0 <= j < |rest| && rest[j] == kept[i] && Members(kept[i + 1..]) == Members(rest[j + 1..]) - {key};
      assert order[j + 1] == rest[j] && order[j + 2..] == rest[j + 1..];
    } else if i == 0 {
      assert kept[1..] == Without(rest, key);
      assert order[0] == kept[0] && order[0 + 1..] == rest;
      assert Members(kept[1..]) == Members(rest) - {key};
    } else {
      assert NoRepeats(rest);
      WithoutTail(rest, key, i - 1);
      assert kept[1..] == Without(rest, key) && kept[i] == Without(rest, key)[i - 1];
      assert kept[i + 1..] == Without(rest, key)[i..];
      var j :| 0 <= j < |rest| && rest[j] == kept[i] && Members(kept[i + 1..]) == Members(rest[j + 1..]) - {key};
      assert order[j + 1] == rest[j] && order[j + 2..] == rest[j + 1..];
    }
  }

  /** The keys behind one in the order after another key was taken out. */
  lemma BehindWithout<K, V>(c: Config, order: seq<K>, ops: seq<Op<K, V>>, key: K, i: nat)
    requires NoRepeats(order) && Behind(c, order, ops) && i < |Without(order, key)|
    ensures Members(Without(order, key)[i + 1..]) == LiveSince(c, ops, Without(order, key)[i]) - {key}
  {
    hide LiveSince, Without;
    WithoutTail(order, key, i);
    var kept := Without(order, key);
    var j :| 0 <= j < |order| && order[j] == kept[i] && Members(kept[i + 1..]) == Members(order[j + 1..]) - {key};
  }

  /** A stored key has as many live keys behind it as its place says. */
  lemma LiveCount<K, V>(c: Config, order: seq<K>, ops: seq<Op<K, V>>, i: nat)
    requires NoRepeats(order) && Behind(c, order, ops) && i < |order|
    ensures |LiveSince(c, ops, order[i])| == |order| - i - 1
  {
    hide LiveSince;
    assert NoRepeats(order[i + 1..]);
    MembersSize(order[i + 1..]);
  }

  lemma MembersSnoc<K>(keys: seq<K>, key: K)
    ensures Members(keys + [key]) == Members(keys) + {key}
  {
  }

  /** Using a key: it is behind all others, and nothing is behind it. */
  lemma UseKeepsBehind<K, V>(c: Config, order: seq<K>, ops: seq<Op<K, V>>, op: Op<K, V>)
    requires NoRepeats(order) && Behind(c, order, ops) && Uses(c, ops, op)
    ensures Behind(c, MoveToEnd(order, op.key), ops + [op])
  {
    hide LiveSince, Uses, Without, Crowded, Dropped, LatestSet, Run;
    WithoutSpec(order, op.key);
    var kept, moved := Without(order, op.key), MoveToEnd(order, op.key);
    forall i | 0 <= i < |moved|
      ensures Members(moved[i + 1..]) == LiveSince(c, ops + [op], moved[i])
    {
      HistoryStep(c, ops, op, moved[i]);
      if i < |kept| {
        BehindWithout(c, order, ops, op.key, i);
        assert moved[i + 1..] == kept[i + 1..] + [op.key];
        MembersSnoc(kept[i + 1..], op.key);
        assert kept[i] in kept;
      } else {
        assert moved[i + 1..] == [];
      }
    }
  }

  /** A `Get` that finds nothing: only an expired key goes. */
  lemma MissKeepsBehind<K, V>(c: Config, order: seq<K>, ops: seq<Op<K, V>>, op: Op<K, V>)
    requires NoRepeats(order) && Behind(c, order, ops) && !Uses(c, ops, op)
    requires op.key in order ==> MeetsExpired(c, ops, op)
    ensures Behind(c, Without(order, op.key), ops + [op])
  {
    hide LiveSince, Uses, Without, Crowded, Dropped, LatestSet, Run, MeetsExpired;
    WithoutSpec(order, op.key);
    var kept := Without(order, op.key);
    forall i | 0 <= i < |kept|
      ensures Members(kept[i + 1..]) == LiveSince(c, ops + [op], kept[i])
    {
      HistoryStep(c, ops, op, kept[i]);
      BehindWithout(c, order, ops, op.key, i);
      if op.key !in order {
        assert kept == order;
      }
    }
  }

  /** A used key with its slot, before anything is evicted. */
  lemma UseIsPaired<K, V>(s: Cache<K, V>, key: K, slots: map<K, Slot<V>>)
    requires Paired(s) && slots.Keys == s.slots.Keys + {key}
    ensures Paired(Cache(MoveToEnd(s.order, key), slots)) && |MoveToEnd(s.order, key)| <= |s.order| + 1
    ensures key in s.order ==> |MoveToEnd(s.order, key)| <= |s.order|
  {
    WithoutSpec(s.order, key);
    assert forall k :: k in slots <==> k in slots.Keys;
    var kept := Without(s.order, key);
    assert forall k :: 0 <= k < |kept| ==> kept[k] in kept;
  }

  lemma DropKeepsBehind<K, V>(c: Config, order: seq<K>, ops: seq<Op<K, V>>)
    requires Behind(c, order, ops) && order != []
    ensures Behind(c, order[1..], ops)
  {
    hide LiveSince;
    forall i | 0 <= i < |order[1..]|
      ensures Members(order[1..][i + 1..]) == LiveSince(c, ops, order[1..][i])
    {
      assert order[1..][i + 1..] == order[i + 2..] && order[1..][i] == order[i + 1];
    }
  }

  /** Evicting down to the capacity leaves exactly the keys with fewer live ones behind them. */
  lemma EvictionIsCrowding<K, V>(c: Config, s: Cache<K, V>, ops: seq<Op<K, V>>)
    requires Paired(s) && Behind(c, s.order, ops) && |s.order| <= Capacity(c) + 1
    ensures var t := Evict(s, Capacity(c));
            && Paired(t) && Behind(c, t.order, ops) && |t.order| <= Capacity(c)
            && (forall k :: k in t.slots ==> k in s.slots && t.slots[k] == s.slots[k])
            && (forall k :: k in s.slots ==> (k in t.slots <==> |LiveSince(c, ops, k)| < Capacity(c)))
  {
    hide LiveSince, Evict;
    EvictOnce(s, Capacity(c));
    var t := Evict(s, Capacity(c));
    if |s.order| > Capacity(c) {
      DropFirst(s);
      DropKeepsBehind(c, s.order, ops);
    }
    forall k | k in s.slots
      ensures k in t.slots <==> |LiveSince(c, ops, k)| < Capacity(c)
    {
      var i :| 0 <= i < |s.order| && s.order[i] == k;
      LiveCount(c, s.order, ops, i);
    }
  }

  lemma UsedWasSet<K, V>(c: Config, ops: seq<Op<K, V>>, op: Op<K, V>)
    requires Uses(c, ops, op)
    ensures LatestSet(ops + [op], op.key).Some?
    ensures !MeetsExpired(c, ops, op)
    ensures |LiveSince(c, ops + [op], op.key)| < Capacity(c)
  {
    HistoryStep(c, ops, op, op.key);
  }

  lemma UsedStoresKept<K(!new), V>(c: Config, s: Cache<K, V>, ops: seq<Op<K, V>>, op: Op<K, V>, t: Cache<K, V>)
    requires StoresKept(c, s, ops) && Uses(c, ops, op)
    requires forall k :: k in t.slots ==> k in s.slots || k == op.key
    requires forall k: K :: k in s.slots || k == op.key ==>
               (k in t.slots <==> |LiveSince(c, ops + [op], k)| < Capacity(c))
    ensures StoresKept(c, t, ops + [op])
  {
    hide LiveSince, Uses, Crowded, Dropped, LatestSet, Run, MeetsExpired, Capacity;
    UsedWasSet(c, ops, op);
    forall k: K
      ensures k in t.slots <==> Kept(c, ops + [op], k)
    {
      HistoryStep(c, ops, op, k);
    }
  }

  /** One use of a key, with at most one key crowded out. */
  lemma UseKeeps<K(!new), V>(c: Config, s: Cache<K, V>, ops: seq<Op<K, V>>, op: Op<K, V>, slots: map<K, Slot<V>>)
    requires Inv(c, s, ops) && Uses(c, ops, op) && slots.Keys == s.slots.Keys + {op.key}
    requires Current(Cache(s.order, slots), ops + [op])
    ensures Inv(c, Evict(Cache(MoveToEnd(s.order, op.key), slots), Capacity(c)), ops + [op])
  {
    hide LiveSince, Uses, Without, MoveToEnd, Crowded, Dropped, LatestSet, Run, Evict, Behind, MeetsExpired;
    hide NoRepeats, StoresKept;
    var after, moved := ops + [op], Cache(MoveToEnd(s.order, op.key), slots);
    UseIsPaired(s, op.key, slots);
    UseKeepsBehind(c, s.order, ops, op);
    EvictionIsCrowding(c, moved, after);
    assert forall k :: k in slots <==> k in slots.Keys;
    UsedStoresKept(c, s, ops, op, Evict(moved, Capacity(c)));
  }

  lemma UnusedIsGet<K, V>(c: Config, ops: seq<Op<K, V>>, op: Op<K, V>)
    requires !Uses(c, ops, op)
    ensures op.Get?
  {
  }

  lemma StoredIsNotCrowded<K(!new), V>(c: Config, s: Cache<K, V>, ops: seq<Op<K, V>>, k: K)
    requires Inv(c, s, ops)
    ensures k in s.slots ==> |LiveSince(c, ops, k)| < Capacity(c)
  {
    hide LiveSince;
    if k in s.slots {
      var i :| 0 <= i < |s.order| && s.order[i] == k;
      LiveCount(c, s.order, ops, i);
    }
  }

  lemma LiveShrinks<K, V>(c: Config, ops: seq<Op<K, V>>, op: Op<K, V>, k: K)
    requires !Uses(c, ops, op)
    ensures |LiveSince(c, ops + [op], k)| <= |LiveSince(c, ops, k)|
  {
    hide LiveSince, Uses, Crowded, Dropped, LatestSet, Run, MeetsExpired;
    HistoryStep(c, ops, op, k);
    SubsetSize(LiveSince(c, ops + [op], k), LiveSince(c, ops, k));
  }

  /** A `Get` that finds nothing. */
  lemma MissKeeps<K(!new), V>(c: Config, s: Cache<K, V>, ops: seq<Op<K, V>>, op: Op<K, V>)
    requires Inv(c, s, ops) && !Uses(c, ops, op) && (op.key in s.slots ==> MeetsExpired(c, ops, op))
    ensures Inv(c, Cache(Without(s.order, op.key), s.slots - {op.key}), ops + [op])
  {
    hide LiveSince, Uses, Without, Crowded, Dropped, LatestSet, Run, Behind, MeetsExpired;
    var after, t := ops + [op], Cache(Without(s.order, op.key), s.slots - {op.key});
    WithoutSpec(s.order, op.key);
    MissKeepsBehind(c, s.order, ops, op);
    UnusedIsGet(c, ops, op);
    forall k: K
      ensures k in t.slots <==> Kept(c, after, k)
      ensures k in t.slots ==> LatestSet(after, k) == LatestSet(ops, k)
    {
      HistoryStep(c, ops, op, k);
      StoredIsNotCrowded(c, s, ops, k);
      LiveShrinks(c, ops, op, k);
    }
  }

  lemma StepKeeps<K(!new), V>(c: Config, s: Cache<K, V>, ops: seq<Op<K, V>>, op: Op<K, V>)
    requires c.enabled && Inv(c, s, ops)
    ensures Inv(c, Step(c, s, op), ops + [op])
  {
    hide LiveSince, Crowded, Dropped, LatestSet, Run, Behind, Evict, Without;
    forall k | k in s.slots
      ensures LatestSet(ops + [op], k) ==
                if op.Set? && op.key == k then Some(Slot(op.content, op.now)) else LatestSet(ops, k)
    {
      HistoryStep(c, ops, op, k);
    }
    HistoryStep(c, ops, op, op.key);
    assert op.key in s.slots <==> Kept(c, ops, op.key);
    WithoutSpec(s.order, op.key);
    if op.Set? {
      UseKeeps(c, s, ops, op, s.slots[op.key := Slot(op.content, op.now)]);
    } else if Uses(c, ops, op) {
      UseKeeps(c, s, ops, op, s.slots);
      UseIsPaired(s, op.key, s.slots);
      EvictOnce(Cache(MoveToEnd(s.order, op.key), s.slots), Capacity(c));
    } else {
      MissKeeps(c, s, ops, op);
      if op.key !in s.slots {
        assert Without(s.order, op.key) == s.order && s.slots - {op.key} == s.slots;
      }
    }
  }

  lemma EmptyKeeps<K(!new), V>(c: Config)
    ensures Inv(c, Empty<K, V>(), [])
  {
  }

  lemma {:induction false} RunKeeps<K(!new), V>(c: Config, ops: seq<Op<K, V>>)
    requires c.enabled
    ensures Inv(c, Run(c, ops), ops)
    decreases |ops|
  {
    hide LiveSince, Crowded, Dropped, Inv, Step;
    if ops == [] {
      EmptyKeeps<K, V>(c);
    } else {
      var before, op := ops[..|ops| - 1], ops[|ops| - 1];
      assert ops == before + [op];
      RunKeeps(c, before);
      StepKeeps(c, Run(c, before), before, op);
    }
  }

  lemma {:induction false} DisabledStaysEmpty<K, V>(c: Config, ops: seq<Op<K, V>>)
    requires !c.enabled
    ensures Run(c, ops) == Empty()
    decreases |ops|
  {
    if ops != [] {
      DisabledStaysEmpty(c, ops[..|ops| - 1]);
    }
  }

  // ----- What a reader can rely on -----

  /** Whatever gets and sets came before and whatever the clock did: the answer is the
      content of the key's latest `Set`, if the history keeps the key and that `Set` was
      less than the time to live ago. */
  lemma LookupExactly<K(!new), V>(c: Config, ops: seq<Op<K, V>>, key: K, now: int)
    ensures Lookup(c, Run(c, ops), key, now) ==
              if c.enabled && Kept(c, ops, key) && now - LatestSet(ops, key).value.timestamp < c.ttl
              then Some(LatestSet(ops, key).value.content) else None
  {
    hide LiveSince, Crowded, Dropped, Behind;
    if c.enabled {
      RunKeeps(c, ops);
      assert key in Run(c, ops).slots <==> Kept(c, ops, key);
    }
  }

  /** A hit is the content of the key's latest `Set`, made less than the time to live ago. */
  lemma HitIsLatestSet<K(!new), V>(c: Config, ops: seq<Op<K, V>>, key: K, now: int)
    ensures var answer := Lookup(c, Run(c, ops), key, now);
            answer.Some? ==>
              && LatestSet(ops, key).Some?
              && answer.value == LatestSet(ops, key).value.content
              && now - LatestSet(ops, key).value.timestamp < c.ttl
  {
    hide LiveSince, Crowded, Dropped, Run;
    LookupExactly(c, ops, key, now);
  }

  lemma {:induction false} DroppedIsExpired<K(!new), V>(c: Config, ops: seq<Op<K, V>>, key: K, now: int)
    requires ClockForward(ops) && (ops != [] ==> ops[|ops| - 1].now <= now) && Dropped(c, ops, key)
    ensures Expired(c, ops, key, now)
    decreases |ops|
  {
    hide LiveSince, Crowded;
    var before, op := ops[..|ops| - 1], ops[|ops| - 1];
    if Dropped(c, before, key) {
      assert ClockForward(before);
      DroppedIsExpired(c, before, key, op.now);
    }
  }

  /** Where the clock has not gone back, a `Get` misses exactly for a key that was never
      set, has expired, or was crowded out. */
  lemma MissExactly<K(!new), V>(c: Config, ops: seq<Op<K, V>>, key: K, now: int)
    requires c.enabled && ClockForward(ops) && (ops != [] ==> ops[|ops| - 1].now <= now)
    ensures Lookup(c, Run(c, ops), key, now) == None <==>
              || LatestSet(ops, key) == None
              || now - LatestSet(ops, key).value.timestamp >= c.ttl
              || Crowded(c, ops, key)
  {
    hide LiveSince, Crowded, Dropped, Run, LatestSet;
    LookupExactly(c, ops, key, now);
    if Dropped(c, ops, key) {
      DroppedIsExpired(c, ops, key, now);
    }
  }

  /** The cache never holds more than its maximum, or one entry if that is less, each key
      once. */
  lemma NeverOverCapacity<K(!new), V>(c: Config, ops: seq<Op<K, V>>)
    ensures var s := Run(c, ops);
            && |s.slots| == |s.order| && NoRepeats(s.order)
            && (c.maxEntries >= 1 ==> |s.order| <= c.maxEntries)
            && (c.maxEntries < 1 ==> |s.order| <= 1)
  {
    hide LiveSince, Behind, Kept, LatestSet;
    if c.enabled {
      RunKeeps(c, ops);
      var s := Run(c, ops);
      MembersSize(s.order);
      assert s.slots.Keys == Members(s.order);
    } else {
      DisabledStaysEmpty(c, ops);
    }
  }

  // ----- Counting all keys used since -----

  /** The keys used, in order. */
  function Touches<K(==), V>(c: Config, ops: seq<Op<K, V>>): seq<K> {
    if ops == [] then []
    else
      var before, op := ops[..|ops| - 1], ops[|ops| - 1];
      Touches(c, before) + (if Uses(c, before, op) then [op.key] else [])
  }

  /** The keys used since this key was last used (all of them, if it never was). */
  function Since<K(==)>(touches: seq<K>, key: K): seq<K> {
    if touches == [] then []
    else
      var last := touches[|touches| - 1];
      if last == key then [] else Since(touches[..|touches| - 1], key) + [last]
  }

  /** How many other keys were used since this key was last used. */
  function OthersSince<K(==)>(touches: seq<K>, key: K): nat {
    |Members(Since(touches, key))|
  }

  lemma SinceStep<K>(touches: seq<K>, used: K, key: K)
    ensures Since(touches + [used], key) == if used == key then [] else Since(touches, key) + [used]
  {
    assert (touches + [used])[..|touches|] == touches;
  }

  lemma TouchesStep<K, V>(c: Config, ops: seq<Op<K, V>>, op: Op<K, V>)
    ensures Touches(c, ops + [op]) == Touches(c, ops) + (if Uses(c, ops, op) then [op.key] else [])
  {
    assert (ops + [op])[..|ops|] == ops;
  }

  lemma {:induction false} LiveWereUsed<K, V>(c: Config, ops: seq<Op<K, V>>, key: K)
    ensures LiveSince(c, ops, key) <= Members(Since(Touches(c, ops), key))
    decreases |ops|
  {
    hide Uses, Since, MeetsExpired;
    if ops != [] {
      var before, op := ops[..|ops| - 1], ops[|ops| - 1];
      LiveWereUsed(c, before, key);
      SinceStep(Touches(c, before), op.key, key);
      assert Touches(c, before) + [] == Touches(c, before);
    }
  }

  lemma {:induction false} CrowdedByOthers<K, V>(c: Config, ops: seq<Op<K, V>>, key: K)
    requires Crowded(c, ops, key)
    ensures OthersSince(Touches(c, ops), key) >= Capacity(c)
    decreases |ops|
  {
    hide Uses, Since, LiveSince, MeetsExpired;
    var before, op := ops[..|ops| - 1], ops[|ops| - 1];
    if Crowded(c, before, key) {
      CrowdedByOthers(c, before, key);
      SinceStep(Touches(c, before), op.key, key);
      assert Touches(c, before) + [] == Touches(c, before);
      SubsetSize(Members(Since(Touches(c, before), key)), Members(Since(Touches(c, ops), key)));
    } else {
      LiveWereUsed(c, ops, key);
      SubsetSize(LiveSince(c, ops, key), Members(Since(Touches(c, ops), key)));
    }
  }

  /** A miss is one of three: never set, expired, or at least as many other keys used
      since as the cache holds. */
  lemma MissIsExplained<K(!new), V>(c: Config, ops: seq<Op<K, V>>, key: K, now: int)
    requires c.enabled && ClockForward(ops) && (ops != [] ==> ops[|ops| - 1].now <= now)
    ensures Lookup(c, Run(c, ops), key, now) == None ==>
              || LatestSet(ops, key) == None
              || now - LatestSet(ops, key).value.timestamp >= c.ttl
              || OthersSince(Touches(c, ops), key) >= (if c.maxEntries < 1 then 1 else c.maxEntries)
  {
    hide LiveSince, Crowded, Run, LatestSet, OthersSince, Touches;
    MissExactly(c, ops, key, now);
    if Crowded(c, ops, key) {
      CrowdedByOthers(c, ops, key);
    }
  }

  /** One more operation, with what it uses told by the cache. */
  lemma RoomStep(c: Config, ops: seq<Op<char, int>>, op: Op<char, int>)
    requires c.enabled
    ensures Run(c, ops + [op]) == Step(c, Run(c, ops), op)
    ensures Touches(c, ops + [op]) ==
              Touches(c, ops) + (if op.Set? || Lookup(c, Run(c, ops), op.key, op.now).Some? then [op.key] else [])
  {
    hide Run, Touches, Step, LiveSince, Crowded, Dropped, LatestSet;
    HistoryStep(c, ops, op, op.key);
    TouchesStep(c, ops, op);
    LookupExactly(c, ops, op.key, op.now);
  }

  lemma RunNothing<K, V>(c: Config)
    ensures Run<K, V>(c, []) == Empty() && Touches<K, V>(c, []) == []
  {
  }

  lemma RoomKeys()
    ensures Without([], 'a') == [] && Without(['a'], 'k') == ['a'] && Without(['k'], 'b') == ['k']
    ensures Without(['a', 'k'], 'a') == ['k'] && Without(['k', 'a'], 'a') == ['k']
  {
    assert ['a', 'k'][1..] == ['k'] && ['k', 'a'][1..] == ['a'];
    assert ['a'][1..] == [] && ['k'][1..] == [];
  }

  lemma RoomSteps(c: Config)
    requires c == Config(true, 10, 2)
    ensures var s1 := Cache(['a'], map['a' := Slot(1, 0)]);
            var s2 := Cache(['a', 'k'], map['a' := Slot(1, 0), 'k' := Slot(2, 5)]);
            var s3 := Cache(['k', 'a'], map['a' := Slot(1, 0), 'k' := Slot(2, 5)]);
            var s4 := Cache(['k'], map['k' := Slot(2, 5)]);
            var s5 := Cache(['k', 'b'], map['k' := Slot(2, 5), 'b' := Slot(3, 12)]);
            && Step(c, Empty(), Set('a', 1, 0)) == s1
            && Step(c, s1, Set('k', 2, 5)) == s2
            && Step(c, s2, Get('a', 6)) == s3
            && Step(c, s3, Get('a', 11)) == s4
            && Step(c, s4, Set('b', 3, 12)) == s5
  {
    RoomKeys();
  }

  lemma RoomRun(c: Config, ops: seq<Op<char, int>>)
    requires c == Config(true, 10, 2)
    requires ops == [Set('a', 1, 0), Set('k', 2, 5), Get('a', 6), Get('a', 11), Set('b', 3, 12)]
    ensures Run(c, ops) == Cache(['k', 'b'], map['k' := Slot(2, 5), 'b' := Slot(3, 12)])
    ensures Touches(c, ops) == ['a', 'k'] + ['a'] + ['b']
  {
    hide Run, Touches, Step, Uses;
    RoomSteps(c);
    RunNothing<char, int>(c);
    RoomStep(c, [], Set('a', 1, 0));
    RoomStep(c, [] + [Set('a', 1, 0)], Set('k', 2, 5));
    RoomStep(c, [] + [Set('a', 1, 0)] + [Set('k', 2, 5)], Get('a', 6));
    RoomStep(c, [] + [Set('a', 1, 0)] + [Set('k', 2, 5)] + [Get('a', 6)], Get('a', 11));
    RoomStep(c, [] + [Set('a', 1, 0)] + [Set('k', 2, 5)] + [Get('a', 6)] + [Get('a', 11)], Set('b', 3, 12));
    assert ops == [] + [Set('a', 1, 0)] + [Set('k', 2, 5)] + [Get('a', 6)] + [Get('a', 11)] + [Set('b', 3, 12)];
  }

  lemma RoomCount()
    ensures OthersSince(['a', 'k'] + ['a'] + ['b'], 'k') == 2
  {
    hide Since;
    SinceStep(['a', 'k'] + ['a'], 'b', 'k');
    SinceStep(['a', 'k'], 'a', 'k');
    SinceStep(['a'], 'k', 'k');
    assert ['a'] + ['k'] == ['a', 'k'];
    assert Since(['a', 'k'] + ['a'] + ['b'], 'k') == ['a', 'b'];
    assert Members(['a', 'b']) == {'a', 'b'};
    assert |{'a', 'b'}| == 2;
  }

  /** Counting all keys used since does not give the exact condition: an entry that
      expires makes room. Here two other keys are used after 'k' in a cache of two, and
      'k' is still found. */
  lemma ExpiryMakesRoom()
    ensures exists c: Config, ops: seq<Op<char, int>> ::
              && c.enabled && ClockForward(ops)
              && OthersSince(Touches(c, ops), 'k') >= 2 == c.maxEntries
              && Lookup(c, Run(c, ops), 'k', 13).Some?
  {
    hide Run, Touches, OthersSince;
    var c := Config(true, 10, 2);
    var ops := [Set('a', 1, 0), Set('k', 2, 5), Get('a', 6), Get('a', 11), Set('b', 3, 12)];
    RoomRun(c, ops);
    RoomCount();
    assert ClockForward(ops);
  }
}

/** The cache object of a provider. */
module LlmCache {
  import opened Options
  import opened Lists
  import opened LlmCacheModel

  class ProviderCache<K(==), V> {
    const config: Config
    var order: seq<K>
    var slots: map<K, Slot<V>>

    ghost function Abs(): Cache<K, V>
      reads this
    {
      Cache(order, slots)
    }

    constructor (config: Config)
      ensures this.config == config && Abs() == Empty()
    {
      this.config := config;
      order, slots := [], map[];
    }

    /** A hit makes the key the most recent one; an expired entry is dropped. */
    method GetCached(key: K, now: int) returns (content: Option<V>)
      modifies this
      ensures content == old(Lookup(config, Abs(), key, now))
      ensures Abs() == AfterGet(config, old(Abs()), key, now)
    {
      if !config.enabled {
        return None;
      }
      if key in slots {
        var slot := slots[key];
        if now - slot.timestamp < config.ttl {
          order := MoveToEnd(order, key);
          return Some(slot.content);
        } else {
          order, slots := Without(order, key), slots - {key};
        }
      }
      return None;
    }

    method SetCache(key: K, content: V, now: int)
      modifies this
      ensures Abs() == AfterSet(config, old(Abs()), key, content, now)
    {
      if config.enabled {
        slots := slots[key := Slot(content, now)];
        order := MoveToEnd(order, key);
        var maxEntries := Capacity(config);
        while |order| > maxEntries
          invariant Evict(Abs(), maxEntries) == AfterSet(config, old(Abs()), key, content, now)
          decreases |order|
        {
          slots := slots - {order[0]};
          order := order[1..];
        }
      }
    }

    /** Executing a run gives the run's cache, and every answer is its lookup. */
    method Replay(ops: seq<Op<K, V>>) returns (answers: seq<Option<V>>)
      requires Abs() == Empty()
      modifies this
      ensures Abs() == Run(config, ops)
      ensures |answers| == |ops|
      ensures forall n :: 0 <= n < |ops| && ops[n].Get? ==>
                answers[n] == Lookup(config, Run(config, ops[..n]), ops[n].key, ops[n].now)
    {
      answers := [];
      for n := 0 to |ops|
        invariant Abs() == Run(config, ops[..n]) && |answers| == n
        invariant forall m :: 0 <= m < n && ops[m].Get? ==>
                    answers[m] == Lookup(config, Run(config, ops[..m]), ops[m].key, ops[m].now)
      {
        assert ops[..n + 1][..n] == ops[..n];
        match ops[n] {
          case Get(key, now) =>
            var content := GetCached(key, now);
            answers := answers + [content];
          case Set(key, content, now) =>
            SetCache(key, content, now);
            answers := answers + [None];
        }
      }
      assert ops[..|ops|] == ops;
    }
  }
}
