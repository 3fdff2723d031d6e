/** The in-process half of the cache: an L1 map and the generation counter that fences late replies. */
module L1Cache {
  import opened Prelude
  import opened NamespaceGlob

  /** L1 contents and `l1Generation`. */
  datatype L1<V> = L1(entries: map<string, V>, generation: nat)

  function Invalidate<V>(l: L1<V>, key: string): L1<V> {
    L1(l.entries - {key}, l.generation + 1)
  }

  function ClearPattern<V>(l: L1<V>, namespace: string): L1<V> {
    L1(map k | k in l.entries && !L1Covers(namespace, k) :: l.entries[k], l.generation + 1)
  }

  /** A read reply fills L1 only when no fence was raised since the read began. */
  function FillIfCurrent<V>(l: L1<V>, generation: nat, key: string, value: V): L1<V> {
    if generation == l.generation then l.(entries := l.entries[key := value]) else l
  }

  /** A confirmed write fences first, then fills if nothing else raised the fence meanwhile. */
  function CommitSet<V>(l: L1<V>, generation: nat, key: string, value: V): L1<V> {
    var fenced := Invalidate(l, key);
    if generation == l.generation then fenced.(entries := fenced.entries[key := value]) else fenced
  }

  /** What L1 answers a get with. */
  function Hit<V>(l: L1<V>, key: string): Option<V> {
    if key in l.entries then Some(l.entries[key]) else None
  }

  function Evict<V>(l: L1<V>, keys: set<string>): L1<V> {
    l.(entries := l.entries - keys)
  }

  function NamespacedKey(namespace: string, key: string): string { namespace + ":" + key }

  /** The code that runs between two awaits, operating in place. */
  class CacheService<V> {
    var l1Cache: map<string, V>
    var l1Generation: nat

    constructor ()
      ensures View() == L1(map[], 0)
    {
      l1Cache := map[];
      l1Generation := 0;
    }

    function View(): L1<V>
      reads this
    {
      L1(l1Cache, l1Generation)
    }

    method InvalidateL1(key: string)
      modifies this
      ensures View() == Invalidate(old(View()), key)
    {
      l1Generation := l1Generation + 1;
      l1Cache := l1Cache - {key};
    }

    method ClearL1Pattern(namespace: string)
      modifies this
      ensures View() == ClearPattern(old(View()), namespace)
    {
      l1Generation := l1Generation + 1;
      var prefix := RemoveFirstStar(Pattern(namespace));
      var keysToDelete: set<string> := {};
      var rest := l1Cache.Keys;
      while rest != {}
        invariant l1Cache == old(l1Cache) && l1Generation == old(l1Generation) + 1
        invariant rest <= l1Cache.Keys
        invariant forall k :: k in keysToDelete <==> k in l1Cache && k !in rest && L1Covers(namespace, k)
        decreases rest
      {
        var key :| key in rest;
        if prefix <= key {
          keysToDelete := keysToDelete + {key};
        }
        rest := rest - {key};
      }
      l1Cache := l1Cache - keysToDelete;
    }

    /** get, up to the Redis call: an L1 hit, or the generation the reply will be checked against. */
    method GetBegin(namespace: string, key: string) returns (hit: Option<V>, generation: nat)
      ensures generation == l1Generation && hit == Hit(View(), NamespacedKey(namespace, key))
    {
      var k := NamespacedKey(namespace, key);
      hit := if k in l1Cache then Some(l1Cache[k]) else None;
      generation := l1Generation;
    }

    /** get, on the Redis reply: a missing key fills nothing. */
    method GetReply(k: string, generation: nat, reply: Option<string>, decode: string -> V) returns (answer: Option<V>)
      modifies this
      ensures answer == if reply.None? then None else Some(decode(reply.value))
      ensures View() == if reply.None? then old(View()) else FillIfCurrent(old(View()), generation, k, decode(reply.value))
    {
      if reply.None? {
        return None;
      }
      var parsed := decode(reply.value);
      if generation == l1Generation {
        l1Cache := l1Cache[k := parsed];
      }
      return Some(parsed);
    }

    /** set, up to the Redis call; an out-of-range TTL is rejected before anything changes. */
    method SetBegin(k: string, ttl: Option<int>) returns (accepted: bool, generation: nat)
      modifies this
      ensures accepted <==> (ttl.None? || 0 < ttl.value <= MAX_SAFE_INTEGER)
      ensures View() == if accepted then Invalidate(old(View()), k) else old(View())
      ensures generation == l1Generation
    {
      generation := l1Generation;
      if ttl.Some? && !(0 < ttl.value <= MAX_SAFE_INTEGER) {
        return false, generation;
      }
      InvalidateL1(k);
      return true, l1Generation;
    }

    /** set, on the Redis confirmation. */
    method SetConfirm(k: string, generation: nat, value: V)
      modifies this
      ensures View() == CommitSet(old(View()), generation, k, value)
    {
      var canPopulate := generation == l1Generation;
      InvalidateL1(k);
      if canPopulate {
        l1Cache := l1Cache[k := value];
      }
    }
  }

  const MAX_SAFE_INTEGER := 9_007_199_254_740_991
}

/** Every interleaving of cache operations in one process, one step per await boundary.

  Redis is a map; TTL ageing is not modelled.  A command that answers with an error has either
  taken effect before the error or not at all.
*/
module TwoLevelCache {
  import opened Prelude
  import opened NamespaceGlob
  import opened L1Cache

  datatype Codec<!V> = Codec(encode: V -> string, decode: string -> V)

  datatype Mutation<V> =
    | Set(key: string, value: V)
    | Delete(key: string)
    | Expire(key: string, ttl: int)
    | Clear(namespace: string)

  datatype Phase = Started | Listed(keys: set<string>) | Done

  /** An operation between its first and last step. */
  datatype Op<V> =
    | Get(key: string, generation: nat, reply: Option<Option<string>>)
    | Mutate(mutation: Mutation<V>, generation: nat, phase: Phase)

  datatype State<V> = State(l1: L1<V>, redis: map<string, string>, ops: map<nat, Op<V>>)

  /** A step that is not enabled changes nothing.  A read that has timed out is still there, to finish late or to be dropped. */
  datatype Step<V> =
    | StartGet(id: nat, key: string)
    | ReadRedis(id: nat)
    | FinishGet(id: nat)
    | FailGet(id: nat)
    | TimeOutGet(id: nat)
    | DropGet(id: nat)
    | Start(id: nat, mutation: Mutation<V>)
    | WriteRedis(id: nat)
    | Finish(id: nat, ok: bool)
    | Fence(key: string)
    | EvictL1(keys: set<string>)

  function Lookup(redis: map<string, string>, key: string): Option<string> {
    if key in redis then Some(redis[key]) else None
  }

  /** The L1 part of a mutation's first step. */
  function StartL1<V>(l: L1<V>, m: Mutation<V>): L1<V> {
    if m.Clear? then ClearPattern(l, m.namespace) else Invalidate(l, m.key)
  }

  /** The L1 part of a mutation's last step. */
  function FinishL1<V>(l: L1<V>, m: Mutation<V>, generation: nat, ok: bool): L1<V> {
    if m.Clear? then ClearPattern(l, m.namespace)
    else if m.Set? && ok then CommitSet(l, generation, m.key, m.value)
    else Invalidate(l, m.key)
  }

  /** The Redis part of a mutation: clearNamespace lists keys and deletes them in two commands. */
  function NextPhase<V>(redis: map<string, string>, m: Mutation<V>, phase: Phase): Phase {
    if m.Clear? && phase.Started? then Listed(set k | k in redis && RedisCovers(m.namespace, k)) else Done
  }

  function Written<V>(c: Codec<V>, redis: map<string, string>, m: Mutation<V>, phase: Phase): map<string, string> {
    match phase
    case Done => redis
    case Listed(keys) => redis - keys
    case Started =>
      match m
      case Set(k, v) => redis[k := c.encode(v)]
      case Delete(k) => redis - {k}
      case Expire(k, ttl) => if ttl <= 0 then redis - {k} else redis
      case Clear(_) => redis
  }

  function Without<V>(ops: map<nat, Op<V>>, id: nat): map<nat, Op<V>> { ops - {id} }

  function Apply<V>(c: Codec<V>, s: State<V>, step: Step<V>): State<V> {
    match step
    case StartGet(id, key) =>
      if id in s.ops || Hit(s.l1, key).Some? then s
      else s.(ops := s.ops[id := Get(key, s.l1.generation, None)])
    case ReadRedis(id) =>
      if id in s.ops && s.ops[id].Get? && s.ops[id].reply.None?
      then s.(ops := s.ops[id := s.ops[id].(reply := Some(Lookup(s.redis, s.ops[id].key)))])
      else s
    case FinishGet(id) =>
      if id in s.ops && s.ops[id].Get? && s.ops[id].reply.Some?
      then
        var g := s.ops[id];
        var l1 := if g.reply.value.None? then s.l1
                  else FillIfCurrent(s.l1, g.generation, g.key, c.decode(g.reply.value.value));
        s.(l1 := l1, ops := Without(s.ops, id))
      else s
    case FailGet(id) =>
      if id in s.ops && s.ops[id].Get?
      then s.(l1 := Invalidate(s.l1, s.ops[id].key), ops := Without(s.ops, id))
      else s
    case TimeOutGet(id) =>
      if id in s.ops && s.ops[id].Get? then s.(l1 := Invalidate(s.l1, s.ops[id].key)) else s
    case DropGet(id) =>
      if id in s.ops && s.ops[id].Get? then s.(ops := Without(s.ops, id)) else s
    case Start(id, m) =>
      if id in s.ops then s
      else
        var l1 := StartL1(s.l1, m);
        s.(l1 := l1, ops := s.ops[id := Mutate(m, l1.generation, Started)])
    case WriteRedis(id) =>
      if id in s.ops && s.ops[id].Mutate?
      then
        var o := s.ops[id];
        s.(redis := Written(c, s.redis, o.mutation, o.phase),
           ops := s.ops[id := o.(phase := NextPhase(s.redis, o.mutation, o.phase))])
      else s
    case Finish(id, ok) =>
      if id in s.ops && s.ops[id].Mutate? && (ok ==> s.ops[id].phase == Done || s.ops[id].phase == Listed({}))
      then
        var o := s.ops[id];
        s.(l1 := FinishL1(s.l1, o.mutation, o.generation, ok), ops := Without(s.ops, id))
      else s
    case Fence(key) => s.(l1 := Invalidate(s.l1, key))
    case EvictL1(keys) => s.(l1 := Evict(s.l1, keys))
  }

  function Run<V>(c: Codec<V>, s: State<V>, steps: seq<Step<V>>): State<V>
    decreases |steps|
  {
    if steps == [] then s else Run(c, Apply(c, s, steps[0]), steps[1..])
  }

  function Initial<V>(redis: map<string, string>): State<V> {
    State(L1(map[], 0), redis, map[])
  }

  // ---------------------------------------------------------------- coherence

  /** The mutation may change what Redis holds for the key. */
  predicate Touches<V>(o: Op<V>, key: string) {
    o.Mutate? && if o.mutation.Clear? then RedisCovers(o.mutation.namespace, key) else o.mutation.key == key
  }

  /** Some mutation of the key is between its first and its last step. */
  ghost predicate Mutating<V>(s: State<V>, key: string) {
    exists id :: id in s.ops && Touches(s.ops[id], key)
  }

  /** An L1 entry for the key is what a read of Redis would give. */
  ghost predicate Coherent<V>(c: Codec<V>, s: State<V>, key: string) {
    key in s.l1.entries ==> key in s.redis && s.l1.entries[key] == c.decode(s.redis[key])
  }

  /** The step starts no mutation that the L1 side cannot follow. */
  ghost predicate Sound<V>(c: Codec<V>, step: Step<V>) {
    step.Start? ==>
      && (step.mutation.Set? ==> c.decode(c.encode(step.mutation.value)) == step.mutation.value)
      && (step.mutation.Clear? ==> Followed(step.mutation.namespace))
  }

  /** What every operation in flight keeps, whatever the key. */
  ghost predicate OpInv<V>(c: Codec<V>, s: State<V>, o: Op<V>) {
    && o.generation <= s.l1.generation
    && (o.Mutate? ==> Sound(c, Start(0, o.mutation)))
    && (o.Mutate? && o.phase.Listed? ==> o.mutation.Clear? && forall k :: k in o.phase.keys ==> RedisCovers(o.mutation.namespace, k))
  }

  ghost predicate OpsInv<V>(c: Codec<V>, s: State<V>) {
    forall id :: id in s.ops ==> OpInv(c, s, s.ops[id])
  }

  /** Whether L1 agrees or not, a current reply and a current confirmed write agree with Redis. */
  ghost predicate ReplyCurrent<V>(s: State<V>, o: Op<V>, key: string) {
    o.Get? && o.key == key && o.generation == s.l1.generation && o.reply.Some? ==> o.reply.value == Lookup(s.redis, key)
  }

  ghost predicate Alone<V>(s: State<V>, id: nat, key: string) {
    forall j :: j in s.ops && Touches(s.ops[j], key) ==> j == id
  }

  ghost predicate WriteCurrent<V>(c: Codec<V>, s: State<V>, id: nat, key: string)
    requires id in s.ops
  {
    var o := s.ops[id];
    (&& o.Mutate? && o.mutation.Set? && o.mutation.key == key && o.phase == Done
     && o.generation == s.l1.generation && Alone(s, id, key)
    ) ==> Lookup(s.redis, key) == Some(c.encode(o.mutation.value))
  }

  ghost predicate KeyInv<V>(c: Codec<V>, s: State<V>, key: string) {
    && (!Mutating(s, key) ==> Coherent(c, s, key))
    && (!Mutating(s, key) ==> forall id :: id in s.ops ==> ReplyCurrent(s, s.ops[id], key))
    && (forall id :: id in s.ops ==> WriteCurrent(c, s, id, key))
  }

  /** Removing an operation that does not touch the key, or any L1 entries, changes nothing about who mutates it. */
  lemma MutatingFrame<V>(s: State<V>, t: State<V>, key: string)
    requires forall id :: id in s.ops && Touches(s.ops[id], key) ==> id in t.ops && Touches(t.ops[id], key)
    ensures Mutating(s, key) ==> Mutating(t, key)
  {
  }

  lemma OpsInvStep<V>(c: Codec<V>, s: State<V>, step: Step<V>)
    requires OpsInv(c, s) && Sound(c, step)
    ensures OpsInv(c, Apply(c, s, step))
  {
  }

  lemma StartGetKeeps<V>(c: Codec<V>, s: State<V>, id: nat, k: string, key: string)
    requires OpsInv(c, s) && KeyInv(c, s, key)
    ensures KeyInv(c, Apply(c, s, StartGet(id, k)), key)
  {
    MutatingFrame(s, Apply(c, s, StartGet(id, k)), key);
  }

  lemma ReadRedisKeeps<V>(c: Codec<V>, s: State<V>, id: nat, key: string)
    requires OpsInv(c, s) && KeyInv(c, s, key)
    ensures KeyInv(c, Apply(c, s, ReadRedis(id)), key)
  {
    MutatingFrame(s, Apply(c, s, ReadRedis(id)), key);
  }

  lemma EndGetKeeps<V>(c: Codec<V>, s: State<V>, step: Step<V>, key: string)
    requires step.FinishGet? || step.FailGet? || step.TimeOutGet? || step.DropGet?
    requires OpsInv(c, s) && KeyInv(c, s, key)
    ensures KeyInv(c, Apply(c, s, step), key)
  {
    MutatingFrame(s, Apply(c, s, step), key);
  }

  lemma LocalKeeps<V>(c: Codec<V>, s: State<V>, step: Step<V>, key: string)
    requires step.Fence? || step.EvictL1?
    requires OpsInv(c, s) && KeyInv(c, s, key)
    ensures KeyInv(c, Apply(c, s, step), key)
  {
    MutatingFrame(s, Apply(c, s, step), key);
  }

  /** A first step raises the fence, so no earlier reply or write is current any more. */
  lemma StartKeeps<V>(c: Codec<V>, s: State<V>, id: nat, m: Mutation<V>, key: string)
    requires OpsInv(c, s) && KeyInv(c, s, key)
    ensures KeyInv(c, Apply(c, s, Start(id, m)), key)
  {
    MutatingFrame(s, Apply(c, s, Start(id, m)), key);
  }

  /** A Redis command changes only keys its own operation is mutating. */
  lemma WriteRedisKeeps<V>(c: Codec<V>, s: State<V>, id: nat, key: string)
    requires OpsInv(c, s) && KeyInv(c, s, key)
    ensures KeyInv(c, Apply(c, s, WriteRedis(id)), key)
  {
    var t := Apply(c, s, WriteRedis(id));
    if t != s {
      var o := s.ops[id];
      assert Touches(t.ops[id], key) == Touches(o, key);
      assert !Touches(o, key) ==> Lookup(t.redis, key) == Lookup(s.redis, key);
      MutatingFrame(s, t, key);
      MutatingFrame(t, s, key);
      forall j | j in t.ops ensures WriteCurrent(c, t, j, key) {
        assert Alone(t, j, key) ==> Alone(s, j, key) && (j != id ==> !Touches(o, key));
        assert WriteCurrent(c, s, j, key);
      }
    }
  }

  /** A last step fences again; only a write that ran alone leaves an entry behind, its own. */
  lemma FinishKeeps<V>(c: Codec<V>, s: State<V>, id: nat, ok: bool, key: string)
    requires OpsInv(c, s) && KeyInv(c, s, key)
    ensures KeyInv(c, Apply(c, s, Finish(id, ok)), key)
  {
    var t := Apply(c, s, Finish(id, ok));
    if t != s {
      var o := s.ops[id];
      if !Touches(o, key) {
        MutatingFrame(s, t, key);
        UntouchedByFinish(s, o, ok, key);
      } else if !Mutating(t, key) {
        AloneOrMutating(s, t, id, key);
        assert WriteCurrent(c, s, id, key);
        TouchedByFinish(s, o, ok, key);
      }
    }
  }

  lemma AloneOrMutating<V>(s: State<V>, t: State<V>, id: nat, key: string)
    requires t.ops == Without(s.ops, id)
    ensures Alone(s, id, key) || Mutating(t, key)
  {
    if !Alone(s, id, key) {
      var j :| j in s.ops && Touches(s.ops[j], key) && j != id;
      assert Touches(t.ops[j], key);
    }
  }

  lemma UntouchedByFinish<V>(s: State<V>, o: Op<V>, ok: bool, key: string)
    requires o.Mutate? && !Touches(o, key)
    ensures var l := FinishL1(s.l1, o.mutation, o.generation, ok);
      key in l.entries ==> key in s.l1.entries && l.entries[key] == s.l1.entries[key]
  {
  }

  lemma TouchedByFinish<V>(s: State<V>, o: Op<V>, ok: bool, key: string)
    requires Touches(o, key) && (o.mutation.Clear? ==> Followed(o.mutation.namespace))
    ensures var l := FinishL1(s.l1, o.mutation, o.generation, ok);
      key in l.entries ==> o.mutation.Set? && ok && o.generation == s.l1.generation && l.entries[key] == o.mutation.value
  {
    if o.mutation.Clear? { FollowedIff(o.mutation.namespace); }
  }

  lemma StepKeeps<V>(c: Codec<V>, s: State<V>, step: Step<V>, key: string)
    requires OpsInv(c, s) && KeyInv(c, s, key) && Sound(c, step)
    ensures OpsInv(c, Apply(c, s, step)) && KeyInv(c, Apply(c, s, step), key)
  {
    OpsInvStep(c, s, step);
    match step {
      case StartGet(id, k) => StartGetKeeps(c, s, id, k, key);
      case ReadRedis(id) => ReadRedisKeeps(c, s, id, key);
      case Start(id, m) => StartKeeps(c, s, id, m, key);
      case WriteRedis(id) => WriteRedisKeeps(c, s, id, key);
      case Finish(id, ok) => FinishKeeps(c, s, id, ok, key);
      case Fence(_) => LocalKeeps(c, s, step, key);
      case EvictL1(_) => LocalKeeps(c, s, step, key);
      case _ => EndGetKeeps(c, s, step, key);
    }
  }

  lemma {:induction false} RunKeeps<V>(c: Codec<V>, s: State<V>, steps: seq<Step<V>>, key: string)
    requires OpsInv(c, s) && KeyInv(c, s, key)
    requires forall i :: 0 <= i < |steps| ==> Sound(c, steps[i])
    ensures OpsInv(c, Run(c, s, steps)) && KeyInv(c, Run(c, s, steps), key)
    decreases |steps|
  {
    if steps != [] {
      StepKeeps(c, s, steps[0], key);
      RunKeeps(c, Apply(c, s, steps[0]), steps[1..], key);
    }
  }

  /** Cache coherence: after any run, with no mutation of the key in flight, L1 does not disagree with Redis. */
  lemma L1CoherentAtRest<V>(c: Codec<V>, redis: map<string, string>, steps: seq<Step<V>>, key: string)
    requires forall i :: 0 <= i < |steps| ==> Sound(c, steps[i])
    ensures var s := Run(c, Initial<V>(redis), steps);
      !Mutating(s, key) ==> Coherent(c, s, key)
  {
    RunKeeps(c, Initial<V>(redis), steps, key);
  }

  /** So what a get answers from L1 at such a moment is what a read of Redis would give. */
  lemma HitIsCurrent<V>(c: Codec<V>, redis: map<string, string>, steps: seq<Step<V>>, key: string)
    requires forall i :: 0 <= i < |steps| ==> Sound(c, steps[i])
    ensures var s := Run(c, Initial<V>(redis), steps);
      !Mutating(s, key) && Hit(s.l1, key).Some? ==> key in s.redis && Hit(s.l1, key) == Some(c.decode(s.redis[key]))
  {
    L1CoherentAtRest(c, redis, steps, key);
  }

  // ---------------------------------------------------------------- when it fails

  /** Every mutation started in the run is sound, or is `m`. */
  ghost predicate StartsOnly<V>(c: Codec<V>, steps: seq<Step<V>>, m: Mutation<V>) {
    forall i :: 0 <= i < |steps| ==> Sound(c, steps[i]) || steps[i].mutation == m
  }

  /** Adding `m` to the mutations in use keeps every run coherent. */
  ghost predicate KeepsCoherence<V(!new)>(c: Codec<V>, m: Mutation<V>) {
    forall redis, steps: seq<Step<V>>, key :: StartsOnly(c, steps, m) && !Mutating(Run(c, Initial(redis), steps), key)
      ==> Coherent(c, Run(c, Initial(redis), steps), key)
  }

  lemma RunCons<V>(c: Codec<V>, s: State<V>, step: Step<V>, rest: seq<Step<V>>)
    ensures Run(c, s, [step] + rest) == Run(c, Apply(c, s, step), rest)
  {
    assert ([step] + rest)[1..] == rest;
  }

  lemma RunThree<V>(c: Codec<V>, s: State<V>, x: Step<V>, y: Step<V>, z: Step<V>)
    ensures Run(c, s, [x, y, z]) == Apply(c, Apply(c, Apply(c, s, x), y), z)
  {
    assert [x, y, z] == [x] + ([y] + ([z] + []));
    RunCons(c, s, x, [y] + ([z] + []));
    RunCons(c, Apply(c, s, x), y, [z] + []);
    RunCons(c, Apply(c, Apply(c, s, x), y), z, []);
  }

  /** A value the codec does not return unchanged is in L1 in one form and in Redis in another. */
  lemma UnfaithfulValueBreaks<V>(c: Codec<V>, key: string, value: V) returns (steps: seq<Step<V>>)
    requires c.decode(c.encode(value)) != value
    ensures StartsOnly(c, steps, Set(key, value))
    ensures var s := Run(c, Initial<V>(map[]), steps); s.ops == map[] && !Coherent(c, s, key)
  {
    steps := [Start(0, Set(key, value)), WriteRedis(0), Finish(0, true)];
    var s0 := Initial<V>(map[]);
    RunThree(c, s0, steps[0], steps[1], steps[2]);
    var s2 := Apply(c, Apply(c, s0, steps[0]), steps[1]);
    assert s2.ops[0] == Mutate(Set(key, value), 1, Done);
    assert Without(s2.ops, 0) == map[];
  }

  /** A namespace with a glob character, whose pattern covers something, deletes from Redis a key that stays in L1. */
  lemma GlobNamespaceBreaks<V>(c: Codec<V>, namespace: string)
    returns (key: string, redis: map<string, string>, steps: seq<Step<V>>)
    requires !Followed(namespace)
    ensures StartsOnly(c, steps, Clear(namespace))
    ensures var s := Run(c, Initial<V>(redis), steps); s.ops == map[] && !Coherent(c, s, key)
  {
    key := SomeKeyDiffers(namespace);
    redis := map[key := ""];
    var fill := [StartGet(0, key), ReadRedis(0), FinishGet(0)];
    var clear := [Start(1, Clear(namespace))] + [WriteRedis(1), WriteRedis(1), Finish(1, true)];
    steps := fill + clear;
    FillFromRedis(c, redis, key);
    ClearLeaves(c, State(L1(map[key := c.decode("")], 0), redis, map[]), namespace, key);
    RunConcat(c, Initial<V>(redis), fill, clear);
  }

  lemma {:induction false} RunConcat<V>(c: Codec<V>, s: State<V>, a: seq<Step<V>>, b: seq<Step<V>>)
    ensures Run(c, s, a + b) == Run(c, Run(c, s, a), b)
    decreases |a|
  {
    if a == [] {
      assert a + b == b;
    } else {
      assert a + b == [a[0]] + (a[1..] + b) && a == [a[0]] + a[1..];
      RunCons(c, s, a[0], a[1..] + b);
      RunConcat(c, Apply(c, s, a[0]), a[1..], b);
    }
  }

  lemma FillFromRedis<V>(c: Codec<V>, redis: map<string, string>, key: string)
    requires key in redis
    ensures Run(c, Initial<V>(redis), [StartGet(0, key), ReadRedis(0), FinishGet(0)])
         == State(L1(map[key := c.decode(redis[key])], 0), redis, map[])
  {
    var s0 := Initial<V>(redis);
    var s1 := Apply(c, s0, StartGet(0, key));
    var s2 := Apply(c, s1, ReadRedis(0));
    assert s2.ops[0] == Get(key, 0, Some(Some(redis[key])));
    assert Without(s2.ops, 0) == map[];
    RunThree(c, s0, StartGet(0, key), ReadRedis(0), FinishGet(0));
  }

  lemma ClearLeaves<V>(c: Codec<V>, s: State<V>, namespace: string, key: string)
    requires s.ops == map[] && key in s.l1.entries && key in s.redis
    requires RedisCovers(namespace, key) && !L1Covers(namespace, key)
    ensures var t := Run(c, s, [Start(1, Clear(namespace))] + [WriteRedis(1), WriteRedis(1), Finish(1, true)]);
      t.ops == map[] && key in t.l1.entries && key !in t.redis
  {
    var s1 := Apply(c, s, Start(1, Clear(namespace)));
    var s2 := Apply(c, s1, WriteRedis(1));
    var s3 := Apply(c, s2, WriteRedis(1));
    var s4 := Apply(c, s3, Finish(1, true));
    assert key in s2.ops[1].phase.keys;
    assert s4.ops == map[];
    RunCons(c, s, Start(1, Clear(namespace)), [WriteRedis(1), WriteRedis(1), Finish(1, true)]);
    RunThree(c, s1, WriteRedis(1), WriteRedis(1), Finish(1, true));
  }

  /**
    A mutation keeps every run coherent exactly when its value survives the codec, and its namespace has no glob character
    or a pattern that covers nothing.
    */
  lemma CoherentIffSound<V(!new)>(c: Codec<V>, m: Mutation<V>)
    ensures KeepsCoherence(c, m) <==> Sound(c, Start(0, m))
  {
    if Sound(c, Start(0, m)) {
      forall redis, steps: seq<Step<V>>, key | StartsOnly(c, steps, m) && !Mutating(Run(c, Initial(redis), steps), key)
        ensures Coherent(c, Run(c, Initial(redis), steps), key)
      {
        L1CoherentAtRest(c, redis, steps, key);
      }
    } else if m.Set? {
      var steps := UnfaithfulValueBreaks(c, m.key, m.value);
    } else {
      var key, redis, steps := GlobNamespaceBreaks(c, m.namespace);
    }
  }
}

/** What Redis holds for a key over a run, and so what a get finds. */
module CacheContents {
  import opened Prelude
  import opened NamespaceGlob
  import opened L1Cache
  import opened TwoLevelCache

  // ---------------------------------------------------------------- what Redis holds

  /** What a step leaves in Redis for the key, when it is a command that reaches the key. */
  ghost function Reaches<V>(c: Codec<V>, s: State<V>, step: Step<V>, key: string): Option<Option<string>> {
    if !step.WriteRedis? || step.id !in s.ops || !s.ops[step.id].Mutate? then None
    else
      var m, phase := s.ops[step.id].mutation, s.ops[step.id].phase;
      if phase.Listed? then
        if key in phase.keys then Some(None) else None
      else if phase.Done? || m.Clear? || m.key != key then None
      else if m.Set? then Some(Some(c.encode(m.value)))
      else if m.Delete? || m.ttl <= 0 then Some(None)
      else None
  }

  /** What the last command that reached the key left, or `first` if none did. */
  ghost function LastLeft<V>(c: Codec<V>, s: State<V>, steps: seq<Step<V>>, key: string, first: Option<string>): Option<string>
    decreases |steps|
  {
    if steps == [] then first
    else
      var left := Reaches(c, s, steps[0], key);
      LastLeft(c, Apply(c, s, steps[0]), steps[1..], key, if left.Some? then left.value else first)
  }

  lemma ReachesStep<V>(c: Codec<V>, s: State<V>, step: Step<V>, key: string)
    ensures Lookup(Apply(c, s, step).redis, key)
         == var left := Reaches(c, s, step, key); if left.Some? then left.value else Lookup(s.redis, key)
  {
  }

  /** Over every run Redis holds for a key what the last command that reached it left there. */
  lemma {:induction false} RedisHoldsLast<V>(c: Codec<V>, s: State<V>, steps: seq<Step<V>>, key: string)
    ensures Lookup(Run(c, s, steps).redis, key) == LastLeft(c, s, steps, key, Lookup(s.redis, key))
    decreases |steps|
  {
    if steps != [] {
      ReachesStep(c, s, steps[0], key);
      RedisHoldsLast(c, Apply(c, s, steps[0]), steps[1..], key);
    }
  }

  ghost predicate Sets<V>(o: Op<V>, key: string) { o.Mutate? && o.mutation.Set? && o.mutation.key == key }

  /** The key is not in Redis, and nobody is about to set it. */
  ghost predicate Gone<V>(s: State<V>, key: string) {
    key !in s.redis && forall id :: id in s.ops ==> !Sets(s.ops[id], key)
  }

  ghost predicate StartsNoSet<V>(steps: seq<Step<V>>, key: string) {
    forall i :: 0 <= i < |steps| && steps[i].Start? ==> !(steps[i].mutation.Set? && steps[i].mutation.key == key)
  }

  lemma GoneStep<V>(c: Codec<V>, s: State<V>, step: Step<V>, key: string)
    requires Gone(s, key) && StartsNoSet([step], key)
    ensures Gone(Apply(c, s, step), key)
  {
    assert [step][0] == step;
  }

  lemma {:induction false} GoneRun<V>(c: Codec<V>, s: State<V>, steps: seq<Step<V>>, key: string)
    requires Gone(s, key) && StartsNoSet(steps, key)
    ensures Gone(Run(c, s, steps), key)
    decreases |steps|
  {
    if steps != [] {
      assert StartsNoSet([steps[0]], key);
      GoneStep(c, s, steps[0], key);
      GoneRun(c, Apply(c, s, steps[0]), steps[1..], key);
    }
  }

  /** No mutation of the key has a command still to come. */
  ghost predicate Quiet<V>(s: State<V>, key: string) {
    forall id :: id in s.ops && Touches(s.ops[id], key) ==> s.ops[id].phase.Done?
  }

  ghost predicate StartsNothing<V>(steps: seq<Step<V>>, key: string) {
    forall i :: 0 <= i < |steps| && steps[i].Start? ==> !Touches(Mutate(steps[i].mutation, 0, Started), key)
  }

  lemma QuietStep<V>(c: Codec<V>, s: State<V>, step: Step<V>, key: string)
    requires OpsInv(c, s) && Quiet(s, key) && StartsNothing([step], key)
    ensures Quiet(Apply(c, s, step), key) && Lookup(Apply(c, s, step).redis, key) == Lookup(s.redis, key)
  {
    assert [step][0] == step;
    ReachesStep(c, s, step, key);
    if step.WriteRedis? && step.id in s.ops { assert OpInv(c, s, s.ops[step.id]); }
  }

  lemma {:induction false} QuietRun<V>(c: Codec<V>, s: State<V>, steps: seq<Step<V>>, key: string)
    requires OpsInv(c, s) && Quiet(s, key) && StartsNothing(steps, key)
    requires forall i :: 0 <= i < |steps| ==> Sound(c, steps[i])
    ensures Lookup(Run(c, s, steps).redis, key) == Lookup(s.redis, key)
    decreases |steps|
  {
    if steps != [] {
      assert StartsNothing([steps[0]], key);
      QuietStep(c, s, steps[0], key);
      OpsInvStep(c, s, steps[0]);
      QuietRun(c, Apply(c, s, steps[0]), steps[1..], key);
    }
  }

  /** A set that runs alone is what every later read of the key gives, until another mutation of it starts. */
  lemma SetIsSeen<V>(c: Codec<V>, redis: map<string, string>, before: seq<Step<V>>, id: nat, key: string, after: seq<Step<V>>)
    requires forall i :: 0 <= i < |before| ==> Sound(c, before[i])
    requires forall i :: 0 <= i < |after| ==> Sound(c, after[i])
    requires
      var s := Run(c, Initial<V>(redis), before);
      id in s.ops && Sets(s.ops[id], key) && s.ops[id].phase.Started? && Alone(s, id, key)
    requires StartsNothing(after, key)
    ensures
      var s := Run(c, Initial<V>(redis), before);
      var t := Run(c, Apply(c, s, WriteRedis(id)), after);
      && Lookup(t.redis, key) == Some(c.encode(s.ops[id].mutation.value))
      && (!Mutating(t, key) && Hit(t.l1, key).Some? ==> Hit(t.l1, key) == Some(s.ops[id].mutation.value))
  {
    var s := Run(c, Initial<V>(redis), before);
    RunKeeps(c, Initial<V>(redis), before, key);
    SetLands(c, s, id, key);
    RunKeeps(c, Apply(c, s, WriteRedis(id)), after, key);
    QuietRun(c, Apply(c, s, WriteRedis(id)), after, key);
  }

  lemma SetLands<V>(c: Codec<V>, s: State<V>, id: nat, key: string)
    requires OpsInv(c, s) && KeyInv(c, s, key)
    requires id in s.ops && Sets(s.ops[id], key) && s.ops[id].phase.Started? && Alone(s, id, key)
    ensures
      var u := Apply(c, s, WriteRedis(id));
      var v := s.ops[id].mutation.value;
      && OpsInv(c, u) && KeyInv(c, u, key) && Quiet(u, key)
      && Lookup(u.redis, key) == Some(c.encode(v)) && c.decode(c.encode(v)) == v
  {
    assert OpInv(c, s, s.ops[id]);
    StepKeeps(c, s, WriteRedis(id), key);
  }

  ghost predicate SetFree<V>(s: State<V>, key: string) { forall id :: id in s.ops ==> !Sets(s.ops[id], key) }

  /** A delete, or an expire that is due at once, whose command is still to come. */
  ghost predicate Removes<V>(o: Op<V>, key: string) {
    && o.Mutate? && o.phase.Started? && !o.mutation.Set? && !o.mutation.Clear?
    && o.mutation.key == key && (o.mutation.Expire? ==> o.mutation.ttl <= 0)
  }

  /**
    Once a delete has reached Redis, with no set of the key in flight, a get finds nothing until the next set: nothing in
    Redis, and nothing in L1 when no mutation of the key is in flight.
    */
  lemma DeleteIsSeen<V>(c: Codec<V>, redis: map<string, string>, before: seq<Step<V>>, id: nat, key: string, after: seq<Step<V>>)
    requires forall i :: 0 <= i < |before| ==> Sound(c, before[i])
    requires forall i :: 0 <= i < |after| ==> Sound(c, after[i])
    requires var s := Run(c, Initial<V>(redis), before); id in s.ops && Removes(s.ops[id], key) && SetFree(s, key)
    requires StartsNoSet(after, key)
    ensures
      var t := Run(c, Apply(c, Run(c, Initial<V>(redis), before), WriteRedis(id)), after);
      && key !in t.redis
      && (forall g :: g in t.ops && t.ops[g].Get? && t.ops[g].key == key && t.ops[g].reply.None? ==>
            Apply(c, t, ReadRedis(g)).ops[g].reply == Some(None))
      && (!Mutating(t, key) ==> Hit(t.l1, key) == None)
  {
    var s := Run(c, Initial<V>(redis), before);
    var u := Apply(c, s, WriteRedis(id));
    GoneRun(c, u, after, key);
    RunKeeps(c, Initial<V>(redis), before, key);
    StepKeeps(c, s, WriteRedis(id), key);
    RunKeeps(c, u, after, key);
  }

  /** A clear lists what its pattern covers and deletes all of it, but for keys that are set meanwhile. */
  lemma ClearIsSeen<V>(c: Codec<V>, s: State<V>, id: nat, middle: seq<Step<V>>, key: string)
    requires id in s.ops && s.ops[id].Mutate? && s.ops[id].mutation.Clear? && s.ops[id].phase.Started?
    requires RedisCovers(s.ops[id].mutation.namespace, key) && SetFree(s, key) && StartsNoSet(middle, key)
    requires
      var t := Run(c, Apply(c, s, WriteRedis(id)), middle);
      id in t.ops && t.ops[id] == Apply(c, s, WriteRedis(id)).ops[id]
    ensures key !in Apply(c, Run(c, Apply(c, s, WriteRedis(id)), middle), WriteRedis(id)).redis
  {
    var u := Apply(c, s, WriteRedis(id));
    if key !in s.redis {
      GoneRun(c, u, middle, key);
      GoneStep(c, Run(c, u, middle), WriteRedis(id), key);
    } else {
      assert key in u.ops[id].phase.keys;
    }
  }

  /** The read began before the present generation. */
  ghost predicate Overdue<V>(s: State<V>, id: nat) {
    id in s.ops ==> s.ops[id].Get? && s.ops[id].generation < s.l1.generation
  }

  ghost predicate NotReused<V>(steps: seq<Step<V>>, id: nat) {
    forall i :: 0 <= i < |steps| && (steps[i].Start? || steps[i].StartGet?) ==> steps[i].id != id
  }

  lemma {:induction false} OverdueRun<V>(c: Codec<V>, s: State<V>, steps: seq<Step<V>>, id: nat)
    requires Overdue(s, id) && NotReused(steps, id)
    ensures Overdue(Run(c, s, steps), id)
    decreases |steps|
  {
    if steps != [] {
      assert steps[0].Start? || steps[0].StartGet? ==> steps[0].id != id;
      OverdueRun(c, Apply(c, s, steps[0]), steps[1..], id);
    }
  }

  /** A read that has timed out never fills L1, however late it finishes and whatever happens meanwhile. */
  lemma TimedOutNeverFills<V>(c: Codec<V>, redis: map<string, string>, before: seq<Step<V>>, id: nat, after: seq<Step<V>>)
    requires forall i :: 0 <= i < |before| ==> Sound(c, before[i])
    requires var s := Run(c, Initial<V>(redis), before); id in s.ops && s.ops[id].Get?
    requires NotReused(after, id)
    ensures
      var t := Run(c, Apply(c, Run(c, Initial<V>(redis), before), TimeOutGet(id)), after);
      Apply(c, t, FinishGet(id)).l1 == t.l1
  {
    var s := Run(c, Initial<V>(redis), before);
    RunKeeps(c, Initial<V>(redis), before, "");
    assert OpInv(c, s, s.ops[id]);
    OverdueRun(c, Apply(c, s, TimeOutGet(id)), after, id);
  }
}

/** The codec between cached values and Redis strings. */
module CacheCodec {
  import opened Prelude
  import opened TwoLevelCache

  /** A cached value: a string, or anything else that JSON can carry. */
  datatype Value<J> = Text(s: string) | Other(json: J)

  /** JSON.stringify on non-strings and JSON.parse. */
  datatype Json<!J> = Json(stringify: J -> string, parse: string -> Option<Value<J>>)

  /** Parsing undoes printing, and a literal is never its own content (it has two quotes more). */
  ghost predicate Faithful<J(!new)>(json: Json<J>) {
    && (forall x :: json.parse(json.stringify(x)) == Some(Other(x)))
    && (forall t :: json.parse(t) != Some(Text(t)))
  }

  /** Strings are stored as they are; every stored string is offered to the parser on the way back. */
  function ValueCodec<J>(json: Json<J>): Codec<Value<J>> {
    Codec(
      (v: Value<J>) => if v.Text? then v.s else json.stringify(v.json),
      (t: string) => var p := json.parse(t); if p.Some? then p.value else Text(t))
  }

  /** The value survives exactly when it is not a string that itself parses as JSON. */
  lemma CodecFaithfulIff<J(!new)>(json: Json<J>, v: Value<J>)
    requires Faithful(json)
    ensures var c := ValueCodec(json);
      c.decode(c.encode(v)) == v <==> !(v.Text? && json.parse(v.s).Some?)
  {
    if v.Text? { assert json.parse(v.s) != Some(v); }
  }

  /** So a set keeps L1 coherent with Redis exactly when its value is not such a string. */
  lemma SetCoherentIff<J(!new)>(json: Json<J>, key: string, v: Value<J>)
    requires Faithful(json)
    ensures KeepsCoherence(ValueCodec(json), Set(key, v)) <==> !(v.Text? && json.parse(v.s).Some?)
  {
    CoherentIffSound(ValueCodec(json), Set(key, v));
    CodecFaithfulIff(json, v);
  }
}
