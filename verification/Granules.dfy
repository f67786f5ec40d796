/**
 The shared granule registry of the guest-memory module, as an interleaved step system.

 Any number of callers acquire references one at a time and later give a whole array of
 them back.  Everything the C code does under `granules_lock` is split into the steps that
 touch shared state, so that retirement callbacks, which take no lock, can run between any
 two of them.  A step that would dereference a freed granule or a NULL entry, drop a
 reference that is not there, queue a work item twice, or free a granule that the kernel
 still uses, sets `fault`.
 */
module Granules {
  import opened Wrappers

  /** How many entries of its array a caller retires at a time. */
  const BATCH: nat := 32

  type Id = nat

  /** Life of the embedded work item; `Unmapped` is a callback between its two calls. */
  datatype Work = Fresh | Queued | Unmapped | Done

  /** `claimed` says that this granule's region request succeeded and was not released. */
  datatype Granule = Granule(index: nat, users: nat, mapped: bool, claimed: bool, work: Work)

  /** Where a caller stands.  Lookup, Claim, Map, Store and Detach run with the lock held. */
  datatype Pc =
    | Ready
    | Lookup(index: nat)
    | Claim(id: Id)
    | Map(id: Id)
    | Store(id: Id)
    | Batch(first: nat)
    | Detach(first: nat, end: nat, i: nat)
    | Queue(first: nat, end: nat, i: nat)
    | Join(first: nat, end: nat, i: nat)

  /** One caller with its array.  `detached` records the granules the current put detached. */
  datatype Caller = Caller(pc: Pc, owned: seq<Option<Id>>, detached: set<Id>)

  /** `owner` is bookkeeping that no step reads: who solely owns an unregistered granule. */
  datatype State = State(
    heap: map<Id, Granule>,
    nextId: Id,
    registry: map<nat, Id>,
    claims: set<nat>,
    queue: set<Id>,
    lock: Option<nat>,
    callers: seq<Caller>,
    owner: map<Id, nat>,
    fault: bool)

  datatype Step =
    | BeginGet(t: nat, index: nat)
    | BeginPut(t: nat)
    | Run(t: nat, ok: bool)   // the next step of caller t; ok is what the kernel call in it answers
    | Retire(id: Id)          // the next step of the retirement callback of a queued granule

  function Init(callers: nat): State {
    State(map[], 0, map[], {}, {}, None, seq(callers, i => Caller(Ready, [], {})), map[], false)
  }

  function Crash(s: State): State { s.(fault := true) }

  function SetCaller(s: State, t: nat, c: Caller): State
    requires t < |s.callers|
  {
    s.(callers := s.callers[t := c])
  }

  // ----- acquiring ------------------------------------------------------------------

  /** The caller leaves `get` with its array `owned`, dropping the lock. */
  function Leave(s: State, t: nat, owned: seq<Option<Id>>): State
    requires t < |s.callers|
  {
    SetCaller(s, t, s.callers[t].(pc := Ready, owned := owned)).(lock := None)
  }

  /** Failure inside `get`: undo the mapping and the claim if made, free, leave empty-handed. */
  function Abandon(s: State, t: nat, id: Id): State
    requires t < |s.callers| && id in s.heap
  {
    var g := s.heap[id];
    var s1 := s.(heap := s.heap - {id}, owner := s.owner - {id},
                 claims := if g.claimed then s.claims - {g.index} else s.claims);
    Leave(s1, t, s.callers[t].owned)
  }

  function RunLookup(s: State, t: nat, ok: bool): State
    requires t < |s.callers| && s.callers[t].pc.Lookup?
  {
    var c := s.callers[t];
    var x := c.pc.index;
    if x in s.registry then
      var id := s.registry[x];
      if id !in s.heap then Crash(s)
      else
        var s1 := s.(heap := s.heap[id := s.heap[id].(users := s.heap[id].users + 1)]);
        Leave(s1, t, c.owned + [Some(id)])
    else if !ok then Leave(s, t, c.owned)
    else
      var id := s.nextId;
      var s1 := s.(heap := s.heap[id := Granule(x, 0, false, false, Fresh)], nextId := id + 1,
                   owner := s.owner[id := t]);
      SetCaller(s1, t, c.(pc := Claim(id)))
  }

  function RunClaim(s: State, t: nat, ok: bool): State
    requires t < |s.callers| && s.callers[t].pc.Claim?
  {
    var c := s.callers[t];
    var id := c.pc.id;
    if id !in s.heap then Crash(s)
    else
      var g := s.heap[id];
      if g.index in s.claims || !ok then Abandon(s, t, id)
      else SetCaller(s.(claims := s.claims + {g.index}, heap := s.heap[id := g.(claimed := true)]),
                     t, c.(pc := Map(id)))
  }

  function RunMap(s: State, t: nat, ok: bool): State
    requires t < |s.callers| && s.callers[t].pc.Map?
  {
    var c := s.callers[t];
    var id := c.pc.id;
    if id !in s.heap then Crash(s)
    else if !ok then Abandon(s, t, id)
    else SetCaller(s.(heap := s.heap[id := s.heap[id].(mapped := true)]), t, c.(pc := Store(id)))
  }

  function RunStore(s: State, t: nat, ok: bool): State
    requires t < |s.callers| && s.callers[t].pc.Store?
  {
    var c := s.callers[t];
    var id := c.pc.id;
    if id !in s.heap then Crash(s)
    else if !ok then Abandon(s, t, id)
    else
      var g := s.heap[id];
      var s1 := s.(registry := s.registry[g.index := id], heap := s.heap[id := g.(users := 1)],
                   owner := s.owner - {id});
      Leave(s1, t, c.owned + [Some(id)])
  }

  // ----- giving back ----------------------------------------------------------------

  function RunBatch(s: State, t: nat): State
    requires t < |s.callers| && s.callers[t].pc.Batch?
  {
    var c := s.callers[t];
    var first := c.pc.first;
    if first >= |c.owned| then SetCaller(s, t, c.(pc := Ready, owned := []))
    else if s.lock.Some? then s
    else
      var end := if |c.owned| - first < BATCH then |c.owned| else first + BATCH;
      SetCaller(s, t, c.(pc := Detach(first, end, first))).(lock := Some(t))
  }

  function RunDetach(s: State, t: nat): State
    requires t < |s.callers| && s.callers[t].pc.Detach?
  {
    var c := s.callers[t];
    var Detach(first, end, i) := c.pc;
    if i >= end then SetCaller(s, t, c.(pc := Queue(first, end, first))).(lock := None)
    else if i >= |c.owned| || c.owned[i].None? || c.owned[i].value !in s.heap then Crash(s)
    else
      var id := c.owned[i].value;
      var g := s.heap[id];
      if g.users == 0 then Crash(s)
      else if g.users > 1 then
        SetCaller(s.(heap := s.heap[id := g.(users := g.users - 1)]), t,
                  c.(pc := Detach(first, end, i + 1), owned := c.owned[i := None]))
      else
        SetCaller(s.(heap := s.heap[id := g.(users := 0)], registry := s.registry - {g.index},
                     owner := s.owner[id := t]), t,
                  c.(pc := Detach(first, end, i + 1), detached := c.detached + {id}))
  }

  function RunQueue(s: State, t: nat): State
    requires t < |s.callers| && s.callers[t].pc.Queue?
  {
    var c := s.callers[t];
    var Queue(first, end, i) := c.pc;
    var next := c.(pc := Queue(first, end, i + 1));
    if i >= end then SetCaller(s, t, c.(pc := Join(first, end, first)))
    else if i >= |c.owned| then Crash(s)
    else if c.owned[i].None? then SetCaller(s, t, next)
    else
      var id := c.owned[i].value;
      if id !in s.heap || s.heap[id].work != Fresh then Crash(s)
      else SetCaller(s.(heap := s.heap[id := s.heap[id].(work := Queued)], queue := s.queue + {id}), t, next)
  }

  /** Waits for the callback, then frees.  Freeing anything the kernel still uses is a fault. */
  function RunJoin(s: State, t: nat): State
    requires t < |s.callers| && s.callers[t].pc.Join?
  {
    var c := s.callers[t];
    var Join(first, end, i) := c.pc;
    var next := c.(pc := Join(first, end, i + 1));
    if i >= end then SetCaller(s, t, c.(pc := Batch(end)))
    else if i >= |c.owned| then Crash(s)
    else if c.owned[i].None? then SetCaller(s, t, next)
    else
      var id := c.owned[i].value;
      if id !in s.heap then Crash(s)
      else if id in s.queue then s
      else if Freeable(s, id) then
        SetCaller(s.(heap := s.heap - {id}, owner := s.owner - {id}), t, next.(owned := c.owned[i := None]))
      else Crash(s)
  }

  predicate Freeable(s: State, id: Id)
    requires id in s.heap
  {
    var g := s.heap[id];
    g.users == 0 && !g.mapped && !g.claimed && g.work == Done && !Registered(s, id)
  }

  function RunRetire(s: State, id: Id): State
    requires id in s.queue
  {
    if id !in s.heap then Crash(s)
    else
      var g := s.heap[id];
      if g.work == Queued && g.mapped then
        s.(heap := s.heap[id := g.(mapped := false, work := Unmapped)])
      else if g.work == Unmapped && g.claimed then
        s.(heap := s.heap[id := g.(claimed := false, work := Done)], claims := s.claims - {g.index},
           queue := s.queue - {id})
      else Crash(s)
  }

  function Apply(s: State, step: Step): State {
    match step
    case BeginGet(t, index) =>
      if t < |s.callers| && s.callers[t].pc.Ready? && s.lock.None?
      then SetCaller(s, t, s.callers[t].(pc := Lookup(index))).(lock := Some(t)) else s
    case BeginPut(t) =>
      if t < |s.callers| && s.callers[t].pc.Ready?
      then SetCaller(s, t, s.callers[t].(pc := Batch(0), detached := {})) else s
    case Retire(id) => if id in s.queue then RunRetire(s, id) else s
    case Run(t, ok) =>
      if t >= |s.callers| then s
      else
        match s.callers[t].pc
        case Ready => s
        case Lookup(_) => RunLookup(s, t, ok)
        case Claim(_) => RunClaim(s, t, ok)
        case Map(_) => RunMap(s, t, ok)
        case Store(_) => RunStore(s, t, ok)
        case Batch(_) => RunBatch(s, t)
        case Detach(_, _, _) => RunDetach(s, t)
        case Queue(_, _, _) => RunQueue(s, t)
        case Join(_, _, _) => RunJoin(s, t)
  }

  function Exec(s: State, steps: seq<Step>): State
    decreases |steps|
  {
    if steps == [] then s else Exec(Apply(s, steps[0]), steps[1..])
  }

  // ----- what every state keeps -----------------------------------------------------

  predicate Registered(s: State, id: Id) {
    id in s.heap && s.heap[id].index in s.registry && s.registry[s.heap[id].index] == id
  }

  /** From here on the array still holds counted references. */
  function HeldFrom(c: Caller): nat {
    match c.pc
    case Batch(first) => first
    case Detach(_, _, i) => i
    case Queue(_, end, _) => end
    case Join(_, end, _) => end
    case _ => 0
  }

  /** Entries from here up to HeldFrom are NULL or granules this caller detached itself. */
  function RetireFrom(c: Caller): nat {
    match c.pc
    case Batch(first) => first
    case Detach(first, _, _) => first
    case Queue(first, _, _) => first
    case Join(_, _, i) => i
    case _ => 0
  }

  function Count(owned: seq<Option<Id>>, id: Id): nat {
    if owned == [] then 0 else (if owned[0] == Some(id) then 1 else 0) + Count(owned[1..], id)
  }

  /** The references to a granule that a caller still holds. */
  function Refs(c: Caller, id: Id): nat
  {
    if HeldFrom(c) <= |c.owned| then Count(c.owned[HeldFrom(c)..], id) else 0
  }

  function Total(callers: seq<Caller>, id: Id): nat {
    if callers == [] then 0 else Refs(callers[0], id) + Total(callers[1..], id)
  }

  predicate Locked(pc: Pc) {
    pc.Lookup? || pc.Claim? || pc.Map? || pc.Store? || pc.Detach?
  }

  predicate PcBounds(c: Caller) {
    match c.pc
    case Batch(first) => first <= |c.owned|
    case Detach(first, end, i) => first <= i <= end <= |c.owned| && end - first <= BATCH
    case Queue(first, end, i) => first <= i <= end <= |c.owned| && end - first <= BATCH
    case Join(first, end, i) => first <= i <= end <= |c.owned| && end - first <= BATCH
    case _ => true
  }

  /** An unregistered granule that caller t detached: nobody else refers to it. */
  predicate Retiring(s: State, t: nat, id: Id) {
    && id in s.heap && !Registered(s, id) && s.heap[id].users == 0
    && id in s.owner && s.owner[id] == t
    && (s.heap[id].work == Fresh ==> s.heap[id].mapped)
  }

  /** Whether entry k of the array has been handed to the work queue. */
  predicate Handed(c: Caller, k: nat) {
    match c.pc
    case Queue(_, _, i) => k < i
    case Join(_, _, _) => true
    case _ => false
  }

  predicate Building(s: State, t: nat, id: Id, claimed: bool, mapped: bool) {
    && id in s.heap && !Registered(s, id) && id in s.owner && s.owner[id] == t
    && s.heap[id].users == 0 && s.heap[id].work == Fresh
    && s.heap[id].claimed == claimed && s.heap[id].mapped == mapped
    && (s.heap[id].index !in s.registry)
  }

  predicate EntriesOk(s: State, t: nat)
    requires t < |s.callers|
  {
    var c := s.callers[t];
    && RetireFrom(c) <= HeldFrom(c) <= |c.owned|
    && (forall k :: 0 <= k < RetireFrom(c) ==> c.owned[k] == None)
    && (forall k :: RetireFrom(c) <= k < HeldFrom(c) && c.owned[k].Some? ==>
          && Retiring(s, t, c.owned[k].value)
          && (s.heap[c.owned[k].value].work == Fresh <==> !Handed(c, k)))
    && (forall k :: HeldFrom(c) <= k < |c.owned| ==> c.owned[k].Some? && Registered(s, c.owned[k].value))
    && (forall j, k :: RetireFrom(c) <= j < k < HeldFrom(c) && c.owned[j].Some? ==> c.owned[j] != c.owned[k])
  }

  predicate PcOk(s: State, t: nat)
    requires t < |s.callers|
  {
    var c := s.callers[t];
    && PcBounds(c)
    && (Locked(c.pc) <==> s.lock == Some(t))
    && (c.pc.Claim? ==> Building(s, t, c.pc.id, false, false))
    && (c.pc.Map? ==> Building(s, t, c.pc.id, true, false))
    && (c.pc.Store? ==> Building(s, t, c.pc.id, true, true))
  }

  predicate InRetirement(c: Caller, id: Id) {
    exists k :: RetireFrom(c) <= k < HeldFrom(c) <= |c.owned| && c.owned[k] == Some(id)
  }

  /** What the current put detached is still in its array, or already freed. */
  predicate DetachedOk(s: State, t: nat)
    requires t < |s.callers|
  {
    var c := s.callers[t];
    forall id :: id in c.detached ==>
      id < s.nextId && (id in s.heap ==> InRetirement(c, id))
  }

  predicate GranuleOk(s: State, id: Id)
    requires id in s.heap
  {
    var g := s.heap[id];
    && id < s.nextId
    && (g.mapped ==> g.claimed)
    && (g.claimed ==> g.index in s.claims)
    && (id in s.queue <==> g.work == Queued || g.work == Unmapped)
    && (Registered(s, id) ==> g.mapped && g.work == Fresh && g.users >= 1)
    && (g.work == Queued ==> g.mapped)
    && (g.work == Unmapped ==> !g.mapped && g.claimed)
    && (g.work == Done ==> !g.mapped && !g.claimed)
  }

  /** Every unregistered granule belongs to one caller that is building or retiring it. */
  predicate Adopted(s: State, id: Id)
    requires id in s.heap
  {
    && id in s.owner && s.owner[id] < |s.callers|
    && var c := s.callers[s.owner[id]];
       || (c.pc.Claim? && c.pc.id == id) || (c.pc.Map? && c.pc.id == id) || (c.pc.Store? && c.pc.id == id)
       || InRetirement(c, id)
  }

  predicate HeapOk(s: State) {
    && (forall id :: id in s.heap ==> GranuleOk(s, id))
    && (forall id :: id in s.heap && !Registered(s, id) ==> Adopted(s, id))
    && s.queue <= s.heap.Keys
    && (forall x :: x in s.registry ==> s.registry[x] in s.heap && s.heap[s.registry[x]].index == x)
  }

  /** The region claims are exactly those of the granules, one granule each. */
  predicate ClaimsOk(s: State) {
    && (forall a, b | a in s.heap && b in s.heap && s.heap[a].claimed && s.heap[b].claimed ::
          s.heap[a].index == s.heap[b].index ==> a == b)
    && (forall x :: x in s.claims ==> exists id :: id in s.heap && s.heap[id].claimed && s.heap[id].index == x)
  }

  predicate CountsOk(s: State) {
    forall id :: id in s.heap && Registered(s, id) ==> s.heap[id].users == Total(s.callers, id)
  }

  predicate CallersOk(s: State) {
    && (s.lock.Some? ==> s.lock.value < |s.callers|)
    && forall t :: 0 <= t < |s.callers| ==> EntriesOk(s, t) && PcOk(s, t) && DetachedOk(s, t)
  }

  predicate Inv(s: State) {
    !s.fault && HeapOk(s) && ClaimsOk(s) && CountsOk(s) && CallersOk(s)
  }

  // ----- counting -------------------------------------------------------------------

  lemma {:induction false} CountAppend(a: seq<Option<Id>>, b: seq<Option<Id>>, id: Id)
    ensures Count(a + b, id) == Count(a, id) + Count(b, id)
  {
    if a == [] {
      assert a + b == b;
    } else {
      CountAppend(a[1..], b, id);
      assert (a + b)[1..] == a[1..] + b;
    }
  }

  lemma {:induction false} CountPositive(a: seq<Option<Id>>, k: nat, id: Id)
    requires k < |a| && a[k] == Some(id)
    ensures Count(a, id) >= 1
  {
    if k > 0 { CountPositive(a[1..], k - 1, id); }
  }

  lemma {:induction false} CountZero(a: seq<Option<Id>>, id: Id)
    requires Some(id) !in a
    ensures Count(a, id) == 0
  {
    if a != [] { CountZero(a[1..], id); }
  }

  lemma {:induction false} TotalUpdate(callers: seq<Caller>, t: nat, c: Caller, id: Id)
    requires t < |callers|
    ensures Total(callers[t := c], id) == Total(callers, id) - Refs(callers[t], id) + Refs(c, id)
  {
    if t > 0 {
      TotalUpdate(callers[1..], t - 1, c, id);
      assert callers[t := c][1..] == callers[1..][t - 1 := c];
    } else {
      assert callers[t := c][1..] == callers[1..];
    }
  }

  lemma {:induction false} TotalZero(callers: seq<Caller>, id: Id)
    requires forall t :: 0 <= t < |callers| ==> Refs(callers[t], id) == 0
    ensures Total(callers, id) == 0
  {
    if callers != [] { TotalZero(callers[1..], id); }
  }

  lemma {:induction false} TotalAtLeast(callers: seq<Caller>, t: nat, id: Id)
    requires t < |callers|
    ensures Total(callers, id) >= Refs(callers[t], id)
  {
    if t > 0 { TotalAtLeast(callers[1..], t - 1, id); }
  }

  lemma {:induction false} TotalAtLeastTwo(callers: seq<Caller>, t: nat, u: nat, id: Id)
    requires t < u < |callers|
    ensures Total(callers, id) >= Refs(callers[t], id) + Refs(callers[u], id)
  {
    if t > 0 { TotalAtLeastTwo(callers[1..], t - 1, u - 1, id); } else { TotalAtLeast(callers[1..], u - 1, id); }
  }

  /** A granule that is not registered is referenced by nobody. */
  lemma {:induction false} UnregisteredHasNoRefs(s: State, id: Id)
    requires CallersOk(s) && !Registered(s, id)
    ensures Total(s.callers, id) == 0
  {
    forall t | 0 <= t < |s.callers| ensures Refs(s.callers[t], id) == 0 {
      var c := s.callers[t];
      assert EntriesOk(s, t);
      CountZero(c.owned[HeldFrom(c)..], id);
    }
    TotalZero(s.callers, id);
  }

  /** Nobody but the caller at its entry still holds granule id. */
  ghost predicate SoleHolder(s: State, t: nat, id: Id) {
    && t < |s.callers| && s.callers[t].pc.Detach?
    && (forall u :: 0 <= u < |s.callers| ==> HeldFrom(s.callers[u]) <= |s.callers[u].owned|)
    && (forall u, k | 0 <= u < |s.callers| && HeldFrom(s.callers[u]) <= k < |s.callers[u].owned| ::
          s.callers[u].owned[k] == Some(id) ==> u == t && k == s.callers[t].pc.i)
  }

  lemma {:induction false} RegisteredHasRefs(s: State, id: Id)
    requires Inv(s)
    ensures Registered(s, id) ==> Total(s.callers, id) >= 1
  {
    if Registered(s, id) { assert GranuleOk(s, id); }
  }

  /** The last counted reference: no other entry anywhere holds this granule. */
  lemma {:induction false} LastHolder(s: State, t: nat, id: Id)
    requires Inv(s) && t < |s.callers| && s.callers[t].pc.Detach?
    requires s.callers[t].pc.i < |s.callers[t].owned| && s.callers[t].owned[s.callers[t].pc.i] == Some(id)
    requires Registered(s, id) && s.heap[id].users == 1
    ensures SoleHolder(s, t, id)
  {
    forall u | 0 <= u < |s.callers| ensures HeldFrom(s.callers[u]) <= |s.callers[u].owned| {
      assert EntriesOk(s, u);
    }
    forall u, k | 0 <= u < |s.callers| && HeldFrom(s.callers[u]) <= k < |s.callers[u].owned|
                  && s.callers[u].owned[k] == Some(id)
      ensures u == t && k == s.callers[t].pc.i
    {
      OnlyEntry(s.callers, t, u, k, id);
    }
  }

  /** With one reference in all, an entry that holds it is the one caller t is about to drop. */
  lemma {:induction false} OnlyEntry(callers: seq<Caller>, t: nat, u: nat, k: nat, id: Id)
    requires Total(callers, id) == 1 && t < |callers| && u < |callers| && callers[t].pc.Detach?
    requires callers[t].pc.i < |callers[t].owned| && callers[t].owned[callers[t].pc.i] == Some(id)
    requires HeldFrom(callers[u]) <= k < |callers[u].owned| && callers[u].owned[k] == Some(id)
    ensures u == t && k == callers[t].pc.i
  {
    var i, d := callers[t].pc.i, callers[u];
    CountPositive(callers[t].owned[i..], 0, id);
    CountPositive(d.owned[HeldFrom(d)..], k - HeldFrom(d), id);
    if u < t { TotalAtLeastTwo(callers, u, t, id); }
    if t < u { TotalAtLeastTwo(callers, t, u, id); }
    if t == u && k != i {
      TotalAtLeast(callers, t, id);
      CountPositive(d.owned[i..][1..], k - i - 1, id);
    }
  }

  // ----- framing: a step of caller t touches at most one granule --------------------

  /** r differs from s at most in granule id and in caller t. */
  ghost predicate Touches(s: State, r: State, t: nat, id: Id) {
    && t < |s.callers| == |r.callers| && r.callers == s.callers[t := r.callers[t]]
    && s.nextId <= r.nextId
    && (forall j :: j != id ==> (j in r.heap <==> j in s.heap) && (j in s.heap ==> r.heap[j] == s.heap[j]))
    && (forall j :: j != id ==> (j in r.owner <==> j in s.owner) && (j in s.owner ==> r.owner[j] == s.owner[j]))
    && (forall j :: j != id ==> (j in r.queue <==> j in s.queue))
    && (forall x :: x in s.registry && s.registry[x] != id ==> x in r.registry && r.registry[x] == s.registry[x])
    && (forall x :: x in r.registry && r.registry[x] != id ==> x in s.registry && s.registry[x] == r.registry[x])
  }

  /** The entries of the array that are still held. */
  function HeldPart(c: Caller): seq<Option<Id>> {
    c.owned[if HeldFrom(c) <= |c.owned| then HeldFrom(c) else 0..]
  }

  /** The granule a step touches is fresh, the stepping caller's own, or stays registered for others. */
  ghost predicate OwnAffair(s: State, r: State, t: nat, u: nat, id: Id)
    requires u < |s.callers|
  {
    || (id !in s.heap && id >= s.nextId)
    || (id in s.heap && !Registered(s, id) && id in s.owner && s.owner[id] == t)
    || (Registered(s, id) && Registered(r, id))
    || (Registered(s, id) && Some(id) !in HeldPart(s.callers[u]))
  }

  /** The facts of a caller about its own array, without the rest of the invariant. */
  ghost predicate Local(s: State, t: nat) {
    t < |s.callers| && EntriesOk(s, t) && PcOk(s, t) && DetachedOk(s, t)
  }

  lemma {:induction false} EntriesFrame(s: State, r: State, t: nat, u: nat, id: Id)
    requires Local(s, u) && Touches(s, r, t, id) && u != t && OwnAffair(s, r, t, u, id)
    ensures EntriesOk(r, u)
  {
    var c := s.callers[u];
    assert r.callers[u] == c;
    forall k | HeldFrom(c) <= k < |c.owned| ensures Registered(r, c.owned[k].value) {
      assert Registered(s, c.owned[k].value);
      if c.owned[k].value == id { assert c.owned[k] in c.owned[HeldFrom(c)..]; }
    }
  }

  lemma {:induction false} CallerFrame(s: State, r: State, t: nat, u: nat, id: Id)
    requires Local(s, u) && Touches(s, r, t, id) && u != t
    requires OwnAffair(s, r, t, u, id)
    requires r.lock == s.lock || (s.lock == None && r.lock == Some(t)) || (s.lock == Some(t) && r.lock == None)
    requires r.registry.Keys <= s.registry.Keys || s.lock == Some(t)
    ensures Local(r, u)
  {
    assert r.callers[u] == s.callers[u];
    EntriesFrame(s, r, t, u, id);
    assert PcOk(r, u);
    assert DetachedOk(r, u);
  }

  /** How the claims may change along with granule id. */
  ghost predicate ClaimsMove(s: State, r: State, id: Id) {
    || (r.claims == s.claims
        && (id in r.heap && r.heap[id].claimed ==>
              id in s.heap && s.heap[id].claimed && s.heap[id].index == r.heap[id].index)
        && (id in s.heap && s.heap[id].claimed ==> id in r.heap && r.heap[id].claimed))
    || (id in r.heap && r.heap[id].claimed && r.heap[id].index !in s.claims
        && r.claims == s.claims + {r.heap[id].index} && (id in s.heap ==> !s.heap[id].claimed))
    || (id in s.heap && s.heap[id].claimed && r.claims == s.claims - {s.heap[id].index}
        && (id in r.heap ==> !r.heap[id].claimed))
  }

  ghost predicate TouchedOk(r: State, id: Id) {
    && (id in r.heap ==> GranuleOk(r, id) && (!Registered(r, id) ==> Adopted(r, id)))
    && (id in r.queue ==> id in r.heap)
    && (forall x :: x in r.registry && r.registry[x] == id ==> id in r.heap && r.heap[id].index == x)
  }

  /** Any other granule keeps its facts and its owner. */
  lemma {:induction false} GranuleFrame(s: State, r: State, t: nat, id: Id, j: Id)
    requires Inv(s) && Touches(s, r, t, id) && ClaimsMove(s, r, id)
    requires j != id && j in r.heap
    requires InRetirement(s.callers[t], j) ==> InRetirement(r.callers[t], j)
    requires var pc := s.callers[t].pc; pc.Claim? || pc.Map? || pc.Store? ==> pc.id == id
    ensures GranuleOk(r, j) && (!Registered(r, j) ==> Adopted(r, j))
  {
    assert GranuleOk(s, j);
    assert Registered(r, j) <==> Registered(s, j);
    assert !Registered(s, j) ==> Adopted(s, j);
  }

  lemma {:induction false} ClaimsFrame(s: State, r: State, t: nat, id: Id)
    requires ClaimsOk(s) && Touches(s, r, t, id) && ClaimsMove(s, r, id)
    requires forall j :: j in s.heap && s.heap[j].claimed ==> s.heap[j].index in s.claims
    ensures ClaimsOk(r)
  {
    forall x | x in r.claims ensures exists j :: j in r.heap && r.heap[j].claimed && r.heap[j].index == x {
      if x in s.claims {
        var j :| j in s.heap && s.heap[j].claimed && s.heap[j].index == x;
        assert j in r.heap && r.heap[j].claimed && r.heap[j].index == x;
      } else {
        assert id in r.heap && r.heap[id].claimed && r.heap[id].index == x;
      }
    }
  }

  lemma {:induction false} HeapFrame(s: State, r: State, t: nat, id: Id)
    requires Inv(s) && Touches(s, r, t, id) && ClaimsMove(s, r, id) && TouchedOk(r, id)
    requires forall j :: j != id && InRetirement(s.callers[t], j) ==> InRetirement(r.callers[t], j)
    requires var pc := s.callers[t].pc; pc.Claim? || pc.Map? || pc.Store? ==> pc.id == id
    ensures HeapOk(r)
  {
    forall j | j in r.heap ensures GranuleOk(r, j) && (!Registered(r, j) ==> Adopted(r, j)) {
      if j != id { GranuleFrame(s, r, t, id, j); }
    }
    forall x | x in r.registry ensures r.registry[x] in r.heap && r.heap[r.registry[x]].index == x {
      if r.registry[x] != id { assert s.registry[x] == r.registry[x]; }
    }
  }

  lemma {:induction false} CountsFrame(s: State, r: State, t: nat, id: Id)
    requires Inv(s) && Touches(s, r, t, id)
    requires forall j :: j != id ==> Refs(r.callers[t], j) == Refs(s.callers[t], j)
    requires Registered(r, id) ==>
               r.heap[id].users == Total(s.callers, id) - Refs(s.callers[t], id) + Refs(r.callers[t], id)
    ensures CountsOk(r)
  {
    forall j | j in r.heap && Registered(r, j) ensures r.heap[j].users == Total(r.callers, j) {
      TotalUpdate(s.callers, t, r.callers[t], j);
      assert j != id ==> Registered(s, j);
    }
  }

  /** Everything a step of caller t on granule id has to show about the others. */
  ghost predicate Moved(s: State, r: State, t: nat, id: Id) {
    && Touches(s, r, t, id) && ClaimsMove(s, r, id) && TouchedOk(r, id) && !r.fault
    && (forall j :: j != id && InRetirement(s.callers[t], j) ==> InRetirement(r.callers[t], j))
    && (var pc := s.callers[t].pc; pc.Claim? || pc.Map? || pc.Store? ==> pc.id == id)
    && (forall j :: j != id ==> Refs(r.callers[t], j) == Refs(s.callers[t], j))
    && (Registered(r, id) ==>
          r.heap[id].users == Total(s.callers, id) - Refs(s.callers[t], id) + Refs(r.callers[t], id))
    && (forall u :: 0 <= u < |s.callers| && u != t ==> OwnAffair(s, r, t, u, id))
    && (r.lock == s.lock || (s.lock == None && r.lock == Some(t)) || (s.lock == Some(t) && r.lock == None))
    && (r.registry.Keys <= s.registry.Keys || s.lock == Some(t))
  }

  lemma {:induction false} Assemble(s: State, r: State, t: nat, id: Id)
    requires Inv(s) && Moved(s, r, t, id) && Local(r, t)
    ensures Inv(r)
  {
    HeapFrame(s, r, t, id);
    assert forall j :: j in s.heap ==> GranuleOk(s, j);
    ClaimsFrame(s, r, t, id);
    CountsFrame(s, r, t, id);
    forall u | 0 <= u < |r.callers| ensures EntriesOk(r, u) && PcOk(r, u) && DetachedOk(r, u) {
      if u != t {
        assert Local(s, u);
        CallerFrame(s, r, t, u, id);
      }
    }
  }

  // ----- every step keeps the invariant ---------------------------------------------

  ghost predicate RegistryOk(s: State) {
    forall x :: x in s.registry ==> s.registry[x] in s.heap && s.heap[s.registry[x]].index == x
  }

  /** What the step of caller t on granule id needs to know beforehand. */
  ghost predicate Before(s: State, t: nat, id: Id) {
    && !s.fault && Local(s, t) && RegistryOk(s)
    && (if id in s.heap then GranuleOk(s, id) else id >= s.nextId && id !in s.queue)
  }

  ghost predicate After(s: State, r: State, t: nat, id: Id) {
    Moved(s, r, t, id) && Local(r, t)
  }

  lemma {:induction false} GainOne(c: Caller, d: Caller, id: Id)
    requires HeldFrom(c) == HeldFrom(d) == 0 && d.owned == c.owned + [Some(id)]
    ensures forall j :: Refs(d, j) == Refs(c, j) + (if j == id then 1 else 0)
  {
    assert c.owned[0..] == c.owned && d.owned[0..] == d.owned;
    forall j ensures Refs(d, j) == Refs(c, j) + (if j == id then 1 else 0) {
      CountAppend(c.owned, [Some(id)], j);
    }
  }

  lemma {:induction false} EntriesGainOne(s: State, r: State, t: nat, id: Id)
    requires t < |s.callers| && t < |r.callers| && EntriesOk(s, t)
    requires HeldFrom(s.callers[t]) == RetireFrom(s.callers[t]) == 0 && r.callers[t].pc.Ready?
    requires r.callers[t].owned == s.callers[t].owned + [Some(id)]
    requires Registered(r, id) && forall j :: Registered(s, j) ==> Registered(r, j)
    ensures EntriesOk(r, t)
  {
  }

  /** Consuming the first held entry: one counted reference fewer. */
  lemma {:induction false} LoseOne(c: Caller, d: Caller, id: Id)
    requires HeldFrom(c) < |c.owned| == |d.owned| && c.owned[HeldFrom(c)] == Some(id)
    requires HeldFrom(d) == HeldFrom(c) + 1 && d.owned[HeldFrom(d)..] == c.owned[HeldFrom(d)..]
    ensures forall j :: Refs(c, j) == Refs(d, j) + (if j == id then 1 else 0)
  {
    assert c.owned[HeldFrom(c)..][1..] == c.owned[HeldFrom(d)..];
  }

  /** The steps that only move a caller along its code. */
  lemma {:induction false} MoveOnly(s: State, r: State, t: nat)
    requires Before(s, t, s.nextId) && s.nextId !in s.heap
    requires (!Locked(s.callers[t].pc) || s.callers[t].pc.Detach? || s.callers[t].pc.Lookup?)
    requires |r.callers| == |s.callers| && r == s.(callers := s.callers[t := r.callers[t]], lock := r.lock)
    requires r.lock == s.lock || (s.lock == None && r.lock == Some(t)) || (s.lock == Some(t) && r.lock == None)
    requires forall j :: InRetirement(s.callers[t], j) ==> InRetirement(r.callers[t], j)
    requires forall j :: Refs(r.callers[t], j) == Refs(s.callers[t], j)
    requires Local(r, t)
    ensures After(s, r, t, s.nextId)
  {
  }

  lemma {:induction false} LookupHit(s: State, t: nat, ok: bool, id: Id)
    requires Before(s, t, id) && s.callers[t].pc.Lookup?
    requires s.callers[t].pc.index in s.registry && s.registry[s.callers[t].pc.index] == id
    requires s.heap[id].users == Total(s.callers, id)
    ensures After(s, RunLookup(s, t, ok), t, id)
  {
    var r := RunLookup(s, t, ok);
    GainOne(s.callers[t], r.callers[t], id);
    assert forall j :: Registered(s, j) <==> Registered(r, j);
    EntriesGainOne(s, r, t, id);
    assert TouchedOk(r, id);
  }

  lemma {:induction false} LookupMiss(s: State, t: nat)
    requires Before(s, t, s.nextId) && s.callers[t].pc.Lookup? && s.nextId !in s.heap
    requires s.callers[t].pc.index !in s.registry
    ensures After(s, RunLookup(s, t, true), t, s.nextId)
  {
    var r := RunLookup(s, t, true);
    assert EntriesOk(r, t);
    assert TouchedOk(r, s.nextId);
  }

  lemma {:induction false} Abandons(s: State, t: nat, id: Id)
    requires Before(s, t, id) && id in s.heap
    requires var pc := s.callers[t].pc; (pc.Claim? || pc.Map? || pc.Store?) && pc.id == id
    ensures After(s, Abandon(s, t, id), t, id)
  {
    var r := Abandon(s, t, id);
    assert EntriesOk(r, t);
    assert TouchedOk(r, id);
  }

  lemma {:induction false} ClaimOk(s: State, t: nat, id: Id)
    requires Before(s, t, id) && s.callers[t].pc == Claim(id) && id in s.heap && s.heap[id].index !in s.claims
    ensures After(s, RunClaim(s, t, true), t, id)
  {
    var r := RunClaim(s, t, true);
    assert EntriesOk(r, t);
    assert TouchedOk(r, id);
  }

  lemma {:induction false} MapOk(s: State, t: nat, id: Id)
    requires Before(s, t, id) && s.callers[t].pc == Map(id) && id in s.heap
    ensures After(s, RunMap(s, t, true), t, id)
  {
    var r := RunMap(s, t, true);
    assert EntriesOk(r, t);
    assert TouchedOk(r, id);
  }

  lemma {:induction false} StoreLocal(s: State, t: nat, id: Id)
    requires Before(s, t, id) && s.callers[t].pc == Store(id) && id in s.heap
    ensures Local(RunStore(s, t, true), t)
    ensures forall j :: j != id ==> (Registered(s, j) <==> Registered(RunStore(s, t, true), j))
  {
    EntriesGainOne(s, RunStore(s, t, true), t, id);
  }

  lemma {:induction false} StoreOk(s: State, t: nat, id: Id)
    requires Before(s, t, id) && s.callers[t].pc == Store(id) && id in s.heap
    requires Total(s.callers, id) == 0
    ensures After(s, RunStore(s, t, true), t, id)
  {
    var r := RunStore(s, t, true);
    StoreLocal(s, t, id);
    StoreTouches(s, t, id);
    GainOne(s.callers[t], r.callers[t], id);
    TotalAtLeast(s.callers, t, id);
  }

  lemma {:induction false} StoreTouches(s: State, t: nat, id: Id)
    requires Before(s, t, id) && s.callers[t].pc == Store(id) && id in s.heap
    ensures var r := RunStore(s, t, true); Touches(s, r, t, id) && ClaimsMove(s, r, id) && TouchedOk(r, id)
  {
  }

  lemma {:induction false} BatchMove(s: State, t: nat)
    requires Before(s, t, s.nextId) && s.nextId !in s.heap && s.callers[t].pc.Batch?
    requires RunBatch(s, t) != s
    ensures After(s, RunBatch(s, t), t, s.nextId)
  {
    var c := s.callers[t];
    if c.pc.first == |c.owned| { assert c.owned[c.pc.first..] == []; }
    MoveOnly(s, RunBatch(s, t), t);
  }

  ghost predicate AtEntry(c: Caller, id: Id) {
    c.pc.Detach? && c.pc.i < c.pc.end && c.pc.i < |c.owned| && c.owned[c.pc.i] == Some(id)
  }

  lemma {:induction false} DetachSharedLocal(s: State, t: nat, id: Id)
    requires Local(s, t) && AtEntry(s.callers[t], id) && id in s.heap && s.heap[id].users > 1
    ensures var r := RunDetach(s, t);
            && Local(r, t)
            && forall j: Id :: InRetirement(s.callers[t], j) ==> InRetirement(r.callers[t], j)
  {
    var c := s.callers[t];
    var r := RunDetach(s, t);
    var d := r.callers[t];
    assert forall j :: Registered(r, j) <==> Registered(s, j);
    forall j: Id | InRetirement(c, j) ensures InRetirement(d, j) {
      var k :| RetireFrom(c) <= k < HeldFrom(c) && c.owned[k] == Some(j);
      assert d.owned[k] == Some(j);
    }
    assert EntriesOk(r, t);
  }

  lemma {:induction false} DetachShared(s: State, t: nat, id: Id)
    requires Before(s, t, id) && AtEntry(s.callers[t], id) && id in s.heap && s.heap[id].users > 1
    requires s.heap[id].users == Total(s.callers, id)
    ensures After(s, RunDetach(s, t), t, id)
  {
    assert Registered(s, s.callers[t].owned[s.callers[t].pc.i].value);
    DetachSharedLocal(s, t, id);
    var r := RunDetach(s, t);
    LoseOne(s.callers[t], r.callers[t], id);
    TotalAtLeast(s.callers, t, id);
    assert TouchedOk(r, id);
  }

  lemma {:induction false} DetachFinalLocal(s: State, t: nat, id: Id)
    requires Before(s, t, id) && AtEntry(s.callers[t], id) && Registered(s, id) && s.heap[id].users == 1
    requires SoleHolder(s, t, id)
    ensures var r := RunDetach(s, t);
            && Local(r, t)
            && InRetirement(r.callers[t], id)
            && forall j: Id :: InRetirement(s.callers[t], j) ==> InRetirement(r.callers[t], j)
  {
    var c := s.callers[t];
    var r := RunDetach(s, t);
    var d := r.callers[t];
    assert d.owned[c.pc.i] == Some(id) && InRetirement(d, id);
    forall j: Id | InRetirement(c, j) ensures InRetirement(d, j) {
      var k :| RetireFrom(c) <= k < HeldFrom(c) && c.owned[k] == Some(j);
      assert d.owned[k] == Some(j);
    }
    DetachFinalEntries(s, t, id);
  }

  lemma {:induction false} DetachFinalEntries(s: State, t: nat, id: Id)
    requires Before(s, t, id) && AtEntry(s.callers[t], id) && Registered(s, id) && s.heap[id].users == 1
    requires SoleHolder(s, t, id)
    ensures EntriesOk(RunDetach(s, t), t)
  {
    var c := s.callers[t];
    var i := c.pc.i;
    var r := RunDetach(s, t);
    forall k | RetireFrom(c) <= k < i && c.owned[k].Some? ensures Retiring(r, t, c.owned[k].value) {
      assert Retiring(s, t, c.owned[k].value);
    }
    forall k | i < k < |c.owned| ensures c.owned[k].Some? && Registered(r, c.owned[k].value) {
      assert Registered(s, c.owned[k].value);
    }
  }

  lemma {:induction false} DetachFinal(s: State, t: nat, id: Id)
    requires Before(s, t, id) && AtEntry(s.callers[t], id) && id in s.heap && s.heap[id].users == 1
    requires SoleHolder(s, t, id)
    ensures After(s, RunDetach(s, t), t, id)
  {
    assert Registered(s, s.callers[t].owned[s.callers[t].pc.i].value);
    DetachFinalLocal(s, t, id);
    var r := RunDetach(s, t);
    LoseOne(s.callers[t], r.callers[t], id);
    assert !Registered(r, id);
    assert TouchedOk(r, id);
  }

  /** Work on a granule in retirement disturbs no other entry of its owner's array. */
  lemma {:induction false} EntriesAfterWork(s: State, r: State, t: nat, id: Id)
    requires t < |s.callers| && t < |r.callers| && EntriesOk(s, t) && r.registry == s.registry && r.owner == s.owner
    requires forall j :: j != id && j in s.heap ==> j in r.heap && r.heap[j] == s.heap[j]
    requires Retiring(s, t, id) && Retiring(r, t, id) && r.heap[id].work != Fresh
    requires var c, d := s.callers[t], r.callers[t];
             d.owned == c.owned && RetireFrom(d) == RetireFrom(c) && HeldFrom(d) == HeldFrom(c)
             && forall k :: RetireFrom(c) <= k < HeldFrom(c) && c.owned[k].Some? ==>
                  (Handed(d, k) <==> Handed(c, k) || c.owned[k] == Some(id))
    ensures EntriesOk(r, t)
  {
    var c := s.callers[t];
    forall k | RetireFrom(c) <= k < HeldFrom(c) && c.owned[k].Some?
      ensures Retiring(r, t, c.owned[k].value) && (r.heap[c.owned[k].value].work == Fresh <==> !Handed(r.callers[t], k))
    {
      assert Retiring(s, t, c.owned[k].value);
    }
    forall k | HeldFrom(c) <= k < |c.owned| ensures c.owned[k].Some? && Registered(r, c.owned[k].value) {
      assert Registered(s, c.owned[k].value);
    }
  }

  lemma {:induction false} QueueLocal(s: State, t: nat, id: Id)
    requires Local(s, t) && s.callers[t].pc.Queue?
    requires var c := s.callers[t]; c.pc.i < c.pc.end && c.owned[c.pc.i] == Some(id)
    ensures Retiring(s, t, id) && s.heap[id].work == Fresh
    ensures Local(RunQueue(s, t), t) && InRetirement(RunQueue(s, t).callers[t], id)
  {
    var c := s.callers[t];
    var r := RunQueue(s, t);
    assert Retiring(s, t, c.owned[c.pc.i].value);
    EntriesAfterWork(s, r, t, id);
    assert r.callers[t].owned[c.pc.i] == Some(id);
    assert DetachedOk(r, t);
  }

  lemma {:induction false} Queues(s: State, t: nat, id: Id)
    requires Before(s, t, id) && s.callers[t].pc.Queue?
    requires var c := s.callers[t]; c.pc.i < c.pc.end && c.owned[c.pc.i] == Some(id)
    ensures After(s, RunQueue(s, t), t, id)
  {
    QueueLocal(s, t, id);
    assert TouchedOk(RunQueue(s, t), id);
  }

  lemma {:induction false} JoinKeepsOthers(c: Caller, d: Caller, id: Id)
    requires c.pc.Join? && c.pc.i < |c.owned| && c.owned[c.pc.i] == Some(id)
    requires d.pc == c.pc.(i := c.pc.i + 1) && d.owned == c.owned[c.pc.i := None]
    ensures forall j: Id :: j != id && InRetirement(c, j) ==> InRetirement(d, j)
  {
    forall j: Id | j != id && InRetirement(c, j) ensures InRetirement(d, j) {
      var k :| RetireFrom(c) <= k < HeldFrom(c) && c.owned[k] == Some(j);
      assert d.owned[k] == Some(j);
    }
  }

  lemma {:induction false} JoinLocal(s: State, t: nat, id: Id)
    requires Local(s, t) && s.callers[t].pc.Join?
    requires var c := s.callers[t]; c.pc.i < c.pc.end && c.owned[c.pc.i] == Some(id)
    requires id in s.heap && id !in s.queue && Freeable(s, id)
    ensures var r := RunJoin(s, t);
            && Local(r, t)
            && forall j: Id :: j != id && InRetirement(s.callers[t], j) ==> InRetirement(r.callers[t], j)
  {
    var c := s.callers[t];
    var i := c.pc.i;
    var r := RunJoin(s, t);
    var d := r.callers[t];
    JoinKeepsOthers(c, d, id);
    forall k | i < k < HeldFrom(c) && c.owned[k].Some? ensures Retiring(r, t, c.owned[k].value) {
      assert Retiring(s, t, c.owned[k].value) && c.owned[i] != c.owned[k];
    }
    forall k | HeldFrom(c) <= k < |c.owned| ensures c.owned[k].Some? && Registered(r, c.owned[k].value) {
      assert Registered(s, c.owned[k].value);
    }
    assert EntriesOk(r, t);
    assert DetachedOk(r, t);
  }

  lemma {:induction false} Joins(s: State, t: nat, id: Id)
    requires Before(s, t, id) && s.callers[t].pc.Join?
    requires var c := s.callers[t]; c.pc.i < c.pc.end && c.owned[c.pc.i] == Some(id)
    requires RunJoin(s, t) != s
    ensures After(s, RunJoin(s, t), t, id)
  {
    var c := s.callers[t];
    var r := RunJoin(s, t);
    assert Retiring(s, t, c.owned[c.pc.i].value);
    JoinLocal(s, t, id);
    assert r.callers[t].owned[c.pc.end..] == c.owned[c.pc.end..];
    assert TouchedOk(r, id);
  }

  lemma {:induction false} Retires(s: State, t: nat, id: Id)
    requires Before(s, t, id) && id in s.queue && Retiring(s, t, id) && InRetirement(s.callers[t], id)
    ensures After(s, RunRetire(s, id), t, id)
  {
    var r := RunRetire(s, id);
    EntriesAfterWork(s, r, t, id);
    assert DetachedOk(r, t);
    assert TouchedOk(r, id);
  }

  // ----- putting the steps together -------------------------------------------------

  lemma {:induction false} HaveBefore(s: State, t: nat, id: Id)
    requires Inv(s) && t < |s.callers| && (id in s.heap || id == s.nextId)
    ensures Before(s, t, id) && (id == s.nextId ==> id !in s.heap)
  {
    if id in s.heap { assert GranuleOk(s, id); }
    assert EntriesOk(s, t) && PcOk(s, t) && DetachedOk(s, t);
  }

  lemma {:induction false} LookupKeepsInv(s: State, t: nat, ok: bool)
    requires Inv(s) && t < |s.callers| && s.callers[t].pc.Lookup?
    ensures Inv(RunLookup(s, t, ok))
  {
    var x := s.callers[t].pc.index;
    var r := RunLookup(s, t, ok);
    var id := if x in s.registry then s.registry[x] else s.nextId;
    HaveBefore(s, t, id);
    if x in s.registry {
      LookupHit(s, t, ok, id);
    } else if ok {
      LookupMiss(s, t);
    } else {
      MoveOnly(s, r, t);
    }
    Assemble(s, r, t, id);
  }

  lemma {:induction false} BuildKeepsInv(s: State, t: nat, ok: bool)
    requires Inv(s) && t < |s.callers|
    requires var pc := s.callers[t].pc; pc.Claim? || pc.Map? || pc.Store?
    ensures Inv(Apply(s, Run(t, ok)))
  {
    var r := Apply(s, Run(t, ok));
    var id := s.callers[t].pc.id;
    assert PcOk(s, t);
    HaveBefore(s, t, id);
    if r == Abandon(s, t, id) {
      Abandons(s, t, id);
    } else {
      match s.callers[t].pc
      case Claim(_) => ClaimOk(s, t, id);
      case Map(_) => MapOk(s, t, id);
      case Store(_) => UnregisteredHasNoRefs(s, id); StoreOk(s, t, id);
    }
    Assemble(s, r, t, id);
  }

  /** Moving on past NULL entries. */
  ghost predicate SkipsTo(c: Caller, d: Caller) {
    && d.owned == c.owned && HeldFrom(d) == HeldFrom(c) <= |c.owned|
    && RetireFrom(c) <= RetireFrom(d) <= HeldFrom(c)
    && (forall k :: RetireFrom(c) <= k < RetireFrom(d) ==> c.owned[k] == None)
    && (forall k :: RetireFrom(d) <= k < HeldFrom(c) && c.owned[k].Some? ==> (Handed(d, k) <==> Handed(c, k)))
  }

  lemma {:induction false} SkipEntries(s: State, r: State, t: nat)
    requires t < |s.callers| && t < |r.callers| && EntriesOk(s, t) && SkipsTo(s.callers[t], r.callers[t])
    requires r.heap == s.heap && r.registry == s.registry && r.owner == s.owner
    ensures EntriesOk(r, t)
    ensures forall j: Id :: InRetirement(s.callers[t], j) ==> InRetirement(r.callers[t], j)
  {
    var c, d := s.callers[t], r.callers[t];
    forall j: Id | InRetirement(c, j) ensures InRetirement(d, j) {
      var k :| RetireFrom(c) <= k < HeldFrom(c) && c.owned[k] == Some(j);
      assert d.owned[k] == Some(j);
    }
  }

  lemma {:induction false} DetachEndMove(s: State, t: nat)
    requires Before(s, t, s.nextId) && s.nextId !in s.heap
    requires s.callers[t].pc.Detach? && s.callers[t].pc.i >= s.callers[t].pc.end
    ensures After(s, RunDetach(s, t), t, s.nextId)
  {
    var r := RunDetach(s, t);
    assert SkipsTo(s.callers[t], r.callers[t]);
    SkipEntries(s, r, t);
    MoveOnly(s, r, t);
  }

  lemma {:induction false} DetachEntryKeepsInv(s: State, t: nat, id: Id)
    requires Inv(s) && t < |s.callers| && AtEntry(s.callers[t], id) && Registered(s, id)
    ensures Inv(RunDetach(s, t))
  {
    HaveBefore(s, t, id);
    if s.heap[id].users > 1 {
      DetachShared(s, t, id);
    } else {
      LastHolder(s, t, id);
      DetachFinal(s, t, id);
    }
    Assemble(s, RunDetach(s, t), t, id);
  }

  lemma {:induction false} DetachKeepsInv(s: State, t: nat)
    requires Inv(s) && t < |s.callers| && s.callers[t].pc.Detach?
    ensures Inv(RunDetach(s, t))
  {
    var c := s.callers[t];
    HaveBefore(s, t, s.nextId);
    if c.pc.i >= c.pc.end {
      DetachEndMove(s, t);
      Assemble(s, RunDetach(s, t), t, s.nextId);
    } else {
      DetachEntryKeepsInv(s, t, c.owned[c.pc.i].value);
    }
  }

  lemma {:induction false} BatchKeepsInv(s: State, t: nat)
    requires Inv(s) && t < |s.callers| && s.callers[t].pc.Batch?
    ensures Inv(RunBatch(s, t))
  {
    if RunBatch(s, t) != s {
      HaveBefore(s, t, s.nextId);
      BatchMove(s, t);
      Assemble(s, RunBatch(s, t), t, s.nextId);
    }
  }

  /** An entry a non-final put left NULL, or the end of a loop, moves the caller along. */
  ghost predicate Skips(s: State, r: State, t: nat) {
    && t < |s.callers| == |r.callers| && r == s.(callers := s.callers[t := r.callers[t]])
    && SkipsTo(s.callers[t], r.callers[t]) && PcBounds(r.callers[t]) && r.callers[t].detached == s.callers[t].detached
    && !Locked(s.callers[t].pc) && !Locked(r.callers[t].pc)
  }

  lemma {:induction false} SkipMove(s: State, r: State, t: nat)
    requires Before(s, t, s.nextId) && s.nextId !in s.heap && Skips(s, r, t)
    ensures After(s, r, t, s.nextId)
  {
    SkipEntries(s, r, t);
    assert PcOk(r, t) && DetachedOk(r, t);
    MoveOnly(s, r, t);
  }

  lemma {:induction false} SkipKeepsInv(s: State, r: State, t: nat)
    requires Inv(s) && Skips(s, r, t)
    ensures Inv(r)
  {
    HaveBefore(s, t, s.nextId);
    SkipMove(s, r, t);
    Assemble(s, r, t, s.nextId);
  }

  lemma {:induction false} QueueSkips(s: State, t: nat)
    requires Local(s, t) && s.callers[t].pc.Queue?
    requires var c := s.callers[t]; c.pc.i >= c.pc.end || c.owned[c.pc.i].None?
    ensures Skips(s, RunQueue(s, t), t)
  {
  }

  lemma {:induction false} JoinSkips(s: State, t: nat)
    requires Local(s, t) && s.callers[t].pc.Join?
    requires var c := s.callers[t]; c.pc.i >= c.pc.end || c.owned[c.pc.i].None?
    ensures Skips(s, RunJoin(s, t), t)
  {
  }

  lemma {:induction false} QueueKeepsInv(s: State, t: nat)
    requires Inv(s) && t < |s.callers| && s.callers[t].pc.Queue?
    ensures Inv(RunQueue(s, t))
  {
    var c := s.callers[t];
    HaveBefore(s, t, s.nextId);
    if c.pc.i >= c.pc.end || c.owned[c.pc.i].None? {
      QueueSkips(s, t);
      SkipKeepsInv(s, RunQueue(s, t), t);
    } else {
      var id := c.owned[c.pc.i].value;
      QueueLocal(s, t, id);
      HaveBefore(s, t, id);
      Queues(s, t, id);
      Assemble(s, RunQueue(s, t), t, id);
    }
  }

  lemma {:induction false} JoinKeepsInv(s: State, t: nat)
    requires Inv(s) && t < |s.callers| && s.callers[t].pc.Join?
    ensures Inv(RunJoin(s, t))
  {
    var c := s.callers[t];
    HaveBefore(s, t, s.nextId);
    if c.pc.i >= c.pc.end || c.owned[c.pc.i].None? {
      JoinSkips(s, t);
      SkipKeepsInv(s, RunJoin(s, t), t);
    } else if RunJoin(s, t) != s {
      var id := c.owned[c.pc.i].value;
      assert Retiring(s, t, id);
      HaveBefore(s, t, id);
      Joins(s, t, id);
      Assemble(s, RunJoin(s, t), t, id);
    }
  }

  lemma {:induction false} BeginKeepsInv(s: State, step: Step)
    requires Inv(s) && (step.BeginGet? || step.BeginPut?)
    ensures Inv(Apply(s, step))
  {
    var r := Apply(s, step);
    if r != s {
      HaveBefore(s, step.t, s.nextId);
      MoveOnly(s, r, step.t);
      Assemble(s, r, step.t, s.nextId);
    }
  }

  lemma {:induction false} RetireKeepsInv(s: State, id: Id)
    requires Inv(s) && id in s.queue
    ensures Inv(RunRetire(s, id))
  {
    assert GranuleOk(s, id) && Adopted(s, id);
    var t := s.owner[id];
    HaveBefore(s, t, id);
    assert Retiring(s, t, id);
    Retires(s, t, id);
    Assemble(s, RunRetire(s, id), t, id);
  }

  /** Every step of every caller and of every callback keeps the invariant. */
  lemma {:induction false} StepKeepsInv(s: State, step: Step)
    requires Inv(s)
    ensures Inv(Apply(s, step))
  {
    match step
    case BeginGet(_, _) => BeginKeepsInv(s, step);
    case BeginPut(_) => BeginKeepsInv(s, step);
    case Retire(id) => if id in s.queue { RetireKeepsInv(s, id); }
    case Run(t, ok) =>
      if t < |s.callers| {
        match s.callers[t].pc
        case Ready =>
        case Lookup(_) => LookupKeepsInv(s, t, ok);
        case Batch(_) => BatchKeepsInv(s, t);
        case Detach(_, _, _) => DetachKeepsInv(s, t);
        case Queue(_, _, _) => QueueKeepsInv(s, t);
        case Join(_, _, _) => JoinKeepsInv(s, t);
        case _ => BuildKeepsInv(s, t, ok);
      }
  }

  lemma {:induction false} ExecKeepsInv(s: State, steps: seq<Step>)
    requires Inv(s)
    ensures Inv(Exec(s, steps))
    decreases |steps|
  {
    if steps != [] {
      StepKeepsInv(s, steps[0]);
      ExecKeepsInv(Apply(s, steps[0]), steps[1..]);
    }
  }

  lemma {:induction false} ReachableInv(callers: nat, steps: seq<Step>)
    ensures Inv(Exec(Init(callers), steps))
  {
    var s := Init(callers);
    forall t | 0 <= t < |s.callers| ensures EntriesOk(s, t) && PcOk(s, t) && DetachedOk(s, t) {
      assert s.callers[t] == Caller(Ready, [], {});
    }
    ExecKeepsInv(s, steps);
  }

  // ----- what holds in every run ----------------------------------------------------

  /** No interleaving of any callers and callbacks reads or frees a freed granule, follows a
      NULL entry, drops a missing reference, queues work twice or frees what is in use. */
  lemma {:induction false} NoFault(callers: nat, steps: seq<Step>)
    ensures !Exec(Init(callers), steps).fault
  {
    ReachableInv(callers, steps);
  }

  /** The `users` of a discoverable granule are the references still held, and it has some. */
  lemma {:induction false} UsersAreReferences(callers: nat, steps: seq<Step>, x: nat)
    requires x in Exec(Init(callers), steps).registry
    ensures var s := Exec(Init(callers), steps);
            var id := s.registry[x];
            id in s.heap && s.heap[id].index == x && s.heap[id].users == Total(s.callers, id) >= 1
  {
    ReachableInv(callers, steps);
    var s := Exec(Init(callers), steps);
    assert GranuleOk(s, s.registry[x]) && Registered(s, s.registry[x]);
  }

  /** Every held entry is discoverable: sharing never loses a granule to another's put. */
  lemma {:induction false} HeldIsRegistered(callers: nat, steps: seq<Step>, t: nat, k: nat)
    requires var s := Exec(Init(callers), steps); t < |s.callers| && HeldFrom(s.callers[t]) <= k < |s.callers[t].owned|
    ensures var s := Exec(Init(callers), steps);
            var entry := s.callers[t].owned[k];
            entry.Some? && Registered(s, entry.value) && s.heap[entry.value].mapped
  {
    ReachableInv(callers, steps);
    var s := Exec(Init(callers), steps);
    assert EntriesOk(s, t);
    assert Registered(s, s.callers[t].owned[k].value) && GranuleOk(s, s.callers[t].owned[k].value);
  }

  /** Two live mappings never cover the same 2 MiB index, nor do two region claims. */
  lemma {:induction false} OneMappingPerIndex(callers: nat, steps: seq<Step>, a: Id, b: Id)
    requires var s := Exec(Init(callers), steps);
             a in s.heap && b in s.heap && s.heap[a].index == s.heap[b].index
             && (s.heap[a].mapped || s.heap[a].claimed) && (s.heap[b].mapped || s.heap[b].claimed)
    ensures a == b
  {
    ReachableInv(callers, steps);
    var s := Exec(Init(callers), steps);
    assert GranuleOk(s, a) && GranuleOk(s, b);
  }

  /** While a detached granule has not released its region, a new get of its index fails:
      whatever the kernel answers, the caller leaves with what it had. */
  lemma {:induction false} BusyUntilReleased(callers: nat, steps: seq<Step>, was: Id, t: nat, ok: bool)
    requires var s := Exec(Init(callers), steps);
             && t < |s.callers| && s.callers[t].pc.Claim? && s.callers[t].pc.id in s.heap
             && was in s.heap && was != s.callers[t].pc.id && s.heap[was].claimed
             && s.heap[was].index == s.heap[s.callers[t].pc.id].index
    ensures var s := Exec(Init(callers), steps);
            var r := Apply(s, Run(t, ok));
            && r.callers[t] == s.callers[t].(pc := Ready)
            && r.heap == s.heap - {s.callers[t].pc.id} && r.registry == s.registry && r.claims == s.claims
  {
    ReachableInv(callers, steps);
    var s := Exec(Init(callers), steps);
    assert GranuleOk(s, was) && PcOk(s, t);
  }

  /** When put is about to return, nothing it detached still exists and its array is all NULL. */
  lemma {:induction false} PutReturnsAfterRetirement(callers: nat, steps: seq<Step>, t: nat)
    requires var s := Exec(Init(callers), steps);
             t < |s.callers| && s.callers[t].pc.Batch? && s.callers[t].pc.first >= |s.callers[t].owned|
    ensures var s := Exec(Init(callers), steps);
            && s.callers[t].detached !! s.heap.Keys
            && (forall k :: 0 <= k < |s.callers[t].owned| ==> s.callers[t].owned[k] == None)
            && (forall id :: id in s.heap ==> Registered(s, id) || (id in s.owner && s.owner[id] != t))
  {
    ReachableInv(callers, steps);
    var s := Exec(Init(callers), steps);
    assert EntriesOk(s, t) && PcOk(s, t) && DetachedOk(s, t);
    forall id | id in s.heap && !Registered(s, id) ensures id in s.owner && s.owner[id] != t {
      assert Adopted(s, id);
    }
  }

  /** The granules a caller has taken out of the registry and not yet freed. */
  function Outstanding(s: State, t: nat): set<Id> {
    set id | id in s.heap && !Registered(s, id) && id in s.owner && s.owner[id] == t
  }

  lemma {:induction false} FewValues(a: seq<Option<Id>>, ids: set<Id>)
    requires forall id :: id in ids ==> Some(id) in a
    ensures |ids| <= |a|
  {
    if a == [] {
      assert ids == {};
    } else {
      var rest := if a[0].Some? then ids - {a[0].value} else ids;
      forall id | id in rest ensures Some(id) in a[1..] { assert Some(id) in a; }
      FewValues(a[1..], rest);
    }
  }

  /** No caller ever has more than one batch of retirements outstanding. */
  lemma {:induction false} AtMostOneBatch(callers: nat, steps: seq<Step>, t: nat)
    requires t < |Exec(Init(callers), steps).callers|
    ensures |Outstanding(Exec(Init(callers), steps), t)| <= 32
  {
    ReachableInv(callers, steps);
    var s := Exec(Init(callers), steps);
    var c := s.callers[t];
    assert EntriesOk(s, t) && PcOk(s, t);
    if c.pc.Claim? || c.pc.Map? || c.pc.Store? {
      forall id | id in Outstanding(s, t) ensures Some(id) in [Some(c.pc.id)] { assert Adopted(s, id); }
      FewValues([Some(c.pc.id)], Outstanding(s, t));
    } else {
      var range := c.owned[RetireFrom(c)..HeldFrom(c)];
      forall id | id in Outstanding(s, t) ensures Some(id) in range {
        assert Adopted(s, id);
        var k :| RetireFrom(c) <= k < HeldFrom(c) && c.owned[k] == Some(id);
        assert range[k - RetireFrom(c)] == Some(id);
      }
      FewValues(range, Outstanding(s, t));
    }
  }

  /** Conservation: once every caller has given everything back, nothing is left behind. */
  lemma {:induction false} NothingLeaks(callers: nat, steps: seq<Step>)
    requires forall c :: c in Exec(Init(callers), steps).callers ==> c.pc.Ready? && c.owned == []
    ensures var s := Exec(Init(callers), steps);
            s.heap == map[] && s.registry == map[] && s.claims == {} && s.queue == {} && s.lock == None
  {
    ReachableInv(callers, steps);
    var s := Exec(Init(callers), steps);
    forall t | 0 <= t < |s.callers| ensures s.lock != Some(t) && s.callers[t].pc.Ready? && s.callers[t].owned == [] {
      assert PcOk(s, t) && s.callers[t] in s.callers;
    }
    forall id ensures !Registered(s, id) {
      TotalZero(s.callers, id);
      RegisteredHasRefs(s, id);
    }
    assert forall id :: id in s.heap ==> Adopted(s, id);
    assert s.heap == map[];
  }

  /** A caller inside get or put is never stuck: some step of a caller or callback is open. */
  lemma {:induction false} NoDeadlock(callers: nat, steps: seq<Step>, t: nat)
    requires var s := Exec(Init(callers), steps); t < |s.callers| && !s.callers[t].pc.Ready?
    ensures var s := Exec(Init(callers), steps);
            exists step: Step :: (step.Run? || step.Retire?) && Apply(s, step) != s
  {
    ReachableInv(callers, steps);
    var s := Exec(Init(callers), steps);
    if s.lock.Some? {
      HolderMoves(s, s.lock.value);
    } else {
      assert Local(s, t);
      WaiterMoves(s, t);
    }
  }

  lemma {:induction false} HolderMoves(s: State, u: nat)
    requires Inv(s) && s.lock == Some(u)
    ensures Apply(s, Run(u, true)) != s
  {
    assert PcOk(s, u);
    var r := Apply(s, Run(u, true));
    assert r.fault || r.callers[u].pc != s.callers[u].pc;
  }

  lemma {:induction false} WaiterMoves(s: State, t: nat)
    requires Inv(s) && s.lock == None && t < |s.callers| && !s.callers[t].pc.Ready?
    ensures exists step: Step :: (step.Run? || step.Retire?) && Apply(s, step) != s
  {
    var c := s.callers[t];
    assert PcOk(s, t) && EntriesOk(s, t);
    var r := Apply(s, Run(t, true));
    if r == s {
      assert c.pc.Join? && c.owned[c.pc.i].Some?;
      var id := c.owned[c.pc.i].value;
      assert GranuleOk(s, id);
      assert Apply(s, Retire(id)).heap[id] != s.heap[id];
      assert Apply(s, Retire(id)) != s;
    }
  }

  // ----- every call returns -----------------------------------------------------------

  /** The work a caller still has before it is back: at most nine steps for each entry that waits
      for its batch, and what is left of the current batch. */
  function CallerRank(c: Caller): int {
    match c.pc
    case Ready => 0
    case Lookup(_) => 4
    case Claim(_) => 3
    case Map(_) => 2
    case Store(_) => 1
    case Batch(first) => 9 * (|c.owned| - first) + 1
    case Detach(first, end, i) => 9 * (|c.owned| - end) + (end - i) + 4 * (end - first) + 4
    case Queue(first, end, i) => 9 * (|c.owned| - end) + 3 * (end - i) + (end - first) + 3
    case Join(_, end, i) => 9 * (|c.owned| - end) + (end - i) + 2
  }

  function CallersRank(callers: seq<Caller>): int {
    if callers == [] then 0 else CallerRank(callers[0]) + CallersRank(callers[1..])
  }

  /** Callbacks that have not unmapped yet. */
  function Unstarted(s: State): set<Id> {
    set id | id in s.queue && id in s.heap && s.heap[id].work == Queued
  }

  /** All the steps that callers and callbacks can still take, at most. */
  function Rank(s: State): int { CallersRank(s.callers) + |s.queue| + |Unstarted(s)| }

  lemma {:induction false} CallersRankUpdate(callers: seq<Caller>, t: nat, c: Caller)
    requires t < |callers|
    ensures CallersRank(callers[t := c]) == CallersRank(callers) - CallerRank(callers[t]) + CallerRank(c)
    decreases |callers|
  {
    if t > 0 {
      CallersRankUpdate(callers[1..], t - 1, c);
      assert callers[t := c][1..] == callers[1..][t - 1 := c];
    } else {
      assert callers[t := c][1..] == callers[1..];
    }
  }

  lemma {:induction false} CallersRankNatural(callers: seq<Caller>)
    requires forall t :: 0 <= t < |callers| ==> PcBounds(callers[t])
    ensures CallersRank(callers) >= 0
    decreases |callers|
  {
    if callers != [] { CallersRankNatural(callers[1..]); }
  }

  lemma {:induction false} RankIsNatural(s: State)
    requires Inv(s)
    ensures Rank(s) >= 0
  {
    forall t | 0 <= t < |s.callers| ensures PcBounds(s.callers[t]) { assert PcOk(s, t); }
    CallersRankNatural(s.callers);
  }

  lemma {:induction false} SmallerSet(a: set<Id>, b: set<Id>)
    requires a <= b
    ensures |a| <= |b|
  {
    assert b == a + (b - a);
  }

  /** A step of caller t that leaves the callbacks alone. */
  lemma {:induction false} QuietRank(s: State, r: State, t: nat)
    requires t < |s.callers| == |r.callers| && r.callers == s.callers[t := r.callers[t]] && r.queue == s.queue
    requires CallerRank(r.callers[t]) < CallerRank(s.callers[t]) && Unstarted(r) <= Unstarted(s)
    ensures Rank(r) < Rank(s)
  {
    CallersRankUpdate(s.callers, t, r.callers[t]);
    SmallerSet(Unstarted(r), Unstarted(s));
  }

  /** Queueing one work item adds the two steps of its callback. */
  lemma {:induction false} QueueRank(s: State, t: nat, id: Id)
    requires t < |s.callers| && s.callers[t].pc.Queue? && PcBounds(s.callers[t])
    requires var c := s.callers[t]; c.pc.i < c.pc.end && c.owned[c.pc.i] == Some(id)
    requires !s.fault && !RunQueue(s, t).fault
    ensures Rank(RunQueue(s, t)) < Rank(s)
  {
    var r := RunQueue(s, t);
    CallersRankUpdate(s.callers, t, r.callers[t]);
    assert Unstarted(r) <= Unstarted(s) + {id};
    SmallerSet(Unstarted(r), Unstarted(s) + {id});
  }

  lemma {:induction false} GetRank(s: State, t: nat, ok: bool)
    requires t < |s.callers| && s.callers[t].pc.Lookup? && !s.fault && !RunLookup(s, t, ok).fault
    ensures Rank(RunLookup(s, t, ok)) < Rank(s)
  {
    var r := RunLookup(s, t, ok);
    forall j | j in Unstarted(r) ensures j in Unstarted(s) {
    }
    QuietRank(s, r, t);
  }

  lemma {:induction false} BuildRank(s: State, t: nat, ok: bool)
    requires t < |s.callers| && (s.callers[t].pc.Claim? || s.callers[t].pc.Map? || s.callers[t].pc.Store?)
    requires !s.fault && !Apply(s, Run(t, ok)).fault
    ensures Rank(Apply(s, Run(t, ok))) < Rank(s)
  {
    var r := Apply(s, Run(t, ok));
    forall j | j in Unstarted(r) ensures j in Unstarted(s) {
    }
    QuietRank(s, r, t);
  }

  lemma {:induction false} BatchRank(s: State, t: nat)
    requires t < |s.callers| && s.callers[t].pc.Batch? && PcBounds(s.callers[t]) && RunBatch(s, t) != s
    ensures Rank(RunBatch(s, t)) < Rank(s)
  {
    QuietRank(s, RunBatch(s, t), t);
  }

  lemma {:induction false} DetachRank(s: State, t: nat)
    requires t < |s.callers| && s.callers[t].pc.Detach? && PcBounds(s.callers[t]) && !s.fault && !RunDetach(s, t).fault
    ensures Rank(RunDetach(s, t)) < Rank(s)
  {
    var r := RunDetach(s, t);
    forall j | j in Unstarted(r) ensures j in Unstarted(s) {
    }
    QuietRank(s, r, t);
  }

  lemma {:induction false} QueueSkipRank(s: State, t: nat)
    requires t < |s.callers| && s.callers[t].pc.Queue? && PcBounds(s.callers[t])
    requires var c := s.callers[t]; c.pc.i >= c.pc.end || c.owned[c.pc.i].None?
    ensures Rank(RunQueue(s, t)) < Rank(s)
  {
    QuietRank(s, RunQueue(s, t), t);
  }

  lemma {:induction false} JoinRank(s: State, t: nat)
    requires t < |s.callers| && s.callers[t].pc.Join? && PcBounds(s.callers[t]) && !s.fault && !RunJoin(s, t).fault
    requires RunJoin(s, t) != s
    ensures Rank(RunJoin(s, t)) < Rank(s)
  {
    var r := RunJoin(s, t);
    forall j | j in Unstarted(r) ensures j in Unstarted(s) {
    }
    QuietRank(s, r, t);
  }

  lemma {:induction false} RetireRank(s: State, id: Id)
    requires !s.fault && id in s.queue && !RunRetire(s, id).fault
    ensures Rank(RunRetire(s, id)) < Rank(s)
  {
    var r := RunRetire(s, id);
    if s.heap[id].work == Queued {
      RetireStarts(s, r, id);
    } else {
      RetireEnds(s, r, id);
    }
  }

  lemma {:induction false} RetireStarts(s: State, r: State, id: Id)
    requires id in s.queue && id in s.heap && s.heap[id].work == Queued
    requires r == s.(heap := r.heap) && id in r.heap
    requires r.heap == s.heap[id := r.heap[id]] && r.heap[id].work == Unmapped
    ensures Rank(r) < Rank(s)
  {
    assert Unstarted(r) == Unstarted(s) - {id};
  }

  lemma {:induction false} RetireEnds(s: State, r: State, id: Id)
    requires id in s.queue && id in s.heap && s.heap[id].work == Unmapped && r.queue == s.queue - {id}
    requires r.callers == s.callers && id in r.heap && r.heap == s.heap[id := r.heap[id]] && r.heap[id].work == Done
    ensures Rank(r) < Rank(s)
  {
    assert Unstarted(r) == Unstarted(s);
  }

  /** Every step of a caller or a callback that does anything uses up work. */
  lemma {:induction false} StepUsesWork(s: State, step: Step)
    requires Inv(s) && (step.Run? || step.Retire?) && Apply(s, step) != s
    ensures Rank(Apply(s, step)) < Rank(s)
  {
    StepKeepsInv(s, step);
    match step
    case Retire(id) => RetireRank(s, id);
    case Run(t, ok) =>
      assert PcOk(s, t);
      match s.callers[t].pc
      case Lookup(_) => GetRank(s, t, ok);
      case Claim(_) => BuildRank(s, t, ok);
      case Map(_) => BuildRank(s, t, ok);
      case Store(_) => BuildRank(s, t, ok);
      case Batch(_) => BatchRank(s, t);
      case Detach(_, _, _) => DetachRank(s, t);
      case Queue(_, end, i) =>
        if i < end && s.callers[t].owned[i].Some? {
          QueueRank(s, t, s.callers[t].owned[i].value);
        } else {
          QueueSkipRank(s, t);
        }
      case Join(_, _, _) => JoinRank(s, t);
  }

  /** A schedule in which no new call begins and every step does something. */
  predicate Busy(s: State, steps: seq<Step>)
    decreases |steps|
  {
    steps != [] ==>
      && (steps[0].Run? || steps[0].Retire?) && Apply(s, steps[0]) != s
      && Busy(Apply(s, steps[0]), steps[1..])
  }

  /** However the scheduler chooses, the open calls take no more steps than their work. */
  lemma {:induction false} SchedulesAreBounded(s: State, steps: seq<Step>)
    requires Inv(s) && Busy(s, steps)
    ensures |steps| <= Rank(s)
    decreases |steps|
  {
    if steps == [] {
      RankIsNatural(s);
    } else {
      StepKeepsInv(s, steps[0]);
      StepUsesWork(s, steps[0]);
      SchedulesAreBounded(Apply(s, steps[0]), steps[1..]);
    }
  }

  /** Every call returns: from any state of any run, every schedule of effective steps ends within
      its bound, and where it can go no further all callers are back. */
  lemma {:induction false} EveryCallReturns(callers: nat, before: seq<Step>, steps: seq<Step>, t: nat)
    requires var s := Exec(Init(callers), before); Busy(s, steps) && t < |Exec(s, steps).callers|
    requires var s := Exec(Init(callers), before);
             forall step: Step :: step.Run? || step.Retire? ==> Apply(Exec(s, steps), step) == Exec(s, steps)
    ensures var s := Exec(Init(callers), before); |steps| <= Rank(s) && Exec(s, steps).callers[t].pc.Ready?
  {
    var s := Exec(Init(callers), before);
    ReachableInv(callers, before);
    SchedulesAreBounded(s, steps);
    ExecAppend(Init(callers), before, steps);
    if !Exec(s, steps).callers[t].pc.Ready? { NoDeadlock(callers, before + steps, t); }
  }

  lemma {:induction false} ExecAppend(s: State, a: seq<Step>, b: seq<Step>)
    ensures Exec(s, a + b) == Exec(Exec(s, a), b)
    decreases |a|
  {
    if a == [] {
      assert a + b == b;
    } else {
      assert (a + b)[1..] == a[1..] + b;
      ExecAppend(Apply(s, a[0]), a[1..], b);
    }
  }

  // ----- get returns the granule that was asked for -------------------------------------

  /** Caller t is inside a get of index x, with its array as it was; `was` is the granule that was
      registered for x when the call began, `sure` that nothing stands in its way. */
  ghost predicate InGet(s: State, t: nat, x: nat, owned: seq<Option<Id>>, was: Option<Id>, sure: bool) {
    && t < |s.callers| && s.callers[t].owned == owned
    && (sure && was == None && (s.callers[t].pc.Lookup? || s.callers[t].pc.Claim?) ==> x !in s.claims)
    && match s.callers[t].pc
       case Lookup(index) =>
         index == x && (if was.Some? then x in s.registry && s.registry[x] == was.value else x !in s.registry)
       case Claim(id) => was == None && id in s.heap && s.heap[id].index == x
       case Map(id) => was == None && id in s.heap && s.heap[id].index == x
       case Store(id) => was == None && id in s.heap && s.heap[id].index == x
       case _ => false
  }

  /** Caller t holds one granule more: the registered one of index x. */
  ghost predicate Got(s: State, t: nat, x: nat, owned: seq<Option<Id>>, id: Id) {
    && t < |s.callers| && s.callers[t].owned == owned + [Some(id)]
    && id in s.heap && s.heap[id].index == x && x in s.registry && s.registry[x] == id
  }

  /** How a get may end: empty-handed only if the index was not registered when it began. */
  ghost predicate GetEnds(s: State, t: nat, x: nat, owned: seq<Option<Id>>, was: Option<Id>, sure: bool) {
    && t < |s.callers| && s.callers[t].pc.Ready?
    && (if was.Some? then Got(s, t, x, owned, was.value)
        else (!sure && s.callers[t].owned == owned) || exists id :: Got(s, t, x, owned, id))
  }

  lemma {:induction false} OwnGetStep(s: State, t: nat, ok: bool, x: nat, owned: seq<Option<Id>>, was: Option<Id>,
                                      sure: bool)
    requires InGet(s, t, x, owned, was, sure) && RegistryOk(s) && !Apply(s, Run(t, ok)).fault && (sure ==> ok)
    ensures var r := Apply(s, Run(t, ok)); InGet(r, t, x, owned, was, sure) || GetEnds(r, t, x, owned, was, sure)
  {
    var r := Apply(s, Run(t, ok));
    match s.callers[t].pc
    case Lookup(_) => if x in s.registry { assert Got(r, t, x, owned, s.registry[x]); }
    case Claim(_) =>
    case Map(_) =>
    case Store(id) => if ok { assert Got(r, t, x, owned, id); }
  }

  /** What the steps of others leave alone while caller t holds the lock. */
  ghost predicate Leaves(s: State, r: State, t: nat) {
    && t < |s.callers| == |r.callers| && r.callers[t] == s.callers[t]
    && r.registry == s.registry && r.claims <= s.claims
    && forall j :: j in s.heap && j in r.heap ==> r.heap[j].index == s.heap[j].index
  }

  lemma {:induction false} CallersLeave(s: State, u: nat, ok: bool, t: nat)
    requires t < |s.callers| && u < |s.callers| && s.lock == Some(t) && u != t && !Locked(s.callers[u].pc)
    ensures Leaves(s, Apply(s, Run(u, ok)), t)
  {
  }

  lemma {:induction false} OthersLeave(s: State, step: Step, t: nat)
    requires t < |s.callers| && s.lock == Some(t) && !s.callers[t].pc.Ready?
    requires forall u :: 0 <= u < |s.callers| && u != t ==> !Locked(s.callers[u].pc)
    requires step.Run? ==> step.t != t
    ensures Leaves(s, Apply(s, step), t)
  {
    match step
    case Run(u, ok) => if u < |s.callers| { CallersLeave(s, u, ok, t); }
    case _ =>
  }

  lemma {:induction false} GetStep(s: State, step: Step, t: nat, x: nat, owned: seq<Option<Id>>, was: Option<Id>,
                                   sure: bool)
    requires Inv(s) && InGet(s, t, x, owned, was, sure) && (sure ==> step != Run(t, false))
    ensures var r := Apply(s, step); InGet(r, t, x, owned, was, sure) || GetEnds(r, t, x, owned, was, sure)
  {
    StepKeepsInv(s, step);
    if step.Run? && step.t == t {
      OwnGetStep(s, t, step.ok, x, owned, was, sure);
    } else {
      assert PcOk(s, t);
      forall u | 0 <= u < |s.callers| && u != t ensures !Locked(s.callers[u].pc) { assert PcOk(s, u); }
      OthersLeave(s, step, t);
      assert PcOk(Apply(s, step), t);
    }
  }

  /** The steps during which caller t is not back, up to the one with which it is. */
  predicate ReturnsAfter(s: State, t: nat, steps: seq<Step>)
    decreases |steps|
  {
    && steps != [] && t < |s.callers| && !s.callers[t].pc.Ready?
    && var r := Apply(s, steps[0]);
       if |steps| == 1 then t < |r.callers| && r.callers[t].pc.Ready? else ReturnsAfter(r, t, steps[1..])
  }

  lemma {:induction false} GetRun(s: State, steps: seq<Step>, t: nat, x: nat, owned: seq<Option<Id>>,
                                  was: Option<Id>, sure: bool)
    requires Inv(s) && InGet(s, t, x, owned, was, sure) && ReturnsAfter(s, t, steps)
    requires sure ==> Run(t, false) !in steps
    ensures GetEnds(Exec(s, steps), t, x, owned, was, sure)
    decreases |steps|
  {
    var r := Apply(s, steps[0]);
    StepKeepsInv(s, steps[0]);
    GetStep(s, steps[0], t, x, owned, was, sure);
    if |steps| == 1 {
      assert Exec(s, steps) == r;
    } else {
      GetRun(r, steps[1..], t, x, owned, was, sure);
    }
  }

  /** In every run, whatever others do meanwhile: a get of index x leaves its caller with the
      registered granule of x in addition to what it held, or, only if x was not registered when
      the call began, with just what it held.  A granule that was registered then is the one it gets.
      If the region is free and the kernel refuses nothing, it does get one. */
  lemma {:induction false} GetReturnsWhatWasAsked(callers: nat, before: seq<Step>, t: nat, x: nat, steps: seq<Step>)
    requires var s := Exec(Init(callers), before); t < |s.callers| && s.callers[t].pc.Ready? && s.lock == None
    requires var s := Exec(Init(callers), before); ReturnsAfter(Apply(s, BeginGet(t, x)), t, steps)
    ensures var s := Exec(Init(callers), before);
            var r := Exec(Apply(s, BeginGet(t, x)), steps);
            var owned := s.callers[t].owned;
            && t < |r.callers| && r.callers[t].pc.Ready?
            && (r.callers[t].owned == owned || exists id :: Got(r, t, x, owned, id))
            && (x in s.registry ==> Got(r, t, x, owned, s.registry[x]))
            && (x !in s.claims && Run(t, false) !in steps ==> exists id :: Got(r, t, x, owned, id))
  {
    ReachableInv(callers, before);
    var s := Exec(Init(callers), before);
    StepKeepsInv(s, BeginGet(t, x));
    var was := if x in s.registry then Some(s.registry[x]) else None;
    GetRun(Apply(s, BeginGet(t, x)), steps, t, x, s.callers[t].owned, was, x !in s.claims && Run(t, false) !in steps);
  }
}
