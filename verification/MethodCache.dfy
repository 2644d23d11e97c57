/** MethodCache: resolving a function's metadata outside the lock and inserting it under the lock.

    Two threads can resolve the same function at once, and with different outcomes.  The first to
    insert wins, and from then on everybody sees its answer (`DecisionsNeverChange`); this is what
    lets the other modules take the cached metadata of a function for a constant. */
module MethodCache {
  import opened Accumulators
  import opened Options
  import opened Trace

  /** Where a thread is in ResolveAndCache: not in it; past the check without finding the function;
      through. */
  datatype Phase = Idle | Resolving(fn: FnId) | Resolved(fn: FnId)

  /** What a lookup of a function gave. */
  datatype Answer = Answer(fn: FnId, info: Option<MethodInfo>)

  datatype State = State(cache: map<FnId, MethodInfo>, phases: map<ThreadId, Phase>, answers: seq<Answer>)

  const START := State(map[], map[], [])

  datatype Step =
    | Check(t: ThreadId, fn: FnId)
    | TryEmplace(t: ThreadId, info: MethodInfo) // whatever the metadata calls gave
    | LookupResolved(t: ThreadId)
    | Lookup(fn: FnId)

  function PhaseOf(s: State, t: ThreadId): Phase {
    if t in s.phases then s.phases[t] else Idle
  }

  predicate Enabled(s: State, step: Step) {
    match step
    case Check(t, _) => PhaseOf(s, t).Idle?
    case TryEmplace(t, _) => PhaseOf(s, t).Resolving?
    case LookupResolved(t) => PhaseOf(s, t).Resolved?
    case Lookup(_) => true
  }

  function Found(s: State, fn: FnId): Option<MethodInfo> {
    if fn in s.cache then Some(s.cache[fn]) else None
  }

  function Next(s: State, step: Step): State
    requires Enabled(s, step)
  {
    match step
    case Check(t, fn) => s.(phases := s.phases[t := if fn in s.cache then Resolved(fn) else Resolving(fn)])
    case TryEmplace(t, info) =>
      var fn := PhaseOf(s, t).fn;
      s.(cache := if fn in s.cache then s.cache else s.cache[fn := info], phases := s.phases[t := Resolved(fn)])
    case LookupResolved(t) =>
      var fn := PhaseOf(s, t).fn;
      s.(phases := s.phases[t := Idle], answers := s.answers + [Answer(fn, Found(s, fn))])
    case Lookup(fn) => s.(answers := s.answers + [Answer(fn, Found(s, fn))])
  }

  function After(steps: seq<Step>): State {
    if steps == [] then START
    else
      var s := After(steps[..|steps| - 1]);
      if Enabled(s, steps[|steps| - 1]) then Next(s, steps[|steps| - 1]) else s
  }

  /** Every answer given is still the cache's, and a thread that is through finds its function. */
  ghost predicate Settled(s: State) {
    && (forall i :: 0 <= i < |s.answers| && s.answers[i].info.Some? ==> s.answers[i].info == Found(s, s.answers[i].fn))
    && (forall t :: t in s.phases && s.phases[t].Resolved? ==> s.phases[t].fn in s.cache)
    && (forall i, j :: 0 <= i < j < |s.answers| && s.answers[i].fn == s.answers[j].fn && s.answers[i].info.Some? ==>
          s.answers[j].info.Some?)
  }

  lemma {:induction false} RunSettled(steps: seq<Step>)
    ensures Settled(After(steps))
  {
    if steps != [] {
      RunSettled(steps[..|steps| - 1]);
    }
  }

  /** In every interleaving, once a lookup has found a function every later one finds it with the same
      metadata, the inclusion decision with it. */
  lemma DecisionsNeverChange(steps: seq<Step>, i: nat, j: nat)
    requires i < j < |After(steps).answers|
    requires After(steps).answers[i].fn == After(steps).answers[j].fn && After(steps).answers[i].info.Some?
    ensures After(steps).answers[j] == After(steps).answers[i]
  {
    RunSettled(steps);
  }

  /** ShouldHook always finds the function it has just resolved. */
  lemma ResolvedIsFound(steps: seq<Step>, t: ThreadId)
    requires PhaseOf(After(steps), t).Resolved?
    ensures Found(After(steps), PhaseOf(After(steps), t).fn).Some?
  {
    RunSettled(steps);
  }

  // ---- What is cached ----

  /** Step i inserts what it resolved for `fn`, or finds that another thread has. */
  predicate Offers(steps: seq<Step>, i: nat, fn: FnId)
    requires i < |steps|
  {
    && steps[i].TryEmplace?
    && var phases := After(steps[..i]).phases;
       steps[i].t in phases && phases[steps[i].t] == Resolving(fn)
  }

  /** The cache holds `info` for `fn`, which the first thread to insert resolved. */
  ghost predicate FirstOffer(steps: seq<Step>, fn: FnId, i: nat) {
    i < |steps| && Offers(steps, i, fn) && forall j :: 0 <= j < i ==> !Offers(steps, j, fn)
  }

  lemma FrontOffers(steps: seq<Step>, i: nat, fn: FnId)
    requires i < |steps| - 1
    ensures Offers(steps[..|steps| - 1], i, fn) <==> Offers(steps, i, fn)
  {
    assert steps[..|steps| - 1][..i] == steps[..i];
  }

  /** A function is in the cache if and only if some thread resolved it, with what the first one to insert it
      resolved. */
  lemma {:induction false} CachedAsResolved(steps: seq<Step>, fn: FnId) returns (i: nat)
    ensures fn in After(steps).cache <==> FirstOffer(steps, fn, i)
    ensures fn in After(steps).cache ==> After(steps).cache[fn] == steps[i].info
    ensures fn !in After(steps).cache ==> forall j :: 0 <= j < |steps| ==> !Offers(steps, j, fn)
  {
    if steps == [] {
      i := 0;
    } else {
      var front, last := steps[..|steps| - 1], |steps| - 1;
      i := CachedAsResolved(front, fn);
      forall j | 0 <= j < last ensures Offers(front, j, fn) <==> Offers(steps, j, fn) {
        FrontOffers(steps, j, fn);
      }
      if fn !in After(front).cache {
        i := last;
      }
    }
  }

  /** A lookup answers with what the first thread to insert the function resolved, and with nothing if none has. */
  lemma LookupAnswers(steps: seq<Step>, fn: FnId) returns (i: nat)
    ensures var answers := After(steps + [Lookup(fn)]).answers;
            && answers != [] && answers[|answers| - 1].fn == fn
            && (answers[|answers| - 1].info.Some? <==> FirstOffer(steps, fn, i))
            && (FirstOffer(steps, fn, i) ==> answers[|answers| - 1].info.value == steps[i].info)
            && (answers[|answers| - 1].info.None? ==> forall j :: 0 <= j < |steps| ==> !Offers(steps, j, fn))
  {
    assert (steps + [Lookup(fn)])[..|steps|] == steps;
    i := CachedAsResolved(steps, fn);
  }

  /** And so does the lookup at the end of resolving. */
  lemma ResolvedAnswers(steps: seq<Step>, t: ThreadId) returns (i: nat)
    requires t in After(steps).phases && After(steps).phases[t].Resolved?
    ensures var answers, fn := After(steps + [LookupResolved(t)]).answers, After(steps).phases[t].fn;
            && answers != [] && answers[|answers| - 1].fn == fn && FirstOffer(steps, fn, i)
            && answers[|answers| - 1].info == Some(steps[i].info)
  {
    assert (steps + [LookupResolved(t)])[..|steps|] == steps;
    i := CachedAsResolved(steps, After(steps).phases[t].fn);
    RunSettled(steps);
  }

  // ---- The sections as code ----

  /** `state` is the history of the cache: who is where, and what has been answered. */
  class Cache {
    var cache: map<FnId, MethodInfo>
    ghost var state: State

    ghost predicate Valid()
      reads this
    {
      cache == state.cache
    }

    constructor ()
      ensures Valid() && state == START
    {
      cache := map[];
      state := START;
    }

    /** The fast path of ResolveAndCache. */
    method CheckCached(t: ThreadId, fn: FnId) returns (cached: bool)
      requires Valid() && Enabled(state, Check(t, fn))
      modifies this`state
      ensures Valid() && state == Next(old(state), Check(t, fn))
      ensures PhaseOf(state, t) == if cached then Resolved(fn) else Resolving(fn)
      ensures cached <==> fn in cache
    {
      cached := fn in cache;
      state := Next(state, Check(t, fn));
    }

    /** The insertion at its end. */
    method Emplace(t: ThreadId, fn: FnId, info: MethodInfo)
      requires Valid() && PhaseOf(state, t) == Resolving(fn)
      modifies this
      ensures Valid() && state == Next(old(state), TryEmplace(t, info))
      ensures cache == if fn in old(cache) then old(cache) else old(cache)[fn := info]
    {
      if fn !in cache {
        cache := cache[fn := info];
      }
      state := Next(state, TryEmplace(t, info));
    }

    /** ResolveAndCache on a thread that is not in it, with what the metadata calls would give. */
    method ResolveAndCache(t: ThreadId, fn: FnId, info: MethodInfo)
      requires Valid() && PhaseOf(state, t).Idle?
      modifies this
      ensures Valid() && PhaseOf(state, t) == Resolved(fn) && fn in cache
      ensures cache == if fn in old(cache) then old(cache) else old(cache)[fn := info]
    {
      var cached := CheckCached(t, fn);
      if cached {
        return;
      }
      Emplace(t, fn, info);
    }

    method Find(fn: FnId) returns (info: Option<MethodInfo>)
      requires Valid()
      modifies this`state
      ensures Valid() && state == Next(old(state), Lookup(fn))
      ensures info == if fn in cache then Some(cache[fn]) else None
      ensures state.answers == old(state).answers + [Answer(fn, info)]
    {
      info := if fn in cache then Some(cache[fn]) else None;
      state := Next(state, Lookup(fn));
    }
  }
}
