/** Sharing one in-flight read among the callers that ask for its key while it runs
    (lib/cache-utils.ts), over every interleaving of arrivals, settlements and finalizers. */
module Coalescing {
  import opened Options

  datatype Outcome<V> = Resolved(value: V) | Rejected(error: V)

  /** A started read: settled once its promise is, finalized once the caller that started it has gone on. */
  datatype Fetch<V> = Fetch(key: string, outcome: Option<Outcome<V>>, finalized: bool)

  /** A caller of a key and the read it awaits. */
  datatype Call = Call(key: string, fetch: nat)

  datatype State<V> = State(inFlight: map<string, nat>, fetches: seq<Fetch<V>>, calls: seq<Call>)

  datatype Step<V> = Arrive(key: string) | Settle(fetch: nat, outcome: Outcome<V>) | Finalize(fetch: nat)

  predicate Enabled<V>(s: State<V>, step: Step<V>) {
    match step
    case Arrive(_) => true
    case Settle(i, _) => i < |s.fetches| && s.fetches[i].outcome.None?
    case Finalize(i) => i < |s.fetches| && s.fetches[i].outcome.Some? && !s.fetches[i].finalized
  }

  function Take<V>(s: State<V>, step: Step<V>): State<V>
    requires Enabled(s, step)
  {
    match step
    case Arrive(key) =>
      if key in s.inFlight then s.(calls := s.calls + [Call(key, s.inFlight[key])])
      else State(s.inFlight[key := |s.fetches|], s.fetches + [Fetch(key, None, false)], s.calls + [Call(key, |s.fetches|)])
    case Settle(i, outcome) => s.(fetches := s.fetches[i := s.fetches[i].(outcome := Some(outcome))])
    case Finalize(i) =>
      var key := s.fetches[i].key;
      s.(fetches := s.fetches[i := s.fetches[i].(finalized := true)],
         inFlight := if key in s.inFlight && s.inFlight[key] == i then s.inFlight - {key} else s.inFlight)
  }

  /** A run takes the steps in any order; one that cannot happen yet does nothing. */
  function Run<V>(s: State<V>, steps: seq<Step<V>>): State<V>
    decreases |steps|
  {
    if steps == [] then s
    else
      var before := Run(s, steps[..|steps| - 1]);
      if Enabled(before, steps[|steps| - 1]) then Take(before, steps[|steps| - 1]) else before
  }

  function Idle<V>(): State<V> { State(map[], [], []) }

  /** The map holds exactly the reads not yet finalized, each under its own key; every caller awaits a read of its key. */
  ghost predicate Kept<V>(s: State<V>) {
    && (forall k :: k in s.inFlight ==> s.inFlight[k] < |s.fetches| && s.fetches[s.inFlight[k]].key == k && !s.fetches[s.inFlight[k]].finalized)
    && (forall i :: 0 <= i < |s.fetches| && !s.fetches[i].finalized ==> s.fetches[i].key in s.inFlight && s.inFlight[s.fetches[i].key] == i)
    && (forall i :: 0 <= i < |s.fetches| && s.fetches[i].finalized ==> s.fetches[i].outcome.Some?)
    && (forall c :: 0 <= c < |s.calls| ==> s.calls[c].fetch < |s.fetches| && s.fetches[s.calls[c].fetch].key == s.calls[c].key)
  }

  lemma ArrivingKeeps<V>(s: State<V>, step: Step<V>)
    requires Kept(s) && step.Arrive?
    ensures Kept(Take(s, step))
  {
  }

  lemma SettlingKeeps<V>(s: State<V>, step: Step<V>)
    requires Kept(s) && step.Settle? && Enabled(s, step)
    ensures Kept(Take(s, step))
  {
  }

  lemma FinalizingKeeps<V>(s: State<V>, step: Step<V>)
    requires Kept(s) && step.Finalize? && Enabled(s, step)
    ensures Kept(Take(s, step))
  {
  }

  lemma EveryStepKeeps<V>(s: State<V>, step: Step<V>)
    requires Kept(s) && Enabled(s, step)
    ensures Kept(Take(s, step))
  {
    match step
    case Arrive(_) => ArrivingKeeps(s, step);
    case Settle(_, _) => SettlingKeeps(s, step);
    case Finalize(_) => FinalizingKeeps(s, step);
  }

  lemma {:induction false} EveryRunKeeps<V>(steps: seq<Step<V>>)
    ensures Kept(Run(Idle<V>(), steps))
    decreases |steps|
  {
    if steps != [] {
      EveryRunKeeps(steps[..|steps| - 1]);
      var before := Run(Idle<V>(), steps[..|steps| - 1]);
      if Enabled(before, steps[|steps| - 1]) { EveryStepKeeps(before, steps[|steps| - 1]); }
    }
  }

  /** Under every interleaving at most one read of a key is running. */
  lemma OneReadPerKey<V>(steps: seq<Step<V>>, i: nat, j: nat)
    requires i < |Run(Idle<V>(), steps).fetches| && j < |Run(Idle<V>(), steps).fetches|
    requires var f := Run(Idle<V>(), steps).fetches; f[i].outcome.None? && f[j].outcome.None? && f[i].key == f[j].key
    ensures i == j
  {
    EveryRunKeeps(steps);
  }

  /** The finalizer's check always holds: it removes its own read's entry, and no other read's. */
  lemma FinalizersRemoveTheirOwn<V>(steps: seq<Step<V>>, i: nat)
    requires Enabled(Run(Idle<V>(), steps), Finalize(i))
    ensures var s := Run(Idle<V>(), steps);
            && s.fetches[i].key in s.inFlight && s.inFlight[s.fetches[i].key] == i
            && Take(s, Finalize(i)).inFlight == s.inFlight - {s.fetches[i].key}
            && forall k :: k in s.inFlight && s.inFlight[k] != i ==> k in Take(s, Finalize(i)).inFlight && Take(s, Finalize(i)).inFlight[k] == s.inFlight[k]
  {
    EveryRunKeeps(steps);
  }

  /** A caller joins the read of its key that has not been finalized, and starts one exactly when there is none. */
  lemma CallersJoinExactly<V>(steps: seq<Step<V>>, key: string)
    ensures var s := Run(Idle<V>(), steps);
            var after := Take(s, Arrive(key));
            && after.calls == s.calls + [Call(key, after.calls[|s.calls|].fetch)]
            && (forall i :: 0 <= i < |s.fetches| && s.fetches[i].key == key && !s.fetches[i].finalized ==>
                              after.calls[|s.calls|].fetch == i && after.fetches == s.fetches)
            && ((forall i :: 0 <= i < |s.fetches| && s.fetches[i].key == key ==> s.fetches[i].finalized) ==>
                  after.calls[|s.calls|].fetch == |s.fetches| && after.fetches == s.fetches + [Fetch(key, None, false)])
  {
    EveryRunKeeps(steps);
    var s := Run(Idle<V>(), steps);
    var after := Take(s, Arrive(key));
    if key in s.inFlight { assert after.fetches == s.fetches; }
  }

  /** Nothing is left behind: once every read is finalized the map is empty. */
  lemma NothingLeaks<V>(steps: seq<Step<V>>)
    requires forall i :: 0 <= i < |Run(Idle<V>(), steps).fetches| ==> Run(Idle<V>(), steps).fetches[i].finalized
    ensures Run(Idle<V>(), steps).inFlight == map[]
  {
    EveryRunKeeps(steps);
  }

  /** What a caller awaits, when it is there. */
  function ResultOf<V>(s: State<V>, c: nat): Option<Outcome<V>>
    requires c < |s.calls|
  {
    if s.calls[c].fetch < |s.fetches| then s.fetches[s.calls[c].fetch].outcome else None
  }

  lemma SettledStays<V>(s: State<V>, step: Step<V>, c: nat)
    requires Kept(s) && Enabled(s, step) && c < |s.calls|
    ensures c < |Take(s, step).calls| && Take(s, step).calls[c] == s.calls[c]
    ensures ResultOf(s, c).Some? ==> ResultOf(Take(s, step), c) == ResultOf(s, c)
  {
  }

  /** A read that settles gives its outcome to every caller that awaits it, and changes nothing for the others. */
  lemma SettlingReachesItsCallers<V>(s: State<V>, i: nat, outcome: Outcome<V>, c: nat)
    requires Kept(s) && Enabled(s, Settle(i, outcome)) && c < |s.calls|
    ensures var t := Take(s, Settle(i, outcome));
            && t.calls == s.calls && t.inFlight == s.inFlight
            && ResultOf(t, c) == if s.calls[c].fetch == i then Some(outcome) else ResultOf(s, c)
  {
  }

  lemma {:induction false} RunsOnwards<V>(earlier: seq<Step<V>>, later: seq<Step<V>>, c: nat)
    requires c < |Run(Idle<V>(), earlier).calls|
    ensures var s, t := Run(Idle<V>(), earlier), Run(Idle<V>(), earlier + later);
            && c < |t.calls| && t.calls[c] == s.calls[c]
            && (ResultOf(s, c).Some? ==> ResultOf(t, c) == ResultOf(s, c))
    decreases |later|
  {
    if later == [] {
      assert earlier + later == earlier;
    } else {
      var steps, front, last := earlier + later, later[..|later| - 1], later[|later| - 1];
      assert steps[..|steps| - 1] == earlier + front;
      RunsOnwards(earlier, front, c);
      EveryRunKeeps(earlier + front);
      if Enabled(Run(Idle<V>(), earlier + front), last) { SettledStays(Run(Idle<V>(), earlier + front), last, c); }
    }
  }

  /** Callers that share a read get one result, whatever happens after they arrive, and it never changes. */
  lemma SharersGetOneResult<V>(earlier: seq<Step<V>>, later: seq<Step<V>>, c: nat, d: nat)
    requires c < |Run(Idle<V>(), earlier).calls| && d < |Run(Idle<V>(), earlier).calls|
    requires Run(Idle<V>(), earlier).calls[c].fetch == Run(Idle<V>(), earlier).calls[d].fetch
    ensures var s, t := Run(Idle<V>(), earlier), Run(Idle<V>(), earlier + later);
            && c < |t.calls| && d < |t.calls|
            && s.calls[c].key == s.calls[d].key
            && ResultOf(t, c) == ResultOf(t, d)
            && (ResultOf(s, c).Some? ==> ResultOf(t, c) == ResultOf(s, c))
  {
    EveryRunKeeps(earlier);
    RunsOnwards(earlier, later, c);
    RunsOnwards(earlier, later, d);
  }

  // ---- The module's own map ----

  /** The process's reads: the map of reads in flight, and the promises it and its callers hold. */
  class InFlightReads<V> {
    var inFlight: map<string, nat>
    var fetches: seq<Fetch<V>>
    var calls: seq<Call>

    ghost function Now(): State<V>
      reads this
    {
      State(inFlight, fetches, calls)
    }

    constructor ()
      ensures Now() == Idle()
    {
      inFlight, fetches, calls := map[], [], [];
    }

    /** A call up to its first await: the read it will wait for. */
    method Coalesce(key: string) returns (pending: nat)
      modifies this
      ensures Now() == Take(old(Now()), Arrive(key))
      ensures calls == old(calls) + [Call(key, pending)]
    {
      if key in inFlight {
        pending := inFlight[key];
      } else {
        pending := |fetches|;
        fetches := fetches + [Fetch(key, None, false)];
        inFlight := inFlight[key := pending];
      }
      calls := calls + [Call(key, pending)];
    }

    /** A read resolves or rejects. */
    method Settles(pending: nat, outcome: Outcome<V>)
      requires Enabled(Now(), Settle(pending, outcome))
      modifies this`fetches
      ensures Now() == Take(old(Now()), Settle(pending, outcome))
    {
      fetches := fetches[pending := fetches[pending].(outcome := Some(outcome))];
    }

    /** The finally block of the call that started the read. */
    method Finally(pending: nat)
      requires Enabled(Now(), Finalize(pending))
      modifies this`fetches, this`inFlight
      ensures Now() == Take(old(Now()), Finalize(pending))
      ensures old(Kept(Now())) ==> inFlight == old(inFlight) - {old(fetches)[pending].key}
    {
      var key := fetches[pending].key;
      if key in inFlight && inFlight[key] == pending {
        inFlight := inFlight - {key};
      }
      fetches := fetches[pending := fetches[pending].(finalized := true)];
    }
  }
}
