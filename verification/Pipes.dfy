/**
 * The pipe of "iw event": one pointer for all event threads. A thread opens a pipe when it starts and stores it there;
 * the destructor of whichever thread ends closes the pipe that is stored.
 */
module Pipes {
  import opened CStrings
  import opened LifeCycle
  import opened Runs

  /** `current`: the pipe that the pointer holds; `open`: those not closed. A pipe is named like its thread's object. */
  datatype PipeState = PipeState(current: Option<nat>, open: set<nat>) {
    function Held(): nat { if current.Some? then 1 else 0 }
  }

  const NO_PIPES := PipeState(None, {})

  /** The verb brings the thread of an object to its end: by itself, or for a join. */
  predicate EndsThread(v: Service, verb: Verb)
    requires Inv(v) && Allowed(v, verb)
  {
    verb.EventThreadEnds? || (Joins(v, verb) && v.threads.objects[v.thread.value].state.Running?)
  }

  function PipeStep(p: PipeState, v: Service, verb: Verb): PipeState
    requires Inv(v) && Allowed(v, verb)
  {
    if Launches(v, verb) then
      var n := |v.threads.objects|;
      if !verb.start.threadCreated then p
      else if verb.start.pipeOpens then PipeState(Some(n), p.open + {n})
      else PipeState(None, p.open)
    else if EndsThread(v, verb) && p.current.Some? then PipeState(None, p.open - {p.current.value})
    else p
  }

  ghost function PipesAfter(p: PipeState, v: Service, verbs: seq<Verb>): PipeState
    requires Inv(v) && CanRun(v, verbs)
    decreases |verbs|
  {
    if verbs == [] then p else PipesAfter(PipeStep(p, v, verbs[0]), Next(v, verbs[0]), verbs[1..])
  }

  /** The stored pipe is open, and every pipe belongs to an object. */
  predicate PipesTold(p: PipeState, v: Service) {
    && (p.current.Some? ==> p.current.value in p.open)
    && forall n | n in p.open :: n < |v.threads.objects|
  }

  /** The verb's thread overwrites the pointer to a pipe that is open. */
  predicate Overwrites(p: PipeState, v: Service, verb: Verb)
    requires Inv(v) && Allowed(v, verb)
  {
    Launches(v, verb) && verb.start.threadCreated && p.current.Some?
  }

  ghost function Overwritten(p: PipeState, v: Service, verbs: seq<Verb>): nat
    requires Inv(v) && CanRun(v, verbs)
    decreases |verbs|
  {
    if verbs == [] then 0
    else
      (if Overwrites(p, v, verbs[0]) then 1 else 0)
      + Overwritten(PipeStep(p, v, verbs[0]), Next(v, verbs[0]), verbs[1..])
  }

  lemma PipeStepLedger(p: PipeState, v: Service, verb: Verb)
    requires Inv(v) && Allowed(v, verb) && Do(v, verb).1.Ends() && PipesTold(p, v)
    ensures var q := PipeStep(p, v, verb);
      && PipesTold(q, Next(v, verb))
      && |q.open| - q.Held() == |p.open| - p.Held() + (if Overwrites(p, v, verb) then 1 else 0)
  {
    hide Inv, Do, Launches, Joins, Allowed, Released, EndsThread;
    OneVerb(v, verb);
    var n := |v.threads.objects|;
    assert n !in p.open;
    assert |p.open + {n}| == |p.open| + 1;
    if p.current.Some? {
      assert |p.open - {p.current.value}| == |p.open| - 1;
    }
  }

  /** Over any run, the pipes that are open and not stored are those whose pointer has been overwritten, one each time. */
  lemma {:induction false} PipeLedger(p: PipeState, v: Service, verbs: seq<Verb>)
    requires Inv(v) && CanRun(v, verbs) && PipesTold(p, v)
    ensures var q := PipesAfter(p, v, verbs);
      && PipesTold(q, Run(v, verbs))
      && |q.open| - q.Held() == |p.open| - p.Held() + Overwritten(p, v, verbs)
    decreases |verbs|
  {
    hide Inv, Do, Allowed, PipeStep, PipesTold, Overwrites;
    if verbs != [] {
      PipeStepLedger(p, v, verbs[0]);
      PipeLedger(PipeStep(p, v, verbs[0]), Next(v, verbs[0]), verbs[1..]);
    }
  }

  /** A pipe whose pointer has been overwritten is never closed. */
  lemma {:induction false} OverwrittenStaysOpen(p: PipeState, v: Service, verbs: seq<Verb>, n: nat)
    requires Inv(v) && CanRun(v, verbs) && n < |v.threads.objects| && n in p.open && p.current != Some(n)
    ensures n in PipesAfter(p, v, verbs).open && PipesAfter(p, v, verbs).current != Some(n)
    decreases |verbs|
  {
    hide Inv, Do, Launches, Joins, Allowed, Released;
    if verbs != [] {
      OneVerb(v, verbs[0]);
      OverwrittenStaysOpen(PipeStep(p, v, verbs[0]), Next(v, verbs[0]), verbs[1..], n);
    }
  }
}
