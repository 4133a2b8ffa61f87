/**
 * The registry of thread objects as a state machine over calls of the thread functions, one call at a time. Objects
 * are named by the order of their creation; `list` holds the ones that the registry finds.
 */
module Threads {
  import opened CStrings

  datatype State = New | Running | Dying

  /**
   * `spawned`: the handle names a thread of execution; `ran`: destructors already called; `joinFrees`, `cleanupFrees`:
   * how often JoinThread and CleanupThread have released the memory of the object.
   */
  datatype Thread = Thread(
    threadId: int, joinable: bool, state: State, destructors: seq<nat>, ran: seq<nat>, spawned: bool,
    joinFrees: nat, cleanupFrees: nat)
  {
    function Frees(): nat { joinFrees + cleanupFrees }
  }

  datatype Registry = Registry(objects: seq<Thread>, list: seq<nat>, locked: bool)

  /** The outcome of pthread_join. */
  datatype JoinOutcome = Joined | Deadlock | NoThread | OtherError

  /** A call with what the system answers; Finish is a thread coming to the end of its life on its own. */
  datatype Call =
    | Create
    | SetJoinable(id: int, attrSet: bool)
    | AddDestructor(id: int, destructor: nat)
    | Start(id: int, created: bool)
    | Finish(index: nat)
    | Cancel(id: int, canceled: bool)
    | Join(id: int, outcome: JoinOutcome)

  function Find(objects: seq<Thread>, list: seq<nat>, id: int): (found: Option<nat>)
    requires forall k | 0 <= k < |list| :: list[k] < |objects|
    ensures found.Some? ==>
      exists k | 0 <= k < |list| :: list[k] == found.value < |objects| && objects[found.value].threadId == id
    ensures found.None? ==> forall k | 0 <= k < |list| :: objects[list[k]].threadId != id
  {
    if list == [] then None
    else if objects[list[0]].threadId == id then Some(list[0])
    else Find(objects, list[1..], id)
  }

  // ----- invariant -----

  /** Never freed twice, and by whom it says. */
  predicate SoundThread(t: Thread) {
    && t.threadId == 1 && t.Frees() <= 1
    && (t.state.New? ==> !t.spawned)
    && (!t.state.Dying? ==> t.Frees() == 0)
    && (!t.state.Dying? ==> t.ran == [])
    && (t.state.Dying? ==> t.spawned && t.destructors == [])
    && (t.joinFrees == 1 ==> t.joinable)
    && (t.cleanupFrees == 1 <==> t.state.Dying? && !t.joinable)
  }

  /** All objects carry the same identifier; the registry knows at most the latest object, and none that is freed. */
  predicate Sound(r: Registry) {
    && (forall i | 0 <= i < |r.objects| :: SoundThread(r.objects[i]))
    && (r.list == [] || (r.list == [|r.objects| - 1] && |r.objects| > 0 && r.objects[|r.objects| - 1].Frees() == 0))
  }

  // ----- steps -----

  /** A thread's own clean-up: destructors are called once; an object nobody can join is unlinked and freed. */
  function Cleanup(r: Registry, i: nat): Registry
    requires i < |r.objects|
  {
    var t := r.objects[i].(state := Dying, ran := r.objects[i].ran + r.objects[i].destructors, destructors := []);
    if t.joinable then r.(objects := r.objects[i := t])
    else r.(objects := r.objects[i := t.(cleanupFrees := t.cleanupFrees + 1)], list := [])
  }

  /** Whether the call waits for the mutex. */
  predicate TakesMutex(r: Registry, c: Call) {
    match c
    case Finish(i) => i < |r.objects| && !r.objects[i].joinable
    case _ => true
  }

  /** What callers and the system guarantee: only running threads end, and an object is created before any is sought. */
  predicate Allowed(r: Registry, c: Call) {
    match c
    case Create => true
    case Finish(i) => i < |r.objects| && r.objects[i].state.Running? && r.objects[i].spawned
    case _ => |r.objects| > 0
  }

  /** The call returns. */
  predicate Returns(r: Registry, c: Call) {
    Allowed(r, c) && !(r.locked && TakesMutex(r, c))
  }

  function Created(r: Registry): Registry {
    r.(objects := r.objects + [Thread(1, false, New, [], [], false, 0, 0)], list := [|r.objects|])
  }

  /** What is looked up, and the code for a call that needs an object whose thread has not been started. */
  function NewObject(r: Registry, id: int): (Option<nat>, int)
    requires Sound(r)
  {
    var f := Find(r.objects, r.list, id);
    if f.None? then (None, -1) else if !r.objects[f.value].state.New? then (None, -2) else (f, 0)
  }

  function MadeJoinable(r: Registry, id: int, attrSet: bool): (Registry, int)
    requires Sound(r)
  {
    match NewObject(r, id)
    case (None, code) => (r, code)
    case (Some(i), _) =>
      (r.(objects := r.objects[i := r.objects[i].(joinable := true)]), if attrSet then 0 else -3)
  }

  function DestructorAdded(r: Registry, id: int, d: nat): (Registry, int)
    requires Sound(r)
  {
    match NewObject(r, id)
    case (None, code) => (r, code)
    case (Some(i), _) =>
      (r.(objects := r.objects[i := r.objects[i].(destructors := r.objects[i].destructors + [d])]), 0)
  }

  function Started(r: Registry, id: int, created: bool): (Registry, int)
    requires Sound(r)
  {
    match NewObject(r, id)
    case (None, code) => (r, code)
    case (Some(i), _) =>
      (r.(objects := r.objects[i := r.objects[i].(state := Running, spawned := created)]), if created then 0 else 1)
  }

  /** The mutex stays locked when the thread could not be canceled. */
  function Canceled(r: Registry, id: int, canceled: bool): (Registry, int)
    requires Sound(r)
  {
    var f := Find(r.objects, r.list, id);
    if f.None? || !canceled || !r.objects[f.value].spawned then (r.(locked := true), -1) else (r, 0)
  }

  function JoinedWith(r: Registry, id: int, outcome: JoinOutcome): (Registry, int)
    requires Sound(r)
  {
    var f := Find(r.objects, r.list, id);
    if f.None? then (r, -1)
    else if !r.objects[f.value].joinable then (r, -2)
    else JoinFound(r, f.value, outcome)
  }

  /** The registry and the returned code after a call that returns. */
  function Step(r: Registry, c: Call): (Registry, int)
    requires Sound(r) && Returns(r, c)
  {
    match c
    case Create => (Created(r), 0)
    case SetJoinable(id, attrSet) => MadeJoinable(r, id, attrSet)
    case AddDestructor(id, d) => DestructorAdded(r, id, d)
    case Start(id, created) => Started(r, id, created)
    case Finish(i) => (Cleanup(r, i), 0)
    case Cancel(id, canceled) => Canceled(r, id, canceled)
    case Join(id, outcome) => JoinedWith(r, id, outcome)
  }

  /** pthread_join returns success only when the thread has ended, so it may have to wait for the clean-up. */
  function JoinFound(r: Registry, i: nat, outcome: JoinOutcome): (Registry, int)
    requires i < |r.objects|
  {
    match outcome
    case Joined =>
      if !r.objects[i].spawned then (r, -1)
      else
        var ended := if r.objects[i].state.Running? then Cleanup(r, i) else r;
        var t := ended.objects[i];
        (ended.(objects := ended.objects[i := t.(joinFrees := t.joinFrees + 1)], list := []), 0)
    case Deadlock => (r, -3)
    case NoThread => (r, -1)
    case OtherError => (r, -2)
  }

  /** Replacing one object by a sound one; only the latest object may stay in the registry, and only unreleased. */
  lemma ReplacedIsSound(r: Registry, i: nat, t: Thread, list: seq<nat>)
    requires Sound(r) && i < |r.objects| && SoundThread(t)
    requires list == [] || (list == r.list && (t.Frees() == 0 || i != |r.objects| - 1))
    ensures Sound(r.(objects := r.objects[i := t], list := list))
  {
  }

  lemma CleanupIs(r: Registry, i: nat)
    requires i < |r.objects|
    ensures var t := r.objects[i];
      Cleanup(r, i) == Registry(
        r.objects[i := t.(
          state := Dying, ran := t.ran + t.destructors, destructors := [],
          cleanupFrees := if t.joinable then t.cleanupFrees else t.cleanupFrees + 1)],
        if t.joinable then r.list else [], r.locked)
  {
  }

  lemma CleanupKeepsSound(r: Registry, i: nat)
    requires Sound(r) && i < |r.objects| && r.objects[i].state.Running? && r.objects[i].spawned
    ensures Sound(Cleanup(r, i))
  {
    var t := Cleanup(r, i).objects[i];
    hide Sound;
    ReplacedIsSound(r, i, t, Cleanup(r, i).list);
  }

  lemma JoinKeepsSound(r: Registry, i: nat, outcome: JoinOutcome)
    requires Sound(r) && i < |r.objects| && r.objects[i].joinable && r.objects[i].Frees() == 0
    requires !r.objects[i].state.New?
    ensures Sound(JoinFound(r, i, outcome).0)
  {
    if outcome.Joined? && r.objects[i].spawned {
      var ended := if r.objects[i].state.Running? then Cleanup(r, i) else r;
      if r.objects[i].state.Running? { CleanupKeepsSound(r, i); }
      var t := ended.objects[i];
      ReplacedIsSound(ended, i, t.(joinFrees := t.joinFrees + 1), []);
    }
  }

  lemma StepKeepsSound(r: Registry, c: Call)
    requires Sound(r) && Returns(r, c)
    ensures Sound(Step(r, c).0)
  {
    match c
    case Create =>
    case Finish(i) => CleanupKeepsSound(r, i);
    case Join(id, outcome) =>
      var f := Find(r.objects, r.list, id);
      if f.Some? && r.objects[f.value].joinable && r.objects[f.value].spawned { JoinKeepsSound(r, f.value, outcome); }
    case _ =>
      var f := Find(r.objects, r.list, c.id);
      if f.Some? { ReplacedIsSound(r, f.value, Step(r, c).0.objects[f.value], r.list); }
  }

  /** The object created last is the only one that a call with its identifier finds. */
  lemma FindsLatest(r: Registry, objects: seq<Thread>, t: Thread)
    requires Sound(r) && r.objects == objects + [t] && r.list == [|objects|] && t.threadId == 1
    ensures Find(r.objects, r.list, 1) == Some(|objects|)
    ensures t.state.New? ==> NewObject(r, 1).0 == Some(|objects|)
    ensures r.objects[|objects|] == t
    ensures forall u :: r.objects[|objects| := u] == objects + [u]
  {
  }

  lemma SoundObject(r: Registry, i: nat)
    requires Sound(r) && i < |r.objects|
    ensures SoundThread(r.objects[i])
  {
  }

  // ----- codes -----

  /** Calls that set a thread up: -1 without the object, -2 once it has been started, and nothing changes then. */
  lemma SetUpCodes(r: Registry, id: int, attrSet: bool, d: nat, created: bool)
    requires Sound(r) && !r.locked && r.objects != []
    ensures var n := |r.objects| - 1; var t := r.objects[n];
      if r.list == [] || id != 1 then
        Step(r, SetJoinable(id, attrSet)) == (r, -1) && Step(r, AddDestructor(id, d)) == (r, -1)
        && Step(r, Start(id, created)) == (r, -1)
      else if t.state != New then
        Step(r, SetJoinable(id, attrSet)) == (r, -2) && Step(r, AddDestructor(id, d)) == (r, -2)
        && Step(r, Start(id, created)) == (r, -2)
      else
        && Step(r, SetJoinable(id, attrSet)) ==
             (r.(objects := r.objects[n := t.(joinable := true)]), if attrSet then 0 else -3)
        && Step(r, AddDestructor(id, d)) == (r.(objects := r.objects[n := t.(destructors := t.destructors + [d])]), 0)
        && Step(r, Start(id, created)).0 == r.(objects := r.objects[n := t.(state := Running, spawned := created)])
        && (Step(r, Start(id, created)).1 == 0 <==> created)
  {
    LatestIsFound(r, id);
    hide Find, Sound;
  }

  lemma LatestIsFound(r: Registry, id: int)
    requires Sound(r) && r.objects != []
    ensures Find(r.objects, r.list, id) == if r.list == [] || id != 1 then None else Some(|r.objects| - 1)
  {
    SoundObject(r, |r.objects| - 1);
  }

  /** Cancelling: 0 and no change for a thread that exists and can be canceled, else -1 and the mutex kept. */
  lemma CancelCodes(r: Registry, id: int, canceled: bool)
    requires Sound(r) && !r.locked && r.objects != []
    ensures Step(r, Cancel(id, canceled)) ==
      if r.list != [] && id == 1 && canceled && r.objects[|r.objects| - 1].spawned then (r, 0) else (r.(locked := true), -1)
  {
    LatestIsFound(r, id);
    hide Find, Sound;
  }

  /** Joining: -1 without the thread, -2 if it is not joinable or for other errors, -3 for a deadlock; 0 releases it. */
  lemma JoinCodes(r: Registry, id: int, outcome: JoinOutcome)
    requires Sound(r) && !r.locked && r.objects != []
    ensures var n := |r.objects| - 1; var t := r.objects[n]; var (after, code) := Step(r, Join(id, outcome));
      if r.list == [] || id != 1 then after == r && code == -1
      else if !t.joinable then after == r && code == -2
      else if outcome == Deadlock then after == r && code == -3
      else if outcome == NoThread || (outcome == Joined && !t.spawned) then after == r && code == -1
      else if outcome == OtherError then after == r && code == -2
      else
        && code == 0 && after.list == [] && !after.locked && |after.objects| == n + 1
        && after.objects[n].joinFrees == t.joinFrees + 1 && after.objects[n].cleanupFrees == t.cleanupFrees
        && forall i | 0 <= i < n :: after.objects[i] == r.objects[i]
  {
    LatestIsFound(r, id);
    hide Find, Sound;
  }

  /** The end of a thread: its destructors are called once, in order; an object nobody can join is released. */
  lemma FinishIs(r: Registry, i: nat)
    requires Sound(r) && Returns(r, Finish(i))
    ensures var (after, code) := Step(r, Finish(i)); var t := r.objects[i];
      && |after.objects| == |r.objects| && (forall k | 0 <= k < |r.objects| && k != i :: after.objects[k] == r.objects[k])
      && after.objects[i].state == Dying && after.objects[i].ran == t.ran + t.destructors
      && after.objects[i].destructors == [] && after.locked == r.locked
      && after.list == (if t.joinable then r.list else [])
      && after.objects[i].cleanupFrees == (if t.joinable then t.cleanupFrees else t.cleanupFrees + 1)
      && after.objects[i].joinFrees == t.joinFrees
  {
    hide Sound;
  }

  // ----- what a step can do to an object -----

  function Rank(s: State): nat {
    match s
    case New => 0
    case Running => 1
    case Dying => 2
  }

  /** Later in its life: the state only advances, and what was set up before the start stays. */
  predicate Later(before: Thread, after: Thread) {
    && Rank(before.state) <= Rank(after.state)
    && before.joinFrees <= after.joinFrees && before.cleanupFrees <= after.cleanupFrees
    && (before.joinable ==> after.joinable)
    && (!before.state.New? ==>
      && after.joinable == before.joinable && after.ran + after.destructors == before.ran + before.destructors)
  }

  predicate LaterAll(before: Registry, after: Registry) {
    |before.objects| <= |after.objects| &&
    forall i | 0 <= i < |before.objects| :: Later(before.objects[i], after.objects[i])
  }

  /** Replacing one object by a later one. */
  lemma ReplacedIsLater(r: Registry, i: nat, t: Thread, list: seq<nat>)
    requires i < |r.objects| && Later(r.objects[i], t)
    ensures LaterAll(r, r.(objects := r.objects[i := t], list := list))
  {
  }

  lemma JoinIsLater(r: Registry, i: nat, outcome: JoinOutcome)
    requires i < |r.objects|
    ensures LaterAll(r, JoinFound(r, i, outcome).0)
  {
    if outcome.Joined? && r.objects[i].spawned {
      var t := (if r.objects[i].state.Running? then Cleanup(r, i) else r).objects[i];
      ReplacedIsLater(r, i, t.(joinFrees := t.joinFrees + 1), []);
    }
  }

  lemma SameIsLater(r: Registry, after: Registry)
    requires r.objects <= after.objects
    ensures LaterAll(r, after)
  {
  }

  lemma StepIsLater(r: Registry, c: Call)
    requires Sound(r) && Returns(r, c)
    ensures LaterAll(r, Step(r, c).0)
  {
    hide LaterAll;
    var after := Step(r, c).0;
    match c
    case Create => SameIsLater(r, after);
    case Finish(i) => ReplacedIsLater(r, i, after.objects[i], after.list);
    case Join(id, outcome) =>
      var f := Find(r.objects, r.list, id);
      if f.Some? && r.objects[f.value].joinable { JoinIsLater(r, f.value, outcome); } else { SameIsLater(r, after); }
    case Cancel(_, _) => SameIsLater(r, after);
    case _ =>
      var f := NewObject(r, c.id).0;
      if f.Some? { ReplacedIsLater(r, f.value, after.objects[f.value], r.list); } else { SameIsLater(r, after); }
  }

  // ----- runs -----

  function Next(r: Registry, c: Call): (after: Registry)
    requires Sound(r) && Returns(r, c)
    ensures Sound(after)
  {
    StepKeepsSound(r, c);
    Step(r, c).0
  }

  ghost predicate CanRun(r: Registry, calls: seq<Call>)
    requires Sound(r)
    decreases |calls|
  {
    calls == [] ||
    (Returns(r, calls[0]) && CanRun(Next(r, calls[0]), calls[1..]))
  }

  ghost function Run(r: Registry, calls: seq<Call>): Registry
    requires Sound(r) && CanRun(r, calls)
    decreases |calls|
  {
    if calls == [] then r else Run(Next(r, calls[0]), calls[1..])
  }

  /** Over any run, every object only moves forward, and is frozen from its start on as far as it was set up. */
  lemma {:induction false} RunIsLater(r: Registry, calls: seq<Call>)
    requires Sound(r) && CanRun(r, calls)
    ensures Sound(Run(r, calls)) && LaterAll(r, Run(r, calls))
    decreases |calls|
  {
    if calls != [] {
      StepIsLater(r, calls[0]);
      RunIsLater(Next(r, calls[0]), calls[1..]);
    }
  }

  /** A cancellation in the run that does not succeed. */
  ghost predicate SomeCancelFails(r: Registry, calls: seq<Call>)
    requires Sound(r) && CanRun(r, calls)
    decreases |calls|
  {
    calls != [] &&
    ((calls[0].Cancel? && Step(r, calls[0]).1 != 0) || SomeCancelFails(Next(r, calls[0]), calls[1..]))
  }

  /** The mutex is left locked by a run exactly if a cancellation in it failed. */
  lemma {:induction false} LockedIffCancelFailed(r: Registry, calls: seq<Call>)
    requires Sound(r) && CanRun(r, calls)
    ensures Run(r, calls).locked <==> r.locked || SomeCancelFails(r, calls)
    decreases |calls|
  {
    if calls != [] {
      LockedIffCancelFailed(Next(r, calls[0]), calls[1..]);
    }
  }

  /**
   * From a locked registry on, a run is nothing but ends of joinable threads that were running, each at most once, and
   * the registry stays as it is: no call of the interface returns any more.
   */
  lemma {:induction false} LockedForever(r: Registry, calls: seq<Call>)
    requires Sound(r) && CanRun(r, calls) && r.locked
    ensures Run(r, calls).locked && Run(r, calls).list == r.list && |Run(r, calls).objects| == |r.objects|
    ensures forall i | 0 <= i < |calls| ::
      && calls[i].Finish? && calls[i].index < |r.objects|
      && r.objects[calls[i].index].joinable && r.objects[calls[i].index].state.Running?
    ensures forall i, j | 0 <= i < j < |calls| :: calls[i].index != calls[j].index
    decreases |calls|
  {
    if calls != [] {
      var next, rest := Next(r, calls[0]), calls[1..];
      LockedForever(next, rest);
      assert forall i | 1 <= i < |calls| :: calls[i] == rest[i - 1];
      assert next.objects[calls[0].index].state.Dying?;
    }
  }

  // ----- losing sight of a thread -----

  /** The end of a thread that cannot be joined, or a join that succeeds. */
  predicate Loses(r: Registry, c: Call)
    requires Sound(r) && Returns(r, c)
  {
    (c.Finish? && !r.objects[c.index].joinable) || (c.Join? && Step(r, c).1 == 0)
  }

  /** One call leaves the registry empty exactly if it does not create and it was empty, or loses what it held. */
  lemma EmptyAfterStepIff(r: Registry, c: Call)
    requires Sound(r) && Returns(r, c)
    ensures Step(r, c).0.list == [] <==> !c.Create? && (r.list == [] || Loses(r, c))
  {
  }

  /** A loss that no creation follows; or none of the two, from a registry that was empty. */
  ghost predicate LostAfter(r: Registry, calls: seq<Call>, lost: bool)
    requires Sound(r) && CanRun(r, calls)
    decreases |calls|
  {
    if calls == [] then lost
    else LostAfter(Next(r, calls[0]), calls[1..], !calls[0].Create? && (lost || Loses(r, calls[0])))
  }

  /**
   * After any run the registry is empty exactly if something was lost since the last creation, be it the latest object or
   * another: an older thread that cannot be joined takes its successor's object out of the registry.
   */
  lemma {:induction false} EmptyAfterRunIff(r: Registry, calls: seq<Call>)
    requires Sound(r) && CanRun(r, calls)
    ensures Run(r, calls).list == [] <==> LostAfter(r, calls, r.list == [])
    decreases |calls|
  {
    if calls != [] {
      EmptyAfterStepIff(r, calls[0]);
      EmptyAfterRunIff(Next(r, calls[0]), calls[1..]);
    }
  }

  ghost predicate Reaches(r: Registry, calls: seq<Call>, end: Registry) {
    Sound(r) && CanRun(r, calls) && Run(r, calls) == end
  }

  lemma ReachesBefore(r: Registry, c: Call, calls: seq<Call>, end: Registry)
    requires Sound(r) && Returns(r, c) && Reaches(Next(r, c), calls, end)
    ensures Reaches(r, [c] + calls, end)
  {
    hide Sound, Step, Returns;
    assert ([c] + calls)[1..] == calls;
  }

  lemma RunOfNothing(r: Registry)
    requires Sound(r)
    ensures Reaches(r, [], r)
  {
  }

  predicate IsFresh(t: Thread) {
    t == Thread(1, false, New, [], [], false, 0, 0)
  }

  lemma StartRuns(r: Registry, objects: seq<Thread>, t: Thread)
    requires Sound(r) && !r.locked && r.objects == objects + [t] && r.list == [|objects|] && t.state.New?
    ensures Returns(r, Start(1, true))
    ensures Step(r, Start(1, true)).0 == r.(objects := objects + [t.(state := Running, spawned := true)])
  {
    hide Find, NewObject, Sound;
    SoundObject(r, |objects|);
    FindsLatest(r, objects, t);
  }

  lemma EndEmpties(r: Registry, i: nat)
    requires Sound(r) && !r.locked && i < |r.objects| && !r.objects[i].joinable
    requires r.objects[i].state.Running? && r.objects[i].spawned
    ensures Returns(r, Finish(i))
    ensures Step(r, Finish(i)).0.list == [] && !Step(r, Finish(i)).0.locked
    ensures |Step(r, Finish(i)).0.objects| == |r.objects|
    ensures forall k | 0 <= k < |r.objects| && k != i :: Step(r, Finish(i)).0.objects[k] == r.objects[k]
  {
    hide Sound;
  }
  const EMPTY := Registry([], [], false)
  const ORPHAN_RUN := [Create, Start(1, true), Create, Finish(0)]

  /**
   * A run after which a join does not find the thread that was created last, though nobody has released it: the thread
   * before it, which cannot be joined, has ended in between.
   */
  lemma OrphanHidesSuccessor() returns (end: Registry)
    ensures Sound(end) && |end.objects| == 2 && IsFresh(end.objects[1]) && Returns(end, Join(1, Joined))
    ensures Step(end, Join(1, Joined)) == (end, -1)
    ensures Reaches(EMPTY, ORPHAN_RUN, end)
  {
    hide CanRun, Run, Step, Reaches, Sound;
    EmptyIsSound();
    CreateAdds(EMPTY);
    var one := Next(EMPTY, Create);
    StartRuns(one, [], one.objects[0]);
    var running := Next(one, Start(1, true));
    CreateAdds(running);
    var both := Next(running, Create);
    EndEmpties(both, 0);
    end := Next(both, Finish(0));
    UnknownWhenEmpty(end, Joined);
    RunOfNothing(end);
    ReachesBefore(both, Finish(0), [], end);
    ReachesBefore(running, Create, [Finish(0)] + [], end);
    ReachesBefore(one, Start(1, true), [Create] + ([Finish(0)] + []), end);
    ReachesBefore(EMPTY, Create, [Start(1, true)] + ([Create] + ([Finish(0)] + [])), end);
    assert ORPHAN_RUN == [Create] + ([Start(1, true)] + ([Create] + ([Finish(0)] + [])));
  }

  lemma EmptyIsSound()
    ensures Sound(EMPTY) && !EMPTY.locked && EMPTY.objects == []
  {
  }

  lemma CreateAdds(r: Registry)
    requires Sound(r) && !r.locked
    ensures Returns(r, Create)
    ensures Step(r, Create).0.list == [|r.objects|] && !Step(r, Create).0.locked
    ensures exists t :: IsFresh(t) && Step(r, Create).0.objects == r.objects + [t]
  {
    hide Sound;
    var t := Thread(1, false, New, [], [], false, 0, 0);
    assert IsFresh(t) && Step(r, Create).0.objects == r.objects + [t];
  }

  lemma UnknownWhenEmpty(r: Registry, outcome: JoinOutcome)
    requires Sound(r) && Returns(r, Join(1, outcome)) && r.list == []
    ensures Step(r, Join(1, outcome)) == (r, -1)
  {
  }
}
