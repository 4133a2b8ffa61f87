/** Whole runs of the access point, from its configuration on: what its files, its threads and its status then are. */
module Runs {
  import opened CStrings
  import opened ApSettings
  import opened TmpFiles
  import opened Hostapd
  import opened Dnsmasq
  import opened DnsmasqRanges
  import opened DnsmasqReader
  import opened LifeCycle
  import opened CreateData
  import Ipv4
  import Threads

  /** Every verb is allowed and comes to its end. */
  ghost predicate CanRun(v: Service, verbs: seq<Verb>)
    requires Inv(v)
    decreases |verbs|
  {
    verbs == [] ||
    (Allowed(v, verbs[0]) && Do(v, verbs[0]).1.Ends() && CanRun(Next(v, verbs[0]), verbs[1..]))
  }

  ghost function Run(v: Service, verbs: seq<Verb>): (end: Service)
    requires Inv(v) && CanRun(v, verbs)
    ensures Inv(end)
    decreases |verbs|
  {
    if verbs == [] then v else Run(Next(v, verbs[0]), verbs[1..])
  }

  // ----- threads -----

  /** The phase of the event thread, from the history alone. */
  ghost function PhaseAfter(v: Service, verbs: seq<Verb>, phase: Phase): Phase
    requires Inv(v) && CanRun(v, verbs)
    decreases |verbs|
  {
    if verbs == [] then phase
    else PhaseAfter(Next(v, verbs[0]), verbs[1..],
      if Launches(v, verbs[0]) then Live else if Joins(v, verbs[0]) then Joined else phase)
  }

  lemma {:induction false} PhaseIsHistory(v: Service, verbs: seq<Verb>)
    requires Inv(v) && CanRun(v, verbs)
    ensures PhaseOf(Run(v, verbs)) == PhaseAfter(v, verbs, PhaseOf(v))
    decreases |verbs|
  {
    hide Do, Inv, Launches, Joins, PhaseOf;
    if verbs != [] {
      PhaseMoves(v, verbs[0]);
      PhaseIsHistory(Next(v, verbs[0]), verbs[1..]);
    }
  }

  /** A stop whose scripts succeed cannot cancel the live thread. */
  predicate CancelFails(v: Service, verb: Verb)
    requires Inv(v)
  {
    && verb.Stop? && verb.stop.clean.result.Succeeds() && verb.stop.hwStop.Succeeds()
    && PhaseOf(v) == Live && !(verb.stop.canceled && v.threads.objects[v.thread.value].spawned)
  }

  ghost predicate SomeCancelFails(v: Service, verbs: seq<Verb>)
    requires Inv(v) && CanRun(v, verbs)
    decreases |verbs|
  {
    verbs != [] && (CancelFails(v, verbs[0]) || SomeCancelFails(Next(v, verbs[0]), verbs[1..]))
  }

  lemma LockAfter(v: Service, verb: Verb)
    requires Inv(v) && Allowed(v, verb) && Do(v, verb).1.Ends()
    ensures Next(v, verb).threads.locked <==> v.threads.locked || CancelFails(v, verb)
  {
    hide StartAp, RestartAp, StopAp, BringUp, WellServed, Sound, Servable, Threads.Sound;
    match verb
    case Start(e) => StartApThreads(v, e);
    case Restart(again, e) => RestartApThreads(v, again, e);
    case Stop(e) => StopLocks(v, e);
    case _ =>
  }

  lemma StopLocks(v: Service, e: StopEnv)
    requires Inv(v)
    ensures StopAp(v, e).0.threads.locked <==> v.threads.locked || CancelFails(v, Stop(e))
  {
    hide WellServed, Sound, Servable;
  }

  /** Over any run the mutex is left locked exactly if a stop in it could not cancel the event thread. */
  lemma {:induction false} LockIsHistory(v: Service, verbs: seq<Verb>)
    requires Inv(v) && CanRun(v, verbs)
    ensures Run(v, verbs).threads.locked <==> v.threads.locked || SomeCancelFails(v, verbs)
    decreases |verbs|
  {
    hide Do, Inv, CancelFails;
    if verbs != [] {
      LockAfter(v, verbs[0]);
      LockIsHistory(Next(v, verbs[0]), verbs[1..]);
    }
  }

  /** How many objects have been released. */
  function Released(objects: seq<Threads.Thread>): nat {
    if objects == [] then 0
    else Released(objects[..|objects| - 1]) + (if objects[|objects| - 1].Frees() > 0 then 1 else 0)
  }

  lemma {:induction false} ReleasedUpdate(objects: seq<Threads.Thread>, i: nat, t: Threads.Thread)
    requires i < |objects| && objects[i].Frees() == 0
    ensures Released(objects[i := t]) == Released(objects) + (if t.Frees() > 0 then 1 else 0)
  {
    var n := |objects| - 1;
    if i < n {
      ReleasedUpdate(objects[..n], i, t);
      assert objects[i := t][..n] == objects[..n][i := t];
    } else {
      assert objects[i := t][..n] == objects[..n];
    }
  }

  /** One verb adds an object if it launches, and releases one if it joins. */
  lemma OneVerb(v: Service, verb: Verb)
    requires Inv(v) && Allowed(v, verb) && Do(v, verb).1.Ends()
    ensures var was, now := v.threads.objects, Next(v, verb).threads.objects;
      && |now| == |was| + (if Launches(v, verb) then 1 else 0)
      && Released(now) == Released(was) + (if Joins(v, verb) then 1 else 0)
  {
    hide StartAp, RestartAp, StopAp, WellServed, Sound, Servable, Threads.Sound, Released;
    match verb
    case Start(e) =>
      StartApThreads(v, e);
      ReleasedWithNew(v.threads.objects, NewThread(true, Threads.Running, [DESTRUCTOR], e.threadCreated));
    case Restart(again, e) =>
      RestartApThreads(v, again, e);
      ReleasedWithNew(v.threads.objects, NewThread(true, Threads.Running, [DESTRUCTOR], e.threadCreated));
    case Stop(e) => StopObjects(v, e);
    case Set(_) =>
    case EventThreadEnds(i) => EndReleasesNothing(v, i);
  }

  lemma ReleasedWithNew(objects: seq<Threads.Thread>, t: Threads.Thread)
    requires t.Frees() == 0
    ensures Released(objects + [t]) == Released(objects)
  {
    assert (objects + [t])[..|objects|] == objects;
  }

  lemma EndReleasesNothing(v: Service, i: nat)
    requires Inv(v) && Threads.Returns(v.threads, Threads.Finish(i))
    ensures |Threads.Cleanup(v.threads, i).objects| == |v.threads.objects|
    ensures Released(Threads.Cleanup(v.threads, i).objects) == Released(v.threads.objects)
  {
    var t := v.threads.objects[i];
    assert t.Frees() == 0 && t.joinable;
    ReleasedUpdate(v.threads.objects, i, Threads.Cleanup(v.threads, i).objects[i]);
  }

  /** What a stop does to the objects: it releases the latest if it joins, and changes none otherwise. */
  lemma StopThreadObjects(v: Service, e: StopEnv)
    requires ThreadsTold(v)
    ensures var (threads, reply) := StopThread(v, e); var was, now := v.threads.objects, threads.objects;
      if v.thread.Some? && reply == Code(0) && !threads.locked then
        && |now| == |was| && was[v.thread.value].Frees() == 0 && now[v.thread.value].Frees() == 1
        && now == was[v.thread.value := now[v.thread.value]]
      else now == was
  {
    ReleasedOnce(v);
    hide Threads.Sound;
  }

  lemma StopObjects(v: Service, e: StopEnv)
    requires Inv(v) && StopAp(v, e).1.Ends()
    ensures var was, now := v.threads.objects, StopAp(v, e).0.threads.objects;
      && |now| == |was|
      && Released(now) == Released(was) + (if Joins(v, Stop(e)) then 1 else 0)
  {
    hide WellServed, Sound, Servable, Released, StopThread, Threads.Sound;
    var was, now := v.threads.objects, StopAp(v, e).0.threads.objects;
    StopThreadObjects(v.(files := AfterClean(v.files, e.clean)), e);
    if Joins(v, Stop(e)) {
      ReleasedUpdate(was, v.thread.value, now[v.thread.value]);
    }
  }

  ghost function Starts(v: Service, verbs: seq<Verb>): nat
    requires Inv(v) && CanRun(v, verbs)
    decreases |verbs|
  {
    if verbs == [] then 0
    else (if Launches(v, verbs[0]) then 1 else 0) + Starts(Next(v, verbs[0]), verbs[1..])
  }

  ghost function JoinedStops(v: Service, verbs: seq<Verb>): nat
    requires Inv(v) && CanRun(v, verbs)
    decreases |verbs|
  {
    if verbs == [] then 0
    else (if Joins(v, verbs[0]) then 1 else 0) + JoinedStops(Next(v, verbs[0]), verbs[1..])
  }

  /** Over any run: an object for every successful start, one of them released by every stop that joins, no other. */
  lemma {:induction false} ThreadLedger(v: Service, verbs: seq<Verb>)
    requires Inv(v) && CanRun(v, verbs)
    ensures var was, now := v.threads.objects, Run(v, verbs).threads.objects;
      && |now| == |was| + Starts(v, verbs)
      && Released(now) == Released(was) + JoinedStops(v, verbs)
    decreases |verbs|
  {
    hide Do, Inv, Launches, Joins;
    if verbs != [] {
      OneVerb(v, verbs[0]);
      ThreadLedger(Next(v, verbs[0]), verbs[1..]);
    }
  }

  /** Every start finds no thread that still has to be joined. */
  ghost predicate StopsBeforeStarts(v: Service, verbs: seq<Verb>)
    requires Inv(v) && CanRun(v, verbs)
    decreases |verbs|
  {
    verbs == [] ||
    ((Launches(v, verbs[0]) ==> PhaseOf(v) != Live) && StopsBeforeStarts(Next(v, verbs[0]), verbs[1..]))
  }

  ghost function Unreleased(v: Service): int {
    |v.threads.objects| - Released(v.threads.objects)
  }

  /** The object of the live thread, which is still in use. */
  ghost function InUse(v: Service): int
    requires ThreadsTold(v)
  {
    if PhaseOf(v) == Live then 1 else 0
  }

  /** How often a start or restart finds a thread that still has to be joined. */
  ghost function Overlaps(v: Service, verbs: seq<Verb>): nat
    requires Inv(v) && CanRun(v, verbs)
    decreases |verbs|
  {
    if verbs == [] then 0
    else (if Launches(v, verbs[0]) && PhaseOf(v) == Live then 1 else 0) + Overlaps(Next(v, verbs[0]), verbs[1..])
  }

  /** Over any run every overlap leaves one object behind, and nothing else does. */
  lemma {:induction false} LeakLedger(v: Service, verbs: seq<Verb>)
    requires Inv(v) && CanRun(v, verbs)
    ensures Unreleased(Run(v, verbs)) - InUse(Run(v, verbs)) == Unreleased(v) - InUse(v) + Overlaps(v, verbs)
    ensures Overlaps(v, verbs) == 0 <==> StopsBeforeStarts(v, verbs)
    decreases |verbs|
  {
    hide Do, Inv, Released, PhaseOf;
    if verbs != [] {
      OneVerb(v, verbs[0]);
      PhaseMoves(v, verbs[0]);
      JoinNeedsLive(v, verbs[0]);
      LeakLedger(Next(v, verbs[0]), verbs[1..]);
    }
  }

  /** All objects are released, but that of a live thread, exactly if no start found a thread still to be joined. */
  lemma NothingLeaksIff(v: Service, verbs: seq<Verb>)
    requires Inv(v) && CanRun(v, verbs) && Unreleased(v) == InUse(v)
    ensures Unreleased(Run(v, verbs)) == InUse(Run(v, verbs)) <==> StopsBeforeStarts(v, verbs)
  {
    hide Do, Inv;
    LeakLedger(v, verbs);
  }

  /** One verb does not release an object that is not the latest. */
  lemma OlderStays(v: Service, verb: Verb, i: nat)
    requires Inv(v) && Allowed(v, verb) && Do(v, verb).1.Ends() && i + 1 < |v.threads.objects|
    ensures i + 1 < |Next(v, verb).threads.objects|
    ensures Next(v, verb).threads.objects[i].Frees() == v.threads.objects[i].Frees()
  {
    hide StartAp, RestartAp, StopAp, BringUp, WellServed, Sound, Servable, Threads.Sound;
    match verb
    case Start(e) => StartApThreads(v, e);
    case Restart(again, e) => RestartApThreads(v, again, e);
    case Stop(e) => StopTouchesLatest(v, e);
    case Set(_) =>
    case EventThreadEnds(k) => EndKeepsFrees(v, k);
  }

  lemma StopTouchesLatest(v: Service, e: StopEnv)
    requires Inv(v) && StopAp(v, e).1.Ends()
    ensures var was, now := v.threads.objects, StopAp(v, e).0.threads.objects;
      |now| == |was| && forall i | 0 <= i < |was| - 1 :: now[i] == was[i]
  {
    hide WellServed, Sound, Servable, StopThread, Threads.Sound;
    StopThreadObjects(v.(files := AfterClean(v.files, e.clean)), e);
  }

  lemma EndKeepsFrees(v: Service, k: nat)
    requires Inv(v) && Threads.Returns(v.threads, Threads.Finish(k))
    ensures var was, now := v.threads.objects, Threads.Cleanup(v.threads, k).objects;
      |now| == |was| && forall i | 0 <= i < |was| :: now[i].Frees() == was[i].Frees()
  {
    assert v.threads.objects[k].joinable;
  }

  /** What has once been left behind is never released: no run changes that. */
  lemma {:induction false} LeakedForEver(v: Service, verbs: seq<Verb>, i: nat)
    requires Inv(v) && CanRun(v, verbs) && i + 1 < |v.threads.objects|
    ensures i + 1 < |Run(v, verbs).threads.objects|
    ensures Run(v, verbs).threads.objects[i].Frees() == v.threads.objects[i].Frees()
    decreases |verbs|
  {
    hide Do, Inv;
    if verbs != [] {
      OlderStays(v, verbs[0], i);
      LeakedForEver(Next(v, verbs[0]), verbs[1..], i);
    }
  }

  lemma JoinNeedsLive(v: Service, verb: Verb)
    requires Inv(v) && Allowed(v, verb)
    ensures Joins(v, verb) ==> PhaseOf(v) == Live && !Launches(v, verb)
  {
    hide WellServed, Sound, Servable;
  }

  // ----- settings -----

  /** The setter calls among the verbs. */
  ghost function SetCalls(verbs: seq<Verb>): seq<Call> {
    if verbs == [] then []
    else (if verbs[0].Set? then [verbs[0].call] else []) + SetCalls(verbs[1..])
  }

  /** Only setter verbs change the settings. */
  lemma {:induction false} SettingsAreHistory(v: Service, verbs: seq<Verb>)
    requires Inv(v) && CanRun(v, verbs)
    ensures AllCallable(SetCalls(verbs))
    ensures Run(v, verbs).settings == ApSettings.Run(v.settings, SetCalls(verbs))
    decreases |verbs|
  {
    if verbs != [] {
      var next := Next(v, verbs[0]);
      SettingsAreHistory(next, verbs[1..]);
      SettingsAfter(v, verbs[0]);
      if verbs[0].Set? {
        RunPrepend(v.settings, verbs[0].call, SetCalls(verbs[1..]));
      } else {
        assert [] + SetCalls(verbs[1..]) == SetCalls(verbs[1..]);
      }
    }
  }

  lemma SettingsAfter(v: Service, verb: Verb)
    requires Inv(v) && Allowed(v, verb) && Do(v, verb).1.Ends()
    ensures Do(v, verb).0.settings == if verb.Set? then Apply(v.settings, verb.call) else v.settings
    ensures Do(v, verb).0.served ==
      if Launches(v, verb) then Some(Served(v.settings, Passed(v.settings, verb.start))) else v.served
  {
    hide WellServed, Sound, Servable, StartAp, RestartAp, Threads.Sound;
    match verb
    case Start(e) => StartApThreads(v, e);
    case Restart(again, e) => RestartApThreads(v, again, e);
    case _ =>
  }

  /** Index of the last verb that launched. */
  ghost function LastLaunch(v: Service, verbs: seq<Verb>): (k: Option<nat>)
    requires Inv(v) && CanRun(v, verbs)
    ensures k.Some? ==> k.value < |verbs| && (verbs[k.value].Start? || verbs[k.value].Restart?)
    decreases |verbs|
  {
    if verbs == [] then None
    else
      var later := LastLaunch(Next(v, verbs[0]), verbs[1..]);
      if later.Some? then Some(later.value + 1) else if Launches(v, verbs[0]) then Some(0) else None
  }

  /** The run stopped early is a run. */
  lemma {:induction false} PrefixRuns(v: Service, verbs: seq<Verb>, k: nat)
    requires Inv(v) && CanRun(v, verbs) && k <= |verbs|
    ensures CanRun(v, verbs[..k])
    decreases |verbs|
  {
    hide Do, Inv, Allowed;
    if k > 0 {
      var prefix := verbs[..k];
      assert prefix[1..] == verbs[1..][..k - 1] && prefix[0] == verbs[0];
      PrefixRuns(Next(v, verbs[0]), verbs[1..], k - 1);
    }
  }

  /** What is served are the settings that the last launch found. */
  lemma {:induction false} ServedIsHistory(v: Service, verbs: seq<Verb>)
    requires Inv(v) && CanRun(v, verbs)
    ensures var k := LastLaunch(v, verbs);
      if k.None? then Run(v, verbs).served == v.served
      else
        && CanRun(v, verbs[..k.value])
        && var s := Run(v, verbs[..k.value]).settings;
           Run(v, verbs).served == Some(Served(s, Passed(s, verbs[k.value].start)))
    decreases |verbs|
  {
    hide Do, Inv, Launches, Allowed;
    if verbs != [] {
      SettingsAfter(v, verbs[0]);
      var next := Next(v, verbs[0]);
      ServedIsHistory(next, verbs[1..]);
      var later := LastLaunch(next, verbs[1..]);
      if later.Some? {
        var k := later.value + 1;
        PrefixRuns(v, verbs, k);
        assert verbs[..k][1..] == verbs[1..][..later.value] && verbs[..k][0] == verbs[0];
      } else if Launches(v, verbs[0]) {
        assert verbs[..0] == [];
      }
    }
  }

  // ----- the name that the event thread reads -----

  /** An interface name that is accepted replaces the copy before it. */
  predicate Renames(verb: Verb) {
    verb.Set? && verb.call.SetInterfaceName? && NameVerdict(verb.call.name) == NO_ERROR
  }

  ghost predicate RenamedFrom(verbs: seq<Verb>, k: nat) {
    exists j | k <= j < |verbs| :: Renames(verbs[j])
  }

  lemma NamesAfter(v: Service, verb: Verb)
    requires Inv(v) && Allowed(v, verb) && Do(v, verb).1.Ends()
    ensures Do(v, verb).0.names == if Launches(v, verb) then v.names + [v.copy] else v.names
    ensures Do(v, verb).0.copy == if Renames(verb) then v.copy + 1 else v.copy
    ensures !(Launches(v, verb) && Renames(verb))
  {
    hide WellServed, Sound, Servable, StartAp, RestartAp, Threads.Sound, Passed;
    match verb
    case Start(e) => StartApThreads(v, e);
    case Restart(again, e) => RestartApThreads(v, again, e);
    case _ =>
  }

  /** The copy of the name that the thread of the i-th object got has been released. */
  predicate NameReleased(v: Service, i: nat)
    requires NamesTold(v) && i < |v.threads.objects|
  {
    v.names[i] < v.copy
  }

  lemma {:induction false} NamesGrow(v: Service, verbs: seq<Verb>)
    requires Inv(v) && CanRun(v, verbs)
    ensures v.names <= Run(v, verbs).names
    ensures v.copy <= Run(v, verbs).copy
    ensures v.copy < Run(v, verbs).copy <==> RenamedFrom(verbs, 0)
    decreases |verbs|
  {
    hide Do, Inv, Launches, Allowed, Renames;
    if verbs != [] {
      NamesAfter(v, verbs[0]);
      NamesGrow(Next(v, verbs[0]), verbs[1..]);
      RenamedShifts(verbs);
    }
  }

  /** The verb that launched the thread of the i-th object is the first, or comes later. */
  lemma LaunchedNowOrLater(v: Service, verbs: seq<Verb>, i: nat)
    requires Inv(v) && CanRun(v, verbs) && |v.threads.objects| <= i < |Run(v, verbs).threads.objects|
    ensures verbs != [] && (Launches(v, verbs[0]) ==> verbs[0].Start? || verbs[0].Restart?)
    ensures (Launches(v, verbs[0]) && i == |v.threads.objects|) || |Next(v, verbs[0]).threads.objects| <= i
  {
    hide Do, Inv, Joins, Allowed, Released;
    OneVerb(v, verbs[0]);
  }

  /** Which verb launched the thread of the i-th object. */
  ghost function LaunchOf(v: Service, verbs: seq<Verb>, i: nat): (k: nat)
    requires Inv(v) && CanRun(v, verbs) && |v.threads.objects| <= i < |Run(v, verbs).threads.objects|
    ensures k < |verbs| && (verbs[k].Start? || verbs[k].Restart?)
    decreases |verbs|
  {
    hide Do, Inv, Launches, Allowed;
    LaunchedNowOrLater(v, verbs, i);
    if Launches(v, verbs[0]) && i == |v.threads.objects| then 0
    else 1 + LaunchOf(Next(v, verbs[0]), verbs[1..], i)
  }

  /** It finds i objects, and launches. */
  lemma {:induction false} LaunchOfLaunches(v: Service, verbs: seq<Verb>, i: nat)
    requires Inv(v) && CanRun(v, verbs) && |v.threads.objects| <= i < |Run(v, verbs).threads.objects|
    ensures var k := LaunchOf(v, verbs, i);
      && CanRun(v, verbs[..k]) && Allowed(Run(v, verbs[..k]), verbs[k])
      && |Run(v, verbs[..k]).threads.objects| == i && Launches(Run(v, verbs[..k]), verbs[k])
    decreases |verbs|
  {
    hide Do, Inv, Launches, Allowed;
    LaunchedNowOrLater(v, verbs, i);
    var k := LaunchOf(v, verbs, i);
    PrefixRuns(v, verbs, k);
    var prefix := verbs[..k];
    if k > 0 {
      var next, rest := Next(v, verbs[0]), verbs[1..];
      LaunchOfLaunches(next, rest, i);
      assert prefix[0] == verbs[0] && prefix[1..] == rest[..k - 1];
    }
  }

  /**
   * For every thread launched in a run: the copy of the interface name that it reads has been released exactly if a name
   * was accepted after its own launch, whatever was launched since.
   */
  lemma {:induction false} NameIsHistory(v: Service, verbs: seq<Verb>, i: nat)
    requires Inv(v) && CanRun(v, verbs) && |v.threads.objects| <= i < |Run(v, verbs).threads.objects|
    ensures NameReleased(Run(v, verbs), i) <==> RenamedFrom(verbs, LaunchOf(v, verbs, i) + 1)
    decreases |verbs|
  {
    hide Do, Launches, Allowed, Renames, Sound, FilesNest, StatusTells, ThreadsTold;
    OneVerb(v, verbs[0]);
    NamesAfter(v, verbs[0]);
    var next, rest := Next(v, verbs[0]), verbs[1..];
    RenamedShifts(verbs);
    if Launches(v, verbs[0]) && i == |v.threads.objects| {
      NamesGrow(next, rest);
    } else {
      NameIsHistory(next, rest, i);
    }
  }

  lemma RenamedShifts(verbs: seq<Verb>)
    requires verbs != []
    ensures forall k: nat :: RenamedFrom(verbs[1..], k) <==> RenamedFrom(verbs, k + 1)
    ensures RenamedFrom(verbs, 0) <==> Renames(verbs[0]) || RenamedFrom(verbs[1..], 0)
  {
    var rest := verbs[1..];
    assert forall j | 1 <= j < |verbs| :: verbs[j] == rest[j - 1];
    forall k: nat | RenamedFrom(rest, k) ensures RenamedFrom(verbs, k + 1) {
      var j :| k <= j < |rest| && Renames(rest[j]);
      assert Renames(verbs[j + 1]);
    }
  }

  /** A thread that still runs reads a copy which has been released. */
  ghost predicate SomeThreadReadsReleased(v: Service)
    requires NamesTold(v)
  {
    exists i | 0 <= i < |v.threads.objects| :: IsRunning(v, i) && NameReleased(v, i)
  }

  predicate IsRunning(v: Service, i: nat)
    requires i < |v.threads.objects|
  {
    v.threads.objects[i].state.Running? && v.threads.objects[i].spawned
  }

  // ----- end to end -----

  /** A run of a service that has just been created with these settings and finds /tmp empty. */
  ghost predicate RunsFrom(s: Settings, verbs: seq<Verb>) {
    Sound(s) && Inv(Initial(s)) && CanRun(Initial(s), verbs)
  }

  ghost function EndFrom(s: Settings, verbs: seq<Verb>): (end: Service)
    requires RunsFrom(s, verbs)
    ensures Inv(end)
  {
    Run(Initial(s), verbs)
  }

  /**
   * After any run, the registry holds the one object of the thread that is live by the history, or nothing; every
   * object has been released at most once, by JoinThread.
   */
  lemma RegistryIsHistory(created: Settings, verbs: seq<Verb>)
    requires RunsFrom(created, verbs)
    ensures var end := EndFrom(created, verbs);
      && end.threads.list ==
         (if PhaseAfter(Initial(created), verbs, Never) == Live then [|end.threads.objects| - 1] else [])
      && forall i | 0 <= i < |end.threads.objects| ::
           end.threads.objects[i].joinFrees <= 1 && end.threads.objects[i].cleanupFrees == 0
  {
    hide WellServed, Sound, Servable, Do;
    PhaseIsHistory(Initial(created), verbs);
    ReleasedOnce(EndFrom(created, verbs));
  }

  /**
   * What a stop after any run does, by the history: with both scripts successful it reads a released object exactly if
   * the last launch has been followed by a stop that joined, and hangs exactly if it has been followed by none, but a
   * cancellation has failed.
   */
  lemma StopAfterRunIff(created: Settings, verbs: seq<Verb>, e: StopEnv)
    requires RunsFrom(created, verbs)
    ensures var v := Initial(created);
      var scripts := e.clean.result.Succeeds() && e.hwStop.Succeeds();
      && (StopAp(EndFrom(created, verbs), e).1 == Fault <==> scripts && PhaseAfter(v, verbs, Never) == Joined)
      && (StopAp(EndFrom(created, verbs), e).1 == Hangs <==>
            scripts && PhaseAfter(v, verbs, Never) == Live && SomeCancelFails(v, verbs))
  {
    hide Inv, Do, CanRun;
    PhaseIsHistory(Initial(created), verbs);
    LockIsHistory(Initial(created), verbs);
    StopFaultsIff(EndFrom(created, verbs), e);
  }

  /** Some thread reads a released copy exactly if one that still runs was launched before the last accepted name. */
  lemma ThreadReadsReleasedIff(created: Settings, verbs: seq<Verb>)
    requires RunsFrom(created, verbs)
    ensures SomeThreadReadsReleased(EndFrom(created, verbs)) <==>
      exists i | 0 <= i < |EndFrom(created, verbs).threads.objects| ::
        IsRunning(EndFrom(created, verbs), i) && RenamedFrom(verbs, LaunchOf(Initial(created), verbs, i) + 1)
  {
    hide CanRun, Run, NameReleased, Sound, FilesNest, StatusTells, ThreadsTold, LaunchOf, RenamedFrom;
    forall i | 0 <= i < |EndFrom(created, verbs).threads.objects|
      ensures NameReleased(EndFrom(created, verbs), i) <==>
        RenamedFrom(verbs, LaunchOf(Initial(created), verbs, i) + 1)
    {
      NameIsHistory(Initial(created), verbs, i);
    }
  }

  /** The settings that the k-th verb, a start or restart, finds, and the interface name as its script gets it. */
  ghost predicate FoundBy(created: Settings, verbs: seq<Verb>, k: nat, served: Served) {
    && k < |verbs| && (verbs[k].Start? || verbs[k].Restart?)
    && AllCallable(SetCalls(verbs[..k])) && served.settings == ApSettings.Run(created, SetCalls(verbs[..k]))
    && served.interface == Passed(served.settings, verbs[k].start)
  }

  /** When the access point is started, its files are those of the settings at the last launch, whatever was set since. */
  lemma StartedServes(created: Settings, verbs: seq<Verb>) returns (served: Served, k: nat)
    requires RunsFrom(created, verbs) && EndFrom(created, verbs).status == Started
    ensures FoundBy(created, verbs, k, served)
    ensures WellServed(EndFrom(created, verbs).files, served)
  {
    hide Do, WellServed, Sound, AllCallable, ApSettings.Run, Passed, Threads.Sound;
    var v := Initial(created);
    ServedIsHistory(v, verbs);
    k := LastLaunch(v, verbs).value;
    SettingsAreHistory(v, verbs[..k]);
    served := Run(v, verbs).served.value;
  }

  /** Before the access point is first started, after it is stopped: no file. When it is started: all three. */
  lemma StatusIsFiles(created: Settings, verbs: seq<Verb>)
    requires RunsFrom(created, verbs)
    ensures var end := EndFrom(created, verbs);
      && (end.status.Started? ==> end.files.Keys == ALL_FILES)
      && (end.status.Stopped? || end.status.Initializing? ==> end.files == map[])
      && (HostapdConf in end.files ==> HasStale(end.files))
  {
    hide HostapdText, DnsmasqText, HostsText;
  }

  /** The mode in force when the channel was last set, or at creation. */
  ghost function ChannelMode(created: Settings, calls: seq<Call>): bv32
    requires AllCallable(calls)
  {
    var j := LastChannelCall(calls);
    if j.None? then created.stdMask else ApSettings.Run(created, calls[..j.value]).stdMask
  }

  lemma ServedChannel(created: Settings, calls: seq<Call>, s: Settings)
    requires Sound(created) && created.channelBounds == ModeBounds(created.stdMask)
    requires AllCallable(calls) && s == ApSettings.Run(created, calls) && ChannelGuard(s)
    ensures ModeBounds(ChannelMode(created, calls)).Contains(s.channelNumber)
  {
    BoundsHistory(created, calls);
  }

  /**
   * hostapd reads the settings back from its file exactly if no line break is in them. dnsmasq reads the clients' range
   * that was set, which does not contain the access point's own address; it reads no other range exactly if the domain
   * name hides none behind a line break, nor does what the shell passed on for an interface name that it cannot pass on.
   */
  predicate ReadBack(files: Files, served: Served, ap: Ipv4.Quad, from: Ipv4.Quad, to: Ipv4.Quad) {
    var s := served.settings;
    && HostapdConf in files && DnsmasqConf in files && AddHosts in files
    && (Read(files[HostapdConf]) == Shown(s) <==> NoLineBreaks(s))
    && s.ipAp == Ipv4.Dotted(ap) && s.ipStart == Ipv4.Dotted(from) && s.ipStop == Ipv4.Dotted(to)
    && (ap.Word() < Min(from.Word(), to.Word()) || Max(from.Word(), to.Word()) < ap.Word())
    && (s.ipStart, s.ipStop) in Ranges(files[DnsmasqConf])
    && (Ranges(files[DnsmasqConf]) == [(s.ipStart, s.ipStop)]
        <==> !HidesRange(TextOf(s.domainName)) && !HidesRange(served.interface))
    && (ShellWord(TextOf(s.interfaceName)) ==>
        (Ranges(files[DnsmasqConf]) == [(s.ipStart, s.ipStop)] <==> !HidesRange(TextOf(s.domainName))))
    && AllReadBack(files, served)
  }

  /**
   * All entries for dnsmasq are read back exactly if no line break is in the domain name, nor in what the shell passed on;
   * the host entry exactly if none is in the host name.
   */
  predicate AllReadBack(files: Files, served: Served)
    requires DnsmasqConf in files && AddHosts in files
  {
    var s := served.settings;
    && (Entries(files[DnsmasqConf])
          == PrintedEntries(s.ipAp, s.ipStart, s.ipStop, TextOf(s.domainName), served.interface)
        <==> Lacks(TextOf(s.domainName), '\n') && Lacks(served.interface, '\n'))
    && (Hosts(files[AddHosts]) == [(s.ipAp, TextOf(s.hostName))] <==> Lacks(TextOf(s.hostName), '\n'))
  }

  lemma AllIsReadBack(files: Files, served: Served)
    requires WellServed(files, served)
    ensures DnsmasqConf in files && AddHosts in files && AllReadBack(files, served)
  {
    hide Sound, HostapdText, DnsmasqText, HostsText, AddressVerdict, ShellWord, Entries, PrintedEntries, Hosts,
      Ipv4.DottedOctets;
    var s := served.settings;
    var ap, from, to, netmask := AcceptedIsAddresses(s);
    DottedIsPlain(ap.Octets());
    DottedIsPlain(from.Octets());
    DottedIsPlain(to.Octets());
    EntriesAreReadIff(s.ipAp, s.ipStart, s.ipStop, TextOf(s.domainName), served.interface);
    HostIsReadIff(s.ipAp, TextOf(s.hostName));
  }

  predicate IsPlain(c: char) {
    'a' <= c <= 'z' || 'A' <= c <= 'Z' || '0' <= c <= '9' || c in {'-', '_', '.', ':', '@'}
  }

  lemma PlainIsNoShellCharacter(c: char)
    requires IsPlain(c)
    ensures c !in SHELL_CHARACTERS
  {
  }

  lemma ShellCharacters()
    ensures ' ' in SHELL_CHARACTERS && '\n' in SHELL_CHARACTERS && ';' in SHELL_CHARACTERS && '"' in SHELL_CHARACTERS
  {
  }

  /** Names of up to 1024 letters, digits and -_.:@ are shell words; a blank, line break, ';' or '"' never is in one. */
  lemma ShellWordsAre(name: string)
    ensures 0 < |name| <= 1024 && (forall i | 0 <= i < |name| :: IsPlain(name[i])) ==> ShellWord(name)
    ensures ShellWord(name) ==> Lacks(name, ' ') && Lacks(name, '\n') && Lacks(name, ';') && Lacks(name, '"')
  {
    ShellCharacters();
    if forall i | 0 <= i < |name| :: IsPlain(name[i]) {
      forall i | 0 <= i < |name| ensures name[i] !in SHELL_CHARACTERS {
        PlainIsNoShellCharacter(name[i]);
      }
    }
    hide SHELL_CHARACTERS, IsPlain;
  }

  /** A name that the shell passes on hides nothing. */
  lemma ShellWordHidesNothing(name: string)
    requires ShellWord(name)
    ensures Lacks(name, '\n') && !HidesRange(name)
  {
    ShellCharacters();
  }

  lemma ServedIsReadBack(files: Files, served: Served) returns (ap: Ipv4.Quad, from: Ipv4.Quad, to: Ipv4.Quad)
    requires WellServed(files, served)
    ensures ReadBack(files, served, ap, from, to)
  {
    hide Sound, Read, Shown, NoLineBreaks, HostapdText, DnsmasqText, HostsText, Ranges, HidesRange, AddressVerdict,
      ShellWord, Ipv4.Dotted, Ipv4.Quad.Word;
    var s := served.settings;
    RoundTripIff(s);
    if ShellWord(TextOf(s.interfaceName)) {
      ShellWordHidesNothing(served.interface);
    }
    ap, from, to := ServedRangeExcludesAp(s, TextOf(s.domainName), served.interface);
    hide AllReadBack;
    AllIsReadBack(files, served);
  }

  /** From any usable configuration, after any run that leaves the access point started. */
  lemma EndToEnd(config: Config, verbs: seq<Verb>)
      returns (served: Served, k: nat, ap: Ipv4.Quad, from: Ipv4.Quad, to: Ipv4.Quad)
    requires IsConfig(config) && Usable(config)
    requires RunsFrom(Configured(config), verbs) && EndFrom(Configured(config), verbs).status == Started
    ensures Create(config, true) == Some(Configured(config))
    ensures FoundBy(Configured(config), verbs, k, served)
    ensures ReadBack(EndFrom(Configured(config), verbs).files, served, ap, from, to)
    ensures ModeBounds(ChannelMode(Configured(config), SetCalls(verbs[..k]))).Contains(served.settings.channelNumber)
  {
    hide Usable, Configured, Serves, Sound, ReadBack, Do, Inv, CanRun, AddressVerdict, ShellWord;
    var created := Configured(config);
    CreatedIff(config, true);
    CreatedIsSound(config);
    served, k := StartedServes(created, verbs);
    ap, from, to := ServedIsReadBack(EndFrom(created, verbs).files, served);
    ServedChannel(created, SetCalls(verbs[..k]), served.settings);
  }
}
