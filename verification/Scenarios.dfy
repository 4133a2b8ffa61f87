/** Runs that exist: a started access point, and each of the ways in which the life cycle goes wrong. */
module Scenarios {
  import opened CStrings
  import opened ApSettings
  import opened TmpFiles
  import opened Hostapd
  import opened HostapdPrinter
  import opened Dnsmasq
  import opened DnsmasqRanges
  import opened LifeCycle
  import opened Runs
  import opened Pipes
  import opened CreateData
  import Ipv4
  import Threads

  /** Everything that the system is asked for during a start succeeds. */
  predicate IsSmoothStart(e: StartEnv) {
    && e.clean.result.Succeeds() && e.wlanUp.Succeeds() && e.hostsOpens && e.dnsmasqOpens
    && e.dnsmasqRestart.result.Succeeds() && e.io.Works() && e.hwStart.Succeeds() && e.hostapdStart.Succeeds()
    && e.threadCreated
  }

  /** Both scripts of a stop succeed. */
  predicate ScriptsSucceed(e: StopEnv) {
    e.clean.result.Succeeds() && e.hwStop.Succeeds()
  }

  predicate IsSmoothStop(e: StopEnv) {
    ScriptsSucceed(e) && e.canceled && e.outcome.Joined?
  }

  lemma SmoothBringUp(s: Settings, files: Files, e: StartEnv)
    requires Servable(s) && FilesNest(files) && IsSmoothStart(e)
    ensures BringUp(s, files, e).1 == 0
  {
    CleanedIsEmpty(files, e.clean);
    SoundIsPrintedWhole(s);
    hide AddressVerdict, ChannelGuard, HostsText, DnsmasqText, SecurityLines, Concat;
  }

  /** A start of settings that can be started with, if the mutex is free. */
  lemma SmoothStart(v: Service, e: StartEnv)
    requires Inv(v) && Servable(v.settings) && IsSmoothStart(e) && !v.threads.locked && v.status != Started
    ensures Do(v, Start(e)).1 == Code(0) && Next(v, Start(e)).status == Started && Launches(v, Start(e))
    ensures Next(v, Start(e)).threads.objects ==
      v.threads.objects + [NewThread(true, Threads.Running, [DESTRUCTOR], true)]
    ensures !Next(v, Start(e)).threads.locked && PhaseOf(Next(v, Start(e))) == Live
    ensures Next(v, Start(e)).settings == v.settings
  {
    hide BringUp, Servable, WellServed, Sound, Threads.Sound;
    SmoothBringUp(v.settings, v.files, e);
    StartApThreads(v, e);
    DoKeepsInv(v, Start(e));
  }

  lemma RunOfOne(v: Service, verb: Verb)
    requires Inv(v) && Allowed(v, verb) && Do(v, verb).1.Ends()
    ensures CanRun(v, [verb]) && Runs.Run(v, [verb]) == Next(v, verb)
  {
    hide Do, Inv;
    assert [verb][1..] == [];
  }

  lemma RunOfTwo(v: Service, first: Verb, second: Verb)
    requires Inv(v) && Allowed(v, first) && Do(v, first).1.Ends()
    requires Allowed(Next(v, first), second) && Do(Next(v, first), second).1.Ends()
    ensures CanRun(v, [first, second]) && Runs.Run(v, [first, second]) == Next(Next(v, first), second)
  {
    hide Do, Inv;
    assert [first, second][1..] == [second];
    RunOfOne(Next(v, first), second);
  }

  /** From any settings that can be started with there is a run that ends started. */
  lemma StartedRun(s: Settings, e: StartEnv)
    requires Servable(s) && IsSmoothStart(e)
    ensures RunsFrom(s, [Start(e)]) && EndFrom(s, [Start(e)]).status == Started
    ensures EndFrom(s, [Start(e)]) == Do(Initial(s), Start(e)).0
  {
    InitialInv(s);
    hide Do, Inv;
    SmoothStart(Initial(s), e);
    RunOfOne(Initial(s), Start(e));
  }

  // ----- stops -----

  /** A stop of a live thread: joined if it can be canceled, else left with the mutex locked. Both reply 0. */
  lemma StopOfLive(v: Service, e: StopEnv)
    requires Inv(v) && PhaseOf(v) == Live && !v.threads.locked && v.threads.objects[v.thread.value].spawned
    requires ScriptsSucceed(e) && (e.canceled ==> e.outcome.Joined?)
    ensures StopAp(v, e).1 == Code(0) && StopAp(v, e).0.status == Stopped
    ensures StopAp(v, e).0.settings == v.settings && StopAp(v, e).0.thread == v.thread
    ensures StopAp(v, e).0.threads.locked <==> !e.canceled
    ensures PhaseOf(Next(v, Stop(e))) == if e.canceled then Joined else Live
  {
    hide WellServed, Sound, Servable;
    DoKeepsInv(v, Stop(e));
  }

  /** A second stop reads the released object. */
  lemma SecondStopFaults(s: Settings, e: StartEnv, first: StopEnv, second: StopEnv)
    requires Servable(s) && IsSmoothStart(e) && IsSmoothStop(first) && ScriptsSucceed(second)
    ensures var verbs := [Start(e), Stop(first)];
      RunsFrom(s, verbs) && EndFrom(s, verbs).status == Stopped && Do(EndFrom(s, verbs), Stop(second)).1 == Fault
  {
    InitialInv(s);
    hide Inv, StartAp, StopAp;
    var v := Initial(s);
    SmoothStart(v, e);
    var started := Next(v, Start(e));
    StopOfStarted(started, first);
    RunOfTwo(v, Start(e), Stop(first));
    StopFaultsIff(Next(started, Stop(first)), second);
  }

  /** The conditions of StopOfLive, for a service that has just been started. */
  lemma StopOfStarted(v: Service, e: StopEnv)
    requires Inv(v) && PhaseOf(v) == Live && !v.threads.locked && ScriptsSucceed(e) && (e.canceled ==> e.outcome.Joined?)
    requires v.threads.objects != []
    requires v.threads.objects[|v.threads.objects| - 1] == NewThread(true, Threads.Running, [DESTRUCTOR], true)
    ensures Do(v, Stop(e)).1 == Code(0) && Next(v, Stop(e)).status == Stopped
    ensures Next(v, Stop(e)).settings == v.settings
    ensures Next(v, Stop(e)).threads.locked <==> !e.canceled
    ensures PhaseOf(Next(v, Stop(e))) == if e.canceled then Joined else Live
  {
    hide StopAp, WellServed, Sound, Servable;
    StopOfLive(v, e);
  }

  /** After a stop that could not cancel the thread, and replied 0, every further stop and start hangs. */
  lemma FailedCancelHangs(s: Settings, e: StartEnv, failing: StopEnv, stop: StopEnv, start: StartEnv)
    requires Servable(s) && IsSmoothStart(e) && ScriptsSucceed(failing) && !failing.canceled
    requires ScriptsSucceed(stop) && IsSmoothStart(start)
    ensures var verbs := [Start(e), Stop(failing)];
      && RunsFrom(s, verbs) && EndFrom(s, verbs).status == Stopped
      && Do(EndFrom(s, verbs), Stop(stop)).1 == Hangs && Do(EndFrom(s, verbs), Start(start)).1 == Hangs
  {
    InitialInv(s);
    hide Inv, StartAp, StopAp, Servable;
    var v := Initial(s);
    SmoothStart(v, e);
    var started := Next(v, Start(e));
    StopOfStarted(started, failing);
    RunOfTwo(v, Start(e), Stop(failing));
    var stopped := Next(started, Stop(failing));
    StopFaultsIff(stopped, stop);
    StartHangs(stopped, start);
  }

  lemma StartHangs(v: Service, e: StartEnv)
    requires Inv(v) && Servable(v.settings) && IsSmoothStart(e) && v.threads.locked && v.status != Started
    ensures Do(v, Start(e)).1 == Hangs
  {
    SmoothBringUp(v.settings, v.files, e);
    StartApKeepsInv(v, e);
    hide StartAp;
  }

  // ----- restarts -----

  /** After any further run the object has not been released. */
  ghost predicate LeftBehind(v: Service, i: nat)
    requires Inv(v)
  {
    forall verbs | CanRun(v, verbs) ::
      i < |Runs.Run(v, verbs).threads.objects| && Runs.Run(v, verbs).threads.objects[i].Frees() == 0
  }

  /** A restart of a started access point leaves the object of its first thread behind for ever. */
  lemma RestartLeaks(s: Settings, e: StartEnv, again: Script, second: StartEnv)
    requires Servable(s) && IsSmoothStart(e) && again.result.Succeeds() && IsSmoothStart(second)
    ensures var run := [Start(e), Restart(again, second)];
      && RunsFrom(s, run) && EndFrom(s, run).status == Started
      && |EndFrom(s, run).threads.objects| == 2 && LeftBehind(EndFrom(s, run), 0)
  {
    InitialInv(s);
    hide Inv, StartAp, RestartAp, Servable;
    var v := Initial(s);
    SmoothStart(v, e);
    var started := Next(v, Start(e));
    RestartOfStarted(started, again, second);
    RunOfTwo(v, Start(e), Restart(again, second));
    var end := Next(started, Restart(again, second));
    forall verbs | CanRun(end, verbs)
      ensures 0 < |Runs.Run(end, verbs).threads.objects| && Runs.Run(end, verbs).threads.objects[0].Frees() == 0
    {
      LeakedForEver(end, verbs, 0);
    }
  }

  lemma RestartOfStarted(v: Service, again: Script, e: StartEnv)
    requires Inv(v) && Servable(v.settings) && again.result.Succeeds() && IsSmoothStart(e)
    requires !v.threads.locked && v.status == Started
    ensures Do(v, Restart(again, e)).1.Ends() && Next(v, Restart(again, e)).status == Started
    ensures Launches(v, Restart(again, e))
    ensures Next(v, Restart(again, e)).threads.objects ==
      v.threads.objects + [NewThread(true, Threads.Running, [DESTRUCTOR], e.threadCreated)]
  {
    hide BringUp, Servable, WellServed, Sound, Threads.Sound;
    StartedHasFiles(v);
    CleanRemovesAll(v.files);
    var w := v.(files := AfterClean(v.files, again));
    SmoothBringUp(w.settings, w.files, e);
    StartApKeepsInv(w, e);
    StartApThreads(w, e);
    DoKeepsInv(v, Restart(again, e));
  }

  // ----- names -----

  /** A new interface name for a started access point releases the copy that its thread reads. */
  lemma RenameReleases(s: Settings, e: StartEnv, name: string)
    requires Servable(s) && IsSmoothStart(e) && name != "" && NUL !in name
    ensures var verbs := [Start(e), Set(SetInterfaceName(Some(name)))];
      RunsFrom(s, verbs) && PhaseOf(EndFrom(s, verbs)) == Live && SomeThreadReadsReleased(EndFrom(s, verbs))
  {
    InitialInv(s);
    hide Inv, Do, Servable, Renames, Launches;
    var v, rename := Initial(s), Set(SetInterfaceName(Some(name)));
    SmoothStart(v, e);
    var started := Next(v, Start(e));
    RenameStarted(started, rename, name);
    RunOfTwo(v, Start(e), rename);
    PhaseMoves(started, rename);
  }

  /** What a new name does to a service whose only thread has just been launched. */
  lemma RenameStarted(v: Service, rename: Verb, name: string)
    requires Inv(v) && rename == Set(SetInterfaceName(Some(name))) && name != "" && NUL !in name
    requires v.threads.objects == [NewThread(true, Threads.Running, [DESTRUCTOR], true)]
    ensures Allowed(v, rename) && Do(v, rename).1.Ends() && Renames(rename) && !Launches(v, rename)
    ensures Next(v, rename) == v.(settings := v.settings.(interfaceName := Some(name)), copy := v.copy + 1)
    ensures Inv(Next(v, rename)) && IsRunning(Next(v, rename), 0) && NameReleased(Next(v, rename), 0)
  {
    hide WellServed, Sound, Servable;
  }

  /**
   * After a restart no name has been accepted since the last launch, and yet the first thread, which the restart leaves
   * running, reads a released copy. The new thread does not.
   */
  lemma RestartHidesRename(s: Settings, e: StartEnv, name: string, again: Script, second: StartEnv)
    requires Servable(s) && IsSmoothStart(e) && name != "" && NUL !in name
    requires again.result.Succeeds() && IsSmoothStart(second)
    ensures var verbs := [Start(e), Set(SetInterfaceName(Some(name))), Restart(again, second)];
      && RunsFrom(s, verbs) && |EndFrom(s, verbs).threads.objects| == 2
      && IsRunning(EndFrom(s, verbs), 0) && NameReleased(EndFrom(s, verbs), 0)
      && IsRunning(EndFrom(s, verbs), 1) && !NameReleased(EndFrom(s, verbs), 1)
  {
    InitialInv(s);
    hide Inv, Do, Servable, Renames, Launches, CanRun, Runs.Run, IsRunning, NameReleased;
    var v, rename := Initial(s), Set(SetInterfaceName(Some(name)));
    SmoothStart(v, e);
    var started := Next(v, Start(e));
    RenameStarted(started, rename, name);
    RenamedIsServable(s, name);
    RestartRenamed(Next(started, rename), again, second);
    RunOfThree(v, Start(e), rename, Restart(again, second));
  }

  lemma RestartRenamed(v: Service, again: Script, e: StartEnv)
    requires Inv(v) && Servable(v.settings) && again.result.Succeeds() && IsSmoothStart(e)
    requires !v.threads.locked && v.status == Started && |v.threads.objects| == 1 && IsRunning(v, 0) && NameReleased(v, 0)
    ensures Do(v, Restart(again, e)).1.Ends() && |Next(v, Restart(again, e)).threads.objects| == 2
    ensures IsRunning(Next(v, Restart(again, e)), 0) && NameReleased(Next(v, Restart(again, e)), 0)
    ensures IsRunning(Next(v, Restart(again, e)), 1) && !NameReleased(Next(v, Restart(again, e)), 1)
  {
    hide Do, Servable, Launches;
    RestartOfStarted(v, again, e);
    LaunchedReadsCurrent(v, Restart(again, e));
  }

  lemma RenamedIsServable(s: Settings, name: string)
    requires Servable(s) && name != "" && NUL !in name
    ensures Servable(s.(interfaceName := Some(name)))
  {
  }

  lemma LaunchedReadsCurrent(v: Service, verb: Verb)
    requires Inv(v) && Allowed(v, verb) && Do(v, verb).1.Ends() && Launches(v, verb)
    ensures Next(v, verb).names == v.names + [v.copy] && Next(v, verb).copy == v.copy
  {
    hide WellServed, Sound, Servable;
    NamesAfter(v, verb);
  }

  predicate CanRunThree(v: Service, first: Verb, second: Verb, third: Verb) {
    && Inv(v) && Allowed(v, first) && Do(v, first).1.Ends()
    && Allowed(Next(v, first), second) && Do(Next(v, first), second).1.Ends()
    && Allowed(Next(Next(v, first), second), third) && Do(Next(Next(v, first), second), third).1.Ends()
  }

  lemma RunOfThree(v: Service, first: Verb, second: Verb, third: Verb)
    requires CanRunThree(v, first, second, third)
    ensures CanRun(v, [first, second, third])
    ensures Runs.Run(v, [first, second, third]) == Next(Next(Next(v, first), second), third)
  {
    hide Do, Inv;
    assert [first, second, third][1..] == [second, third];
    RunOfTwo(Next(v, first), second, third);
  }

  // ----- pipes -----

  lemma PipesOfThree(p: PipeState, v: Service, first: Verb, second: Verb, third: Verb)
    requires CanRunThree(v, first, second, third)
    ensures CanRun(v, [first, second, third])
    ensures PipesAfter(p, v, [first, second, third]) ==
      PipeStep(PipeStep(PipeStep(p, v, first), Next(v, first), second), Next(Next(v, first), second), third)
  {
    hide Do, Inv, PipeStep;
    RunOfThree(v, first, second, third);
    var q := PipeStep(p, v, first);
    assert [first, second, third][1..] == [second, third];
    PipesOfTwo(q, Next(v, first), second, third);
  }

  lemma PipesOfTwo(p: PipeState, v: Service, first: Verb, second: Verb)
    requires Inv(v) && Allowed(v, first) && Do(v, first).1.Ends()
    requires Allowed(Next(v, first), second) && Do(Next(v, first), second).1.Ends()
    ensures CanRun(v, [first, second])
    ensures PipesAfter(p, v, [first, second]) == PipeStep(PipeStep(p, v, first), Next(v, first), second)
  {
    hide Do, Inv, PipeStep;
    RunOfTwo(v, first, second);
    assert [first, second][1..] == [second];
    PipesOfOne(PipeStep(p, v, first), Next(v, first), second);
  }

  lemma PipesOfOne(p: PipeState, v: Service, verb: Verb)
    requires Inv(v) && Allowed(v, verb) && Do(v, verb).1.Ends()
    ensures CanRun(v, [verb]) && PipesAfter(p, v, [verb]) == PipeStep(p, v, verb)
  {
    hide Do, Inv, PipeStep;
    RunOfOne(v, verb);
    assert [verb][1..] == [];
  }

  /**
   * After a restart the end of the older thread closes the pipe of its successor, which still runs, and its own pipe stays
   * open.
   */
  lemma OlderEndClosesSuccessor(s: Settings, e: StartEnv, again: Script, second: StartEnv)
    requires Servable(s) && IsSmoothStart(e) && again.result.Succeeds() && IsSmoothStart(second)
    requires e.pipeOpens && second.pipeOpens
    ensures var verbs := [Start(e), Restart(again, second), EventThreadEnds(0)];
      && RunsFrom(s, verbs) && |EndFrom(s, verbs).threads.objects| == 2 && IsRunning(EndFrom(s, verbs), 1)
      && PipesAfter(NO_PIPES, Initial(s), verbs) == PipeState(None, {0})
  {
    InitialInv(s);
    hide Inv, Do, Servable, Launches, CanRun, Runs.Run, PipesAfter, IsRunning, CanRunThree;
    var v := Initial(s);
    OverlapRuns(v, e, again, second);
    RunOfThree(v, Start(e), Restart(again, second), EventThreadEnds(0));
    PipesOfOverlap(v, Start(e), Restart(again, second), EventThreadEnds(0));
  }

  lemma OverlapRuns(v: Service, e: StartEnv, again: Script, second: StartEnv)
    requires Inv(v) && v.threads.objects == [] && !v.threads.locked && v.status != Started
    requires Servable(v.settings) && IsSmoothStart(e) && again.result.Succeeds() && IsSmoothStart(second)
    ensures CanRunThree(v, Start(e), Restart(again, second), EventThreadEnds(0))
    ensures Launches(v, Start(e)) && |Next(v, Start(e)).threads.objects| == 1
    ensures Launches(Next(v, Start(e)), Restart(again, second))
    ensures var end := Next(Next(Next(v, Start(e)), Restart(again, second)), EventThreadEnds(0));
      |end.threads.objects| == 2 && IsRunning(end, 1)
  {
    hide Inv, Do, Servable, Launches, IsRunning;
    SmoothStart(v, e);
    var started := Next(v, Start(e));
    RestartOfStarted(started, again, second);
    FirstThreadEnds(Next(started, Restart(again, second)));
  }

  /** Two launches without a stop between them, and the end of a thread. */
  lemma PipesOfOverlap(v: Service, first: Verb, second: Verb, third: Verb)
    requires CanRunThree(v, first, second, third) && third.EventThreadEnds?
    requires Launches(v, first) && first.start.threadCreated && first.start.pipeOpens
    requires Launches(Next(v, first), second) && second.start.threadCreated && second.start.pipeOpens
    requires |v.threads.objects| == 0 && |Next(v, first).threads.objects| == 1
    ensures CanRun(v, [first, second, third])
    ensures PipesAfter(NO_PIPES, v, [first, second, third]) == PipeState(None, {0})
  {
    hide Inv, Do, Launches, PipesAfter, PipeStep, CanRun;
    PipesOfThree(NO_PIPES, v, first, second, third);
    LaunchStoresPipe(NO_PIPES, v, first);
    assert {} + {0} == {0};
    LaunchStoresPipe(PipeState(Some(0), {0}), Next(v, first), second);
    EndClosesStored(PipeState(Some(1), {0} + {1}), Next(Next(v, first), second), third);
    assert {0} + {1} - {1} == {0};
  }

  lemma LaunchStoresPipe(p: PipeState, v: Service, verb: Verb)
    requires Inv(v) && Allowed(v, verb) && Launches(v, verb) && verb.start.threadCreated && verb.start.pipeOpens
    ensures PipeStep(p, v, verb) == PipeState(Some(|v.threads.objects|), p.open + {|v.threads.objects|})
  {
    hide Inv, Do, Launches;
  }

  lemma EndClosesStored(p: PipeState, v: Service, verb: Verb)
    requires Inv(v) && Allowed(v, verb) && verb.EventThreadEnds? && p.current.Some?
    ensures PipeStep(p, v, verb) == PipeState(None, p.open - {p.current.value})
  {
    hide Inv, Do;
  }

  /** The first of two running threads ends. */
  lemma FirstThreadEnds(v: Service)
    requires Inv(v) && v.threads.objects ==
      [NewThread(true, Threads.Running, [DESTRUCTOR], true)] + [NewThread(true, Threads.Running, [DESTRUCTOR], true)]
    ensures Allowed(v, EventThreadEnds(0)) && Do(v, EventThreadEnds(0)).1.Ends()
    ensures |Next(v, EventThreadEnds(0)).threads.objects| == 2 && IsRunning(Next(v, EventThreadEnds(0)), 1)
  {
    hide WellServed, Sound, Servable;
  }

  // ----- ranges -----

  /** A domain name that hides a range makes dnsmasq serve more than the range that was set. */
  lemma SecondRangeServed(s: Settings, e: StartEnv, line: string, value: string)
    requires Servable(s) && IsSmoothStart(e) && NUL !in line && NUL !in value && Lacks(value, '\n')
    ensures var t := s.(domainName := Some(line + "\n" + (RANGE + "=" + value)));
      && Servable(t) && RunsFrom(t, [Start(e)]) && EndFrom(t, [Start(e)]).status == Started
      && DnsmasqConf in EndFrom(t, [Start(e)]).files
      && (t.ipStart, t.ipStop) in Ranges(EndFrom(t, [Start(e)]).files[DnsmasqConf])
      && Ranges(EndFrom(t, [Start(e)]).files[DnsmasqConf]) != [(t.ipStart, t.ipStop)]
  {
    hide Do, Inv, CanRun, Ranges, HidesRange, WellServed, ShellWord;
    var name := line + "\n" + (RANGE + "=" + value);
    DomainHidesRange(line, value);
    RenamedDomainIsServable(s, name);
    var t := s.(domainName := Some(name));
    hide Servable;
    StartedRun(t, e);
    var served, k := StartedServes(t, [Start(e)]);
    assert [Start(e)][..k] == [];
    var _, _, _ := ServedIsReadBack(EndFrom(t, [Start(e)]).files, served);
  }

  lemma RenamedDomainIsServable(s: Settings, name: string)
    requires Servable(s) && name != "" && NUL !in name
    ensures Servable(s.(domainName := Some(name)))
  {
  }

  // ----- a configuration -----

  /** Settings as they are after creation. */
  predicate IsCreated(s: Settings) {
    Sound(s) && s.presharedKey == "" && s.channelBounds == ModeBounds(s.stdMask) && ChannelGuard(s)
  }

  function ProtocolText(protocol: int): string {
    if protocol == SECURITY_NONE then "none" else "WPA2"
  }

  /** A configuration for given settings. */
  function ConfigOf(s: Settings): Config
    requires IsCreated(s)
  {
    map["interfaceName" := JString(s.interfaceName.value), "domaine_name" := JString(s.domainName.value),
        "hostname" := JString(s.hostName.value), "ssid" := JString(s.ssid), "passphrase" := JString(s.passphrase),
        "countryCode" := JString(s.countryCode), "securityProtocol" := JString(ProtocolText(s.securityProtocol)),
        "ip_ap" := JString(s.ipAp), "ip_start" := JString(s.ipStart), "ip_stop" := JString(s.ipStop),
        "ip_netmask" := JString(s.ipNetmask), "discoverable" := JBool(s.discoverable),
        "maxNumberClient" := JInt(s.maxNumberClient), "IeeeStdMask" := JInt(s.stdMask as int),
        "channelNumber" := JInt(s.channelNumber)]
  }

  lemma ProtocolIsRead(protocol: int)
    requires protocol == SECURITY_NONE || protocol == SECURITY_WPA2
    ensures NUL !in ProtocolText(protocol)
    ensures if protocol == 0 then SpellsNone(ProtocolText(protocol)) else SpellsWpa2(ProtocolText(protocol))
    ensures protocol == 1 ==> !SpellsNone(ProtocolText(protocol))
  {
  }

  lemma NamesInConfig(s: Settings)
    requires IsCreated(s)
    ensures var c := ConfigOf(s);
      && HasName(c, "interfaceName") && Some(c["interfaceName"].text) == s.interfaceName
      && HasName(c, "domaine_name") && Some(c["domaine_name"].text) == s.domainName
      && HasName(c, "hostname") && Some(c["hostname"].text) == s.hostName
      && "preSharedKey" !in c
  {
  }

  lemma TextsInConfig(s: Settings)
    requires IsCreated(s)
    ensures var c := ConfigOf(s);
      && HasText(c, "ssid", 1, 32) && c["ssid"].text == s.ssid
      && HasText(c, "passphrase", 8, 63) && c["passphrase"].text == s.passphrase
      && HasText(c, "countryCode", 2, 2) && c["countryCode"].text == s.countryCode
      && HasProtocol(c) && (SpellsNone(c["securityProtocol"].text) <==> s.securityProtocol == 0)
  {
    ProtocolIsRead(s.securityProtocol);
    hide SpellsNone, SpellsWpa2, ProtocolText;
  }

  lemma AddressesInConfig(s: Settings)
    requires IsCreated(s) && s.ipAp != "" && s.ipStart != "" && s.ipStop != "" && s.ipNetmask != ""
    ensures var c := ConfigOf(s);
      && HasText(c, "ip_ap", 1, 15) && c["ip_ap"].text == s.ipAp
      && HasText(c, "ip_start", 1, 15) && c["ip_start"].text == s.ipStart
      && HasText(c, "ip_stop", 1, 15) && c["ip_stop"].text == s.ipStop
      && HasText(c, "ip_netmask", 1, 15) && c["ip_netmask"].text == s.ipNetmask
  {
  }

  lemma MaskRoundTrip(mask: bv32)
    ensures 0 <= mask as int < 0x1_0000_0000 && (mask as int) as bv32 == mask
  {
  }

  lemma NumbersInConfig(s: Settings)
    requires IsCreated(s)
    ensures var c := ConfigOf(s);
      && HasFlagAndClients(c) && c["discoverable"].flag == s.discoverable
      && c["maxNumberClient"].value == s.maxNumberClient
      && HasMask(c) && MaskIn(c) == s.stdMask
      && HasChannelIn(c, ModeBounds(s.stdMask)) && c["channelNumber"].value == s.channelNumber
  {
    MaskRoundTrip(s.stdMask);
    hide ModeBounds, LegalMask;
  }

  lemma ConfigIsConfig(s: Settings)
    requires IsCreated(s)
    ensures IsConfig(ConfigOf(s))
  {
    ProtocolIsRead(s.securityProtocol);
    hide ProtocolText;
  }

  /** Any settings as they are after creation, with all addresses, come from a configuration. */
  lemma ConfigGives(s: Settings)
    requires IsCreated(s) && s.ipAp != "" && s.ipStart != "" && s.ipStop != "" && s.ipNetmask != ""
    ensures IsConfig(ConfigOf(s)) && Usable(ConfigOf(s)) && Configured(ConfigOf(s)) == s
  {
    hide ConfigOf, SpellsNone, SpellsWpa2, LegalMask, ModeBounds;
    NamesInConfig(s);
    TextsInConfig(s);
    AddressesInConfig(s);
    NumbersInConfig(s);
    ConfigIsConfig(s);
  }

  /** Settings that can be started with, for any addresses with the access point outside of its clients' range. */
  lemma ServableFor(ap: Ipv4.Quad, from: Ipv4.Quad, to: Ipv4.Quad, netmask: Ipv4.Quad) returns (s: Settings)
    requires (Number(ap) < Number(from) && Number(ap) < Number(to))
      || (Number(from) < Number(ap) && Number(to) < Number(ap))
    ensures IsCreated(s) && Servable(s) && HasAddresses(s, ap, from, to, netmask)
  {
    hide Ipv4.Dotted, AddressVerdict, Number, ModeBounds, LegalMask;
    s := Settings(Some("wlan0"), Some("local"), Some("ap"), Bounds(1, 14), "ap",
      Ipv4.Dotted(ap), Ipv4.Dotted(from), Ipv4.Dotted(to), Ipv4.Dotted(netmask),
      "passphrase", "", "FR", true, STD_G, 6, 10, SECURITY_WPA2);
    ModeG();
    DottedFits(ap);
    DottedFits(from);
    DottedFits(to);
    DottedFits(netmask);
    RejectedIffInRange(s, ap, from, to, netmask);
  }

  lemma ModeG()
    ensures LegalMask(STD_G) && ModeBounds(STD_G) == Bounds(1, 14)
  {
  }

  lemma DottedFits(q: Ipv4.Quad)
    ensures 0 < |Ipv4.Dotted(q)| <= MAX_IP && NUL !in Ipv4.Dotted(q)
  {
    Ipv4.DottedLength(q.Octets());
    DottedIsNotEmpty(q);
    DottedHasNoNul(q.Octets());
  }

  lemma {:induction false} DottedHasNoNul(octets: seq<Ipv4.Octet>)
    requires octets != []
    ensures NUL !in Ipv4.DottedOctets(octets)
  {
    if |octets| > 1 {
      DottedHasNoNul(octets[1..]);
    }
  }

  /** A configuration and a run to which EndToEnd applies, for any such addresses. */
  lemma EndToEndApplies(ap: Ipv4.Quad, from: Ipv4.Quad, to: Ipv4.Quad, netmask: Ipv4.Quad, e: StartEnv)
      returns (config: Config)
    requires (Number(ap) < Number(from) && Number(ap) < Number(to))
      || (Number(from) < Number(ap) && Number(to) < Number(ap))
    requires IsSmoothStart(e)
    ensures IsConfig(config) && Usable(config)
    ensures RunsFrom(Configured(config), [Start(e)]) && EndFrom(Configured(config), [Start(e)]).status == Started
  {
    hide Usable, Configured, Do, Inv, ConfigOf, IsConfig, Ipv4.Dotted, Number;
    var s := ServableFor(ap, from, to, netmask);
    DottedFits(ap);
    DottedFits(from);
    DottedFits(to);
    DottedFits(netmask);
    ConfigGives(s);
    config := ConfigOf(s);
    StartedRun(s, e);
  }
}
