/** What every verb replies and leaves behind, by the answers of the system alone. */
module Outcomes {
  import opened CStrings
  import opened ApSettings
  import opened TmpFiles
  import opened Hostapd
  import opened HostapdPrinter
  import opened Dnsmasq
  import opened LifeCycle
  import Threads

  // ----- start -----

  /** The first step of a start that fails gives the code, and 0 means that none has failed. */
  lemma StartCode(s: Settings, files: Files, e: StartEnv)
    ensures BringUp(s, files, e).1 ==
      if (DnsmasqConf in files || AddHosts in files) && e.clean.result != Exited(0) then -9
      else if AddressVerdict(s) != 0 || e.wlanUp != Exited(0) || !e.hostsOpens || !e.dnsmasqOpens
        || e.dnsmasqRestart.result != Exited(0) then -8
      else if |s.ssid| == 0 then -1
      else if s.channelNumber < s.channelBounds.min || s.channelBounds.max < s.channelNumber then -2
      else if !e.io.opens || !e.io.common || !e.io.security || !e.io.standard || HostapdText(s).None? then -3
      else if e.hwStart == Exited(50) then -4
      else if e.hwStart == Exited(100) then -5
      else if e.hwStart != Exited(0) then -6
      else if e.hostapdStart != Exited(0) then -7
      else 0
  {
    hide AddressVerdict, HostapdText, WriteDnsmasqFiles, AppendInterface, AfterClean, Passed;
  }

  /** A start gets as far as its thread exactly if every answer is the good one and the settings pass. */
  lemma StartSucceedsIff(s: Settings, files: Files, e: StartEnv)
    requires Sound(s)
    ensures BringUp(s, files, e).1 == 0 <==>
      && ((DnsmasqConf !in files && AddHosts !in files) || e.clean.result == Exited(0))
      && AddressVerdict(s) == 0 && s.channelBounds.min <= s.channelNumber <= s.channelBounds.max
      && e.wlanUp == Exited(0) && e.hostsOpens && e.dnsmasqOpens && e.dnsmasqRestart.result == Exited(0)
      && e.io.opens && e.io.common && e.io.security && e.io.standard
      && e.hwStart == Exited(0) && e.hostapdStart == Exited(0)
  {
    SoundHasText(s);
    hide AddressVerdict, HostapdText, BringUp;
    StartCode(s, files, e);
  }

  lemma SoundHasText(s: Settings)
    requires Sound(s)
    ensures HostapdText(s).Some?
  {
    TextIsEntries(s);
  }

  /** The files at every exit of a start, from files that nest. */
  lemma StartFiles(s: Settings, files: Files, e: StartEnv)
    requires FilesNest(files)
    ensures var (after, code) := BringUp(s, files, e); var pair := DnsmasqPair(s, Passed(s, e));
      && (code == -9 ==> after == if e.clean.result.Exited? && e.clean.reached then map[] else files)
      && (code == -8 ==> HostapdConf !in after && (DnsmasqConf in after ==> AddHosts in after))
      && (code == -1 || code == -2 || code == -3 ==> after == pair)
      && (code == -4 || code == -5 || code == -6 || code == 0 ==>
          HostapdText(s).Some? && after == pair[HostapdConf := HostapdText(s).value])
      && (code == -7 ==> after == pair && HostapdConf !in after)
  {
    hide SetDnsmasqService, Configure, StartHostapd, HostapdText, DnsmasqPair, Passed;
    CleanRemovesAll(files);
    if !HasStale(files) || e.clean.result.Succeeds() {
      CleanedIsEmpty(files, e.clean);
      DnsmasqFiles(s, e);
      DnsmasqFilesNest(s, e);
      PairHasNoConf(s, Passed(s, e));
      ConfigureIs(s, SetDnsmasqService(s, map[], e).0, e);
      StartHostapdIs(Configure(s, SetDnsmasqService(s, map[], e).0, e).0, e);
    }
  }

  lemma ConfigureIs(s: Settings, files: Files, e: StartEnv)
    requires HostapdConf !in files
    ensures var (after, code) := Configure(s, files, e);
      if code == 0 then HostapdText(s).Some? && after == files[HostapdConf := HostapdText(s).value]
      else code in {-1, -2, -3} && after == files
  {
    hide HostapdText, ChannelGuard;
    assert files - {HostapdConf} == files;
  }

  lemma StartHostapdIs(files: Files, e: StartEnv)
    ensures var (after, code) := StartHostapd(files, e);
      if code == -7 then after == files - {HostapdConf} else code in {0, -4, -5, -6} && after == files
  {
  }

  lemma PairHasNoConf(s: Settings, word: string)
    ensures HostapdConf !in DnsmasqPair(s, word)
    ensures HostapdText(s).Some? ==>
      DnsmasqPair(s, word)[HostapdConf := HostapdText(s).value] - {HostapdConf} == DnsmasqPair(s, word)
    ensures DnsmasqPair(s, word) - {HostapdConf} == DnsmasqPair(s, word)
  {
    hide HostapdText;
  }

  lemma DnsmasqFilesNest(s: Settings, e: StartEnv)
    ensures DnsmasqConf in SetDnsmasqService(s, map[], e).0 ==> AddHosts in SetDnsmasqService(s, map[], e).0
  {
    hide AddressVerdict, HostsText, DnsmasqText, InterfaceLine, Passed;
  }

  /** The part in front of dnsmasq, from an empty directory: what is written before the first step that fails. */
  lemma DnsmasqIs(s: Settings, e: StartEnv)
    ensures var (after, code) := SetDnsmasqService(s, map[], e);
      var hosts := HostsText(s.ipAp, TextOf(s.hostName));
      var text := DnsmasqText(s.ipAp, s.ipStart, s.ipStop, TextOf(s.domainName));
      if AddressVerdict(s) != 0 then code == AddressVerdict(s) && after == map[]
      else if e.wlanUp != Exited(0) || !e.hostsOpens then code == -2 && after == map[]
      else if !e.dnsmasqOpens then code == -2 && after == map[AddHosts := hosts]
      else if e.dnsmasqRestart.result.Exited? && (e.dnsmasqRestart.result.code == 0 || e.dnsmasqRestart.reached) then
        && code == (if e.dnsmasqRestart.result.code == 0 then 0 else -2)
        && after == map[AddHosts := hosts, DnsmasqConf := text + ("interface=" + Passed(s, e) + "\n")]
      else code == -2 && after == map[AddHosts := hosts, DnsmasqConf := text]
  {
    hide AddressVerdict, HostsText, DnsmasqText, Passed;
  }

  // ----- stop -----

  /** The exit status of a failed script, 255 for a failed fork. */
  function FailureStatus(r: SystemResult): int {
    match r
    case ForkFailed => 255
    case Exited(code) => code
  }

  /** A stop whose scripts fail: the code tells which one and how, the status is failure, the threads are as before. */
  lemma FailedStop(v: Service, e: StopEnv)
    requires e.clean.result != Exited(0) || e.hwStop != Exited(0)
    requires Inv(v)
    ensures var (after, reply) := StopAp(v, e);
      && reply == Code(
           if e.clean.result != Exited(0) then FailureStatus(e.clean.result) else 1000 + FailureStatus(e.hwStop))
      && after == v.(status := Failure, files := after.files)
      && after.files == if e.clean.result == Exited(0) || (e.clean.result.Exited? && e.clean.reached) then map[] else v.files
  {
    hide WellServed, Sound, Servable, StopThread;
    CleanRemovesAll(v.files);
  }

  /** A stop whose scripts succeed: no files are left, and the reply is 2000 exactly if a canceled thread is not joined. */
  lemma ThreadStop(v: Service, e: StopEnv)
    requires e.clean.result == Exited(0) && e.hwStop == Exited(0)
    requires Inv(v)
    ensures var (after, reply) := StopAp(v, e);
      && after.files == map[]
      && after == v.(files := map[], status := after.status, threads := after.threads)
      && (reply.Ends() ==> reply == Code(0) || reply == Code(2000))
      && (reply == Code(2000) <==>
          && PhaseOf(v) == Live && !v.threads.locked && e.canceled && v.threads.objects[v.thread.value].spawned
          && !e.outcome.Joined?)
      && (reply == Code(2000) ==> after.threads == v.threads)
  {
    hide WellServed, Sound, Servable;
    CleanRemovesAll(v.files);
  }

  /** A stop that comes to its end leaves the service stopped exactly if it replies 0, and otherwise a failure. */
  lemma StoppedIff(v: Service, e: StopEnv)
    requires Inv(v) && StopAp(v, e).1.Ends()
    ensures StopAp(v, e).0.status == Stopped <==> StopAp(v, e).1 == Code(0)
    ensures StopAp(v, e).0.status == Stopped || StopAp(v, e).0.status == Failure
  {
    hide WellServed, Sound, Servable, StopThread;
    if e.clean.result == Exited(0) && e.hwStop == Exited(0) {
      StopThreadReplies(v.(files := AfterClean(v.files, e.clean)), e);
    } else {
      FailedStop(v, e);
    }
  }

  // ----- restart -----

  /**
   * A restart without files does nothing; one whose cleaning fails does not start; any other is a start that finds no
   * files, whatever the status. It replies nothing.
   */
  lemma RestartIs(v: Service, again: Script, e: StartEnv)
    requires Inv(v)
    ensures var (after, reply) := RestartAp(v, again, e);
      if DnsmasqConf !in v.files && AddHosts !in v.files then after == v && reply == Silent
      else if again.result != Exited(0) then
        && reply == Silent && after == v.(status := Failure, files := after.files)
        && after.files == if again.result.Exited? && again.reached then map[] else v.files
      else
        && after == StartAp(v.(files := map[]), e).0
        && reply == if StartAp(v.(files := map[]), e).1 == Hangs then Hangs else Silent
  {
    hide WellServed, Sound, Servable, StartAp;
    CleanRemovesAll(v.files);
    StartApKeepsInv(v.(files := map[]), e);
  }

  // ----- the other verbs -----

  /** A setter changes nothing but the settings and, for an accepted interface name, the copy of that name. */
  lemma SetIs(v: Service, call: Call)
    requires Inv(v) && Callable(call)
    ensures var (after, reply) := Do(v, Set(call));
      && reply == Code(Verdict(v.settings, call))
      && after == v.(settings := Apply(v.settings, call), copy := after.copy)
      && after.copy == if call.SetInterfaceName? && reply == Code(0) then v.copy + 1 else v.copy
  {
    hide Apply, Verdict;
  }

  /** A thread that ends changes nothing but its own object. */
  lemma ThreadEndIs(v: Service, i: nat)
    requires Inv(v) && Allowed(v, EventThreadEnds(i))
    ensures var (after, reply) := Do(v, EventThreadEnds(i)); var t := v.threads.objects[i];
      && reply == Silent && after == v.(threads := after.threads)
      && after.threads == v.threads.(
           objects := v.threads.objects[i := t.(state := Threads.Dying, destructors := [], ran := [DESTRUCTOR])])
  {
    assert v.threads.objects[i].destructors == [DESTRUCTOR] && v.threads.objects[i].ran == [];
    assert [] + [DESTRUCTOR] == [DESTRUCTOR];
    hide WellServed, Sound, Servable;
  }
}
