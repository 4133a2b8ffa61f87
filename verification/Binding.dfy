/** The binding with its global state: the settings record, the status, the files in /tmp and the event thread. */
module Binding {
  import opened CStrings
  import opened ApSettings
  import opened ApData
  import opened TmpFiles
  import opened Hostapd
  import opened HostapdPrinter
  import opened Dnsmasq
  import opened LifeCycle
  import opened ThreadObjects
  import Threads

  class WifiApBinding {
    const data: WifiApData
    const tmp: TmpDir
    const threads: ThreadModule
    var status: Status
    var wifiApThread: ThreadObject?
    /** Where wifiApThread stands among all thread objects, and the settings of the last completed start. */
    ghost var thread: Option<nat>
    ghost var served: Option<Served>

    ghost predicate Separate()
      reads this, data, threads, threads.Footprint()
    {
      && this !in threads.Footprint() && data !in threads.Footprint() && tmp !in threads.Footprint()
      && data.Buffers !! threads.Footprint()
    }

    ghost predicate Valid()
      reads this, data, data.Buffers, tmp, threads, threads.Footprint()
    {
      && Separate() && data.Valid() && threads.Valid()
      && (thread.None? <==> wifiApThread == null)
      && (thread.Some? ==> thread.value < |threads.created| && threads.created[thread.value] == wifiApThread)
    }

    ghost function Value(): Service
      requires Valid()
      reads this, data, data.Buffers, tmp, threads, threads.Footprint()
    {
      Service(data.Value(), status, tmp.files, threads.Registered(), thread, data.nameBlock, threads.Contexts(), served)
    }

    constructor (data: WifiApData)
      requires data.Valid() && data.nameBlock == 1
      ensures Valid() && this.data == data && Value() == Initial(data.Value())
      ensures fresh(tmp) && fresh(threads) && fresh(threads.Footprint())
    {
      this.data := data;
      status := Initializing;
      wifiApThread, thread, served := null, None, None;
      tmp := new TmpDir();
      threads := new ThreadModule();
    }

    // ----- start -----

    /** What printf makes of a name that may be null. */
    method Print(name: Option<string>) returns (text: string)
      ensures text == TextOf(name)
    {
      text := if name.Some? then name.value else "(null)";
    }

    /** `argument`: the address with its prefix length, for the script. */
    method SetDnsmasqService(e: StartEnv) returns (code: int, argument: string)
      requires data.Valid()
      modifies tmp, this`status
      ensures tmp.files == LifeCycle.SetDnsmasqService(data.Value(), old(tmp.files), e).0
      ensures code == LifeCycle.SetDnsmasqService(data.Value(), old(tmp.files), e).1
      ensures status == if code == 0 then old(status) else Failure
      ensures code == 0 ==> argument == AddressWithPrefix(data.Value())
    {
      hide AddressVerdict, AddressWithPrefix, Passed, WifiApData.Value;
      hide LifeCycle.WriteDnsmasqFiles, LifeCycle.AppendInterface;
      var verdict, ipApCidr := CheckAddresses(data, e.stale);
      argument := ipApCidr;
      if verdict != 0 {
        status := Failure;
        return verdict, argument;
      }
      if e.wlanUp.ExitStatus() != 0 {
        status := Failure;
        return -2, argument;
      }
      code := WriteDnsmasqFiles(e);
      if code != 0 {
        status := Failure;
        return -2, argument;
      }
      if e.dnsmasqRestart.TakesEffect() {
        AppendInterface(e);
      }
      if e.dnsmasqRestart.result.ExitStatus() != 0 {
        status := Failure;
        return -2, argument;
      }
      return 0, argument;
    }

    /** The script's own line. */
    method AppendInterface(e: StartEnv)
      requires data.Valid() && DnsmasqConf in tmp.files
      modifies tmp
      ensures tmp.files == LifeCycle.AppendInterface(Passed(data.Value(), e), old(tmp.files))
    {
      hide ShellWord;
      var word := Print(data.interfaceName);
      if !ShellWord(word) {
        word := e.word;
      }
      tmp.Write(DnsmasqConf, "interface=" + word + "\n");
    }

    method WriteDnsmasqFiles(e: StartEnv) returns (code: int)
      requires data.Valid()
      modifies tmp
      ensures code == if e.hostsOpens && e.dnsmasqOpens then 0 else -1
      ensures tmp.files == LifeCycle.WriteDnsmasqFiles(data.Value(), old(tmp.files), e.hostsOpens, e.dnsmasqOpens)
      ensures code == 0 ==> DnsmasqConf in tmp.files
    {
      var ipAp := ReadString(data.ipAp);
      var ipStart := ReadString(data.ipStart);
      var ipStop := ReadString(data.ipStop);
      var hostName := Print(data.hostName);
      var domainName := Print(data.domainName);
      code := CreateHostsConfigFile(tmp, ipAp, hostName, e.hostsOpens);
      if code != 0 { return -1; }
      code := CreateDnsmasqConfigFile(tmp, ipAp, ipStart, ipStop, domainName, e.dnsmasqOpens);
      if code != 0 { return -1; }
    }

    /** The script's command to stop hostapd, which also removes the files. */
    method StopHostapd(clean: Script)
      modifies tmp
      ensures tmp.files == AfterClean(old(tmp.files), clean)
    {
      if clean.TakesEffect() {
        tmp.Remove(DnsmasqConf);
        tmp.Remove(AddHosts);
        tmp.Remove(HostapdConf);
        assert tmp.files == old(tmp.files) - ALL_FILES;
      }
    }

    /** The last checks, and the hostapd file. */
    method Configure(e: StartEnv) returns (code: int)
      requires data.Valid()
      modifies tmp, this`status
      ensures tmp.files == LifeCycle.Configure(data.Value(), old(tmp.files), e).0
      ensures code == LifeCycle.Configure(data.Value(), old(tmp.files), e).1
      ensures status == if code == 0 then old(status) else Failure
    {
      hide WifiApData.Value, HostapdText;
      data.FieldsOfValue();
      if data.ssid[0] == NUL {
        status := Failure;
        return -1;
      }
      if data.channelNumber < data.minChannel || data.channelNumber > data.maxChannel {
        status := Failure;
        return -2;
      }
      var error := GenerateHostApConfFile(data, tmp, e.io);
      if error != 0 {
        status := Failure;
        return -3;
      }
      return 0;
    }

    method BringUp(e: StartEnv) returns (code: int)
      requires data.Valid()
      modifies tmp, this`status
      ensures tmp.files == LifeCycle.BringUp(data.Value(), old(tmp.files), e).0
      ensures code == LifeCycle.BringUp(data.Value(), old(tmp.files), e).1
      ensures status == if code == 0 then old(status) else Failure
    {
      hide LifeCycle.SetDnsmasqService, LifeCycle.Configure, LifeCycle.StartHostapd, AfterClean, WifiApData.Value;
      if DnsmasqConf in tmp.files || AddHosts in tmp.files {
        StopHostapd(e.clean);
        if !e.clean.result.Exited? || e.clean.result.ExitStatus() != 0 {
          status := Failure;
          return -9;
        }
      }
      var argument: string;
      code, argument := SetDnsmasqService(e);
      if code != 0 {
        status := Failure;
        return -8;
      }
      code := Configure(e);
      if code != 0 {
        return;
      }
      code := StartHostapd(e);
    }

    method StartHostapd(e: StartEnv) returns (code: int)
      modifies tmp, this`status
      ensures tmp.files == LifeCycle.StartHostapd(old(tmp.files), e).0
      ensures code == LifeCycle.StartHostapd(old(tmp.files), e).1
      ensures status == if code == 0 then old(status) else Failure
    {
      if e.hwStart.ExitStatus() != 0 {
        status := Failure;
        return if e.hwStart.ExitStatus() == 50 then -4 else if e.hwStart.ExitStatus() == 100 then -5 else -6;
      }
      if !e.hostapdStart.Exited? || e.hostapdStart.ExitStatus() != 0 {
        tmp.Remove(HostapdConf);
        status := Failure;
        return -7;
      }
      return 0;
    }

    /** The event thread: created, made joinable, given its destructor, started. Errors are only logged. */
    method LaunchThread(name: nat, attrSet: bool, threadCreated: bool) returns (t: ThreadObject)
      requires threads.Valid() && !threads.Registered().locked
      modifies threads.Footprint()
      ensures threads.Valid() && fresh(threads.Footprint() - old(threads.Footprint()))
      ensures threads.Registered() == Launch(old(threads.Registered()), attrSet, threadCreated)
      ensures |threads.created| == |old(threads.created)| + 1 && threads.created[|threads.created| - 1] == t
      ensures threads.Contexts() == old(threads.Contexts()) + [name]
    {
      hide Threads.Sound, Threads.MadeJoinable, Threads.DestructorAdded, Threads.Started, Threads.Created;
      LaunchSteps(threads.Registered(), attrSet, threadCreated);
      t := threads.CreateThread(name);
      threads.LatestValue();
      var error := threads.SetThreadJoinable(t.threadId, attrSet);
      threads.LatestValue();
      error := threads.AddDestructorToThread(t.threadId, DESTRUCTOR);
      threads.LatestValue();
      error := threads.StartThread(t.threadId, threadCreated);
    }

    /** Only the files and the status may have changed. */
    twostate lemma FilesChanged()
      requires old(Valid()) && wifiApThread == old(wifiApThread) && thread == old(thread) && served == old(served)
      requires unchanged(data) && unchanged(data.Buffers) && unchanged(old(threads.Footprint()))
      ensures Valid() && Value() == old(Value()).(files := tmp.files, status := status)
    {
    }

    /** Only the threads may have changed. */
    twostate lemma ThreadsChanged()
      requires old(Valid()) && unchanged(data) && unchanged(data.Buffers) && unchanged(tmp) && threads.Valid()
      requires status == old(status) && served == old(served)
      requires fresh(threads.Footprint() - old(threads.Footprint()))
      requires thread.Some? <==> wifiApThread != null
      requires thread.Some? ==> thread.value < |threads.created| && threads.created[thread.value] == wifiApThread
      ensures Valid()
      ensures Value() ==
        old(Value()).(threads := threads.Registered(), thread := thread, names := threads.Contexts())
    {
    }

    /** Hangs where CreateThread would wait for the mutex. */
    method StartAp(e: StartEnv) returns (reply: Reply)
      requires Valid()
      modifies this, tmp, threads.Footprint()
      ensures Valid() && fresh(threads.Footprint() - old(threads.Footprint()))
      ensures Value() == LifeCycle.StartAp(old(Value()), e).0
      ensures reply == LifeCycle.StartAp(old(Value()), e).1
    {
      hide LifeCycle.BringUp, Launch, Passed, WifiApData.Value, Threads.Sound, ThreadModule.Linked;
      var code := BringUp(e);
      FilesChanged();
      if code != 0 {
        return Code(code);
      }
      if threads.mutexHeld {
        return Hangs;
      }
      Launched(e);
      return Code(0);
    }

    method Launched(e: StartEnv)
      requires Valid() && !Value().threads.locked
      modifies this, threads.Footprint()
      ensures Valid() && fresh(threads.Footprint() - old(threads.Footprint()))
      ensures Value() == old(Value()).(
        threads := Launch(old(Value()).threads, e.attrSet, e.threadCreated), thread := Some(|old(Value()).threads.objects|),
        names := old(Value()).names + [old(Value()).copy], status := Started,
        served := Some(Served(old(Value()).settings, Passed(old(Value()).settings, e))))
    {
      hide Launch, WithLatest, Passed, WifiApData.Value, Threads.Sound, ThreadModule.Linked, ThreadModule.Registered;
      threads.Sizes();
      wifiApThread := LaunchThread(data.nameBlock, e.attrSet, e.threadCreated);
      thread := Some(|threads.created| - 1);
      ThreadsChanged();
      status := Started;
      served := Some(Served(data.Value(), Passed(data.Value(), e)));
    }

    // ----- stop -----

    /** Faults where the code reads wifiApThreadPtr, and hangs where cancelThread would wait for the mutex. */
    method StopThread(e: StopEnv) returns (reply: Reply)
      requires Valid() && ThreadsTold(Value())
      modifies threads.Footprint()
      ensures Valid() && threads.created == old(threads.created)
      ensures Value() == old(Value()).(threads := LifeCycle.StopThread(old(Value()), e).0)
      ensures reply == LifeCycle.StopThread(old(Value()), e).1
    {
      hide WifiApData.Value, Threads.Sound, ThreadModule.Linked, ThreadModule.Registered, Threads.Find, Threads.JoinedWith;
      if wifiApThread == null {
        return Code(0);
      }
      threads.LatestValue();
      assert EventThread(wifiApThread.Value()) && |wifiApThread.destructorList| <= 1;
      if wifiApThread.joinFrees + wifiApThread.cleanupFrees > 0 {
        return Fault;
      }
      if threads.mutexHeld {
        return Hangs;
      }
      var error := threads.CancelThread(wifiApThread.threadId, e.canceled);
      ThreadsChanged();
      if error != 0 {
        return Code(0);
      }
      error := threads.JoinThread(wifiApThread.threadId, e.outcome);
      ThreadsChanged();
      return Code(if error != 0 then 2000 else 0);
    }

    method StopAp(e: StopEnv) returns (reply: Reply)
      requires Valid() && ThreadsTold(Value())
      modifies this`status, tmp, threads.Footprint()
      ensures Valid() && threads.created == old(threads.created)
      ensures Value() == LifeCycle.StopAp(old(Value()), e).0
      ensures reply == LifeCycle.StopAp(old(Value()), e).1
    {
      hide WifiApData.Value, ThreadModule.Registered, Threads.Sound, ThreadModule.Linked, AfterClean, LifeCycle.StopThread;
      StopHostapd(e.clean);
      FilesChanged();
      if !e.clean.result.Exited? || e.clean.result.ExitStatus() != 0 {
        status := Failure;
        FilesChanged();
        return Code(e.clean.result.ExitStatus());
      }
      if !e.hwStop.Exited? || e.hwStop.ExitStatus() != 0 {
        status := Failure;
        FilesChanged();
        return Code(1000 + e.hwStop.ExitStatus());
      }
      reply := StopThread(e);
      if reply.Code? {
        status := if reply.code == 0 then Stopped else Failure;
      }
    }

    // ----- verbs -----

    method RestartAp(again: Script, e: StartEnv) returns (reply: Reply)
      requires Valid()
      modifies this, tmp, threads.Footprint()
      ensures Valid() && fresh(threads.Footprint() - old(threads.Footprint()))
      ensures Value() == LifeCycle.RestartAp(old(Value()), again, e).0
      ensures reply == LifeCycle.RestartAp(old(Value()), again, e).1
    {
      hide WifiApData.Value, ThreadModule.Registered, Threads.Sound, ThreadModule.Linked, AfterClean, LifeCycle.StartAp;
      if DnsmasqConf !in tmp.files && AddHosts !in tmp.files {
        return Silent;
      }
      StopHostapd(again);
      FilesChanged();
      if !again.result.Exited? || again.result.ExitStatus() != 0 {
        status := Failure;
        FilesChanged();
        return Silent;
      }
      reply := StartAp(e);
      if reply.Code? {
        reply := Silent;
      }
    }

    method StartVerb(e: StartEnv) returns (reply: Reply)
      requires Valid()
      modifies this, tmp, threads.Footprint()
      ensures Valid() && fresh(threads.Footprint() - old(threads.Footprint()))
      ensures Value() == Do(old(Value()), Verb.Start(e)).0
      ensures reply == Do(old(Value()), Verb.Start(e)).1
    {
      if status == Started {
        return Code(0);
      }
      reply := StartAp(e);
    }

    /** The thread that was launched i-th comes to its end. */
    method EventThreadEnds(t: ThreadObject, ghost i: nat)
      requires Valid() && ThreadsTold(Value()) && i < |threads.created| && t == threads.created[i]
      requires Allowed(Value(), Verb.EventThreadEnds(i))
      modifies threads.Footprint()
      ensures Valid() && Value() == Do(old(Value()), Verb.EventThreadEnds(i)).0
    {
      hide WifiApData.Value, Threads.Sound, ThreadModule.Linked, Threads.Cleanup;
      assert t.Value() == Value().threads.objects[i] && EventThread(t.Value());
      threads.CleanupThread(t, i);
      ThreadsChanged();
    }

    /** A setter of the settings record, called for a verb: nothing else of the binding changes. */
    twostate lemma SetterIsVerb(call: Call)
      requires old(Valid()) && unchanged(this) && unchanged(tmp) && unchanged(old(threads.Footprint()))
      requires Callable(call) && data.Valid() && data.Value() == Apply(old(data.Value()), call)
      requires data.nameBlock == old(data.nameBlock)
        + (if call.SetInterfaceName? && Verdict(old(data.Value()), call) == NO_ERROR then 1 else 0)
      ensures Valid() && Value() == Do(old(Value()), Set(call)).0
    {
      hide WifiApData.Value, ThreadModule.Registered, Threads.Sound, ThreadModule.Linked, Apply, Verdict;
    }
  }
}
