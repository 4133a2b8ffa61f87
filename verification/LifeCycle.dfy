/**
 * The life cycle of the access point: verbs run one at a time, against every answer that the system can give. `Do` is
 * the specification that the methods of class Binding are proved against.
 */
module LifeCycle {
  import opened CStrings
  import opened ApSettings
  import opened TmpFiles
  import opened Hostapd
  import opened HostapdPrinter
  import opened Dnsmasq
  import Threads

  // ----- answers of the system -----

  type ExitCode = n: nat | n < 256

  /** What system() returns: fork failed, or the script ended by itself. */
  datatype SystemResult = ForkFailed | Exited(code: ExitCode) {
    /** WEXITSTATUS, which for the -1 of a failed fork is 255. */
    function ExitStatus(): nat { if ForkFailed? then 255 else code }

    predicate Succeeds() { Exited? && code == 0 }
  }

  /** A script whose effect on /tmp comes before the last place where it can fail. */
  datatype Script = Script(result: SystemResult, reached: bool) {
    predicate TakesEffect() { result.Exited? && (result.code == 0 || reached) }
  }

  /** What sscanf finds in its array of four before it stores anything. */
  type Garbage = s: seq<int> | |s| == 4 witness [0, 0, 0, 0]

  /**
   * `word`: what the script gets as its second argument for an interface name that the shell does not pass on as it is.
   * `pipeOpens`: the event thread can open its pipe.
   */
  datatype StartEnv = StartEnv(
    clean: Script, stale: Garbage, wlanUp: SystemResult, hostsOpens: bool, dnsmasqOpens: bool, dnsmasqRestart: Script,
    word: string, io: HostapdIo, hwStart: SystemResult, hostapdStart: SystemResult, attrSet: bool, threadCreated: bool,
    pipeOpens: bool)

  datatype StopEnv = StopEnv(
    clean: Script, hwStop: SystemResult, canceled: bool, outcome: Threads.JoinOutcome)

  // ----- state -----

  datatype Status = Initializing | Started | Stopped | Failure

  type Files = map<TmpFile, string>

  /** The settings of a start, and the interface name as the script got it. */
  datatype Served = Served(settings: Settings, interface: string)

  /**
   * `copy`: number of the copy of the interface name in the settings; the copies before it are released. `names`: the
   * copies that the threads got, in the order of their objects. `served` only remembers the last start that came to its
   * end.
   */
  datatype Service = Service(
    settings: Settings, status: Status, files: Files,
    threads: Threads.Registry, thread: Option<nat>, copy: nat, names: seq<nat>, served: Option<Served>)

  /**
   * Code: the reply, or for restart, which never replies, none. Hangs: waits for a mutex that nobody unlocks. Fault:
   * reads an object that has been released.
   */
  datatype Reply = Code(code: int) | Silent | Hangs | Fault {
    predicate Ends() { Code? || Silent? }
  }

  datatype Verb =
    | Start(start: StartEnv)
    | Stop(stop: StopEnv)
    | Restart(again: Script, start: StartEnv)
    | Set(call: Call)
    | EventThreadEnds(index: nat)

  const ALL_FILES: set<TmpFile> := {HostapdConf, DnsmasqConf, AddHosts}

  const DESTRUCTOR: nat := 0
  const THREAD_ID := 1

  // ----- starting -----

  predicate HasStale(files: Files) {
    DnsmasqConf in files || AddHosts in files
  }

  /** The stop command of the script. */
  function AfterClean(files: Files, clean: Script): Files {
    if clean.TakesEffect() then files - ALL_FILES else files
  }

  function TextOf(name: Option<string>): string {
    if name.Some? then name.value else "(null)"
  }

  /** The characters that mean something to a shell (section 2.2 of the POSIX Shell Command Language), and braces. */
  const SHELL_CHARACTERS := "|&;<>()$`\\\"' \t\n*?[]#~=%{}!"

  /** Far below what snprintf takes into the 4096 bytes of a command. */
  const MAX_WORD := 1024

  /** A name that stands unquoted in a command, and that the shell passes on as it is. */
  predicate ShellWord(name: string) {
    0 < |name| <= MAX_WORD && forall i | 0 <= i < |name| :: name[i] !in SHELL_CHARACTERS
  }

  /** The second argument of the script. */
  function Passed(s: Settings, e: StartEnv): string {
    if ShellWord(TextOf(s.interfaceName)) then TextOf(s.interfaceName) else e.word
  }

  function InterfaceLine(word: string): string {
    "interface=" + word + "\n"
  }

  /** The two files in front of dnsmasq, the second only after the first. */
  function WriteDnsmasqFiles(s: Settings, files: Files, hostsOpens: bool, dnsmasqOpens: bool): Files {
    var hosts := files[AddHosts := HostsText(s.ipAp, TextOf(s.hostName))];
    if !hostsOpens then files
    else if !dnsmasqOpens then hosts
    else hosts[DnsmasqConf := DnsmasqText(s.ipAp, s.ipStart, s.ipStop, TextOf(s.domainName))]
  }

  /** The line that the script adds for dnsmasq. */
  function AppendInterface(word: string, files: Files): Files {
    if DnsmasqConf in files then files[DnsmasqConf := files[DnsmasqConf] + InterfaceLine(word)] else files
  }

  function SetDnsmasqService(s: Settings, files: Files, e: StartEnv): (Files, int) {
    if AddressVerdict(s) != 0 then (files, AddressVerdict(s))
    else if !e.wlanUp.Succeeds() then (files, -2)
    else
      var written := WriteDnsmasqFiles(s, files, e.hostsOpens, e.dnsmasqOpens);
      if !e.hostsOpens || !e.dnsmasqOpens then (written, -2)
      else
        (if e.dnsmasqRestart.TakesEffect() then AppendInterface(Passed(s, e), written) else written,
         if e.dnsmasqRestart.result.Succeeds() then 0 else -2)
  }

  /** From the checks to the hostapd file. */
  function Configure(s: Settings, files: Files, e: StartEnv): (Files, int) {
    if s.ssid == "" then (files, -1)
    else if !ChannelGuard(s) then (files, -2)
    else if !e.io.opens then (files, -3)
    else if !e.io.Works() || HostapdText(s).None? then (files - {HostapdConf}, -3)
    else (files[HostapdConf := HostapdText(s).value], 0)
  }

  function HardwareCode(hwStart: SystemResult): int {
    if hwStart.ExitStatus() == 0 then 0
    else if hwStart.ExitStatus() == 50 then -4
    else if hwStart.ExitStatus() == 100 then -5
    else -6
  }

  /** Hardware, then hostapd, whose file is removed if it does not start. */
  function StartHostapd(files: Files, e: StartEnv): (Files, int) {
    if HardwareCode(e.hwStart) != 0 then (files, HardwareCode(e.hwStart))
    else if !e.hostapdStart.Succeeds() then (files - {HostapdConf}, -7)
    else (files, 0)
  }

  /** The files and the code of a start up to where the event thread is created. */
  function BringUp(s: Settings, files: Files, e: StartEnv): (Files, int) {
    var cleaned := if HasStale(files) then AfterClean(files, e.clean) else files;
    if HasStale(files) && !e.clean.result.Succeeds() then (cleaned, -9)
    else
      var dnsmasq := SetDnsmasqService(s, cleaned, e);
      if dnsmasq.1 != 0 then (dnsmasq.0, -8)
      else
        var conf := Configure(s, dnsmasq.0, e);
        if conf.1 != 0 then conf else StartHostapd(conf.0, e)
  }

  function NewThread(joinable: bool, state: Threads.State, destructors: seq<nat>, created: bool): Threads.Thread {
    Threads.Thread(THREAD_ID, joinable, state, destructors, [], created, 0, 0)
  }

  function WithLatest(r: Threads.Registry, t: Threads.Thread): Threads.Registry {
    Threads.Registry(r.objects + [t], [|r.objects|], false)
  }

  /** The registry after each of the calls that give the access point its event thread. */
  lemma LaunchSteps(r: Threads.Registry, attrSet: bool, created: bool)
    requires Threads.Sound(r) && !r.locked
    ensures Threads.Created(r) == WithLatest(r, NewThread(false, Threads.New, [], false))
    ensures var made := WithLatest(r, NewThread(false, Threads.New, [], false));
      var joinable := WithLatest(r, NewThread(true, Threads.New, [], false));
      var equipped := WithLatest(r, NewThread(true, Threads.New, [DESTRUCTOR], false));
      var started := WithLatest(r, NewThread(true, Threads.Running, [DESTRUCTOR], created));
      && Threads.Sound(made) && Threads.MadeJoinable(made, THREAD_ID, attrSet).0 == joinable
      && Threads.Sound(joinable) && Threads.DestructorAdded(joinable, THREAD_ID, DESTRUCTOR).0 == equipped
      && Threads.Sound(equipped) && Threads.Started(equipped, THREAD_ID, created).0 == started
      && Threads.Sound(started)
  {
    hide Threads.Sound, Threads.Find, Threads.NewObject;
    var made := Threads.Created(r);
    Threads.StepKeepsSound(r, Threads.Create);
    Threads.FindsLatest(made, r.objects, NewThread(false, Threads.New, [], false));
    var joinable := Threads.MadeJoinable(made, THREAD_ID, attrSet).0;
    Threads.StepKeepsSound(made, Threads.SetJoinable(THREAD_ID, attrSet));
    Threads.FindsLatest(joinable, r.objects, NewThread(true, Threads.New, [], false));
    var equipped := Threads.DestructorAdded(joinable, THREAD_ID, DESTRUCTOR).0;
    Threads.StepKeepsSound(joinable, Threads.AddDestructor(THREAD_ID, DESTRUCTOR));
    assert [] + [DESTRUCTOR] == [DESTRUCTOR];
    Threads.FindsLatest(equipped, r.objects, NewThread(true, Threads.New, [DESTRUCTOR], false));
    Threads.StepKeepsSound(equipped, Threads.Start(THREAD_ID, created));
  }

  /** The calls that give the access point its event thread, whose errors are not looked at. */
  function Launch(r: Threads.Registry, attrSet: bool, created: bool): (after: Threads.Registry)
    requires Threads.Sound(r) && !r.locked
    ensures Threads.Sound(after)
    ensures after == WithLatest(r, NewThread(true, Threads.Running, [DESTRUCTOR], created))
  {
    hide Threads.Sound, Threads.MadeJoinable, Threads.DestructorAdded, Threads.Started, Threads.Created;
    LaunchSteps(r, attrSet, created);
    var joinable := Threads.MadeJoinable(Threads.Created(r), THREAD_ID, attrSet).0;
    var equipped := Threads.DestructorAdded(joinable, THREAD_ID, DESTRUCTOR).0;
    Threads.Started(equipped, THREAD_ID, created).0
  }

  /** Errors of the thread functions are not looked at. */
  function StartAp(v: Service, e: StartEnv): (Service, Reply)
    requires Threads.Sound(v.threads)
  {
    var (files, code) := BringUp(v.settings, v.files, e);
    if code != 0 then (v.(files := files, status := Failure), Code(code))
    else if v.threads.locked then (v.(files := files), Hangs)
    else
      (v.(files := files, status := Started, threads := Launch(v.threads, e.attrSet, e.threadCreated),
          thread := Some(|v.threads.objects|), names := v.names + [v.copy],
          served := Some(Served(v.settings, Passed(v.settings, e)))), Code(0))
  }

  // ----- stopping -----

  /** The event thread is canceled and joined; a failing cancellation is not looked at, but keeps the mutex. */
  function StopThread(v: Service, e: StopEnv): (Threads.Registry, Reply)
    requires Threads.Sound(v.threads) && (v.thread.Some? ==> v.thread.value < |v.threads.objects|)
  {
    if v.thread.None? then (v.threads, Code(0))
    else if v.threads.objects[v.thread.value].Frees() > 0 then (v.threads, Fault)
    else if v.threads.locked then (v.threads, Hangs)
    else
      var (canceled, code) := Threads.Canceled(v.threads, THREAD_ID, e.canceled);
      if code != 0 then (canceled, Code(0))
      else
        var (joined, error) := Threads.JoinedWith(v.threads, THREAD_ID, e.outcome);
        (joined, Code(if error != 0 then 2000 else 0))
  }

  function StopAp(v: Service, e: StopEnv): (Service, Reply)
    requires Threads.Sound(v.threads) && (v.thread.Some? ==> v.thread.value < |v.threads.objects|)
  {
    var w := v.(files := AfterClean(v.files, e.clean));
    if !e.clean.result.Succeeds() then (w.(status := Failure), Code(e.clean.result.ExitStatus()))
    else if !e.hwStop.Succeeds() then (w.(status := Failure), Code(1000 + e.hwStop.ExitStatus()))
    else
      var (threads, reply) := StopThread(w, e);
      var status := if reply == Code(0) then Stopped else if reply.Code? then Failure else v.status;
      (w.(threads := threads, status := status), reply)
  }

  // ----- verbs -----

  function RestartAp(v: Service, again: Script, e: StartEnv): (Service, Reply)
    requires Threads.Sound(v.threads)
  {
    if !HasStale(v.files) then (v, Silent)
    else
      var w := v.(files := AfterClean(v.files, again));
      if !again.result.Succeeds() then (w.(status := Failure), Silent)
      else
        var (started, reply) := StartAp(w, e);
        (started, if reply.Code? then Silent else reply)
  }

  predicate Allowed(v: Service, verb: Verb) {
    match verb
    case Set(call) => Callable(call)
    case EventThreadEnds(i) => Threads.Returns(v.threads, Threads.Finish(i))
    case _ => true
  }

  function Do(v: Service, verb: Verb): (Service, Reply)
    requires Threads.Sound(v.threads) && (v.thread.Some? ==> v.thread.value < |v.threads.objects|)
    requires Allowed(v, verb)
  {
    match verb
    case Start(e) => if v.status == Started then (v, Code(0)) else StartAp(v, e)
    case Stop(e) => StopAp(v, e)
    case Restart(again, e) => RestartAp(v, again, e)
    case Set(call) =>
      var renamed := call.SetInterfaceName? && Verdict(v.settings, call) == NO_ERROR;
      (v.(settings := Apply(v.settings, call), copy := if renamed then v.copy + 1 else v.copy),
       Code(Verdict(v.settings, call)))
    case EventThreadEnds(i) => (v.(threads := Threads.Cleanup(v.threads, i)), Silent)
  }

  // ----- invariants -----

  /** hostapd.conf is never there without both of the others. */
  predicate FilesNest(files: Files) {
    HostapdConf in files ==> DnsmasqConf in files && AddHosts in files
  }

  /** The settings could be started with. */
  predicate Servable(s: Settings) {
    Sound(s) && ChannelGuard(s) && AddressVerdict(s) == 0
  }

  function DnsmasqPair(s: Settings, word: string): Files {
    map[
      AddHosts := HostsText(s.ipAp, TextOf(s.hostName)),
      DnsmasqConf := DnsmasqText(s.ipAp, s.ipStart, s.ipStop, TextOf(s.domainName)) + InterfaceLine(word)]
  }

  /** Exactly the three files, as printed from these settings. */
  predicate Serves(files: Files, s: Settings, word: string) {
    HostapdText(s).Some? && files == DnsmasqPair(s, word)[HostapdConf := HostapdText(s).value]
  }

  /** What a start that comes to its end has to do with what it remembers. */
  predicate WellServed(files: Files, served: Served) {
    && Servable(served.settings) && Serves(files, served.settings, served.interface)
    && (ShellWord(TextOf(served.settings.interfaceName)) ==> served.interface == TextOf(served.settings.interfaceName))
  }

  /** What the status says about the files. */
  predicate StatusTells(v: Service) {
    && (v.status.Started? ==> v.served.Some? && WellServed(v.files, v.served.value))
    && (v.status.Stopped? || v.status.Initializing? ==> v.files == map[])
  }

  /** The object of an event thread: joinable for ever, with one destructor, and never released by its own thread. */
  predicate EventThread(t: Threads.Thread) {
    t.joinable && !t.state.New? && t.destructors + t.ran == [DESTRUCTOR] && t.cleanupFrees == 0
  }

  /** The registry knows at most the object that the service points to, and knows it until it is released. */
  predicate ThreadsTold(v: Service) {
    && Threads.Sound(v.threads)
    && (forall i | 0 <= i < |v.threads.objects| :: EventThread(v.threads.objects[i]))
    && v.thread == (if v.threads.objects == [] then None else Some(|v.threads.objects| - 1))
    && (v.thread.Some? ==> (v.threads.list == [] <==> v.threads.objects[v.thread.value].Frees() == 1))
  }

  /** Every thread got a copy of the name. */
  predicate NamesTold(v: Service) {
    |v.names| == |v.threads.objects| && forall i | 0 <= i < |v.names| :: v.names[i] <= v.copy
  }

  predicate Inv(v: Service) {
    Sound(v.settings) && FilesNest(v.files) && StatusTells(v) && ThreadsTold(v) && NamesTold(v)
  }

  /** After creation, which has made the first copy of the interface name. */
  function Initial(s: Settings): Service {
    Service(s, Initializing, map[], Threads.Registry([], [], false), None, 1, [], None)
  }

  lemma InitialInv(s: Settings)
    requires Sound(s)
    ensures Inv(Initial(s))
  {
  }

  // ----- files -----

  lemma CleanRemovesAll(files: Files)
    ensures files - ALL_FILES == map[]
  {
    forall f: TmpFile ensures f in ALL_FILES {
      match f case HostapdConf => case DnsmasqConf => case AddHosts =>
    }
  }

  /** Because files nest, looking for two of them is enough to clean all three. */
  lemma CleanedIsEmpty(files: Files, clean: Script)
    requires FilesNest(files) && (HasStale(files) ==> clean.result.Succeeds())
    ensures (if HasStale(files) then AfterClean(files, clean) else files) == map[]
  {
    CleanRemovesAll(files);
    if !HasStale(files) {
      assert files - ALL_FILES == files;
    }
  }

  lemma DnsmasqFiles(s: Settings, e: StartEnv)
    ensures HostapdConf !in SetDnsmasqService(s, map[], e).0
    ensures SetDnsmasqService(s, map[], e).1 == 0 ==> AddressVerdict(s) == 0
    ensures SetDnsmasqService(s, map[], e).1 == 0 ==> SetDnsmasqService(s, map[], e).0 == DnsmasqPair(s, Passed(s, e))
  {
    hide AddressVerdict, HostsText, DnsmasqText, InterfaceLine, Passed;
  }

  lemma ConfiguredFiles(s: Settings, files: Files, e: StartEnv)
    requires HostapdConf !in files
    ensures Configure(s, files, e).0 - {HostapdConf} == files
    ensures Configure(s, files, e).1 <= 0
    ensures Configure(s, files, e).1 == 0 ==>
      ChannelGuard(s) && HostapdText(s).Some? && Configure(s, files, e).0 == files[HostapdConf := HostapdText(s).value]
  {
    hide HostapdText;
  }

  /** The nesting is kept at every exit of a start, and the code is 0 only with complete files. */
  lemma BringUpFiles(s: Settings, files: Files, e: StartEnv)
    requires FilesNest(files)
    ensures FilesNest(BringUp(s, files, e).0)
    ensures BringUp(s, files, e).1 == 0 ==>
      ChannelGuard(s) && AddressVerdict(s) == 0 && Serves(BringUp(s, files, e).0, s, Passed(s, e))
    ensures BringUp(s, files, e).1 <= 0
  {
    hide SetDnsmasqService, Configure, HostapdText, DnsmasqText, HostsText, InterfaceLine, ChannelGuard, AddressVerdict,
      Passed;
    CleanRemovesAll(files);
    if !HasStale(files) || e.clean.result.Succeeds() {
      CleanedIsEmpty(files, e.clean);
      DnsmasqFiles(s, e);
      var pair := SetDnsmasqService(s, map[], e).0;
      ConfiguredFiles(s, pair, e);
      assert SetDnsmasqService(s, map[], e).1 == 0 ==> AddHosts in pair && DnsmasqConf in pair;
      assert forall f | f in pair :: f in Configure(s, pair, e).0 - {HostapdConf};
    }
  }

  /**
   * A start that comes to its end returns 0 exactly if it leaves the service started, and otherwise leaves a failure.
   * Whatever its status was before, the invariant holds then.
   */
  lemma StartApKeepsInv(v: Service, e: StartEnv)
    requires Sound(v.settings) && FilesNest(v.files) && ThreadsTold(v) && NamesTold(v)
    ensures var (after, reply) := StartAp(v, e);
      && FilesNest(after.files)
      && (reply == Hangs <==> BringUp(v.settings, v.files, e).1 == 0 && v.threads.locked)
      && (reply != Hangs ==>
        && reply.Code? && reply.code <= 0 && Inv(after)
        && after.status == if reply.code == 0 then Started else Failure)
  {
    hide BringUp, FilesNest, Serves, Sound, AddressVerdict, ChannelGuard, ShellWord, Threads.Sound, ThreadsTold, Launch;
    BringUpFiles(v.settings, v.files, e);
    FailureKeepsThreads(v);
    if BringUp(v.settings, v.files, e).1 == 0 && !v.threads.locked {
      LaunchKeepsThreads(v, e.attrSet, e.threadCreated);
    }
  }

  /** What is known of the threads has to do with neither files nor status. */
  lemma FailureKeepsThreads(v: Service)
    requires ThreadsTold(v)
    ensures forall w: Service | w.threads == v.threads && w.thread == v.thread :: ThreadsTold(w)
  {
  }

  lemma LaunchKeepsThreads(v: Service, attrSet: bool, created: bool)
    requires ThreadsTold(v) && !v.threads.locked
    ensures forall w: Service | w.threads == Launch(v.threads, attrSet, created) && w.thread == Some(|v.threads.objects|) ::
      ThreadsTold(w)
  {
    hide Threads.Sound;
  }

  lemma StopThreadReplies(v: Service, e: StopEnv)
    requires ThreadsTold(v)
    ensures StopThread(v, e).1 in {Code(0), Code(2000), Fault, Hangs}
  {
    hide Threads.Sound, Threads.Canceled, Threads.JoinedWith;
  }

  /** Stopping the thread keeps what is known of the threads. */
  lemma StopThreadKeepsThreads(v: Service, e: StopEnv)
    requires ThreadsTold(v)
    ensures var (threads, reply) := StopThread(v, e);
      && ThreadsTold(v.(threads := threads)) && |threads.objects| == |v.threads.objects|
  {
    if v.thread.Some? && v.threads.objects[v.thread.value].Frees() == 0 && !v.threads.locked {
      Threads.StepKeepsSound(v.threads, Threads.Cancel(THREAD_ID, e.canceled));
      var canceled := Threads.Canceled(v.threads, THREAD_ID, e.canceled);
      if canceled.1 == 0 {
        Threads.StepKeepsSound(canceled.0, Threads.Join(THREAD_ID, e.outcome));
      }
    }
  }

  // ----- verbs -----

  lemma StopApKeepsInv(v: Service, e: StopEnv)
    requires Inv(v)
    ensures FilesNest(StopAp(v, e).0.files)
    ensures StopAp(v, e).1.Ends() ==> Inv(StopAp(v, e).0)
  {
    hide WellServed, Sound, Servable, Threads.Sound;
    CleanRemovesAll(v.files);
    StopThreadReplies(v, e);
    StopThreadKeepsThreads(v, e);
  }

  lemma RestartApKeepsInv(v: Service, again: Script, e: StartEnv)
    requires Inv(v)
    ensures FilesNest(RestartAp(v, again, e).0.files)
    ensures RestartAp(v, again, e).1.Ends() ==> Inv(RestartAp(v, again, e).0)
  {
    hide WellServed, Sound, Servable, Threads.Sound, BringUp, StartAp;
    CleanRemovesAll(v.files);
    var w := v.(files := AfterClean(v.files, again));
    StartApKeepsInv(w, e);
  }

  lemma ThreadEndKeepsInv(v: Service, i: nat)
    requires Inv(v) && Threads.Returns(v.threads, Threads.Finish(i))
    ensures Inv(v.(threads := Threads.Cleanup(v.threads, i)))
  {
    assert v.threads.objects[i].destructors == [DESTRUCTOR];
    assert Threads.Cleanup(v.threads, i).objects[i].ran == [DESTRUCTOR];
    hide WellServed, Sound, Servable;
    Threads.CleanupKeepsSound(v.threads, i);
  }

  /** The files nest at every exit of every verb, and a verb that comes to its end keeps the invariant. */
  lemma DoKeepsInv(v: Service, verb: Verb)
    requires Inv(v) && Allowed(v, verb)
    ensures FilesNest(Do(v, verb).0.files)
    ensures Do(v, verb).1.Ends() ==> Inv(Do(v, verb).0)
  {
    hide WellServed, Sound, Servable, Threads.Sound;
    match verb
    case Start(e) => StartApKeepsInv(v, e);
    case Stop(e) => StopApKeepsInv(v, e);
    case Restart(again, e) => RestartApKeepsInv(v, again, e);
    case Set(call) => ApplyKeepsSound(v.settings, call);
    case EventThreadEnds(i) => ThreadEndKeepsInv(v, i);
  }

  function Next(v: Service, verb: Verb): (after: Service)
    requires Inv(v) && Allowed(v, verb) && Do(v, verb).1.Ends()
    ensures Inv(after)
  {
    DoKeepsInv(v, verb);
    Do(v, verb).0
  }

  // ----- the event thread over time -----

  /** The verb comes to its end by starting the access point. */
  predicate Launches(v: Service, verb: Verb)
    requires Inv(v) && Allowed(v, verb)
  {
    && ((verb.Start? && v.status != Started) || verb.Restart?)
    && Do(v, verb).1.Ends() && Do(v, verb).0.status == Started
  }

  /** A stop replies 0 after there has been a thread, and leaves the mutex free. */
  predicate Joins(v: Service, verb: Verb)
    requires Inv(v) && Allowed(v, verb)
  {
    verb.Stop? && v.thread.Some? && Do(v, verb).1 == Code(0) && !Do(v, verb).0.threads.locked
  }

  datatype Phase = Never | Live | Joined

  function PhaseOf(v: Service): Phase
    requires ThreadsTold(v)
  {
    if v.thread.None? then Never else if v.threads.objects[v.thread.value].Frees() == 0 then Live else Joined
  }

  lemma StartedHasFiles(v: Service)
    requires StatusTells(v) && v.status == Started
    ensures HasStale(v.files)
  {
    hide HostapdText, DnsmasqText, HostsText;
    assert AddHosts in DnsmasqPair(v.served.value.settings, v.served.value.interface);
  }

  /** No object is released twice, and only JoinThread releases one. */
  lemma ReleasedOnce(v: Service)
    requires ThreadsTold(v)
    ensures forall i | 0 <= i < |v.threads.objects| ::
      v.threads.objects[i].Frees() == v.threads.objects[i].joinFrees <= 1
  {
    forall i | 0 <= i < |v.threads.objects|
      ensures v.threads.objects[i].Frees() == v.threads.objects[i].joinFrees <= 1
    {
      assert Threads.SoundThread(v.threads.objects[i]);
    }
  }

  /** What a start does to the threads. */
  lemma StartApThreads(v: Service, e: StartEnv)
    requires Sound(v.settings) && FilesNest(v.files) && ThreadsTold(v)
    ensures var (after, reply) := StartAp(v, e);
      after.settings == v.settings && after.copy == v.copy &&
      if reply == Code(0) then
        && after.served == Some(Served(v.settings, Passed(v.settings, e)))
        && after.names == v.names + [v.copy]
        && after.status == Started && after.thread == Some(|v.threads.objects|)
        && !after.threads.locked && !v.threads.locked
        && after.threads.objects == v.threads.objects + [NewThread(true, Threads.Running, [DESTRUCTOR], e.threadCreated)]
      else
        && after.served == v.served && after.names == v.names
        && (if reply.Code? then after.status == Failure else reply == Hangs)
        && after.thread == v.thread && after.threads == v.threads
  {
    hide BringUp;
    BringUpFiles(v.settings, v.files, e);
  }

  lemma RestartApThreads(v: Service, again: Script, e: StartEnv)
    requires Inv(v) && RestartAp(v, again, e).1.Ends()
    ensures var after := RestartAp(v, again, e).0;
      after.settings == v.settings && after.copy == v.copy &&
      if after.status == Started then
        && after.served == Some(Served(v.settings, Passed(v.settings, e)))
        && after.names == v.names + [v.copy]
        && after.thread == Some(|v.threads.objects|) && !after.threads.locked && !v.threads.locked
        && after.threads.objects == v.threads.objects + [NewThread(true, Threads.Running, [DESTRUCTOR], e.threadCreated)]
      else
        && after.served == v.served && after.names == v.names
        && after.thread == v.thread && after.threads == v.threads
  {
    hide BringUp, StartAp, WellServed, Sound, Servable, Threads.Sound;
    if v.status == Started { StartedHasFiles(v); }
    CleanRemovesAll(v.files);
    StartApThreads(v.(files := AfterClean(v.files, again)), e);
  }

  /** The event thread is live from a start to the next stop that joins it; a joined thread leaves an empty registry. */
  lemma PhaseMoves(v: Service, verb: Verb)
    requires Inv(v) && Allowed(v, verb) && Do(v, verb).1.Ends()
    ensures PhaseOf(Next(v, verb)) == if Launches(v, verb) then Live else if Joins(v, verb) then Joined else PhaseOf(v)
    ensures PhaseOf(Next(v, verb)) == Joined ==> Next(v, verb).threads.list == []
  {
    hide StartAp, RestartAp, BringUp, WellServed, Sound, Servable, Threads.Sound;
    var after := Next(v, verb);
    ReleasedOnce(after);
    match verb
    case Start(e) => StartApThreads(v, e);
    case Restart(again, e) => RestartApThreads(v, again, e);
    case _ =>
  }

  /** A stop reads a released object exactly if both scripts succeed and the thread has been joined before. */
  lemma StopFaultsIff(v: Service, e: StopEnv)
    requires Inv(v)
    ensures StopAp(v, e).1 == Fault <==> e.clean.result.Succeeds() && e.hwStop.Succeeds() && PhaseOf(v) == Joined
    ensures StopAp(v, e).1 == Hangs <==>
      e.clean.result.Succeeds() && e.hwStop.Succeeds() && PhaseOf(v) == Live && v.threads.locked
  {
  }

  /** After a stop that replies 0 to a service that had a thread, the registry is empty exactly if the mutex is free. */
  lemma StopEmptiesRegistryIff(v: Service, e: StopEnv)
    requires Inv(v) && v.thread.Some? && StopAp(v, e).1 == Code(0)
    ensures StopAp(v, e).0.threads.list == [] <==> !StopAp(v, e).0.threads.locked
  {
    hide WellServed, Sound, Servable;
    ReleasedOnce(v);
  }

  /** The start verb replies 0 exactly if it leaves the service started, and does nothing to one that is. */
  lemma StartRepliesZeroIff(v: Service, e: StartEnv)
    requires Inv(v) && Do(v, Start(e)).1.Ends()
    ensures Do(v, Start(e)).1 == Code(0) <==> Do(v, Start(e)).0.status == Started
    ensures Do(v, Start(e)).1 == Code(0) || Do(v, Start(e)).0.status == Failure
    ensures v.status == Started ==> Do(v, Start(e)) == (v, Code(0))
  {
    hide StartAp, BringUp, WellServed, Sound, Servable, Threads.Sound;
    StartApThreads(v, e);
  }
}
