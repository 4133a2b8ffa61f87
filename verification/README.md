# Verification of the WiFi access point binding

This project models the binding that configures a WiFi access point, checks its settings, writes the files of hostapd
and dnsmasq, and starts, stops and restarts the service. It follows one chain from raw input to running service:

- `CStrings.dfy`, `Utf8.dfy`: C strings in fixed buffers, and the size-bounded UTF-8 copy and append, specified over
  sequences of Unicode scalars (sections 3 and 4 of RFC 3629).
- `ApSettings.dfy`: the settings as a state machine over accepted and rejected setter calls. `ApData.dfy`: the record
  with its buffers and setters, proved against it. `CreateData.dfy`: building the record from a configuration by table.
- `Hostapd.dfy`: the text of hostapd.conf and a reader for it. `HostapdPrinter.dfy`: the printer with its 1024-byte
  buffer. `TmpFiles.dfy`: the three files in /tmp.
- `Ipv4.dfy`, `Dnsmasq.dfy`: dotted addresses, prefix lengths (section 3.1 of RFC 4632), the exchange of the range's
  ends, the guard that keeps the access point out of the clients' range, and the files written behind it.
  `DnsmasqRanges.dfy`: the client ranges that are read from such a file. `DnsmasqReader.dfy`: all that is read from both.
- `Threads.dfy`: the registry of thread objects as a state machine over calls. `ThreadObjects.dfy`: the same with its
  objects, circular list and mutex.
- `LifeCycle.dfy`: start, stop and restart against every answer that the system can give. `Binding.dfy`: the same with
  the binding's global state, updated in place. `Outcomes.dfy`: what each verb replies and leaves behind, by the
  answers of the system. `Runs.dfy`: whole runs of verbs, from a configuration on.
  `Scenarios.dfy`: runs that exist, a started access point and every failure named below.
- `Events.dfy`: the line loop of the event thread. `Pipes.dfy`: the one pointer for the pipes of all event threads.

Functions over values (`Apply`, `Step`, `Do`, `HostapdText`, ...) are the specification; the methods of the classes, which
update buffers, fields, lists and files step by step as the C code does, are proved to refine them; the lemmas are about
the specification. Answers of the system (exit codes of scripts, whether a file opens, the outcome of a join) are
parameters, so every statement holds for all of them. A text may contain any byte but NUL.

`Code` in a reply is what the verb replies (for stop, before `AFB_USER_ERRNO` is applied). `Hangs` is a verb that waits
for a mutex which nobody unlocks, `Fault` one that reads a thread object which has been released; no verb follows these.

Where the code and what is said about it differ, the model follows the code:

- `utf8_Copy` is documented to return 0 when the source was copied completely. It also returns 0, with an empty
  destination, when an invalid lead byte stands among the bytes that would fit (`Utf8.WholeIff`, `Utf8.ZeroWithoutCopy`).
  So an address or pre-shared key with such a byte is accepted and erased (`ApSettings.RangeIsAllOrNothing`,
  `ApSettings.PreSharedKeyStoredIff`), and a chain of appends that all return 0 drops such parts (`Utf8.AppendChain`).
- The configuration key `preSharedKey` is wired to the setter of the passphrase, so it replaces the passphrase
  (`CreateData.ConfiguredKeyIsPassphrase`), and `wpa_psk` is never printed (`HostapdPrinter.SoundIsPrintedWhole`).
- The channel bounds that guard a start are those of the mode in force when a channel was last set. A later change of mode
  can let a channel through that the printed mode forbids: between which modes, `ApSettings.ModeChangeSlipsIff` tells.
- The file for hostapd reads back as set exactly if SSID, country code and, under WPA2, passphrase hold no line break;
  no setter excludes one (`Hostapd.RoundTripIff`).
- The file for dnsmasq gives a second client range if the domain name hides one behind a line break, and for interface
  names that a shell passes on exactly then; no setter excludes that (`Runs.ServedIsReadBack`,
  `DnsmasqRanges.DomainHidesRange`, `Scenarios.SecondRangeServed`). All entries of the file read back as printed exactly if
  no line break is in the domain name (`DnsmasqReader.EntriesAreReadIff`), and the host entry exactly if none is in the
  host name (`DnsmasqReader.HostIsReadIff`).
- The interface name stands unquoted in the commands for the script, which appends its own second argument to the file. For
  a name that is a shell word (`LifeCycle.ShellWord`) that argument is the name; for any other it is an answer of the system.
- `toCidr` does not see a hole between octets (`Ipv4.HoleIsNotSeen`, `Ipv4.PrefixDescribesMaskIff`).
- All thread objects carry identifier 1, and creating one clears the registry, so an older thread that is not joinable
  empties the registry of its successor when it ends (`Threads.EmptyAfterRunIff`, `Threads.OrphanHidesSuccessor`).
- A cancellation that fails leaves the mutex locked for ever (`Threads.LockedIffCancelFailed`, `Threads.LockedForever`); the
  stop still replies 0, and later stops and starts hang (`Runs.StopAfterRunIff`, `Scenarios.FailedCancelHangs`).
- A second stop after a stop that joined the thread, without a start between them, reads the released object if both
  scripts succeed (`Runs.StopAfterRunIff`, `Scenarios.SecondStopFaults`).
- A restart does not stop the event thread of the start before it. Its object stays behind, and no later verb releases it
  (`Runs.NothingLeaksIff`, `Runs.LeakedForEver`, `Scenarios.RestartLeaks`).
- Every event thread keeps a pointer to the interface name, and the verb that sets a new name releases the copy it points
  to (`Runs.NameIsHistory`, `Scenarios.RenameReleases`). After a restart the older thread still reads the copy that was
  released before it (`Runs.ThreadReadsReleasedIff`, `Scenarios.RestartHidesRename`).
- There is one pointer for the pipes of all event threads. A second launch overwrites it, so one pipe is never closed, and
  the thread that ends first closes the pipe of the other (`Pipes.PipeLedger`, `Pipes.OverwrittenStaysOpen`,
  `Scenarios.OlderEndClosesSuccessor`).
- The event text "WiFi client disconnected" is cut to "WiFi client disconnect" (`Events.ParseLine`), and an interface whose
  name is part of another's counts the other's stations too (`Events.CountIsStationsIff`, `Events.ForeignStationIsCounted`).

## Model

| member | source | states |
|---|---|---|
| Utf8.NumBytesInChar | src/lib/wifi-ap-utilities.c:34-53 | the mask tests give the length by the ranges of lead bytes, 0 for a byte that starts no character |
| Utf8.Copy | src/lib/wifi-ap-utilities.c:85-146 | what is stored, its NUL, the count, the status, and that no byte before the start or behind the last one touched changes |
| Utf8.CopyChar | src/lib/wifi-ap-utilities.c:138-143 | the inner loop copies one character and touches nothing else |
| Utf8.CopyKeepsLongestScalarPrefix | src/lib/wifi-ap-utilities.c:101-145 | of encoded scalars a copy keeps the longest prefix that is shorter than the buffer; 0 is returned exactly if that is all |
| Utf8.CopyDecodesToPrefix | src/lib/wifi-ap-utilities.c:69-73 | whatever the buffer size, the stored bytes are well-formed again and decode to a prefix of the scalars |
| Utf8.WalkMeetsInvalidLead | src/lib/wifi-ap-utilities.c:114-126 | the exit for a malformed source is taken exactly if, among the bytes that fit, an invalid lead byte stands where a character starts |
| Utf8.CleanIffNoInvalidLead | src/lib/wifi-ap-utilities.c:114-126 | a source is clean exactly if no invalid lead byte stands where a character starts |
| Utf8.WholeIff | src/lib/wifi-ap-utilities.c:80-82 | the source is stored whole exactly if it is clean and shorter than the buffer; 0 is returned exactly then or if an invalid lead byte is among the bytes that fit; with 0 the copy is the source if that is clean, else nothing |
| Utf8.ZeroWithoutCopy | src/lib/wifi-ap-utilities.c:116-126 | a source for which 0 is returned although nothing was stored |
| Utf8.Append | src/lib/wifi-ap-utilities.c:175-198 | the destination's C string grows by what a copy into the remaining room keeps; status, reported length, frame |
| Utf8.AppendLaw | src/lib/wifi-ap-utilities.c:175-198 | appending equals cutting the concatenation at a character boundary, unless a malformed lead byte leaves the destination as it was |
| Utf8.AppendOne | src/lib/wifi-ap-utilities.c:175-198 | one append of any part: a clean part returns 0 exactly if it fits; with 0 a clean part is added whole and any other not at all |
| Utf8.AppendChain | src/lib/wifi-ap-utilities.c:175-198 | if a chain of appends of any parts all return 0, the result is the concatenation of the clean parts, so plain concatenation exactly if all are clean; clean parts all return 0 exactly if they fit |
| ApSettings.MaskAcceptedIff | src/lib/wifi-ap-data.c:179-205 | the power-of-two test and the two exclusions accept exactly: one hardware bit, AC only with A, H only with D |
| ApSettings.MaskByBits | src/lib/wifi-ap-data.c:179-205 | the code for every mask and what is stored, by the bits as numbers |
| ApSettings.LegalMaskByBits | src/lib/wifi-ap-data.h:38-47 | the masks that the invariant allows, by the bits as numbers |
| ApSettings.ProtocolIsSpelled | src/lib/wifi-ap-data.c:246-260 | "none" in any case stores 0, "wpa2" in any case stores 1; any other text, and null, gives -1 and changes nothing |
| ApSettings.TextsByLength | src/lib/wifi-ap-data.c:66-82 | for SSID, passphrase, country code and the four addresses: 0, -3 or -4 by the length, -1 for null |
| ApSettings.AcceptedTextsAreStored | src/lib/wifi-ap-data.c:131-398 | an accepted text is stored in its own field, and nothing else changes |
| ApSettings.NamesByLength | src/lib/wifi-ap-data.c:36-121 | the three names: -1 for null, -3 for the empty one, any other is stored in its own field |
| ApSettings.CopiedTextsByLength | src/lib/wifi-ap-data.c:227-328 | the codes of four addresses together, too short before too long, and of the pre-shared key |
| ApSettings.ClientsByNumber | src/lib/wifi-ap-data.c:283-302 | 1 to 1000 clients are accepted and stored, any flag is |
| ApSettings.ChannelByMode | src/lib/wifi-ap-data.c:139-169 | the codes and what is stored for every channel, by the mode in force |
| ApSettings.ApplyKeepsSound | src/lib/wifi-ap-data.c:131-398 | every setter call, accepted or rejected, keeps all lengths, ranges and the mask legal |
| ApSettings.RunKeepsSound | src/lib/wifi-ap-data.c:92-398 | so does any sequence of setter calls with any C strings, those that are copied as UTF-8 ending with a whole character |
| ApSettings.RejectedChangesOnlyBounds | src/lib/wifi-ap-data.c:139-169 | a rejected call changes nothing, except that a rejected channel may replace the stored bounds |
| ApSettings.RangeIsAllOrNothing | src/lib/wifi-ap-data.c:311-346 | an error leaves all four addresses; success stores all four exactly if and only if each is clean UTF-8 |
| ApSettings.PreSharedKeyStoredIff | src/lib/wifi-ap-data.c:227-238 | an accepted key is stored exactly if it is clean, else the stored key is erased |
| ApSettings.StoredWholeOrEmpty | src/lib/wifi-ap-data.c:330-343 | a text within the checked limit is never truncated by the copy that stores it |
| ApSettings.BoundsHistory | src/lib/wifi-ap-data.c:139-159 | in any run the stored bounds are those of the mode in force at the last attempt to set a channel |
| ApSettings.GuardedChannelIsLegal | src/wifiAp.c:433-441 | a start that passes the guard uses a channel of that mode, and of the current mode if its bounds are the same |
| ApSettings.StaleRun | src/wifiAp.c:433-441 | a run for any two modes and any channel of the first, that ends in the second and passes the guard |
| ApSettings.ModeChangeSlipsIff | src/wifiAp.c:433-441 | over all runs whose channel was last set in one mode and that end in another: one of them passes the guard with a channel that the last mode forbids exactly if the change is not harmless |
| ApSettings.HarmlessModeChange | src/lib/wifi-ap-data.c:143-159 | exactly which changes of mode can never do that |
| ApData.SetBuffer | src/lib/wifi-ap-data.c:66-82 | in range: the buffer holds the argument as a C string; otherwise it is untouched; which error |
| ApData.StringCopy | src/lib/wifi-ap-data.c:36-55 | a name is replaced unless it is null or empty |
| ApData.WifiApData.constructor | src/wifiAp.c:1462-1466 | a cleared record is the blank settings |
| ApData.WifiApData.SetInterfaceName | src/lib/wifi-ap-data.c:118-121 | verdict and new state are those of the state machine; an accepted name is a new copy |
| ApData.WifiApData.SetDomainName | src/lib/wifi-ap-data.c:105-108 | verdict and new state are those of the state machine |
| ApData.WifiApData.SetHostName | src/lib/wifi-ap-data.c:92-95 | verdict and new state are those of the state machine |
| ApData.WifiApData.SetSsid | src/lib/wifi-ap-data.c:131-134 | verdict and new state are those of the state machine, in place in the buffer |
| ApData.WifiApData.SetPassPhrase | src/lib/wifi-ap-data.c:215-219 | verdict and new state are those of the state machine, in place in the buffer |
| ApData.WifiApData.SetPreSharedKey | src/lib/wifi-ap-data.c:227-238 | verdict and new state are those of the state machine, by a UTF-8 copy |
| ApData.WifiApData.SetCountryCode | src/lib/wifi-ap-data.c:270-274 | verdict and new state are those of the state machine, in place in the buffer |
| ApData.WifiApData.SetSecurityProtocol | src/lib/wifi-ap-data.c:246-260 | verdict and new state are those of the state machine, ignoring case |
| ApData.WifiApData.SetIpAp | src/lib/wifi-ap-data.c:355-359 | verdict and new state are those of the state machine, in place in the buffer |
| ApData.WifiApData.SetIpStart | src/lib/wifi-ap-data.c:368-372 | verdict and new state are those of the state machine, in place in the buffer |
| ApData.WifiApData.SetIpStop | src/lib/wifi-ap-data.c:381-385 | verdict and new state are those of the state machine, in place in the buffer |
| ApData.WifiApData.SetIpNetMask | src/lib/wifi-ap-data.c:394-398 | verdict and new state are those of the state machine, in place in the buffer |
| ApData.WifiApData.SetIpRange | src/lib/wifi-ap-data.c:311-346 | verdict and new state are those of the state machine, by four UTF-8 copies |
| ApData.WifiApData.SetDiscoverable | src/lib/wifi-ap-data.c:298-302 | verdict and new state are those of the state machine |
| ApData.WifiApData.SetMaxNumberClients | src/lib/wifi-ap-data.c:283-291 | verdict and new state are those of the state machine |
| ApData.WifiApData.SetIeeeStandard | src/lib/wifi-ap-data.c:179-205 | verdict and new state are those of the state machine |
| ApData.WifiApData.SetChannel | src/lib/wifi-ap-data.c:139-169 | verdict and new state are those of the state machine, with the bounds replaced before the test |
| CreateData.NoErrorsIffUsable | src/wifiAp.c:1473-1539 | the table loop counts no error exactly if every mandatory key is present and every present value is acceptable |
| CreateData.CreatedIff | src/wifiAp.c:1425-1553 | settings are built exactly from usable configurations when the event is created, and are the configured ones |
| CreateData.CreatedIsSound | src/wifiAp.c:1439-1456 | created settings satisfy the invariant, with the channel inside the bounds of their own mode |
| CreateData.ConfiguredKeyIsPassphrase | src/wifiAp.c:1445 | a configured pre-shared key becomes the passphrase |
| CreateData.SetEntry | src/wifiAp.c:1474-1538 | one row of the table, against a configuration value of any type |
| CreateData.CreateWifiApData | src/wifiAp.c:1425-1553 | a fresh record comes back exactly for usable configurations, with the configured settings in its buffers |
| Hostapd.TextIsEntries | src/lib/wifi-ap-config.c:119-225 | for sound settings the text is a list of key=value lines |
| Hostapd.KeysAreUnique | src/lib/wifi-ap-config.c:119-225 | no key is printed twice |
| Hostapd.RoundTripIff | src/lib/wifi-ap-config.c:105-239 | reading the text back gives SSID, channel, clients, country, visibility, protocol, passphrase and the ten mask bits, exactly if none of the texts has a line break |
| Hostapd.ReadByBits | src/lib/wifi-ap-config.c:121-222 | what is read from the text, in numbers: hw_mode by the low four bits of the mask, a flag for each further bit, wpa and passphrase by the protocol, visibility |
| Hostapd.ConstantsAreRead | src/lib/wifi-ap-config.h:34-55 | the lines that no setting changes, as read |
| Hostapd.ReadsWhatIsPrinted | src/lib/wifi-ap-config.c:105-239 | the entries read are the entries printed |
| Hostapd.EntriesShowSettings | src/lib/wifi-ap-config.c:105-239 | the printed entries determine what is shown of the settings |
| Hostapd.OnlyLinesAreRead | src/lib/wifi-ap-config.c:121-152 | a line break in a text is never read back |
| HostapdPrinter.SoundIsPrintedWhole | src/lib/wifi-ap-config.c:119-225 | in every reachable state each section fits the buffer, no error branch is taken, the passphrase and never the key is printed, and the mode printed is the mode set |
| HostapdPrinter.CommonFits | src/lib/wifi-ap-config.c:119-130 | the first section fits 1024 bytes |
| HostapdPrinter.SecurityFits | src/lib/wifi-ap-config.c:139-173 | the second section fits 1024 bytes |
| HostapdPrinter.StandardFits | src/lib/wifi-ap-config.c:184-224 | the third section fits 1024 bytes |
| HostapdPrinter.Snprintf | src/lib/wifi-ap-config.c:121-130 | the buffer holds the text, cut to its size less one |
| HostapdPrinter.WriteConfig | src/lib/wifi-ap-config.c:247-265 | the text is added to the file, or an error is returned |
| HostapdPrinter.PrintStandard | src/lib/wifi-ap-config.c:184-224 | copy and appends in the buffer give the whole third section |
| HostapdPrinter.GenerateHostApConfFile | src/lib/wifi-ap-config.c:105-239 | 0 exactly if all input and output works and the settings can be printed; then the file holds their text; on an error it is gone; no other file changes |
| Ipv4.InetPtonIff | src/wifiAp.c:277-291 | a text is an address exactly if it is the dotted text of that address |
| Ipv4.ScannersAgree | src/lib/wifi-ap-utilities.c:234-235 | on texts that are addresses, sscanf reads the same four numbers as inet_pton |
| Ipv4.BlockTable | src/lib/wifi-ap-utilities.c:238-274 | the switch knows exactly the octets that are non-zero and contiguous from the left |
| Ipv4.ToCidr | src/lib/wifi-ap-utilities.c:228-277 | the set bits of the leading such octets, also when sscanf leaves numbers unset |
| Ipv4.PrefixWithinMask | src/lib/wifi-ap-utilities.c:228-277 | at most the bits set in the 32-bit mask, at most 32; equal exactly if every octet from the stopping point on is zero |
| Ipv4.PrefixOfMask | src/lib/wifi-ap-utilities.c:228-277 | on every contiguous mask of length n the result is n |
| Ipv4.PrefixDescribesMaskIff | src/lib/wifi-ap-utilities.c:221-226 | the result describes the mask exactly if the mask is contiguous |
| Ipv4.HoleIsNotSeen | src/lib/wifi-ap-utilities.c:237-276 | a mask with a hole that is given a length all the same |
| Ipv4.XorCancels | src/wifiAp.c:315-320 | what makes three exclusive ors an exchange |
| Ipv4.OrderEndpoints | src/wifiAp.c:308-320 | the two words come back in order and are the same two |
| Dnsmasq.RejectedIffInRange | src/wifiAp.c:307-325 | four addresses are rejected exactly if the number of the access point's is between those of the ends, both included, whichever end is given first |
| Dnsmasq.RejectedTexts | src/wifiAp.c:270-304 | -2 for a missing address; -1 exactly for texts of which one is no dotted address |
| Dnsmasq.AddressWithLength | src/wifiAp.c:293-297 | for a contiguous netmask of length n the script gets the address, a slash and n |
| Dnsmasq.AcceptedIsAddresses | src/wifiAp.c:270-326 | what passes all checks is four addresses |
| DnsmasqRanges.NoRangeIff | src/lib/wifi-ap-config.c:79-87 | reading any text gives no range exactly if its first line gives none and none stands behind a line break |
| DnsmasqRanges.RangesAreReadIff | src/lib/wifi-ap-config.c:78-89 | all ranges read from the file with the script's line: just the one that was set exactly if neither domain name nor the script's argument hides one |
| DnsmasqRanges.DomainHidesRange | src/lib/wifi-ap-data.c:105-108 | domain names that the setter accepts and that hide a range |
| DnsmasqRanges.ServedRangeExcludesAp | src/wifiAp.c:307-352 | after a passed check dnsmasq reads the range that was set, which does not hold the access point's address, and no other exactly if neither domain name nor the script's argument hides one |
| DnsmasqReader.EntriesAreReadIff | src/lib/wifi-ap-config.c:78-89 | the entries read from the file with the script's line are those printed exactly if no line break is in domain name or argument |
| DnsmasqReader.HostIsReadIff | src/lib/wifi-ap-config.c:45-49 | the hosts file reads back as the one host exactly if no line break is in its name |
| Dnsmasq.CheckAddresses | src/wifiAp.c:270-326 | the checks, on the record's buffers, give the specified verdict and the address with its prefix length |
| Dnsmasq.CreateHostsConfigFile | src/lib/wifi-ap-config.c:35-56 | the file holds the one line, or nothing changes |
| Dnsmasq.CreateDnsmasqConfigFile | src/lib/wifi-ap-config.c:65-96 | five writes give the whole text, or nothing changes |
| Threads.StepKeepsSound | src/lib/wifi-ap-thread.c:69-575 | every call keeps: no object released twice, released by JoinThread only if joinable and by CleanupThread only if not, at most the latest object in the registry and not released |
| Threads.SetUpCodes | src/lib/wifi-ap-thread.c:94-262 | the codes of the calls that set a thread up or start it, and what each changes |
| Threads.CancelCodes | src/lib/wifi-ap-thread.c:513-525 | 0 without a change for a thread that can be canceled, else -1 with the mutex kept |
| Threads.JoinCodes | src/lib/wifi-ap-thread.c:446-500 | the codes of a join by its outcome; 0 releases the object and empties the registry |
| Threads.FinishIs | src/lib/wifi-ap-thread.c:295-326 | the end of a thread: its destructors called in order, an object without a joiner released |
| Threads.StepIsLater | src/lib/wifi-ap-thread.c:94-575 | a call only moves states forward; joinable flag and destructors stay from the start on |
| Threads.RunIsLater | src/lib/wifi-ap-thread.c:94-575 | so does any sequence of calls |
| Threads.LockedIffCancelFailed | src/lib/wifi-ap-thread.c:513-525 | after a run the mutex is free exactly if it was and every cancellation in it succeeded |
| Threads.LockedForever | src/lib/wifi-ap-thread.c:513-525 | from a mutex left locked, every run consists of ends of threads that were running and joinable, each once; the registry never changes again |
| Threads.EmptyAfterStepIff | src/lib/wifi-ap-thread.c:195-199 | a call leaves the registry empty exactly if it creates nothing and the registry was empty, or a join succeeds, or any thread that is not joinable ends |
| Threads.EmptyAfterRunIff | src/lib/wifi-ap-thread.c:321-326 | after any run the registry is empty exactly if something was lost since the last creation |
| Threads.OrphanHidesSuccessor | src/lib/wifi-ap-thread.c:194-205 | a run after which a join does not find the object created last, though nobody released it |
| ThreadObjects.ThreadModule.FindThreadFromIdInList | src/lib/wifi-ap-thread.c:69-80 | the walk along the links finds what the registry gives |
| ThreadObjects.ThreadModule.InitList | src/lib/wifi-ap-thread.c:195-196 | a head that links to itself; only with the mutex held |
| ThreadObjects.ThreadModule.AddTail | src/lib/wifi-ap-thread.c:199 | the object is last in the circle; only with the mutex held |
| ThreadObjects.ThreadModule.Delete | src/lib/wifi-ap-thread.c:323 | the neighbours link to each other; only with the mutex held and on an object not released |
| ThreadObjects.ThreadModule.CreateThread | src/lib/wifi-ap-thread.c:128-205 | refines the step: objects, registry and mutex; the new object is fresh |
| ThreadObjects.ThreadModule.SetThreadJoinable | src/lib/wifi-ap-thread.c:94-116 | refines the step, with its codes |
| ThreadObjects.ThreadModule.AddDestructorToThread | src/lib/wifi-ap-thread.c:240-262 | refines the step, with its codes |
| ThreadObjects.ThreadModule.StartThread | src/lib/wifi-ap-thread.c:534-575 | refines the step, with its codes |
| ThreadObjects.ThreadModule.CallDestructors | src/lib/wifi-ap-thread.c:303-316 | every registered destructor is called once and in order |
| ThreadObjects.ThreadModule.CleanupThread | src/lib/wifi-ap-thread.c:295-339 | refines the end of a thread |
| ThreadObjects.ThreadModule.CancelThread | src/lib/wifi-ap-thread.c:513-525 | refines the step: on failure -1 and the mutex still locked |
| ThreadObjects.ThreadModule.JoinThread | src/lib/wifi-ap-thread.c:446-500 | refines the step, with its codes; releases the object once |
| LifeCycle.LaunchSteps | src/wifiAp.c:522-542 | the four thread calls of a start leave one running, joinable thread with one destructor in the registry |
| LifeCycle.CleanedIsEmpty | src/wifiAp.c:391-410 | because hostapd.conf never stands alone, testing for two files is enough to clean all three |
| LifeCycle.BringUpFiles | src/wifiAp.c:386-520 | every exit of a start keeps that nesting; code 0 only with exactly the three files of the current settings and of the name as the script got it |
| Outcomes.StartCode | src/wifiAp.c:386-520 | the code of a start, -9 to -1 or 0, is that of the first step that fails |
| Outcomes.StartSucceedsIff | src/wifiAp.c:386-520 | code 0 exactly if every script exited with 0, every open and write worked and the settings pass |
| Outcomes.StartFiles | src/wifiAp.c:391-520 | the files at every failing exit: nothing of hostapd at -8, the dnsmasq files at -1 to -3, all three at -4 to -6, without hostapd.conf at -7 |
| Outcomes.DnsmasqIs | src/wifiAp.c:328-381 | what is written in front of dnsmasq before the first step that fails |
| LifeCycle.StartApKeepsInv | src/wifiAp.c:386-549 | a start returns 0 exactly if it ends started, else ends in failure, and establishes the invariant |
| LifeCycle.StopApKeepsInv | src/wifiAp.c:899-950 | a stop keeps the invariant |
| Outcomes.FailedStop | src/wifiAp.c:910-927 | a failed script gives its exit status, or 1000 plus that of the second, and a failure; threads as before |
| Outcomes.ThreadStop | src/wifiAp.c:929-942 | with both scripts successful: no files, reply 2000 exactly if a canceled thread is not joined, else 0 where it ends |
| Outcomes.StoppedIff | src/wifiAp.c:939-950 | a stop that ends leaves the service stopped exactly if it replies 0, else in failure |
| LifeCycle.RestartApKeepsInv | src/wifiAp.c:955-989 | a restart keeps the invariant |
| Outcomes.RestartIs | src/wifiAp.c:955-989 | nothing without files; a failure and no start if the cleaning fails; else a start that finds no files |
| Outcomes.SetIs | src/lib/wifi-ap-data.c:92-398 | a setter verb replies the code and changes only the settings and, for an accepted interface name, its copy |
| Outcomes.ThreadEndIs | src/lib/wifi-ap-thread.c:295-339 | an event thread that ends changes only its own object |
| LifeCycle.DoKeepsInv | src/wifiAp.c:386-989 | every verb that comes to its end keeps it, and the nesting of files holds even where one does not |
| LifeCycle.StartRepliesZeroIff | src/wifiAp.c:843-894 | start replies 0 exactly if the service is then started, and does nothing to a started one |
| LifeCycle.ReleasedOnce | src/lib/wifi-ap-thread.c:475-485 | in every reachable state an object is released at most once, and only by JoinThread |
| LifeCycle.PhaseMoves | src/wifiAp.c:929-938 | the event thread is live from a completed start to the next stop that joins it; then the registry is empty |
| LifeCycle.StopFaultsIff | src/wifiAp.c:929-938 | exactly in which states a stop reads a released object, and in which it hangs |
| LifeCycle.StopEmptiesRegistryIff | src/wifiAp.c:929-942 | after a stop that replies 0 to a service that had a thread: registry empty exactly if the mutex is free |
| Binding.WifiApBinding.SetDnsmasqService | src/wifiAp.c:262-381 | files, code and status as specified, on the record's buffers, and the address with its prefix length for the script |
| Binding.WifiApBinding.StopHostapd | scripts/wifi_setup.sh:92-107 | the script's effect on the three files |
| Binding.WifiApBinding.AppendInterface | scripts/wifi_setup.sh:123 | the script's line for dnsmasq: its second argument, which is the name for a shell word |
| Binding.WifiApBinding.Configure | src/wifiAp.c:423-456 | SSID, channel guard and hostapd file, as specified |
| Binding.WifiApBinding.BringUp | src/wifiAp.c:386-520 | the files, the code and the status of a start up to the event thread, as specified |
| Binding.WifiApBinding.LaunchThread | src/wifiAp.c:522-542 | the thread calls on the objects refine the specified ones |
| Binding.WifiApBinding.StartAp | src/wifiAp.c:386-549 | refines the specified start in every component of the state |
| Binding.WifiApBinding.StopThread | src/wifiAp.c:929-938 | refines the specified cancel and join |
| Binding.WifiApBinding.StopAp | src/wifiAp.c:899-950 | refines the specified stop |
| Binding.WifiApBinding.RestartAp | src/wifiAp.c:955-989 | refines the specified restart |
| Binding.WifiApBinding.StartVerb | src/wifiAp.c:843-894 | refines the specified verb |
| Binding.WifiApBinding.SetterIsVerb | src/lib/wifi-ap-data.c:92-398 | a setter of the record, called for a verb, is the specified verb of the whole service |
| Binding.WifiApBinding.EventThreadEnds | src/lib/wifi-ap-thread.c:295-339 | refines the specified end of an event thread |
| Runs.PhaseIsHistory | src/wifiAp.c:522-542 | over any run the phase of the event thread follows from which verbs launched and joined |
| Runs.RegistryIsHistory | src/lib/wifi-ap-thread.c:475-485 | after any run the registry holds just the object of the thread that is live by the history; every object was released at most once, and by JoinThread |
| Runs.LockIsHistory | src/lib/wifi-ap-thread.c:513-525 | over any run the mutex is left locked exactly if a stop in it could not cancel the event thread |
| Runs.StopAfterRunIff | src/wifiAp.c:929-938 | exactly after which histories a stop reads a released object, and after which it hangs |
| Runs.OneVerb | src/wifiAp.c:386-989 | a verb adds an object exactly if it launches, and releases one exactly if it joins |
| Runs.ThreadLedger | src/wifiAp.c:386-989 | conservation over any run: objects are the launches, released objects are the joining stops |
| Runs.LeakLedger | src/wifiAp.c:522-542 | over any run, each start that finds a live thread leaves one object behind, and nothing else does |
| Runs.NothingLeaksIff | src/wifiAp.c:522-542 | all objects are released, but that of a live thread, exactly if no start found a live thread |
| Runs.LeakedForEver | src/wifiAp.c:929-938 | an object that is not the latest is released by no run, whatever the verbs |
| Runs.LaunchOfLaunches | src/wifiAp.c:522-524 | which verb of a run launched the i-th thread |
| Runs.NameIsHistory | src/lib/wifi-ap-data.c:50-52 | for every thread of a run: the copy of the interface name that it reads has been released exactly if a name was accepted after its own launch |
| Runs.ThreadReadsReleasedIff | src/wifiAp.c:522-524 | after any run some running thread reads a released copy exactly if one that runs was launched before an accepted name |
| Runs.SettingsAreHistory | src/wifiAp.c:386-989 | only setter verbs change the settings, in their order |
| Runs.ServedIsHistory | src/wifiAp.c:386-549 | what is served are the settings that the last launch found |
| Runs.StatusIsFiles | src/wifiAp.c:386-549 | over any run: started with all three files, initializing or stopped with none, hostapd.conf never alone |
| Runs.StartedServes | src/wifiAp.c:386-549 | a started service has exactly the files of the settings at its last launch and of the name as that script got it, and those could be started with |
| Runs.ServedChannel | src/wifiAp.c:433-441 | the channel served belongs to the mode in force when the channel was last set |
| Runs.ShellWordsAre | src/wifiAp.c:332-336 | names of letters, digits and a few marks are passed on as they are; blanks, line breaks, ';' and quotes never are in such a name |
| Runs.ServedIsReadBack | src/lib/wifi-ap-config.c:65-239 | from the files of a started service hostapd reads the settings back exactly if they hold no line break; dnsmasq reads the range, and for shell words as interface name no other exactly if the domain name hides none; all entries and the host, with their conditions |
| Runs.EndToEnd | src/wifiAp.c:1425-1553 | from any usable configuration through any run that ends started: settings of the last launch, files read back, range without the access point, channel of its mode |
| Events.StrStr | src/wifiAp.c:123 | found exactly if the part occurs at some position |
| Events.ParseLine | src/wifiAp.c:121-164 | what one line means for the count, and the event text in the buffer |
| Events.Listen | src/wifiAp.c:120-165 | the pushed events and the counter are those of the lines read |
| Events.EventsFollowLines | src/wifiAp.c:131-161 | consecutive events differ by exactly one, up for an arrival, down for a departure, from 0 on; the last carries the counter |
| Events.EventIs | src/wifiAp.c:131-161 | one more line: its event's text and count, and the counter, or no event |
| Events.ClassifyIs | src/wifiAp.c:123-151 | which lines count, up or down: a line that says both is a departure |
| Events.FirstTokenIs | src/wifiAp.c:125 | the token is behind leading separators, up to the next separator or the end |
| Events.CountIsDifference | src/wifiAp.c:120-165 | the counter is the number of matching arrivals less that of departures, with one event for each |
| Events.ClassifyRendered | src/wifiAp.c:123-151 | a line about a station is counted for an interface exactly if that name is in the line's interface, and up or down as it says |
| Events.CountIsStationsAndErrors | src/wifiAp.c:120-165 | on any log the counter is the number of connected stations, plus repeated arrivals less repeated departures, plus arrivals less departures on other interfaces whose names have this one's in them |
| Events.CountIsStationsIff | src/wifiAp.c:120-165 | on any log the counter is the number of connected stations exactly if these errors cancel out; there are none where stations come only when absent, leave only when present, and no other name has this one's in it |
| Events.ForeignStationIsCounted | src/wifiAp.c:130 | a log on which wlan1 counts a station of wlan10 |
| Scenarios.SmoothStart | src/wifiAp.c:386-549 | where everything that is asked of the system succeeds, any settings that pass the guards start |
| Scenarios.StartedRun | src/wifiAp.c:843-894 | from all such settings a run that ends started |
| Scenarios.SecondStopFaults | src/wifiAp.c:929-938 | start, stop, stop: the last reads the released object |
| Scenarios.FailedCancelHangs | src/wifiAp.c:929-942 | start, a stop that cannot cancel and replies 0: any further stop or start hangs |
| Scenarios.RestartLeaks | src/wifiAp.c:955-989 | start, restart: the first object is released by no further run |
| Scenarios.RenameReleases | src/wifiAp.c:523-524 | start, a new interface name: the live thread's copy has been released |
| Scenarios.RestartHidesRename | src/wifiAp.c:955-989 | start, a new interface name, restart: the first thread runs and reads a released copy, the second does not |
| Scenarios.SecondRangeServed | src/lib/wifi-ap-config.c:81-84 | for all settings with such a domain name, a started service whose dnsmasq reads more than the range that was set |
| Scenarios.OlderEndClosesSuccessor | src/wifiAp.c:189-193 | start, restart, end of the first thread: the pipe of the running one is closed, that of the ended one stays open |
| Pipes.PipeLedger | src/wifiAp.c:81-117 | over any run, each launch that overwrites the pointer to an open pipe leaves one pipe open, and nothing else does |
| Pipes.OverwrittenStaysOpen | src/wifiAp.c:189-193 | a pipe whose pointer was overwritten is closed by no further run |
| Scenarios.ConfigGives | src/wifiAp.c:1439-1456 | any settings as they are after creation come from a configuration |
| Scenarios.EndToEndApplies | src/wifiAp.c:1425-1553 | for any addresses with the access point's outside its clients' range, a configuration and a run that ends started |

## Left out

- The request and reply layer, the verb table, subscriptions, logging and the JSON accessors: a configuration is a map from key to typed value, a verb is a call with its reply.
- The getters of the settings: they only read fields.
- Failure of memory allocation, and the error returns of `CreateThread` for attribute calls that cannot fail with these arguments.
- Running scripts: their exit codes are parameters, their effect on /tmp is taken from scripts/wifi_setup.sh. A script that ends by a signal, a restart script that removes only some files, and a stop script that removes files and is then not waited for are not modelled.
- Interface names that are not shell words: what the shell passes on for them is an answer of the system, but a command smuggled into the line, which could touch the files, is not modelled; nor is a command cut by snprintf at the 4096 bytes of its buffer.
- ApData.WifiApData.SetPreSharedKey: a null key, which a JSON null gives and which `strlen` would read through, is not modelled.
- Event threads open their pipe when they are launched; a thread that is canceled before is not modelled.
- Verbs that overlap in time, and an event thread that ends in the middle of a verb.
- The helpers for NetworkManager and firewalld, TEST_MODE and the packaging.
- pthread attributes, priorities, names and thread-local data; canceling or joining an object whose thread was never created is modelled as the failure of that call.
- ThreadObjects.ThreadModule.CleanupThread: at most one destructor, because with two the source reads a list node after releasing it; the binding registers one.
- ThreadObjects.ThreadModule.JoinThread: at most one destructor, for the same reason.
- Utf8.Copy: a source whose last character is cut short by its NUL is excluded; the source would read beyond it.
- A file that cannot be opened: the source closes a null stream first; the model goes on to its error return.
- Numbers that overflow an int in sscanf, and a client counter beyond 32 bits.
- Events.Listen: reads one interface name throughout; when the copy it reads has been released is stated by Runs.NameIsHistory, what is read from it then is not modelled.
- Comments and blanks around keys in a dnsmasq file: the reader splits lines at the first '='.
- Lines of "iw event" longer than the read buffer: the model takes the lines as they are read.
- Events.ClassifyRendered: interface names without spaces and colons, station names without spaces.
