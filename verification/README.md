# mmsd, modelled and verified in Dafny

`mmsd` turns Marathon application events into derived state: an HAProxy configuration,
upstream files, UDP backends and a DNS table. Each derived view is maintained
incrementally. This project models the views as the code maintains them and proves what
they are worth: that they agree with a rebuild from scratch, that configuration reaches
the running process, that files are published atomically, that events survive the wire.

Two kinds of member carry the model. State machines on values (`HaproxyState`, `Reload`,
`Dns`, `UdpMessages`, the fold in `Sse`) are what theorems over whole runs speak about.
Classes (`HaproxyMgr`, `Reloader`, `FilesManager`, `Frontend`, `UdpManager`, `Traffic`,
`EventSource`, `DnsManager`) update their fields in the source's own steps, and each
method is proved to be the corresponding step, or the sequence of steps it stands for; `EndToEnd`
composes them from application events to a served host. What the computed
values hold is also said in Marathon's own terms, label by label and field by field
(`HaproxySections`, `TaskList.LinesAre`, `FilesManager.ContentLines`,
`UdpManager.ReconciledFollowsTasks`, `Dns.QueryFollowsEvents`). Ghost histories record every intermediate
state where a concurrent reader could look.

A `char` stands for a byte. `sort.Sort` is in-place insertion by Less and Swap in `Sorting`;
elsewhere the order it leaves tasks in is a parameter, of which at most "it permutes" is
used, and in `HaproxySections.SectionAscends` that it sorts where it can. Host and address resolution, the outcome of every `exec`, every read length, every
write fault, and the set of sockets that can be opened are parameters as well. Maps are
ranged over in an arbitrary order.

## Where the code falls short of its intent

Each of these is proved; most come with the exact condition under which the code is right.

- A reload that failed is never retried while the configuration stays the same
  (`Reload.TickConvergesIff`, `Reload.FailedReloadSticks`).
- Destroying or suspending an application drops its fragment and leaves its vhosts in the
  gateway (`HaproxyInvariants.RemoveKeepsIntegrityIff`, `SuspendedAloneIff`).
- An update that moves or drops a port leaves its vhosts behind too: the gateway may name a
  backend that nothing defines (`HaproxyInvariants.MovedPortBreaksIntegrity`,
  `UpdateFromDefinedIff`, over whole runs `RunIntegrityIff`), and the vhost table differs from a
  fresh one (`HaproxyBatch.MovedPortIsStale`, `TidyIff`, `IncrementalEqualsBatchIff`).
- Vhosts that share a token are misrouted: exact ones that differ in `.` against `_`
  (`GatewayMeaning.SharedTokenMisroutes`), and every host of `*.d` if someone claims `STAR.d`
  (`GatewayMeaning.SpelledStarMisroutes`). Host patterns never are;
  `GatewayMeaning.AlwaysPreservedIff` says exactly which vhost maps are compiled correctly.
- The default vhost is not incremental: for instance, dropping only the default label keeps
  the old default (`HaproxyDefault.DroppedLabelSticks`, `HaproxyDefault.DefaultEqualsBatchIff`).
- A comparison by short reads can miss a difference or an equality
  (`FileCompare.NulFreeIdenticalIff`, `FileCompare.SameCutsIdenticalIff`).
- All cache entries written by one loop are the same task (`HaproxyInvariants.UpdateAliasesCache`),
  as the loop variable's address is stored; Godeps/Godeps.json names Go 1.6, where it is shared.
- `Less` on tasks is not asymmetric (`TaskList.LessBothWays`).
- Removing a destroyed application from the UDP manager removes nothing, as a raw id is
  compared with prettified names (`UdpManager.UdpManager.Remove`).
- A port whose file cannot be written also loses its old file in the sweep, and so do all
  later ports of its application: an old file survives exactly when a port wrote it
  (`FilesManager.FilesManager.Apply`).
- A stream line with a colon but no `": "` crashes the event source (`Sse.CrashesIff`).
- `FindMissing` returns what its first argument has and the second lacks, the reverse of its
  comment; README.md of the repository calls the HTTPS default label `lb-vhost-ssl-default`
  and gives the default labels a port index, where the code reads `lb-vhost-default-ssl` and
  compares with `1`. The model follows the code.

## Model

| member | source | states |
|---|---|---|
| Helper.PrettifyCollides | helper.go:18-23 | two prettified ids are equal exactly when port index and service port agree and the names differ at most in slashes against dots |
| Helper.PrettifyInjective | helper.go:18-23 | on rooted, dot-free ids the prettified id is a key, whatever hyphens and digits names contain |
| Helper.PrettifyHasNoSlash | helper.go:18-23 | no prettified id contains a slash |
| Helper.PrettifyReads | helper.go:18-23 | a prettified id splits at its last two hyphens into the name with dots for slashes and decimal numerals of port index and service port |
| Text.DigitsOfDec | files_manager.go:127 | a printed number is read back from its decimal digits |
| Helper.HealthCheckIs | helper.go:160-168 | the lower-cased protocol of the first health check for the port, or nothing if there is none |
| Helper.ApplicationIs | helper.go:127-158 | the protocol label decides, then the port's first health check, then the transport protocol, then TCP |
| Helper.MakeStringArray | helper.go:186-192 | an empty label gives no entry, any other is cut at every comma: no entry holds one, and joining the entries gives the label back |
| Helper.Contains | helper.go:98-106 | linear search decides membership |
| Helper.FindMissing | helper.go:116-125 | exactly the items of the first slice that the second lacks, in order |
| FileCompare.FileIsIdentical | helper.go:46-96 | true exactly when both files exist, sizes agree and the sequences of zero-padded buffers are equal, for arbitrary read lengths |
| FileCompare.FullReadsExact | helper.go:46-96 | with full reads the answer is equality of contents, for every size |
| FileCompare.IdenticalSound | helper.go:46-96 | with any reads, "identical" implies equality if both files are read in the same pieces or hold no NUL |
| FileCompare.SameCutsIdenticalIff | helper.go:46-96 | files read in the same pieces are called identical exactly when they are equal, whatever they hold |
| FileCompare.NulFreeIdenticalIff | helper.go:46-96 | NUL-free files, with arbitrary reads, are called identical exactly when they are equal and were read in the same pieces |
| FileCompare.NulHidesDifference | helper.go:75-94 | with short reads and NUL bytes different files can pass for identical |
| FileCompare.ShortReadsMissEquality | helper.go:75-94 | with short reads a file can differ from itself |
| Sorting.Sort | sorted_task_list.go:36-40 | an in-place swap sort permutes under every comparator and sorts under every strict weak order |
| Sorting.SwapsPermute | sorted_task_list.go:30-34 | any sequence of swaps whatsoever permutes |
| Sorting.SortedKeys | sorted_vhosts.go:23-36 | whatever order the map is ranged over in, the result is the one strictly increasing list of its keys |
| Sorting.IncreasingUnique | sorted_str_str_keys.go:23-36 | a key set has only one strictly increasing enumeration |
| Text.LessIff | sorted_task_list.go:18-28 | strings are in byte-wise order: after a common beginning the lesser one ends or has the lesser byte |
| TaskList.LessBothWays | sorted_task_list.go:18-28 | Less holds both ways exactly when both tasks have the port and hosts and ports are in opposite order |
| TaskList.SamePortIsOrder | sorted_task_list.go:18-28 | when all ports present at the index are equal, Less is a strict weak order, namely by host |
| TaskList.LinesConserved | haproxy_manager.go:448-457 | permuting tasks permutes the server lines of the running or stateless tasks that have the port |
| TaskList.LineIff | haproxy_manager.go:448-464 | a line is emitted exactly when some running or stateless task has the port, with the task's host, its port and its host's address |
| TaskList.LinesAre | haproxy_manager.go:448-464 | there are as many lines as such tasks, and each line occurs once for every task that has it |
| TaskList.LineAt | haproxy_manager.go:448-464 | the lines come in the order of the list: a task's line after those of the tasks before it |
| TaskList.EmitServers | haproxy_manager.go:448-464 | after the in-place sort the lines are those of the running or stateless tasks that have the port, each as often as it is due, and ascend by host when present ports are equal |
| Gateway.MakeGateway | haproxy_manager.go:550-693 | the nested loops over local tables emit the program that the vhost map determines, for HTTP and HTTPS |
| Gateway.TokenInjective | haproxy_manager.go:564-566 | on host patterns the mangled token determines the vhost |
| Gateway.TokenIs | haproxy_manager.go:564-566 | a token is the scheme's prefix and the vhost with underscores for dots and STAR for a leading star |
| Gateway.WildcardIff | haproxy_manager.go:568-576 | exactly the vhosts `*.d` with some domain d are wildcards, and match d; all others are matched exactly |
| Gateway.UnderscoreCollides | haproxy_manager.go:638-640 | off host patterns two vhosts can share a token |
| GatewayMeaning.GatewayPreservesMeaning | haproxy_manager.go:550-693 | for every host and every domain match, running the emitted ACLs and rules equals a direct lookup: exact vhost of the greatest app, else the least matching wildcard, else the default |
| GatewayMeaning.GatewayRoutesHosts | haproxy_manager.go:550-693 | the same for all vhosts over lower-case letters, digits, hyphen, dot and star |
| GatewayMeaning.RouteOf | haproxy_manager.go:560-582 | a token is routed exactly when it is claimed, and to the greatest claimant |
| GatewayMeaning.LeastHitWins | haproxy_manager.go:605-613 | a block of rules sends a host to the backend of the least token whose ACLs hold |
| GatewayMeaning.SharedTokenMisroutes | haproxy_manager.go:564-582 | any two different exact vhosts with one token send the first one's host to the second one's application |
| GatewayMeaning.AlwaysPreservedIff | haproxy_manager.go:550-693 | for any vhost map at all: program and lookup agree on every host under every domain match exactly when the tokens resolve, a condition on the map alone about who wins which shared token |
| GatewayMeaning.EvalIs | haproxy_manager.go:605-619 | what the emitted program does with a host for any vhost map: the least fired exact token, else the least matching wildcard token, else the default |
| GatewayMeaning.SpelledStarMisroutes | haproxy_manager.go:564-582 | an exact vhost spelled `STAR.d` takes every host of the wildcard `*.d` |
| HaproxyBatch.RunRepresents | haproxy_manager.go:109-207 | over every run of Apply, Update and Remove in which live keys do not collide, whatever happens to layouts: the fragments are those of the live snapshots, and both vhost tables are up to date on the keys of live ports |
| HaproxyBatch.LiveFollowsEvents | haproxy_manager.go:109-207 | the live snapshots change as events say: the last of its id in an Apply, an updated one, what a Remove leaves if it has tasks |
| HaproxyBatch.IncrementalEqualsBatchIff | haproxy_manager.go:109-207 | after any such run the fragments are those of one Apply of the live snapshots in any order, and a vhost table is that batch's exactly when it holds no stale key |
| HaproxyBatch.TidyIff | haproxy_manager.go:136-207 | one event leaves a table without stale keys exactly when every port that had vhosts is still there, and a suspended application has none |
| HaproxyBatch.IncrementalEqualsBatch | haproxy_manager.go:109-134 | a run of such events ends with the vhost tables of one Apply of the final snapshots |
| HaproxyBatch.SameLayoutIsTidy | haproxy_manager.go:306-330 | an update that keeps the port layout is such an event |
| HaproxyBatch.UpdateAfterApplyTableIff | haproxy_manager.go:179-207 | Apply and then Update against one Apply of the updated list: equal tables exactly when each port that had vhosts is still there |
| HaproxyBatch.MovedPortIsStale | haproxy_manager.go:276-330 | an input where it fails: an application moves its only port |
| HaproxyBatch.RunReplays | haproxy_manager.go:109-207 | over every run, with no assumption: the tables are those of one Apply of all snapshots configured since the last Apply |
| HaproxyBatch.ChangeKeepsCurrent | haproxy_manager.go:294-330 | a change of one application, of any layout, keeps the table up to date on all live ports |
| HaproxyBatch.PlainIdsDoNotCollide | helper.go:18-23 | rooted, dot-free ids satisfy the no-collision hypothesis |
| HaproxyDefault.DefaultAfterPorts | haproxy_manager.go:306-330 | after an update the default is the last port that claims it, or empty if its port withdrew, or unchanged |
| HaproxyDefault.BatchDefault | haproxy_manager.go:109-134 | Apply of separate applications leaves the last claim as the default |
| HaproxyDefault.DefaultEqualsBatchIff | haproxy_manager.go:306-330 | a table with the default of a batch still has the default of the updated batch exactly when the update claims it and nobody later does, or claims nothing and the default was another's, or withdraws the default and nobody else claims it |
| HaproxyDefault.UpdateAfterApplyDefaultIff | haproxy_manager.go:179-207 | the same for the manager: Apply and then Update against one Apply of the updated list |
| HaproxyDefault.RunDefaultEqualsBatchIff | haproxy_manager.go:306-330 | after any run the default is that of a batch exactly when the last claim since the last Apply that nobody withdrew is the batch's last claim |
| HaproxyDefault.DroppedLabelSticks | haproxy_manager.go:306-315 | an input where it fails: dropping the label alone keeps the old default |
| HaproxyInvariants.RunKeepsInvariant | haproxy_manager.go:306-330 | over every run vhost lists are non-empty, a set default has vhosts, and no inner cache map is empty |
| HaproxyInvariants.DefaultEmittedWhenSet | haproxy_manager.go:578-580 | after every run the gateway emits a default backend exactly when one is set |
| HaproxyInvariants.CacheRefinesFlatSet | haproxy_manager.go:808-838 | over every run the nested cache holds exactly the (app, task) pairs of a flat set |
| HaproxyInvariants.UpdateAliasesCache | haproxy_manager.go:205-207 | after an update every task of the application is cached, and all these entries are the last task |
| HaproxyInvariants.SectionConservesServers | haproxy_manager.go:448-457 | after any number of in-place sorts a port's section has exactly the server lines of the listed tasks |
| HaproxySections.ExposedIff | haproxy_manager.go:276-297 | a port gets a section exactly if it is defined, is TCP, and its group label, empty if missing, is a configured group or `*` is one |
| HaproxySections.SectionIs | haproxy_manager.go:299-457 | a port's section is named by id, index and port, has the definition's port, the kind of its application protocol and the lines of its running or stateless tasks |
| HaproxySections.UnnamedIsTcp | haproxy_manager.go:385-443 | a TCP port that neither label nor health check names gets a plain TCP section |
| HaproxySections.SectionAscends | haproxy_manager.go:448-457 | the lines of a port's section ascend by host when present ports are equal |
| HaproxySections.SectionAt | haproxy_manager.go:276-280 | the sections of an application come by port index, one for each included TCP port |
| HaproxySections.RenderedAt | haproxy_manager.go:476-483 | the configuration's sections are those of the fragments, the fragments in increasing order of their ids |
| HaproxySections.UpdatePublishesLabels | haproxy_manager.go:306-330 | after an update the HTTP and HTTPS tables hold under a port's key exactly what its `lb-vhost` and `lb-vhost-ssl` labels list |
| HaproxySections.UpdateSetsDefault | haproxy_manager.go:306-330 | after an update the default is the last port that has vhosts and the value `1` under its default label |
| HaproxyInvariants.ApplyEstablishesIntegrity | haproxy_manager.go:109-134 | after Apply of distinct ids every backend a gateway names is defined by a stored fragment |
| HaproxyInvariants.UpdateKeepsIntegrity | haproxy_manager.go:179-207 | an update that still defines the names it defined keeps that |
| HaproxyInvariants.UpdateIntegrityIff | haproxy_manager.go:179-207 | any update: integrity holds afterwards exactly when the gateways name no port that it takes away, and nothing that was undefined before |
| HaproxyInvariants.UpdateFromDefinedIff | haproxy_manager.go:179-207 | from defined tables: exactly when the gateways name no port that the application had and has no more |
| HaproxyInvariants.MovedPortBreaksIntegrity | haproxy_manager.go:276-330 | an input where it fails: an application moves its port and changes its vhost |
| HaproxyInvariants.RemoveKeepsIntegrityIff | haproxy_manager.go:136-160 | all of Remove, in terms of the snapshots before it: integrity holds afterwards exactly when the gateways name no port that it takes away (all ports of a destroyed or suspended application, the dropped ports of one with tasks left), and nothing that was undefined before |
| HaproxyInvariants.RemoveFromDefinedIff | haproxy_manager.go:136-160 | from defined tables only the ports taken away matter |
| HaproxyInvariants.SuspendedAloneIff | haproxy_manager.go:149-151 | removing the last task of an application nobody knew breaks integrity exactly when one of its ports has vhosts |
| HaproxyInvariants.RunIntegrityIff | haproxy_manager.go:109-207 | over every run, with no assumption: every named backend is defined exactly when the gateways name no port, of any snapshot since the last Apply, that no live application has any more |
| HaproxyInvariants.NamedIff | haproxy_manager.go:605-619 | a gateway names exactly its default and the applications that win a token |
| HaproxyInvariants.NamedIsKey | haproxy_manager.go:605-619 | a gateway names only keys of its vhost table |
| HaproxyManager.HaproxyMgr.MakeConfigForPort | haproxy_manager.go:294-462 | the field updates and the section of one port, tasks being sorted in place |
| HaproxyManager.HaproxyMgr.MakeConfig | haproxy_manager.go:264-283 | the fragment of the included TCP ports in order, and the effect on both vhost tables |
| HaproxyManager.HaproxyMgr.Apply | haproxy_manager.go:109-134 | is the state machine's Apply |
| HaproxyManager.HaproxyMgr.Update | haproxy_manager.go:179-207 | is the state machine's Update |
| HaproxyManager.HaproxyMgr.Remove | haproxy_manager.go:136-160 | is the state machine's Remove |
| HaproxyManager.HaproxyMgr.RemoveAppStateCacheEntry | haproxy_manager.go:830-838 | removes one pair and drops an inner map that becomes empty |
| HaproxyManager.HaproxyMgr.AssembleConfig | haproxy_manager.go:470-489 | the assembled configuration is a function of manager state and tail alone, whatever the map order, and ends in the tail |
| Reload.Reloader.WriteText | haproxy_manager.go:491-509 | temp file, check, stat, rotation and rename: a text that is not written or checked touches neither config nor its predecessor; the config is missing only after a rotation whose rename failed; if all go well the text is the config file |
| Reload.Reloader.ReloadIfNeeded | haproxy_manager.go:708-732 | starts, reloads or does nothing as pid file, process and comparison say |
| Reload.TickActs | haproxy_manager.go:708-732 | a tick starts exactly without pid file or process, reloads exactly a living process whose comparison sees a change, and a command that fails changes nothing |
| Reload.Reloader.Tick | haproxy_manager.go:79-95 | one tick is the world's step on the configuration rendered from current manager state; it panics exactly on an error of the tail, the write, the check or a rename |
| Reload.RunConverges | haproxy_manager.go:77-97 | over every run of ticks, handler calls and deaths with successful operations, after each tick the process is alive, is the only one, and runs exactly the configuration of current manager state |
| Reload.RunServes | haproxy_manager.go:77-97 | the same whatever other processes run: the process that the pid file names runs the configuration of current manager state |
| EndToEnd.VhostIsServed | haproxy_manager.go:77-207 | after a good tick the running configuration ends in the tail read and routes every vhost of a live port to the section of a live port that lists it, whose servers are exactly the running or stateless tasks of that snapshot that have the port, by host, port and address |
| EndToEnd.LivePortIsServed | haproxy_manager.go:385-457 | every exposed port of a live application has its section in the configuration, and all sections of its name have its port, kind and exactly the lines of its running or stateless tasks |
| Reload.QuietWhenUnchanged | haproxy_manager.go:708-732 | after a tick, handler calls that leave the rendering unchanged make the next tick start and reload nothing |
| Reload.TailShows | haproxy_manager.go:485-489 | over one manager state configurations are equal exactly when their tails are |
| Reload.ChangedTailIsServed | haproxy_manager.go:77-97 | changing the tail file alone makes the next good tick reload, and the process then runs the text with the new tail |
| Reload.TickConvergesIff | haproxy_manager.go:708-732 | a tick whose operations all succeed converges, from any world, exactly when the pid file parses, no other process runs, and a comparison that sees no change finds the process running the text |
| Reload.FailedReloadSticks | haproxy_manager.go:726-729 | after a failed reload the old configuration keeps running through any number of successful ticks |
| FilesManager.FilesManager.MakeContent | files_manager.go:110-130 | the loop that writes the complete text of one instances file, which ContentLines takes apart |
| FilesManager.ContentLines | files_manager.go:110-130 | the text is, line by line, the header fields, an empty line and one line for each task that has the port, in task order: its host and, after the last colon, the decimal numeral of its port |
| FilesManager.ContentReadsBack | files_manager.go:110-130 | cutting a file at LF gives these lines back, if no field or host holds an LF |
| FilesManager.NamesRead | files_manager.go:85-88 | file and temp file name, read from their ends: suffix, service port, port index and the name with dots for slashes |
| FilesManager.FilesManager.PublishFile | files_manager.go:96-105 | in every branch one atomic step leaves the new content under the final name and no temp file |
| FilesManager.FilesManager.WriteApp | files_manager.go:82-108 | every state on the way has some ports done and at most one temp file in progress; exactly the ports before the first failed write are done and returned |
| FilesManager.FilesManager.Sweep | files_manager.go:72-77 | removes exactly the old files that were not written, one by one |
| FilesManager.FilesManager.Apply | files_manager.go:55-80 | atomic publish at every intermediate state; under any write faults the directory ends as exactly the files of the written ports, but for temp files of failed writes, and an old file survives exactly when a port wrote it; without faults it is exactly the wanted files |
| FilesManager.OnTheWayIsGood | files_manager.go:85-106 | no intermediate state shows a file that is neither an old complete one nor a complete rendering |
| FilesManager.LastOwnerWins | files_manager.go:67-70 | each wanted name holds the rendering of the last port that maps to it |
| FilesManager.LastDeliveredWins | files_manager.go:67-70 | under faults each published name holds the rendering of the last written port that maps to it |
| FilesManager.PublishedAreDelivered | files_manager.go:82-108 | the delivered names are those of the ports with no fault at or before them in their application |
| FilesManager.EveryPortHasItsFile | files_manager.go:85-88 | with distinct plain ids every port's file holds its own rendering |
| FilesManager.WantedKeys | files_manager.go:67-70 | a name is wanted exactly when some port maps to it |
| FilesManager.TempsAreNotInstances | files_manager.go:87-88 | temp names and instances names never meet |
| UdpProxy.Frontend.ClearTouch | udpproxy/udpproxy.go:167-171 | no backend is touched, counters stay |
| UdpProxy.Frontend.AddBackend | udpproxy/udpproxy.go:189-204 | the backend of that name, or a new one at the end if the address resolves, or nothing |
| UdpProxy.Frontend.RemoveUntouched | udpproxy/udpproxy.go:174-186 | the touched backends remain, in order |
| UdpProxy.Frontend.RoundRobin | udpproxy/udpproxy.go:237-244 | exactly one backend, the first, counts one send |
| UdpProxy.Frontend.Multicast | udpproxy/udpproxy.go:230-234 | every backend counts one send |
| UdpManager.Reconcile | udp_manager.go:102-124 | survivors are the same objects, in their old order with unchanged counters; new backends follow in task order, and each has the name `host-id` and the resolved address `host:port` of an alive task |
| UdpManager.ReconciledMember | udp_manager.go:111-122 | afterwards exactly the alive tasks already present or resolvable are there |
| UdpManager.ReconciledFollowsTasks | udp_manager.go:111-122 | a present name stays exactly if an alive task has it, another is added exactly if an alive task has it whose `host:port` resolves |
| UdpManager.UdpPortFollowsTasks | udp_manager.go:102-124 | so it is for the frontend of every UDP port of an application, if it was there or can be opened |
| UdpManager.ReconciledDistinct | udp_manager.go:111-122 | distinct names stay distinct, whatever names the tasks repeat |
| UdpManager.ReconcileIdempotent | udp_manager.go:102-124 | reconciling again with the same snapshot changes nothing, not even the order |
| UdpManager.UdpManager.GetFrontend | udp_manager.go:54-83 | the present frontend, or a new empty one under the port's name with the labelled scheduler, or an error |
| UdpManager.UdpManager.ApplyApp | udp_manager.go:102-131 | every UDP port is reconciled and nothing else: of each frontend's backends the surviving ones are the same objects in their order with their send counts, whatever else there is was made now and stands for an alive task's `host:port` on a UDP port of that frontend, and other frontends keep their lists |
| UdpManager.UdpManager.Apply | udp_manager.go:43-52 | the same for a list of applications, objects and send counts included, without removing frontends of others |
| UdpManager.UdpManager.RemoveApp | udp_manager.go:85-100 | drops exactly the frontends with that prefix, which for a rooted id is none |
| UdpManager.UdpManager.Remove | udp_manager.go:133-139 | re-applies a remaining application, and leaves all frontends of a destroyed one |
| UdpMessages.SendsConserved | udpproxy/udpproxy.go:230-244 | at every point of every run, counted plus pending sends over live and swept backends are one per round-robin message plus the backend count of each multicast |
| UdpMessages.Traffic.Deliver | udpproxy/udpproxy.go:68-69 | on the objects: a pending Send of a listed or swept backend counts once, and conservation holds again |
| UdpMessages.Traffic.RoundRobinAtOnce | udpproxy/udpproxy.go:237-244 | Frontend.RoundRobin is a dispatch to the first backend and its send |
| UdpMessages.Traffic.MulticastAtOnce | udpproxy/udpproxy.go:230-234 | Frontend.Multicast adds one send for every listed backend and none for others |
| UdpMessages.MulticastIsSends | udpproxy/udpproxy.go:230-234 | that is the Multicast step followed by the Send steps of its goroutines, one for each live backend |
| UdpMessages.Traffic.ReconcileWith | udp_manager.go:111-122 | the reconciliation of applyApp is the machine's step: counters of swept backends remain in the sum |
| UdpMessages.PendingCanBeSent | udpproxy/udpproxy.go:68-69 | a pending send can still be counted after its backend was swept |
| Sse.RoundTrip | sse.go:129-173 | printed events, with any comments between, either line ending and wherever the stream breaks off in the next line, are dispatched exactly and in order; ids and delays are remembered, and nothing else is carried over |
| Sse.LastIdStays | sse.go:165-166 | the id remembered is the last one printed |
| Sse.LastDelayStays | sse.go:167-170 | the delay remembered is the last one printed that fits into 64 bits |
| Sse.OtherFieldIgnored | sse.go:151-171 | other fields, and a delay that is no number, change nothing |
| Sse.BareField | sse.go:151-157 | a field name alone is the field with an empty value |
| Sse.TrimIs | sse.go:138 | trimming takes the line breaks off both ends, and all of them |
| Text.AtoiOfNumeral | sse.go:168 | signed numerals are read back up to 64 bits, and are errors beyond |
| Sse.WireFolds | sse.go:130-146 | comments and the choice of LF or CRLF do not matter, and an unfinished line at the end is lost |
| Sse.DataRecoverable | sse.go:162-164 | the data lines of a dispatched event come back by splitting at CR |
| Sse.CrashesIff | sse.go:151-154 | the loop crashes exactly when a complete non-comment line has a colon but no colon-space |
| SseClient.EventSource.DispatchEvent | sse.go:66-81 | once closed, no handler is called and the history stays; otherwise the type's handler is, or else the message handler |
| SseClient.EventSource.Run | sse.go:83-174 | extends the history; the dispatches are those of the parsed body; what is handled is, in order, all of them that have a handler, or a beginning of these if a callback closes; closed stays closed; a connection is announced once, directly after the start and exactly if there is one, and the end of a run is reported unless it crashed |
| SseClient.EventSource.RunForever | sse.go:176-192 | extends the history; reports one error for each run and one for each reconnection; at most one run starts after Close, also if the source was closed before, and it returns when closed |
| SseClient.EventSource.Close | sse.go:194-198 | the state is CLOSED |
| SseClient.NoLateEvents | sse.go:66-70 | a summary without late events says that no handler runs after a Close in the whole history |
| Dns.DnsNameInjective | dns_manager.go:130-139 | on plain ids the reversed name is a key |
| Dns.DnsNameReads | dns_manager.go:130-139 | cut at its dots, the name of a plain id is the id's segments backwards |
| Dns.DnsNamesCollide | dns_manager.go:130-139 | two ids share a name exactly when their segments, backwards and cut at dots, give the same labels |
| Dns.DottedIdsCollide | dns_manager.go:130-139 | ids `/x.y` and `/y/x` always share a name |
| Dns.MakeDnsNameFromAppId | dns_manager.go:130-139 | the reversing loop and the joining |
| Dns.LookupFindsLastSnapshot | dns_manager.go:88-160 | after any run in which no other application shares its name, the query for an application finds exactly the last snapshot that resolved and was not dropped since, or nothing |
| Dns.PlainIdsHaveNoRivals | dns_manager.go:130-139 | on plain ids that hypothesis holds |
| Dns.ResolvableIsTaken | dns_manager.go:88-128 | with resolvable hosts Apply takes every application, with one address per task in task order |
| Dns.QueryAnswersLastSnapshot | dns_manager.go:88-194 | after any run in which no other application shares its name, an A query for an application is answered with exactly the resolved hosts of the tasks of its last snapshot, in task order, or with nothing |
| Dns.QueryFollowsEvents | dns_manager.go:88-194 | event by event: an update that resolves replaces the answer, a removal empties it, an Apply answers from the last application of that id before the first that does not resolve, other events leave it alone |
| Dns.TrimIs | dns_manager.go:155-156 | the base name is cut off, or the name does not end in it and stays |
| Dns.DnsManager.UpdateApp | dns_manager.go:106-128 | stores the snapshot under its own name, or leaves the table alone if a host does not resolve |
| Dns.DnsManager.Apply | dns_manager.go:88-100 | empties the table and stores applications up to the first that fails; every state between locked steps holds entries under their own names |
| Dns.DnsManager.Remove | dns_manager.go:141-149 | drops the name of a destroyed application, or stores the remaining snapshot |
| Dns.DnsManager.DnsHandler | dns_manager.go:151-175 | an A query is answered with one address record for each address in order, and beside them the service records if so configured; an SRV query with one service record for each task and port, `host.` and the port in 16 bits; any other, and any unknown name, with nothing |
| Dns.AnswersAre | dns_manager.go:161-172 | the same of the answer as a function of the entry found |
| Dns.DnsManager.MakeAllA | dns_manager.go:177-194 | one record per address, in order |
| Dns.DnsManager.MakeAllSRV | dns_manager.go:196-218 | the records SRVRecords of the tasks |
| Dns.SRVRecordAt | dns_manager.go:196-218 | there is one SRV record for every task and port, in that order, with the port reduced to 16 bits |

## Left out

- HaproxyManager.HaproxyMgr.Update: does not model the enable and disable commands sent to a running HAProxy, which depend on aliased cache values and live process state, nor the index panic when the cached task has fewer ports.
- HaproxyManager.HaproxyMgr.MakeConfigForPort: all literal option text of a section is one uninterpreted string; the order that sorting leaves tasks in is a parameter, and the task list is a value that is passed along, so its in-place sorting is not seen by other handlers.
- GatewayMeaning.GatewayPreservesMeaning: an empty vhost, as in `a,,b`, counts as an exact match of the empty host; HAProxy's domain match is an arbitrary predicate.
- HaproxyBatch.IncrementalEqualsBatch: says nothing about the vhost default, which is not a function of the snapshots; HaproxyDefault.RunDefaultEqualsBatchIff says when it agrees.
- Reload.Reloader.Tick: the printing of a configuration is an arbitrary function; hooks, and a pid that another program reuses, are not modelled.
- Reload.RunConverges: no pid file that does not parse.
- FilesManager.FilesManager.Apply: errors of listing, stat, rename and remove, sub-directories and short reads that differ between the two files of a comparison are not modelled.
- FilesManager.ContentReadsBack: fields and hosts without LF, as nothing escapes them; ContentLines assumes nothing.
- UdpManager.UdpManager.ApplyApp: the serving goroutine is not started; in the source it dereferences a null frontend when the socket could not be opened.
- UdpManager.UdpManager.GetFrontend: the bind address and the closing of sockets are not modelled; which frontends can get their socket is a parameter.
- UdpManager.UdpManager.Apply: that new backends start with no sends is stated for one frontend (UdpManager.Reconcile), not for the whole manager.
- Sorting.Sort: stands for the library sort by its insertion phase; SwapsPermute covers every other sequence of swaps.
- Sse.RoundTrip: fields of one event are printed in a fixed order; the wrap-around of a huge retry delay in nanoseconds is not modelled.
- SseClient.EventSource.RunForever: runs over a finite list of connections; sleeping and a Close from another goroutine are not modelled.
- Dns.DnsManager.DnsHandler: record headers and the conversion to IPv4 are not modelled.
- The HTTP API (api.go), flag parsing and event unmarshalling (main.go), HAProxy's admin socket, hooks, the response goroutines and timeouts of UDP sends, `Proxy` in udpproxy/udpproxy.go, `parseRange`, `Hash`, `locateExe` and the printing methods: input/output or easy members.
