# KDM core, modelled and proved

KDM is an X display manager. Its daemon starts X servers and sessions, answers XDMCP
packets and schedules shutdowns; its helpers read, write and merge configuration texts.
This project models the parts of it that decide something, and proves what they promise.

Two kinds of Dafny stand side by side. Code that changes things step by step is a class or
a method with loops (`Manager`, `IniFile`, `IniMerge`, `ArgQuoting`, `Glob`, `Access`, `AccessWords`,
`AccessReader`, `AccessTransport`, `XdmcpServer`, `ConfigTransport`, `Choices`, `UserGroups`, `Shutdown`). Each of these is proved
against a function over values, and the properties are lemmas about those functions, over all
inputs, all events or all runs. Dafny's automatic induction is turned off for every lemma, so
that each proof is the one in its body.

| part | modules |
|---|---|
| display lifecycle and X server start | `DisplayRecord`, `Lifecycle`, `LifecycleInvariant`, `LifecycleTheorems`, `LaunchBound`, `ServerProcesses`, `ForgottenServers`, `OutlivingServer`, `SessionEnds`, `LifecycleLaws`, `Manager` |
| ini text editing | `IniText`, `IniLines`, `IniEdit`, `IniFile`, `IniMerge`, `IniOverride`, `IniLaws` |
| argument quoting | `ArgText`, `KdmrcValue`, `ArgQuoting`, `QuotingLaws` |
| XDMCP access lists | `Glob`, `AccessTable`, `Access`, `AccessWords`, `AccessReader`, `AccessTransport`, `AccessKeywords`, `AccessPatterns`, `AccessLaws`, `AccessDecision` |
| XDMCP sessions | `Xdmcp`, `XdmcpSafety`, `XdmcpTheorems`, `XdmcpReplies`, `XdmcpServer` |
| configuration transport | `Wire`, `ConfigTransport`, `ConfigValue` |
| indirect choices | `Choices` |
| user and group lists | `UserGroups` |
| scheduled shutdown | `Shutdown`, `ShutdownSafety` |

Foreign calls are inputs: the process ID that `fork()` returns, exit codes, the clock, DNS
answers, who is logged in, what the policy functions for XDMCP say. Integers are unbounded;
where the width matters it is written out (32-bit session IDs and value IDs, the unsigned age
of a pending session, the `short` fields of the access table, the 64K limit of the pipe).

## Where the code does not do what it promises

The code is modelled as it is; the lemmas named give a failing input or the exact condition.

- `patternMatch` decides its glob language for every string exactly if the pattern does not
  end in two unquoted stars; `a**` does not match `a` (`Glob.RightIffNoTwoStars`). It stays
  inside every string exactly if no backslash is left alone at the end of the pattern, or that
  one is behind a star (`Glob.StaysInside`). The check of the access file leaves the texts only
  for a pattern with such a backslash that a rule leads to (`AccessTable.InsideIsChains`); a file
  that makes it do so is given (`AccessPatterns.LoneBackslash`).
- `parseArgs` and `splitArgs` stay inside their text exactly if every quote is closed
  (`ArgText.SplitsClosed`). An argument with a newline, written to the configuration file and
  read back, ends the line inside a quote, and an empty argument is lost
  (`KdmrcValue.ChainRoundTrip`, `ArgText.SplitUndoesJoin`).
- A D_XConnOk message clears `startingServer` whoever sends it. Launches are safe in all states
  of a run exactly if no such message comes while one is in progress
  (`LifecycleTheorems.StartSafety`, `LifecycleTheorems.XConnOkExact`); a run in which one does is
  given (`LifecycleTheorems.XConnOkCounterexample`). If it comes from the display that was
  launched last, with its session alive, none is (`LifecycleTheorems.XConnOkInOrder`).
- A server that survives SIGKILL is forgotten when a due timer launches its display anew, which
  overwrites the process ID; no event forgets one in another way (`ForgottenServers.ForgottenInRuns`).
  A record is removed while a server of it has not been reaped exactly if one was forgotten
  before, or that relaunch is the last attempt and cannot fork (`ForgottenServers.RemovedWithServer`).
  A run from the start is given for either way (`OutlivingServer.SecondServerDies`,
  `OutlivingServer.RelaunchCannotFork`).
- To `iniEntry` a line `#x=1` inside a section is an entry for the key `#x`, which merging does
  not carry over (`IniMerge.CommentedEntry`). Merging overrides one map by the other exactly if
  no comment inside a section has a `=` (`IniOverride.OverridesExactly`).
- A MANAGE whose display name cannot be computed is answered with FAILED and keeps the
  pending session (`XdmcpTheorems.ManageLeaves`).
- A user called `@g` clashes with the line of group `g`, and a name can be lost from the lists
  when the range changes: exactly if such a user stays while the group goes, or leaves while the
  group is there all the time (`UserGroups.NoneLost`, in `UserGroups.KDModule.SlotMinMaxUID`).
  `UserGroups.ClashingName` runs into it.
- A line of the access file goes on behind a backslash that stands alone at its end, but not
  behind one right after a word (`AccessLaws.LineGoesOn`, `AccessLaws.LineBreaksOff`).
- The flags for "no broadcast queries" and "use the chooser" are one bit
  (kdm/backend/greet.h:274-275). An allowing rule is obeyed exactly if it asks for the chooser
  only with a host in its list, and against broadcast queries only without one
  (`AccessKeywords.ObeyedExactly`). A rule for the chooser without hosts refuses broadcast
  queries, and one against broadcast queries with a host opens the chooser
  (`AccessKeywords.ChooserRefusesBroadcasts`, `AccessKeywords.NoBroadcastOpensChooser`).
- The daemon keeps the access table in `short` numbers, the reader in `int`. The table arrives
  exactly if all its counts are below 32768 and its strings below 64K
  (`AccessTransport.TransferAccess`, `AccessTransport.ArrivesExactly`). A count from 32768 on is
  taken for a negative one, with which the daemon has no table (`AccessTransport.NegativeCount`);
  65536 hosts are taken for none, and the first of them for LISTEN lines
  (`AccessTransport.TooManyHosts`).
- The list of indirect hosts is looked at from its head only. That is right throughout a run
  exactly if every host is registered to expire last (`Choices.RunRight`). After a clock that
  goes back, or a waiting time that is made shorter, an expired host can stay unnoticed
  (`Choices.Unnoticed`).

## Model

In the rows on displays a run is one in which no process ID is given out that is in use, and
no ready message comes while the server timer is set; `LifecycleTheorems.StartSafety` is about
the runs in which one comes, too.

| member | source | states |
|---|---|---|
| LifecycleTheorems.StartSafety | kdm/backend/server.c:76-189 | over every run from the empty table, whatever forks, exit codes and clock there are: in all states at most one display is being launched, it is `startingServer`, listed, in status running without a session, and the timer is set exactly then and finds it in one of the four handled phases, if and only if no ready message comes while the timer is set |
| LifecycleTheorems.StatusSafety | kdm/backend/dm.c:942-1113 | in every reachable state a zombie has a live process, phoenix and remoteLogin have a live server and no session, a raiser has a session, notRunning and reserve have none |
| LifecycleInvariant.StepOk | kdm/backend/dm.c:1177-1305 | every event keeps the whole invariant of the display table, a ready message as long as the server timer is not set |
| LifecycleInvariant.RunInv | kdm/backend/dm.c:1177-1305 | so does every run |
| LifecycleInvariant.ReapOk | kdm/backend/dm.c:943-1117 | reaping any process, known or not, keeps the invariant |
| LifecycleInvariant.KickOk | kdm/backend/dm.c:1322-1328 | kicking a display keeps it, whether or not its session or server can be forked |
| LifecycleInvariant.ExitDisplayOk | kdm/backend/dm.c:1558-1619 | the end of a session repairs a record that the reaping has left out of order |
| LifecycleInvariant.StartServerTimeoutOk | kdm/backend/server.c:162-189 | an expired timer keeps it in each start phase |
| LifecycleTheorems.XConnOkExact | kdm/backend/dm.c:772-774 | the ready message keeps the invariant if and only if the server timer is not set |
| LifecycleTheorems.XConnOkInOrder | kdm/backend/dm.c:772-774 | a ready message of the display that was last launched, with its session alive, finds the timer not set |
| LifecycleTheorems.XConnOkCounterexample | kdm/backend/dm.c:772-774 | a run of two displays after which a launch is in progress with no `startingServer` |
| LifecycleTheorems.RemovedIsDead | kdm/backend/dm.c:1515-1549 | when a record is removed, the session process in it is gone, and the server process in it is gone too unless a relaunch that is the last attempt cannot fork |
| ServerProcesses.StepSources | kdm/backend/dm.c:943-1117 | whatever happens, the process IDs of a record are those it had, or the one that was launched by the event |
| ServerProcesses.ForgottenExactly | kdm/backend/server.c:76-189 | a record loses the ID of a server that has not been reaped if and only if a due timer launches the server anew |
| ForgottenServers.ForgottenInRuns | kdm/backend/server.c:76-189 | over every run: the set of servers that no record knows and nobody has reaped gains exactly the one that such a relaunch overwrites |
| ForgottenServers.RemovedWithServer | kdm/backend/dm.c:1515-1549 | over every run: a record is removed while a server of it has not been reaped if and only if one was forgotten before or the last relaunch cannot fork; its session is gone in any case |
| ForgottenServers.TrackedRun | kdm/backend/server.c:76-111 | every server in a record is one that was launched and not reaped, and no other record has its ID, over every run |
| OutlivingServer.RelaunchCannotFork | kdm/backend/server.c:145-189 | a run from the empty table in which the last relaunch cannot fork: the record goes and its stuck server stays |
| OutlivingServer.SecondServerDies | kdm/backend/server.c:145-189 | a run in which the relaunch does fork and the second server dies: the record goes, and the first server, forgotten, stays |
| LifecycleTheorems.ZombieConfluence | kdm/backend/dm.c:1514-1619 | the two processes of a zombie can be reaped in either order: the world is the same, the display has reached the state it was last stopped towards, and no other has changed |
| LifecycleTheorems.ZombieStep | kdm/backend/dm.c:1514-1619 | any other event leaves a zombie a zombie, with the end state of its last stop |
| LifecycleTheorems.ZombieRun | kdm/backend/dm.c:1514-1619 | over a whole run a zombie stays one until its last process is reaped, and then is where its last stop wanted it |
| LifecycleTheorems.StepKeeps | kdm/backend/dm.c:943-1117 | no event changes the record of a display it is not about |
| LaunchBound.PhaseStep | kdm/backend/server.c:145-189 | while a display is being launched, the measure of attempts, phase and live server never grows, and falls at every timeout, fork failure and reaped server |
| LaunchBound.TimerProgress | kdm/backend/server.c:162-189 | an expired timer lowers the measure, and counts an attempt exactly when it launches |
| LaunchBound.AttemptBound | kdm/backend/server.c:113-119 | one `startServer` launches the server at most `serverAttempts` times before the display leaves the start phases |
| LaunchBound.DriveBound | kdm/backend/server.c:145-189 | the timeouts, fork failures and reaped servers of one launch are bounded by the measure at its start |
| SessionEnds.CodeDecides | kdm/backend/dm.c:953-1034 | from the exit code, the kind of display, its server, its failures and `terminateServer` alone: whether a running display goes on, with which server and count of failures, or where it ends |
| SessionEnds.PhoenixExactly | kdm/backend/dm.c:1558-1619 | its server has to go before the next session if and only if it lives, there is to be a next one, no failure is one too many, and the code or the configuration spoils it |
| SessionEnds.RaiserGoesOn | kdm/backend/dm.c:1558-1619 | a session that was asked to end counts as no failure and keeps its server, unless all servers have to go |
| SessionEnds.NoneFollows | kdm/backend/dm.c:1558-1619 | with a stop or a due shutdown, or on a transient display, no session follows, whatever the code |
| SessionEnds.NoneOnSpoilt | kdm/backend/dm.c:1015-1021 | over every run: after an exit code that spoils the server, the display has no session until that server has been reaped |
| LifecycleLaws.KickIgnored | kdm/backend/dm.c:1322-1328 | when a kick does nothing |
| LifecycleLaws.KickStartsSession | kdm/backend/dm.c:1415-1457 | an idle display with a server has its session from now on, or stays idle if that cannot be forked |
| LifecycleLaws.KickQueues | kdm/backend/dm.c:1415-1457 | one without a server waits while another is being launched |
| LifecycleLaws.KickLaunches | kdm/backend/server.c:77-119 | a free launch slot is taken, with a first try and `serverTimeout` seconds for it |
| LifecycleLaws.ReadyStarts | kdm/backend/server.c:135-142 | the ready signal ends the launch and starts the session, at the present time |
| LifecycleLaws.TooEarlyOrLate | kdm/backend/dm.c:1241-1279 | a signal while no server is starting, or a timer that is not due, changes nothing |
| LifecycleLaws.PhaseTimes | kdm/backend/server.c:162-189 | a slow server has `serverTimeout` seconds more after SIGTERM and ten after SIGKILL |
| LifecycleLaws.StuckPauses | kdm/backend/server.c:145-189 | one that survives this is given up for `openDelay` seconds, if there may be another attempt |
| LifecycleLaws.DeadPauses | kdm/backend/dm.c:1035-1108 | so is one that dies before it is ready |
| LifecycleLaws.PauseRelaunches | kdm/backend/server.c:77-111 | the attempt after a pause is counted and timed like the first |
| LifecycleLaws.ServerDeath | kdm/backend/dm.c:1035-1108 | outside a launch the death of a server makes a phoenix idle and a remote login idle or reserve, and leaves any other status but that of a zombie |
| LifecycleLaws.AskedToEnd | kdm/backend/ctrl.c:793-855 | who can ask a session to end for a new one |
| LifecycleLaws.AskedGoesOn | kdm/backend/ctrl.c:793-855 | when that session ends, the display goes on with a failure count of zero and its server, unless all servers have to go |
| LifecycleLaws.LoginOtherwise | kdm/backend/ctrl.c:832-855 | a login command leaves a user alone that it may not nuke, and wakes a display in reserve |
| LifecycleLaws.RescanMoves | kdm/backend/resource.c:459-468 | a display listed again is in reserve if and only if its line says so, while it is idle; a session is not disturbed |
| LifecycleLaws.WakesLast | kdm/backend/dpylist.c:90-102 | of the displays in reserve the last of the list is woken |
| Manager.Manager.RStopDisplay | kdm/backend/dm.c:1515-1549 | the in-place handler does to the table of displays what `Lifecycle.RStop` says, and nothing else |
| Manager.Manager.StartServerOnce | kdm/backend/server.c:77-111 | counts and records a launch, or its failure |
| Manager.Manager.StartServerFailed | kdm/backend/server.c:145-159 | pauses before the next attempt, or stops the display |
| Manager.Manager.StartServerTimeout | kdm/backend/server.c:162-189 | goes on to the next phase of a launch |
| Manager.Manager.StartServerSuccess | kdm/backend/server.c:135-142 | ends the launch and starts the session |
| Manager.Manager.AbortStartServer | kdm/backend/server.c:122-132 | frees the start slot if the display holds it |
| Manager.Manager.StartDisplay | kdm/backend/dm.c:1415-1457 | starts a display, or makes it wait for its server |
| Manager.Manager.KickDisplay | kdm/backend/dm.c:1322-1328 | starts a display that is not running, and launches its server if the slot is free |
| Manager.Manager.ExitDisplay | kdm/backend/dm.c:1558-1619 | what becomes of a display whose session has ended |
| Manager.Manager.RestartDisplay | kdm/backend/dm.c:1584-1616 | the part of it that starts the display again, or gives up |
| Manager.Manager.ReapSession | kdm/backend/dm.c:953-1034 | the exit code of a session decides how the display ends |
| Manager.Manager.ReapServer | kdm/backend/dm.c:1035-1108 | the death of a server, by the status of its display |
| Manager.Manager.Reap | kdm/backend/dm.c:943-1117 | finds the display of a process, as session first and then as server |
| Manager.Manager.KickDisplays | kdm/backend/dm.c:1403-1412 | the loop over all displays is the run of one kick for each, in order |
| Manager.Manager.StopAll | kdm/backend/dm.c:656-667 | the loop that stops all displays is the run of one stop for each |
| Manager.Manager.NewDisplay | kdm/backend/dpylist.c:247-285 | a fresh record at the head of the list, all others as they were |
| Manager.Manager.RemoveDisplay | kdm/backend/dpylist.c:196-233 | unlinks one record and no other |
| Manager.Manager.StartReserveDisplay | kdm/backend/dpylist.c:90-102 | wakes the last idle reserve display of the list, and says if there was one |
| Manager.Manager.HandleReady | kdm/backend/dm.c:1276-1279 | SIGUSR1 ends a launch that waits for it, and does nothing else |
| Manager.Manager.HandleTimer | kdm/backend/dm.c:1241-1244 | a due timer is switched off and its handler run |
| Manager.Manager.ReadyMessage | kdm/backend/dm.c:772-774 | frees the start slot, whoever sends it |
| Manager.Manager.SetUserSess | kdm/backend/dm.c:714-718 | records who is logged in |
| Manager.Manager.SuicideCommand | kdm/backend/ctrl.c:793-799 | a running session that asks for it is to be restarted |
| Manager.Manager.LoginCommand | kdm/backend/ctrl.c:832-855 | a greeter, or with force any session, is to be restarted; a reserve display is woken |
| Manager.Manager.FoundServer | kdm/backend/resource.c:459-468 | a display listed again moves between idle and reserve, and keeps its status otherwise |
| Manager.Manager.LoadDisplayResources | kdm/backend/dm.c:1307-1319 | only an idle display takes over a new configuration |
| Manager.Manager.FindDisplayByPid | kdm/backend/dpylist.c:145-153 | the first display with that session process |
| IniFile.IniEntry | kdm/backend/inifile.c:117-204 | a lookup is a lookup in the map that the text means; setting is exactly an update of that map with the trimmed value, in all four insertion cases; the text still ends in a newline and differs in one place only |
| IniFile.Splice | kdm/backend/inifile.c:178-203 | the new text is the kept parts around what is inserted, and fills the computed size to the last byte |
| IniFile.KeyStep | kdm/backend/inifile.c:135-137 | the character-wise key test recognises exactly the lines that are read as an entry for the key |
| IniLines.HeaderAt | kdm/backend/inifile.c:131-133 | the character-wise header test recognises exactly the headers of the section |
| IniEdit.EntryBehind | kdm/backend/inifile.c:164-166 | a line put behind text in the section that lacks the key adds that entry and changes no other |
| IniEdit.ReplaceValue | kdm/backend/inifile.c:137-147 | replacing the value of the first entry for a key updates that entry and changes no other |
| IniEdit.SectionBehind | kdm/backend/inifile.c:167-177 | a new section with one entry adds that entry and changes no other |
| IniText.ConcatMap | kdm/backend/inifile.c:117-159 | the map of two texts one after the other, the first entry for a key counting |
| IniMerge.IniMerge | kdm/backend/inifile.c:207-260 | merging sets exactly the entries that are read from the second text, in order, for any second text |
| IniMerge.MergeOverrides | kdm/backend/inifile.c:207-260 | for texts that both functions read alike, merging overrides the one map by the other |
| IniOverride.OverridesExactly | kdm/backend/inifile.c:207-260 | for a second text of blank lines, comments, plain headers and entries of which none is repeated, merging overrides the map of every first text if and only if no comment inside a section has a `=` |
| IniOverride.AssignedNoHash | kdm/backend/inifile.c:222-228 | no entry that is merged has a key that starts with `#` |
| IniLaws.EntryAmongBlanks | kdm/backend/inifile.c:117-159 | a line is the entry for its key, wherever it has spaces and tabs |
| IniLaws.HeaderAmongBlanks | kdm/backend/inifile.c:117-159 | and a header for what is in its brackets, whatever follows them |
| IniLaws.NothingAmongBlanks | kdm/backend/inifile.c:117-159 | a line of blanks says nothing |
| IniMerge.CommentedEntry | kdm/backend/inifile.c:222-228 | a commented-out entry inside a section is one for `iniEntry`, and is not merged |
| ArgText.SplitUndoesJoin | kdm/kfrontend/genkdmconf.c:1222-1352 | splitting what was joined gives the list without its empty arguments, for every list; that is the list itself exactly if none is empty |
| ArgText.JoinedRead | kdm/kfrontend/genkdmconf.c:1222-1352 | the same for both levels of backslashes, that is for both splitters |
| ArgText.SplitsClosed | kdm/backend/util.c:394-458 | a splitter stays inside the text if and only if every quote is closed |
| KdmrcValue.ChainRoundTrip | kdm/kfrontend/kdm_config.c:557-581 | join, then read as the value of a line, then parse: the list without its empty arguments, or an open quote exactly if some argument has a newline |
| KdmrcValue.LineJoined | kdm/kfrontend/genkdmconf.c:1308-1352 | what the configuration line keeps of a joined list with a newline in it |
| KdmrcValue.TrimmedJoined | kdm/kfrontend/kdm_config.c:556-581 | unescaping and trimming takes off one layer of backslashes and the separators of empty arguments at the end |
| ArgQuoting.JoinArgs | kdm/kfrontend/genkdmconf.c:1308-1352 | writes the joined text and its terminator into a buffer of the counted length, which has one character to spare |
| ArgQuoting.CountArg | kdm/kfrontend/genkdmconf.c:1318-1326 | the length counted for an argument is the length of what is written for it |
| ArgQuoting.CountWord | kdm/backend/util.c:407-428 | the length pass: the length and end of a word, or an open quote |
| ArgQuoting.CopyWord | kdm/backend/util.c:435-455 | the copy pass fills exactly the buffer that the length pass asked for |
| ArgQuoting.ParseArgs | kdm/backend/util.c:394-458 | appends exactly the words of the text |
| ArgQuoting.SplitArgs | kdm/kfrontend/genkdmconf.c:1222-1305 | the same for the doubly escaped text |
| ArgQuoting.ReadValue | kdm/kfrontend/kdm_config.c:557-581 | leaves the unescaped, trimmed value in place of the line, changes nothing outside the line, and reports a backslash that ends it |
| QuotingLaws.BareQuoted | kdm/backend/util.c:394-458 | each argument that is not empty can be written with backslashes alone: how many before which character, for either splitter |
| QuotingLaws.DoubleQuoted | kdm/backend/util.c:394-458 | the same between double quotes, and empty ones, too |
| QuotingLaws.SingleQuoted | kdm/backend/util.c:394-458 | between single quotes a backslash is itself to the one splitter, and two are one to the other |
| QuotingLaws.LastBackslash | kdm/backend/util.c:394-458 | a backslash that ends the text is itself |
| QuotingLaws.CharLaw | kdm/backend/util.c:394-458 | which single characters separate words, open a quote, or are a word |
| QuotingLaws.ValueWritten | kdm/kfrontend/kdm_config.c:557-581 | every value comes back from a line with an escape for each blank, tab, line end, carriage return and backslash in it, whatever white space is in front and behind, and with a lone backslash at the end |
| QuotingLaws.NoSuchEscape | kdm/kfrontend/kdm_config.c:567-574 | before any other character a backslash is itself |
| Glob.RightIffNoTwoStars | kdm/backend/access.c:238-270 | the answer is right for all strings if and only if the pattern does not end in two unquoted stars |
| Glob.CodeRight | kdm/backend/access.c:238-270 | for such patterns the answer says whether the string falls into one piece for each part of the pattern |
| Glob.CodeNeeds | kdm/backend/access.c:250-256 | two stars at the end want a character |
| Glob.PatternMatch | kdm/backend/access.c:238-270 | for every pattern and string the loop and its recursion end with the answer that the lemmas are about, and without one exactly where they leave the texts; a null string is an empty one |
| Glob.StaysInside | kdm/backend/access.c:238-270 | no string makes it leave the texts, if and only if the pattern ends in no backslash left alone, or in one behind a star |
| Glob.LiteralMatches | kdm/backend/access.c:238-270 | a pattern without special characters matches the strings with the same letters |
| Glob.CaseIgnored | kdm/backend/access.c:238-270 | the case of a string's letters never matters |
| AccessTable.BoundIsChains | kdm/kfrontend/kdm_config.c:1142-1160 | the nesting bound holds if and only if every chain of alias expansions that ends at an alias pattern is shorter |
| AccessTable.CleanIsChains | kdm/kfrontend/kdm_config.c:1149-1166 | what a denying rule needs holds if and only if every alias pattern that a chain reaches names aliases, all of them complete |
| AccessTable.FlattenIsChains | kdm/backend/access.c:321-327 | the expansion of a range holds exactly the hosts that chains lead to |
| AccessTable.InsideIsChains | kdm/kfrontend/kdm_config.c:1149-1166 | matching for a list stays inside all texts if and only if no chain leads to a pattern that leaves its own |
| Access.ScanEntrylist | kdm/backend/access.c:312-349 | ends on a bounded table, and says whether the expansion has a host that matches the client |
| Access.AnyMatchIsReached | kdm/backend/access.c:312-349 | which is whether some chain leads to a pattern for the client name or to an equal address |
| Access.MatchAclEntry | kdm/backend/access.c:351-369 | the first entry of the requested kind that a chain leads from to a match, and none if there is none |
| Access.AcceptableDisplayAddress | kdm/backend/access.c:431-442 | a client is accepted exactly if the query is indirect, or the first direct entry that fits it allows it |
| Access.ScanHostlist | kdm/backend/access.c:275-310 | ends on a bounded table; the calls are those for the expansion, in order, without the local host if that is to be noted |
| Access.UseChooser | kdm/backend/access.c:404-412 | whether the first rule with hosts that a chain leads from to a match allows the client and has the flag |
| Access.ForEachChooserHost | kdm/backend/access.c:414-424 | the chooser is offered the expansion of that rule's hosts, broadcasts included |
| Access.ForEachMatchingIndirectHost | kdm/backend/access.c:375-402 | an indirect query goes to the chosen host, or to the expansion of the hosts, or stays here |
| AccessLaws.CalledExactly | kdm/backend/access.c:275-310 | the addresses called are those at the end of a chain, without this host where it is only noted; a broadcast only where it is wanted |
| Access.CheckHostlist | kdm/kfrontend/kdm_config.c:1134-1175 | no error if and only if the nesting is below the bound, a denying rule has the aliases it needs, and no match leaves its texts; an error only if the one or the other fails, no answer only if some match leaves its texts |
| Access.ListOkIsChains | kdm/kfrontend/kdm_config.c:1134-1175 | an accepted list, in terms of chains |
| AccessWords.File.ReadWord | kdm/kfrontend/kdm_config.c:895-951 | the word that is next, in a buffer where words are put together in place: what is unread keeps its meaning, and what was read before stays as it is |
| AccessWords.CutLines | kdm/kfrontend/kdm_config.c:1193-1264 | reading words to the ends of their lines gives exactly the lines of the text that have words |
| AccessWords.WrittenRead | kdm/kfrontend/kdm_config.c:895-951 | lines of words without blanks and line ends, written with backslashes before `#` and backslash, are read back |
| AccessWords.ReadableExactly | kdm/kfrontend/kdm_config.c:895-951 | exactly such lists of lines are what some text reads as: no quote makes a blank part of a word |
| AccessLaws.CommentLeftOut | kdm/kfrontend/kdm_config.c:918-936 | a comment right behind words is left out, to the end of the line or of the text |
| AccessLaws.LineGoesOn | kdm/kfrontend/kdm_config.c:926-950 | a line goes on behind a backslash that stands alone at its end |
| AccessLaws.LineBreaksOff | kdm/kfrontend/kdm_config.c:926-950 | it does not behind one right after a word |
| AccessReader.ReadAccessFile | kdm/kfrontend/kdm_config.c:1177-1312 | for every text: the sent table says exactly what its lines say, each range naming exactly the hosts of its record, or is empty if the file is not accepted; what the daemon stores fits the announced size, every list is bounded, and its alias patterns stay inside their texts; nothing is sent for an accepted file exactly if the check leaves its texts |
| AccessReader.Reader.ParseHost | kdm/kfrontend/kdm_config.c:1022-1092 | adds the host that a word stands for, or nothing, and announces at least what the daemon stores of it |
| AccessReader.Reader.ReadAlias | kdm/kfrontend/kdm_config.c:1194-1213 | the entry of an alias names exactly its hosts, and records whether one was lost |
| AccessReader.Reader.ReadListen | kdm/kfrontend/kdm_config.c:1214-1234 | the same for a LISTEN line, its interface and its groups |
| AccessReader.Reader.ReadAcl | kdm/kfrontend/kdm_config.c:1235-1278 | the same for a rule; a rule whose client cannot be resolved is dropped, its hosts stay in the list |
| AccessReader.SaysMore | kdm/kfrontend/kdm_config.c:1192-1280 | a record more at the end of the host list leaves what every other entry names |
| AccessLaws.SaidAt | kdm/kfrontend/kdm_config.c:1022-1092 | what a word says at a place: the first of broadcast, alias, pattern and address that it can say there |
| AccessLaws.AliasLine | kdm/kfrontend/kdm_config.c:1194-1213 | whom an alias line names, and when it is marked as incomplete |
| AccessLaws.ListenSays | kdm/kfrontend/kdm_config.c:1214-1234 | which interface and groups a LISTEN line names |
| AccessLaws.RuleLine | kdm/kfrontend/kdm_config.c:1235-1278 | what a rule line says about whom: denial, client, keyword and hosts |
| AccessLaws.DefaultListens | kdm/kfrontend/kdm_config.c:1281-1297 | without a LISTEN line there is one for every interface, with the default group |
| AccessLaws.TakenExactly | kdm/kfrontend/kdm_config.c:1299-1306 | a file is taken if and only if each rule that denies can be told whom and leads to complete aliases only, and no chain of aliases is longer than 32 |
| AccessReader.CheckRules | kdm/kfrontend/kdm_config.c:1299-1306 | no error is found if and only if every rule passes and nothing matched for one leaves its texts; an error only if some rule fails, and an end outside the texts only if some match leads there |
| AccessTransport.SendTable | kdm/kfrontend/kdm_config.c:1313-1350 | the loops of the sender send the counts and every entry in order |
| AccessTransport.ScanAccessDatabase | kdm/backend/access.c:139-232 | for any messages: the daemon takes off the pipe what its specification says, every number cut down to a short int, and has no table if a count is negative or it gets out of step |
| AccessTransport.CountedArrival | kdm/backend/access.c:139-232 | if the counts are short ints, the table arrives with every other number cut down, and fills just what it stores, or not at all if a string has 64K or more |
| AccessTransport.ArrivesExactly | kdm/backend/access.c:139-232 | for every table: what arrives is the table if and only if its counts, numbers and strings fit |
| AccessTransport.NegativeCount | kdm/backend/access.c:150-163 | with a count from 32768 to 65535, or that much above a multiple of 65536, there is no table |
| AccessTransport.TooManyHosts | kdm/backend/access.c:150-213 | what a file with one dropped rule of 65536 hosts says, and what the daemon makes of it: no hosts, and a LISTEN line that refers to one |
| AccessTransport.TransferAccess | kdm/kfrontend/kdm_config.c:1177-1350 | for every text, from there to the daemon: for an accepted file whose check stays inside its texts the daemon has what the file says if and only if its records fit, the matchers can rely on the table, and the strings on the announced size; a file that is not accepted leaves it with nothing, one whose check leaves its texts is not sent |
| AccessDecision.MatchIsMeant | kdm/backend/access.c:184-193 | the daemon matches a client by address if and only if its connection type belongs to the family of the host that the file named, by the pairs given, and the addresses are equal; patterns by its name |
| AccessDecision.ReachedIsMeant | kdm/backend/access.c:312-349 | so does a chain of aliases, from the reader's table |
| AccessDecision.DecisionIsMeant | kdm/backend/access.c:351-442 | for every table of the reader: the daemon lets in and sends to the chooser exactly whom the first rule meaning the client does |
| AccessDecision.Decide | kdm/backend/access.c:351-442 | both decisions, made with the table that has arrived, are those that the file means |
| AccessTransport.SaysFits | kdm/backend/access.c:44-83 | whether a table fits can be told from what the file says: its numbers of hosts, lines, aliases and rules, and its longest strings |
| AccessTransport.ReceivedUsable | kdm/backend/access.c:275-349 | the table that arrives still satisfies what the unguarded matchers need: ranges, nesting, and patterns that stay inside their texts |
| AccessPatterns.HarmlessInside | kdm/kfrontend/kdm_config.c:1149-1166 | the check stays inside if every alias pattern is one that no string can lead outside |
| AccessPatterns.ClientsInside | kdm/backend/access.c:312-349 | no name of a client leads the daemon outside the texts of an accepted table if and only if all patterns that chains from the entries of rules lead to are such |
| AccessPatterns.LoneBackslash | kdm/kfrontend/kdm_config.c:1149-1166 | a file of an alias and a rule that the check has no complaint about, and that makes it leave its texts |
| AccessKeywords.RuleDecides | kdm/backend/access.c:404-442 | what the flag of the first rule that fits means for its clients |
| AccessKeywords.KeywordMeans | kdm/kfrontend/kdm_config.c:1262-1272 | which keyword a rule has does not matter, only whether it lists a host |
| AccessKeywords.ObeyedExactly | kdm/kfrontend/kdm_config.c:1262-1272 | an allowing rule is obeyed if and only if it asks for the chooser only with a host, and against broadcast queries only without |
| AccessKeywords.NoBroadcastOpensChooser | kdm/backend/access.c:404-412 | a rule against broadcast queries that opens the chooser |
| AccessKeywords.ChooserRefusesBroadcasts | kdm/backend/access.c:431-442 | a rule for the chooser that refuses broadcast queries and nothing else |
| XdmcpTheorems.SessionSafety | kdm/backend/xdmcp.c:730-1080 | in every run with the counter below 2^32: one pending session for an address and display number, all session IDs distinct and not zero |
| XdmcpSafety.RunKeeps | kdm/backend/xdmcp.c:730-1080 | the same as an invariant, with a single owner for every authorization |
| XdmcpTheorems.NeverReissued | kdm/backend/xdmcp.c:310-320 | the IDs that a run issues are strictly increasing and above all issued before |
| XdmcpTheorems.AcceptNamesPending | kdm/backend/xdmcp.c:787-845 | an accepted REQUEST names the one pending session of the display, a fresh one exactly if there was none |
| XdmcpTheorems.StartedOnce | kdm/backend/xdmcp.c:944-1036 | over a whole run each session ID becomes at most one display |
| XdmcpTheorems.SpentNotStarted | kdm/backend/xdmcp.c:944-1036 | an ID that was issued and is not pending is never made a display |
| XdmcpTheorems.ManageConsumes | kdm/backend/xdmcp.c:967-1036 | a MANAGE for a pending session takes it out of the table, stops a display of the same name, and makes a display that owns the file authorization alone |
| XdmcpTheorems.ManageLeaves | kdm/backend/xdmcp.c:941-977 | any other MANAGE leaves both tables as they are, and when it is answered with nothing, REFUSE or FAILED |
| XdmcpTheorems.AliveIffRunning | kdm/backend/xdmcp.c:1046-1080 | for an ID that is not zero the answer is "running" exactly if the display with that ID is in status running |
| XdmcpReplies.ReplyExactly | kdm/backend/xdmcp.c:730-868 | the reply to a REQUEST from its fields alone: silence, a refusal, or acceptance if and only if it is well made, authentic, has an authorization if any is named, and has a pending session or the policy's consent |
| XdmcpReplies.RequestOthers | kdm/backend/xdmcp.c:730-868 | whatever the answer, the pending sessions of others stay, but for old ones |
| XdmcpReplies.RefusedLeavesNone | kdm/backend/xdmcp.c:823-830 | a REQUEST that is refused after its addresses were looked at leaves nothing pending for its display |
| XdmcpReplies.AcceptedPends | kdm/backend/xdmcp.c:787-868 | what an accepted one leaves pending: the old session or a fresh one, with new authorizations of their own if some are named |
| XdmcpReplies.PendingAnswered | kdm/backend/xdmcp.c:823-845 | over every run each pending session was last answered in an authentic REQUEST from its address and number |
| XdmcpReplies.StartedAnswered | kdm/backend/xdmcp.c:967-1036 | and so was each ID that becomes a display |
| XdmcpReplies.TooOld | kdm/backend/protodpy.c:58-68 | a pending session lasts 1800 seconds, and none does in the first 1800 of the clock |
| XdmcpReplies.AwakeRun | kdm/backend/xdmcp.c:978-1036 | over every run no two displays of a name are awake: all but the newest are zombies |
| XdmcpReplies.MadeDisplay | kdm/backend/xdmcp.c:978-1036 | the display that a MANAGE makes waits to be started and is the only one of its name that is no zombie; none with a process is dropped |
| XdmcpReplies.AliveElsewhere | kdm/backend/xdmcp.c:1046-1080 | a KEEPALIVE for an ID that no display has is told of the newest display there, if that runs |
| XdmcpSafety.TimeoutApart | kdm/backend/protodpy.c:58-68 | dropping old pending sessions keeps the others apart |
| XdmcpServer.Server.RequestRespond | kdm/backend/xdmcp.c:730-868 | the in-place handler of REQUEST changes the tables and answers as `Xdmcp.HandleRequest` says |
| XdmcpServer.Server.Manage | kdm/backend/xdmcp.c:916-1043 | the same for MANAGE |
| XdmcpServer.Server.SendAlive | kdm/backend/xdmcp.c:1046-1080 | the same for KEEPALIVE |
| XdmcpServer.Server.TimeoutProtoDisplays | kdm/backend/protodpy.c:58-68 | the loop keeps exactly the pending sessions that are not too old |
| XdmcpServer.Server.NewProtoDisplay | kdm/backend/protodpy.c:70-103 | times out old ones and puts a new one at the head |
| XdmcpServer.Server.FindProtoDisplay | kdm/backend/protodpy.c:43-56 | the first pending session for an address and display number |
| XdmcpServer.Server.FindDisplayByAddress | kdm/backend/dpylist.c:179-191 | the newest display from XDMCP for an address and display number |
| XdmcpServer.Server.FindDisplayBySessionID | kdm/backend/dpylist.c:168-177 | the newest display with a session ID |
| XdmcpServer.Server.SetProtoDisplayAuthorization | kdm/backend/auth.c:220-244 | the old authorizations are dropped and new ones put in their place |
| ConfigTransport.LoadResources | kdm/backend/resource.c:233-283 | every value that was sent comes back in order, under its ID without the private bits, in a block whose pointer and character cells are used up exactly; looking for a public ID finds the first entry sent under it and its value, and that is the only one if the IDs differ |
| ConfigTransport.ValueUnique | kdm/backend/resource.c:233-283 | what the block holds for an entry determines its value |
| ConfigTransport.RecvStrBuf | kdm/backend/process.c:719-753 | writes a string and its terminator at the pointer and leaves what is before it |
| ConfigTransport.ValArr.AddValue | kdm/kfrontend/kdm_config.c:807-834 | the running counts stay the numbers of cells that the values need |
| ConfigTransport.ValArr.SendValues | kdm/kfrontend/kdm_config.c:863-891 | announces those counts and sends every value with its public ID |
| ConfigTransport.TypeIsPublic | kdm/kfrontend/kdm_config.c:874-875 | taking the private bits off an ID keeps its type |
| ConfigTransport.PublicIsSame | kdm/kfrontend/kdm_config.c:874 | the public ID is the one number below 0x10000000 that differs from the ID by a multiple of that |
| ConfigTransport.TypeByRange | kdm/kfrontend/kdm_config.c:875 | the type, by the range that the public ID is in |
| ConfigTransport.LoadedAnswers | kdm/backend/resource.c:320-341 | looking for an ID in the block finds the first entry added under it, with its value, and nothing if there was none |
| ConfigTransport.FindCfgEnt | kdm/backend/resource.c:320-341 | the word of the first entry for an ID, in the daemon's block and then in that of the display |
| ConfigValue.ConvertArgv | kdm/kfrontend/kdm_config.c:754-777 | the items of a list value up to the first blank one, and how many characters they take |
| ConfigValue.ItemsOk | kdm/kfrontend/kdm_config.c:754-777 | no item is empty, has a comma, or white space around it |
| ConfigValue.WrittenRead | kdm/kfrontend/kdm_config.c:754-777 | a list of such items, written with commas, comes back |
| Choices.IndirectHosts.DisposeIndirectHosts | kdm/backend/choose.c:73-90 | drops entries from the head only, for any list; in a sorted one those are exactly the expired ones, and the smallest remaining time of expiry is returned |
| Choices.IndirectHosts.IndirectChoice | kdm/backend/choose.c:92-109 | a lookup in the map that the list stands for |
| Choices.IndirectHosts.CheckIndirectChoice | kdm/backend/choose.c:111-140 | removes the entry from that map, and says whether it was there without a choice |
| Choices.IndirectHosts.RegisterIndirectChoice | kdm/backend/choose.c:142-187 | for any list and clock updates the map, keeping a recorded choice if none is given; a sorted list stays sorted if and only if the new entry expires last |
| Choices.HeadRight | kdm/backend/choose.c:73-90 | looking at the head only is right at all times if and only if the list is sorted |
| Choices.RegisteredMap | kdm/backend/choose.c:142-187 | registering keeps hosts unique and is a map update |
| Choices.RegisteredSorted | kdm/backend/choose.c:142-187 | a sorted list stays so if and only if the new entry expires last |
| Choices.RunRight | kdm/backend/choose.c:73-187 | over every run, with any clock and any waiting times: looking at the head only is right in all states if and only if every host is registered to expire last |
| Choices.GrowingRight | kdm/backend/choose.c:73-187 | in particular it is if the times of expiry that are given out never fall |
| Choices.AllUnexpired | kdm/backend/choose.c:73-90 | in a list in order, nothing has expired if the head has not |
| Choices.Unnoticed | kdm/backend/choose.c:184-186 | two runs, with a clock that goes back and with a waiting time made shorter, after which an expired entry is not dropped |
| UserGroups.KDModule.SlotMinMaxUID | kdm/kcm/main.cpp:416-455 | the counts are those of a fresh recount for the new range; the names and numbers to delete and to add are those of the users that leave and enter, and of the groups that lose their last member on the way and that come back or are new; the lists are those of a fresh view if and only if no name is lost to a group tag, a condition on the users and the two ranges, which holds if no user is called like a tag |
| UserGroups.KDModule.PropagateUsers | kdm/kcm/main.cpp:392-414 | counts every membership of the users shown, and sends these users with their IDs and the groups that occur with minus the ID of the first member |
| UserGroups.LinesDetermined | kdm/kcm/main.cpp:392-455 | without clashes the names sent determine the numbers sent with them, as no group comes or goes twice in a loop |
| UserGroups.ViewExactly | kdm/kcm/main.cpp:392-414 | which names are shown: the superuser, the users in the range, and a group for each membership of theirs |
| UserGroups.ViewMoveExact | kdm/kcm/main.cpp:416-455 | what is emitted never shows a name too many, and shows all of the new view if and only if no user that stays is called like a group that goes, and none that leaves like a group that was there all the time |
| UserGroups.TrackDown | kdm/kcm/main.cpp:430-437 | losing a membership: a group that was added in this pass is never dropped again |
| UserGroups.TrackUp | kdm/kcm/main.cpp:441-447 | gaining a membership: a group that comes back is added after it was dropped |
| UserGroups.ClashingName | kdm/kcm/main.cpp:416-455 | runs the recount and a change of the range, after which the line of a group that still has a member shown is missing |
| UserGroups.ClashLoses | kdm/kcm/main.cpp:429-436 | these users fail the condition, and the name that is lost is deleted and not added |
| Shutdown.Daemon.ShutdownCommand | kdm/backend/ctrl.c:684-752 | the command of a display or of the global socket changes the records as its specification says, or is refused |
| Shutdown.Daemon.UnUser | kdm/backend/dm.c:719-743 | the end of a session makes its scheduled shutdown the global one, unless it asks first or may not override |
| Shutdown.Daemon.MainLoopTurn | kdm/backend/dm.c:1201-1219 | one turn of the main loop over the record, and when it tells the displays to stop: when the start has come, and when the timeout has and nobody hinders it |
| Shutdown.Daemon.SessionForked | kdm/backend/dm.c:1503-1504 | a new session has nothing scheduled for its end |
| Shutdown.Daemon.GreeterShutdown | kdm/backend/dm.c:849-858 | the record of a greeter is taken as it is |
| ShutdownSafety.ForcedStays | kdm/backend/ctrl.c:684-752 | over every run a forced shutdown stays, or the first event that touches it comes from a display that may nuke it, from the global socket with the permissions for it, or from a greeter |
| ShutdownSafety.EntitledTouches | kdm/backend/ctrl.c:684-722 | when exactly the command of a display replaces or cancels a forced shutdown, by its permissions to shut down, to nuke and to force |
| ShutdownSafety.ForcedWasAllowed | kdm/backend/ctrl.c:684-752 | from the start of the daemon on: a forced shutdown that stands at the end of a run was scheduled on the way, as it is, by somebody who may force one |
| ShutdownSafety.LocalsKept | kdm/backend/ctrl.c:704-714 | no display ever waits with a forced shutdown that it may not have |
| ShutdownSafety.TouchedByEntitled | kdm/backend/dm.c:1201-1219 | a single step touches a forced record only if entitled; the main loop never does |
| ShutdownSafety.SessionsApart | kdm/backend/dm.c:1503-1504 | what one session has scheduled for its end does not outlive it: the end of a later one that gives no command leaves the global record as it is |
| ShutdownSafety.RefusedExactly | kdm/backend/ctrl.c:684-722 | when a display's command is refused, from its permissions, who commands, what stands and what is asked; then nothing changes |
| ShutdownSafety.ObeyedExactly | kdm/backend/ctrl.c:704-722 | what any other command does to the records of the display and of the daemon, and that it leaves other displays alone |
| ShutdownSafety.SpeaksFor | kdm/backend/ctrl.c:684-685 | a display commands in the name of its user, and its greeter in that of root |
| ShutdownSafety.SocketRefusedExactly | kdm/backend/ctrl.c:723-752 | when a command of the global socket is refused or has to wait for logins, and what it does otherwise |
| ShutdownSafety.EndPromotesExactly | kdm/backend/dm.c:719-743 | when what a session has scheduled becomes the global record as it ends |
| ShutdownSafety.StandingWasAllowed | kdm/backend/ctrl.c:684-752 | from the start of the daemon on: any shutdown that stands, forced or not, was asked for as it is by a display that was permitted to then, by the global socket with permission, or by a greeter |
| ShutdownSafety.TurnExactly | kdm/backend/dm.c:1119-1131 | what one turn of the main loop makes of a scheduled shutdown |
| ShutdownSafety.Waits | kdm/backend/dm.c:1201-1219 | over every run that leaves it alone, a scheduled shutdown waits until a turn comes after its start and timeout |
| ShutdownSafety.FirstDecisive | kdm/backend/dm.c:1119-1131 | the first such turn carries it out or cancels it, as who is logged in then and the way it treats them decide |

## Left out

- Console (text) mode, VT allocation and the hand-over of a VT to a follower; the history fields for the next login.
- Signals sent to processes: the model has their effect on the records, and the death of a process as an event of its own.
- Progress of `startingServer`: a restart that is neither a stop nor a ready message leaves the slot taken. Only safety and the bound on attempts are proved.
- Timers are absent or a time; the model does not have one number stand for "never".
- Failing allocations, except that a display name may not be computable.
- LaunchBound.AttemptBound: for a positive `serverAttempts`; with zero the code tries without end.
- IniFile.IniEntry: the text is null, empty or ends in a newline, and section and key have no newline; the source asks for that, and reads past the end of other texts.
- IniMerge.MergeOverrides: one direction; `IniOverride.OverridesExactly` has both, for texts without broken lines and repeated entries. Others can override by chance, for instance if a repeated entry has the same value.
- ArgQuoting.ParseArgs: gives no result where the code reads past the end of its text; what it reads there is not modelled.
- The pass that finds the sections and keys of the configuration file, and the defaults of its entries.
- AccessReader.ReadAccessFile: if a rule fails the check and a match leaves its texts as well, which of the two comes first is not said. The words of a line are read before the first of them is looked at, which nothing can tell.
- AccessTransport.ScanAccessDatabase: messages are whole numbers, strings and arrays; where the daemon gets out of step it has no result, while the code goes on with the bytes that follow. With a negative count the model has no result either: the allocation fails, or, if the strings make up for it, the lists lie in front of the block.
- The chooser itself and the listening sockets that use the host lists, packets other than REQUEST, MANAGE and KEEPALIVE, and the contents of authorizations.
- XdmcpTheorems.SessionSafety: while the counter is below 2^32; beyond it session IDs repeat. Address comparison is equality of values.
- ConfigTransport.LoadResources: for strings below 64K without a null character; the pipe does not carry others. Numbers and enumerations are taken as converted.
- Shutdown.Daemon.ShutdownCommand: starts behind the parsing of the words; boot options are a name. What a greeter asks before it sends a shutdown is not part of the model.
- Reference counts of shared strings and the framing of control-socket lines: the code does not keep the invariants one would state.
