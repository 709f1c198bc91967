# rrmngmnt in Dafny

rrmngmnt manages remote hosts by running commands on them over ssh. This project models the parts of it
that carry state, loops or text formats, and proves what they guarantee over every call tree, every
interleaving and every input. `dafny verify dfyconfig.toml` checks the whole project.

| file | what it models |
|---|---|
| `Session.dfy` | the reference-counted ssh session shared by nested `@keep_session` calls |
| `Remote.dfy`, `Reader.dfy`, `Ssh.dfy` | a remote process and its channel; the streaming `CommandReader`; `Command.execute`/`run` with the memoised exit code; the connectivity polling loop |
| `Playbook.dfy`, `PlaybookCalls.dfy` | `PlaybookRunner.run`: the temporary directory, the uploads and the command line that names them; and a first run in terms of the caller's arguments alone |
| `MountPoint.dfy` | `MountPoint` as a context manager over a mount table |
| `Addresses.dfy` | `find_ips`, `find_ip_by_default_gw` and the prefix lookup of `get_info` |
| `Bridges.dfy` | `list_bridges` with the sed rewriting in front of it, and `get_bridge` |
| `Nmcli.dfy` | the nmcli command builder, its tokenising, and the profile listing |
| `Psql.dfy`, `ReleaseInfo.dfy` | record splitting of `Database.psql`; the os-release parser and its cached property |
| `Inventory.dfy`, `Scan.dfy` | the host inventory, added to under a lock by any number of threads, and the lock-free `Host.get` that walks it meanwhile |
| `Users.dfy`, `Providers.dfy` | the user list, and the choice of a service provider |
| `Text.dfy`, `Wrappers.dfy` | the Python `str` operations the parsers rest on; Option and Result |

Code that changes things step by step is a class with methods or a method with a loop, proved equal to a
specification function of the old state; the lemmas then say what that function guarantees. The remote side
(processes, connections, other programs, failures) is arbitrary: a script with a schedule, a tree of faults,
or a function parameter, and every theorem holds for all of them.

Where a natural claim is false of the code, the project proves exactly when it holds and exhibits an input
for which it does not:

* An exception while the shared session is made or opened leaves the counter above zero for good: no session
  is closed from then on, and one that could not be opened is used by every later call
  (`Session.FailureIsForever`, `Session.FailedOpenIsKept`).
* `find_ips` only sees prefixes of two digits, so an address such as `10.0.0.1/8` is never listed
  (`Addresses.FindsExactlyTwoDigitPrefixes`).
* `get_info` looks the prefix up by substring, so the entry of a longer address can lend its prefix
  (`Addresses.LongerAddressSpoilsPrefix`).
* The psql record separator overlaps itself: a row that another row follows is damaged if its last field ends
  in `__RECORD_SEPARATOR` (`Psql.OverlapDamagesRows`).
* `release_info` loses blank space such as a tab at the end of the last value of the file, if no quote closes it
  (`ReleaseInfo.ParsingInvertsPrinting`).
* `MountPoint` removes a temporary directory that is not empty when `ls` fails or all names are blank
  (`MountPoint.RemovesNonEmpty`), leaves it behind when the mount fails (`MountPoint.DirectoriesRestored`),
  is wrong about being mounted when the connection breaks behind the effect of a mount or an unmount, or during
  the clean-up, or when something else is mounted on its target (`MountPoint.BlockSpec`). Entered twice, a
  temporary point never takes its first mount back, and one with a given target denies it until the outer exit
  (`MountPoint.EnteringTwice`).
* Files with one base name overwrite each other in the playbook's directory, the generated `extra_vars.json`
  and `inventory` included (`Playbook.IntactIffAgreeing`, `Playbook.ExtraVarsOverwritten`), and a second run
  on one runner repeats the words of the first, whose files are gone unless the second puts them again
  (`Playbook.SecondRunRepeatsFirst`).
* A `Command` that is run twice reports the exit code of its first run (`Ssh.SecondRunIsStale`).
* The inventory is right for every sequence of additions exactly when no host's resolved name is another
  host's address (`Inventory.FaithfulIffNoAlias`), and free of duplicates exactly when all such aliases are
  mutual (`Inventory.DistinctIffMutual`).
* `Host.get` takes no lock and walks the live list. It misses a host that is in the list when it begins exactly
  when the host's own entry is evicted ahead of it, or the eviction of an entry it has passed moves that one under
  its index, and none is appended ahead of it afterwards (`Scanning.ScanMissesIffLost`). So it can miss a host that nobody touches
  (`Scanning.ScanSkipsBystander`), as well as one that is being added again (`Scanning.ScanMissesEvicted`).
* A custom service provider is displaced, for good, by the first name it cannot handle and some default class
  can (`Providers.CustomKeptIffNeverServed`, `Providers.DisplacedCustomStaysOut`).

## Model

| member | source | states |
|---|---|---|
| Session.SharedSession.DoEnter | rrmngmnt/network.py:35-39 | entering counts up and makes and opens a session only when none is held; a failure leaves the counter behind, and a session that was made but not opened |
| Session.SharedSession.DoExit | rrmngmnt/network.py:41-46 | leaving counts down; the last one out drops the session before closing it |
| Session.SharedSession.CloseRaises | rrmngmnt/ssh.py:78-89 | a closing error surfaces only if no exception is already passing |
| Session.SharedSession.Execute | rrmngmnt/network.py:35-54 | running any call tree on the object does what the state semantics says; a held session and its counter are the same afterwards |
| Session.NestedCallsAreTransparent | rrmngmnt/network.py:35-54 | while a session is held, a decorated call is an ordinary call: for every tree the counter comes back, the same session is kept, and every command runs on it |
| Session.CountingRefinesBracketing | rrmngmnt/network.py:35-54 | for every tree, raising or not, reference counting shows the outside exactly what "open, run the body, close, once per outermost call" shows, until a call gets no session; from then on, exactly "keep the first session that is made" |
| Session.EndsIdleUnlessFailed | rrmngmnt/network.py:35-46 | a run from the idle state ends idle, counter 0 and no session, if and only if every session it needed could be made and opened |
| Session.FailureIsForever | rrmngmnt/network.py:35-39 | after a failure to make or open a session, no later program closes anything or brings the counter back, at most one more session is made, and a session held by then takes all later commands |
| Session.FailedOpenIsKept | rrmngmnt/network.py:37-39 | if an open fails anywhere in a run, the session held at its end is the one that failed to open |
| Session.SessionsAreBracketed | rrmngmnt/network.py:35-54 | unless getting a session fails, the events are opens and closes in strict alternation, each session closed once, and commands only between the two |
| Session.CounterIsDepth | rrmngmnt/network.py:32-54 | unless getting a session fails, every command finds the counter equal to the number of active decorated calls, and an open session exactly when that is positive |
| Session.InsideOnlyRuns | rrmngmnt/network.py:49-54 | inside a decorated call nothing is opened or closed |
| Session.HostnameTakesOneSession | rrmngmnt/network.py:163-183 | reading the hostname runs its commands, whichever handler they lead to and whether they raise or not, on one session that is closed |
| Ssh.Command.GetRc | rrmngmnt/ssh.py:183-188 | the exit code is fetched at most once, never changes, and is there after waiting |
| Ssh.Command.Begin | rrmngmnt/ssh.py:199-206 | entering `execute` either raises with the streams as they were or hands out three open streams |
| Ssh.Command.Finish | rrmngmnt/ssh.py:207-222 | on leaving, whatever happened, every stream held is closed; the code is waited for unless an exception is passing |
| Ssh.Command.Run | rrmngmnt/ssh.py:190-233 | for every place an exception can strike: all streams closed, at most one fetch; a normal run returns all of stdout and stderr and the memoised code |
| Ssh.RunScript | rrmngmnt/ssh.py:190-233 | a fresh command on any process, under any schedule, returns that process's exit code and complete output if nothing raises; one fetch, nothing left open |
| Ssh.SecondRunIsStale | rrmngmnt/ssh.py:183-233 | a second run of one command returns the new output with the old exit code |
| Ssh.WaitForConnectivityState | rrmngmnt/ssh.py:342-354 | true if and only if one of the first floor(T/s)+2 probes matches, stopping at the first; otherwise it slept more than T and at most T+s |
| Ssh.CounterExceeds | rrmngmnt/ssh.py:346-353 | the counter exceeds the timeout exactly from the last allowed probe on |
| Remote.Channel.ReadLine | rrmngmnt/common.py:87 | the line is the first one of what is still to come, and empty only at the end of the stream |
| Reader.CommandReader.Turn | rrmngmnt/common.py:86-93 | one turn of the loop yields exactly the next line, or ends, or waits with the remote making progress; the code is fetched only when the stream is exhausted |
| Reader.CommandReader.Loop | rrmngmnt/common.py:86-93 | lines yielded and lines to come always make up the lines of stdout; the loop terminates |
| Reader.CommandReader.ReadLines | rrmngmnt/common.py:72-95 | exhausted: every line once and in order, out grown by all of stdout, rc and err the process's; abandoned or raising after some line: exactly the lines so far, out grown by them, rc and err untouched; streams closed on every path, wherever an exception strikes, and on a reader used before as well |
| Reader.ReadScript | rrmngmnt/common.py:72-95 | the same for a new reader, every process script and every interleaving with it: what was yielded and what the reader then holds depend on the script alone |
| Reader.YieldsFollowLines | rrmngmnt/common.py:86-91 | the i-th yield is the i-th line without its newline, with out the exact prefix of stdout read so far and rc and err as they were initially |
| Reader.YieldsAreStdoutSplit | rrmngmnt/common.py:86-91 | the yielded lines contain no newline and joined by newlines give stdout back, with or without a final one |
| Playbook.PlaybookRunner.UploadFile | rrmngmnt/playbook_runner.py:81-86 | the returned path is in the directory and now holds the local file's content, or nothing changed |
| Playbook.BasenameIsLastPart | rrmngmnt/playbook_runner.py:82-84 | the name a file gets on the host is what stands behind the last slash of its path, or the whole path if there is none |
| Playbook.PlaybookRunner.CreateFile | rrmngmnt/playbook_runner.py:88-105 | the returned path is in the directory and now holds the generated content, or nothing changed |
| Playbook.PlaybookRunner.Prepare | rrmngmnt/playbook_runner.py:158-194 | building the command line performs the planned actions in order up to the first that raises |
| Playbook.PlaybookRunner.Run | rrmngmnt/playbook_runner.py:71-211 | a run on any state ends as specified: file system, command line, what the command met, results; `tmp_exec_dir` is cleared |
| Playbook.DirectoryComesAndGoes | rrmngmnt/playbook_runner.py:71-79 | whatever happens in a run, nothing is left at or below the directory, the run itself touches nothing outside it, and the command finds the directory in place |
| Playbook.ClearedSpec | rrmngmnt/playbook_runner.py:72-79 | clearing takes the directory and what lies below it, and keeps every other file and directory as it is |
| Playbook.CommandFindsTheRest | rrmngmnt/playbook_runner.py:71-79 | outside the directory the command finds every file and directory as before the run |
| Playbook.DirectoryHoldsOnlyItsFiles | rrmngmnt/playbook_runner.py:71-74 | the directory starts empty: what the command finds in it was put there by this run |
| Playbook.CommandFollowsPlan | rrmngmnt/playbook_runner.py:158-194 | preparation succeeds if and only if every action can be done, and then each action added its one word in order |
| Playbook.LastPutWins | rrmngmnt/playbook_runner.py:81-105 | a path holds the content of the last action that put a file of that name |
| Playbook.IntactIffAgreeing | rrmngmnt/playbook_runner.py:81-105 | every file keeps its supplied content if and only if files put under one name have one content |
| Playbook.CommandFindsItsFiles | rrmngmnt/playbook_runner.py:156-199 | when the command starts, every uploaded or generated path in it names a file with exactly the supplied content, if and only if no two files share a name with different contents |
| Playbook.CommandMentionsFiles | rrmngmnt/playbook_runner.py:158-194 | reading the command line option by option gives the generated variables, the variables files in order, then vault, inventory and playbook; a playbook that is not uploaded must not begin with a hyphen |
| PlaybookCalls.PlanSaysCommand | rrmngmnt/playbook_runner.py:158-194 | the command line word for word: variables, vault, inventory, verbosity, check mode, ssh arguments and playbook, with the literal options and the names of the given files |
| PlaybookCalls.CommandMentionsSources | rrmngmnt/playbook_runner.py:158-194 | for files given by folder and name, the command line refers to exactly those names in the directory, in the documented order |
| PlaybookCalls.FirstRun | rrmngmnt/playbook_runner.py:59-211 | the first run of a runner: the command starts if and only if /tmp exists, every local file can be read and every path written; it is `ansible-playbook` and those words; every file it was given or had generated holds its content if and only if no two of one name differ; the rest of the host is as before; and nothing is left of the directory |
| Playbook.ExtraVarsOverwritten | rrmngmnt/playbook_runner.py:158-165 | a variables file called extra_vars.json with other content spoils the generated one |
| Playbook.SecondRunRepeatsFirst | rrmngmnt/playbook_runner.py:59-211 | a second run's command repeats the first run's words; such a path names a file if and only if the second run puts a file of that name, and still has the first run's content if and only if the last one put has it |
| MountPoint.Point.constructor | rrmngmnt/filesystem.py:347-369 | an omitted or empty target stands for a temporary directory; not mounted; source, type and options as given |
| MountPoint.Point.DoesMount | rrmngmnt/filesystem.py:399-411 | mounting makes the temporary directory, adds one mount of the object's source, type and options on success and only then says mounted; every command may fail, or lose its connection before or after its effect |
| MountPoint.MountSpec | rrmngmnt/filesystem.py:399-411 | entering succeeds if and only if there is a target and the mount works, and then adds exactly one mount, from the object's source to its target with its type and options, and keeps these three |
| MountPoint.Point.DoesUmount | rrmngmnt/filesystem.py:413-423 | unmounting takes the top mount away and removes a temporary directory found empty; every command may fail, or lose its connection before or after its effect |
| MountPoint.Point.DoesRemount | rrmngmnt/filesystem.py:425-441 | remounting needs a mount, changes its options only, and records them if it hears back |
| MountPoint.Point.With | rrmngmnt/filesystem.py:371-381 | a whole block with any remounts and a body that may raise does what the block semantics says |
| MountPoint.TruthInsideBlock | rrmngmnt/filesystem.py:399-441 | inside a block, after any remounts, `_mounted` holds and the target is mounted from the source given, with the type given, and with the options given or those of the latest remount that took effect; `opts` are those of the latest one heard of |
| MountPoint.LatestIsLastThatWorked | rrmngmnt/filesystem.py:433-441 | if the body goes through, the recorded options are those of the last remount that worked, and the ones given if none did |
| MountPoint.BlockSpec | rrmngmnt/filesystem.py:371-441 | after a block: the table is restored if and only if no mount took effect unheard and the unmount took effect; `_mounted` is right if and only if no connection broke behind the mount or unmount, or in the clean-up, and on a target something else is mounted on, if and only if it is true; and exactly which failures leave the block |
| MountPoint.RemovalSpec | rrmngmnt/filesystem.py:413-423 | a block removes at most its own temporary directory, unmounted, which did not exist before; all other directories are as they were |
| MountPoint.ListdirEmpty | rrmngmnt/filesystem.py:55-58 | a listing looks empty if and only if `ls` did not work or every name is blank |
| MountPoint.RemovesNonEmpty | rrmngmnt/filesystem.py:421-422 | `rm -rf` hits a directory with contents if and only if a block on a temporary directory is entered and unmounted, there are contents, and `ls` fails or all names are blank |
| MountPoint.DirectoriesRestored | rrmngmnt/filesystem.py:399-423 | the set of directories is restored if and only if no temporary directory was made, or it was mounted, unmounted, looked empty and was removed |
| MountPoint.BlocksRestoreTable | rrmngmnt/filesystem.py:371-441 | over any sequence of blocks whose unmounts work, the mount table is restored and `_mounted` false, removals only hit a block's own temporary directory, new, unmounted and looking empty, and earlier directories are untouched |
| MountPoint.BlocksRemoveOnlyEmpty | rrmngmnt/filesystem.py:371-441 | if besides every `ls` works and no name is blank, only empty directories are removed |
| MountPoint.ReliableBlockSpec | rrmngmnt/filesystem.py:371-423 | a block with exit commands that work, on an object in whatever state, takes away just its own mount |
| MountPoint.EnteringTwice | rrmngmnt/filesystem.py:371-423 | a block inside a block on one object, both with exits that work: after the outer exit the table is restored if and only if the target was given; a temporary point keeps its first mount for good and the outer exit raises; after the inner exit alone, `_mounted` is right if and only if the point is temporary |
| Addresses.FindIps | rrmngmnt/network.py:252-262 | one pass over the lines collects the first match of each line and the valid addresses among them |
| Addresses.ScannerIsExpression | rrmngmnt/network.py:256 | the scanner matches at the front of a text exactly the words the regular expression describes |
| Addresses.FindsExactlyTwoDigitPrefixes | rrmngmnt/network.py:252-262 | of the lines that print an address with a prefix length, first in its line or alone, exactly those with two digits of prefix are listed, in order and whole; so all are if and only if every prefix has two digits |
| Addresses.FindsTheirAddresses | rrmngmnt/network.py:259-261 | the first result is the address parts of the second, in order, less those that are not valid |
| Addresses.NetworkOfText | rrmngmnt/network.py:279 | a printed block reads back as itself |
| Addresses.NetworkIsPrinted | rrmngmnt/network.py:279 | nothing but the text of a valid block reads as a block |
| Addresses.AddressOfText | rrmngmnt/network.py:277 | a printed address reads back as its number |
| Addresses.AddressIsPrinted | rrmngmnt/network.py:277 | nothing but a dotted quad of octets reads as an address |
| Addresses.HoldsIffBetween | rrmngmnt/network.py:280 | same prefix bits means between the block's lowest and highest address, and the entry's own address is there |
| Addresses.HoldsIffBitsAgree | rrmngmnt/network.py:280 | a block holds an address if and only if the first prefix-many bits agree, each bit read off its octet |
| Addresses.WholeOctets | rrmngmnt/network.py:280 | with prefix 8, 16, 24 or 32 a block holds an address if and only if the first one, two, three or four octets are equal |
| Addresses.FindIpByDefaultGw | rrmngmnt/network.py:277-283 | the loop computes the selection for any gateway text over any texts, malformed ones included |
| Addresses.SelectsEarliest | rrmngmnt/network.py:277-283 | the result is the address part of the earliest listed block that holds the gateway |
| Addresses.SelectsNone | rrmngmnt/network.py:277-283 | the result is None if and only if no block holds the gateway |
| Addresses.MalformedBreaks | rrmngmnt/network.py:278-280 | a malformed text raises, unless an earlier block holds the gateway |
| Addresses.InfoPrefixIsRight | rrmngmnt/network.py:518-526 | the reported prefix is that of the first block that embeds the address, never N/A, and so the selected entry's if and only if these agree; no earlier embedding block suffices |
| Addresses.ContainsIffEmbeds | rrmngmnt/network.py:524 | a block's text contains an address if and only if the middle octets agree, the first octet ends with the address's and the last begins with it |
| Addresses.FirstEmbeddingSpec | rrmngmnt/network.py:523-526 | the entry whose prefix is reported embeds the address, and no earlier one does |
| Addresses.LongerAddressSpoilsPrefix | rrmngmnt/network.py:523-526 | a whole family of two-entry lists for which another entry's prefix is reported |
| Addresses.GetInfo | rrmngmnt/network.py:515-526 | the answer up to the prefix, for any listing and any gateway or none, errors included |
| Addresses.InfoOfListing | rrmngmnt/network.py:515-526 | from the printed listing to the answer: of the printed addresses with two digits of prefix, the earliest whose block holds the gateway is reported, with the prefix of the first that embeds it; none if and only if no such block holds the gateway |
| Bridges.ListBridges | rrmngmnt/network.py:412-431 | the line loop computes the parse, index errors included |
| Bridges.SedOfEntry | rrmngmnt/network.py:406-411 | sed rewrites exactly the further interfaces of a bridge and leaves its own line alone |
| Bridges.ParsingInvertsPrinting | rrmngmnt/network.py:405-431 | for every bridge list and column layout, parsing what brctl and sed print gives the same list, if and only if no bridge is named like a continuation line |
| Bridges.TakesBridges | rrmngmnt/network.py:417-430 | reading the lines of further bridges appends exactly those bridges, whatever came before |
| Bridges.OwnLinesTaken | rrmngmnt/network.py:417-430 | a parse that succeeds has one bridge for each line that is no continuation |
| Bridges.FailsIffIncomplete | rrmngmnt/network.py:418-429 | the loop raises if and only if some bridge line has fewer than three words or the first line is a continuation |
| Bridges.OneLine | rrmngmnt/network.py:422-430 | a line of words by itself: an error below three, an interface if there are exactly four |
| Bridges.GetBridge | rrmngmnt/network.py:440-446 | the earliest bridge of that name, None if and only if there is none |
| Nmcli.IpOptionsBuilder | rrmngmnt/nmcli.py:628-642 | the text is the given IP options, methods first, then version 4, then version 6 |
| Nmcli.CommonOptionsBuilder | rrmngmnt/nmcli.py:663-680 | the text is type, name and the given common options in order |
| Nmcli.CommandBuilder | rrmngmnt/nmcli.py:725-754 | the text is the argument list of the request joined by blanks |
| Nmcli.CommandSurvivesTokenising | rrmngmnt/nmcli.py:98 | tokenising gives back the head words and then the pairs in order, if and only if every word is non-empty and blank-free |
| Nmcli.ShellCharacters | rrmngmnt/nmcli.py:98 | which characters separate words, and which ones the statement excludes |
| Nmcli.IpOptionsComeLast | rrmngmnt/nmcli.py:745-754 | the argument list ends in the IP options |
| Nmcli.CommandDecidesRequest | rrmngmnt/nmcli.py:725-754 | two requests with one text have the same head and the same pairs |
| Nmcli.AddCallsArriveWhole | rrmngmnt/nmcli.py:253-532 | for every add call, the tokens start with `nmcli connection add`, and looking an option's keyword up in the rest gives the value the call was given for it, or nothing; type, name and interface included |
| Nmcli.ArgumentsOfAdd | rrmngmnt/nmcli.py:253-532 | the whole argument list of each add call, from the call's own arguments |
| Nmcli.ArgumentsOfOthers | rrmngmnt/nmcli.py:534-605 | the whole argument lists of the calls that modify and delete: the head, the name and the properties in order |
| Nmcli.KeysNeverClash | rrmngmnt/nmcli.py:253-532 | no two options of an add call share a keyword |
| Nmcli.GetAllConnections | rrmngmnt/nmcli.py:131-148 | the loop computes the profiles of the lines, index errors included |
| Nmcli.ListingInvertsPrinting | rrmngmnt/nmcli.py:137-146 | parsing printed profiles returns them in order, empty devices included, if and only if no field has a colon or a line break |
| Nmcli.ProfileOfFields | rrmngmnt/nmcli.py:138-146 | a line of fewer than four fields raises; fields behind the fourth are dropped |
| Nmcli.ListingFailsIffShortLine | rrmngmnt/nmcli.py:137-146 | the listing raises if and only if some line does, and is otherwise its lines in order |
| Psql.SplittingIsExact | rrmngmnt/db.py:43-46 | printed rows, padded by any blanks, are returned unchanged if and only if psql exits with 0, they are clean, and in each row followed by the separator it first occurs at the end; another exit code raises with the error text |
| Psql.RecordsAreClean | rrmngmnt/db.py:43-46 | what is returned is always clean: trimmed non-blank rows with bar-free fields |
| Psql.PaddingIsDropped | rrmngmnt/db.py:43-46 | blank pieces are dropped, and the blanks around the rows of the others |
| Psql.RecordsKeepLength | rrmngmnt/db.py:43-46 | the rows returned are no more, and no longer, than the pieces, and if equally many and long they are the pieces |
| Psql.OverlapDamagesRows | rrmngmnt/db.py:28-46 | a row that ends in the separator without its last two characters, and is followed by another, is not returned, although it can be clean |
| ReleaseInfo.GetReleaseInfo | rrmngmnt/operatingsystem.py:73-79 | the loop computes the parse |
| ReleaseInfo.ParsingInvertsPrinting | rrmngmnt/operatingsystem.py:73-79 | printed assignments, quoted or not, among lines without `=` anywhere, parse to the map they denote, if and only if the last line that is not blank is not an unclosed value ending in blank space |
| ReleaseInfo.LineIsExact | rrmngmnt/operatingsystem.py:75-78 | one line parses to its key and value if and only if the key is trimmed and `=`-free and the value has no blank or quote at its ends |
| ReleaseInfo.PaddingDoesNotCount | rrmngmnt/operatingsystem.py:75-78 | any blank space around a key and any mixture of blanks and quotes around a value is dropped |
| ReleaseInfo.LastAssignmentWins | rrmngmnt/operatingsystem.py:74-78 | a key has the value of its last assignment |
| ReleaseInfo.UnassignedKeysStay | rrmngmnt/operatingsystem.py:74-78 | no other key appears or changes |
| ReleaseInfo.OperatingSystem.ReleaseInfo | rrmngmnt/operatingsystem.py:81-85 | hands out a new dictionary equal to the cached one, looking the file up only while the cache is empty |
| ReleaseInfo.ScribblingIsHarmless | rrmngmnt/operatingsystem.py:81-85 | changing a dictionary handed out never changes later answers; the first answer is what the file says |
| Inventory.Registry.AddHost | rrmngmnt/host.py:107-119 | replaces the first entry found under the address by the new one at the end |
| Inventory.GetIsEarliest | rrmngmnt/host.py:102-105 | `get` finds the earliest entry whose address or resolved name is the one asked for, and none if and only if there is none |
| Inventory.GetByIp | rrmngmnt/host.py:102-105 | without aliases, `get` finds an entry with that address or there is none |
| Inventory.AddsAreFaithful | rrmngmnt/host.py:102-119 | without aliases, after any additions addresses are distinct and `get` returns the host added last with that address |
| Inventory.FaithfulIffNoAlias | rrmngmnt/host.py:102-119 | `get` is right after every sequence of additions if and only if no host's resolved name is another's address |
| Inventory.AliasBreaksGet | rrmngmnt/host.py:102-119 | two additions suffice to make `get` wrong when there is an alias |
| Inventory.AliasMakesDuplicates | rrmngmnt/host.py:102-119 | four additions suffice for two entries with one address |
| Inventory.DistinctIffMutual | rrmngmnt/host.py:102-119 | addresses are distinct after every sequence of additions if and only if all aliases are mutual |
| Inventory.ConcurrentAddsAreSequential | rrmngmnt/host.py:111-119 | under every interleaving of threads, whenever the lock is free the inventory is that of adding the hosts one after another in the order of locking, each thread's in its own order |
| Inventory.ConcurrentAddsAreFaithful | rrmngmnt/host.py:111-119 | without aliases, at every moment of every interleaving addresses are distinct, and `get` is right whenever the lock is free |
| Inventory.ListMissesIffInGap | rrmngmnt/host.py:102-119 | in every state of every interleaving, the list searched as it stands gives the host added last under each address added so far, except that between evicting and appending under that address, and only then, it gives none |
| Inventory.GapIsReached | rrmngmnt/host.py:102-119 | two threads adding hosts with one address reach such a state |
| Scanning.UndisturbedScanIsGet | rrmngmnt/host.py:102-105 | a walk over the list that nobody disturbs finds the earliest match |
| Scanning.TurnSpec | rrmngmnt/host.py:102-119 | what one statement of any thread, or one look, does to the prospects of a walk: exactly which evictions lose the entry and which appends bring one back |
| Scanning.AheadOfEviction | rrmngmnt/host.py:117 | an eviction takes the entry from a walk exactly when it evicts that entry at or behind the index, or another one in front of the index while the entry stands at it |
| Scanning.ScanMissesIffLost | rrmngmnt/host.py:102-119 | a lock-free `get`, begun in any reachable state and interleaved in any way with adding threads, ends without a host if and only if it lost the entry in one of these two ways and none was appended ahead of it later, or there was none at first and none was appended in time; a host it ends with was the right one at the look that found it |
| Scanning.ScanMissesEvicted | rrmngmnt/host.py:102-119 | some interleaving with an `add` of the same address ends without a host |
| Scanning.ScanSkipsBystander | rrmngmnt/host.py:102-119 | some interleaving with a whole `add` of another address ends without a host that was in the list all along |
| Users.Host.AddUser | rrmngmnt/host.py:172-182 | the loop over a copy equals dropping every user of that name, in order and with repeated objects, and appending the new one, who is then found |
| Users.OneRemoval | rrmngmnt/host.py:179-181 | one turn removes the right occurrence even when one object is in the list several times |
| Users.Host.GetUser | rrmngmnt/host.py:164-170 | the first user of that name, none if and only if there is none |
| Users.AddingKeepsNamesDistinct | rrmngmnt/host.py:172-182 | over any additions to a list with distinct names, names stay distinct |
| Users.UserIsFoundUntilReplaced | rrmngmnt/host.py:164-182 | a user is found through any additions of other names |
| Providers.SystemService.CanHandle | rrmngmnt/service.py:84-257 | each class's check; the name of an accepted service is the one asked for, a rejected systemd one keeps the shortened name |
| Providers.SystemdTakes | rrmngmnt/service.py:172-192 | on printed unit names: a name without `@` is accepted if and only if systemctl is found and lists it, an instance if and only if it lists the template |
| Providers.SystemdBreaks | rrmngmnt/service.py:176-177 | the check fails with an attribute error if and only if systemctl is found and the only `@` of the name stand behind a newline |
| Providers.SysVinitTakes | rrmngmnt/service.py:105-116 | accepted if and only if the name is not libvirtd, service is found and the script exists |
| Providers.InitCtlTakes | rrmngmnt/service.py:244-257 | accepted if and only if initctl is found and lists the name |
| Providers.InstancesShareTheirTemplate | rrmngmnt/service.py:175-192 | instances of one systemd template are all accepted or all rejected, judged by the template |
| Providers.Host.CreateService | rrmngmnt/host.py:303-322 | the first capable class in the default order, which becomes the cached one; a failure leaves the cache |
| Providers.Host.Service | rrmngmnt/host.py:324-350 | the service answers to the name asked for, with the chosen provider; the cache is then that provider, and unchanged on failure |
| Providers.FirstService | rrmngmnt/host.py:324-341 | the first service asked of a host, in terms of what is installed: systemd if it lists the unit, else the init script, else the upstart job, else none; and the choice is remembered |
| Providers.ChooseSpec | rrmngmnt/host.py:303-350 | a provider is chosen if and only if it is cached and capable, or the cached one is not and it is the first capable default; no choice if and only if none is capable |
| Providers.AnswersHandle | rrmngmnt/host.py:303-350 | in every sequence of calls each answer handles its name and is the choice from the cache so far |
| Providers.CacheIsSticky | rrmngmnt/host.py:336-350 | a provider that handles every name asked for is kept throughout |
| Providers.CustomKeptIffNeverServed | rrmngmnt/host.py:336-350 | a custom provider stays cached if and only if it handles every name asked for that some default class could serve |
| Providers.DisplacedCustomStaysOut | rrmngmnt/host.py:342-350 | once a default class is cached, no custom provider is ever used again |
| Providers.HistoryMatters | rrmngmnt/host.py:324-350 | what was asked before matters for a name if and only if the cached provider can handle it and is not the first default that can |
| Text.SplitJoin | rrmngmnt/db.py:43-46 | splitting a joined text gives the parts back if and only if no separator starts early in a part and the text behind it |
| Text.WordsJoin | rrmngmnt/nmcli.py:98 | cutting words joined by a blank gives them back if and only if they are non-empty and blank-free |
| Text.SplitUnlines | rrmngmnt/nmcli.py:137 | the lines of a text written line by line are those lines if and only if none contains a line break |
| Text.AnyBreakEndsLine | rrmngmnt/nmcli.py:137 | every line end ends a line, a carriage return with its newline as one |
| Text.CharacterClasses | rrmngmnt/network.py:412-417 | which characters end lines and which count as blank space |

## Left out

- paramiko, sockets, SFTP, DNS, key loading, timeouts, logging and exception texts; the remote side is an arbitrary process, table or function instead.
- Reader.CommandReader.ReadLines: the session it opens is not part of it, since sharing sessions is the subject of Session; decoding of bytes is not modelled either.
- Ssh.Command.Run: closing streams and fetching an exit code are assumed not to raise.
- Ssh.WaitForConnectivityState: sample times of zero and below, for which the loop sleeps for no time or raises, are excluded; times are exact numbers, and only the sleeps are counted, not the probes' own duration.
- Playbook.PlaybookRunner.Run: `rm -rf` is assumed to work; the JSON text of the variables is a given string; that no two runs draw the same short UUID is a matter of chance and not stated.
- Playbook.PlaybookRunner.UploadFile: is stated for a directory without subdirectories, which every run guarantees; `put` into an existing directory is therefore a branch no run takes.
- Playbook.CommandMentionsFiles: is stated for an absolute directory, which it always is, and for remote playbooks that do not look like an option.
- Addresses.FindsExactlyTwoDigitPrefixes: an address is taken to be set off from the text in front of it by something else than a digit or a dot, and a prefix from the text behind it by something else than a digit.
- MountPoint.BlockSpec: other programs neither mount nor unmount anything while a block runs.
- MountPoint.Point.DoesUmount: is stated for the default `force=True`; the flag changes only the command's text.
- Addresses.FindIpByDefaultGw: network texts are canonical dotted quads with a prefix length, and anything else is an error; netaddr's other notations and IPv6 are not modelled.
- Addresses.InfoPrefixIsRight: finding the default gateway, and the interface and bridge entries of `get_info`, are not modelled.
- Bridges.ListBridges: the removal of brctl's header line by sed, and a failing brctl, are not modelled.
- Nmcli.CommandSurvivesTokenising: is stated for texts without quotes and backslashes; the quoting rules of shlex and of list2cmdline are library code.
- Nmcli.GetAllConnections: nmcli's own escaping of colons is not modelled; the listing of devices and the activation calls are single commands.
- ReleaseInfo.ParsingInvertsPrinting: lines end in a newline character; the parser itself takes every line end.
- ReleaseInfo.GetReleaseInfo: the error paths for hosts without systemd are not modelled, nor the other properties of the operating system, which are one command each.
- Scanning.ScanMissesIffLost: a look at an entry and the removal or the append of one are single steps, as they are for a Python list; name resolution, which takes time between the looks, may let any number of them happen.
- Inventory.Registry.AddHost: name resolution is a fixed function of the address during a run.
- Providers.SystemService.CanHandle: what the remote commands report is fixed during a run; the action methods are single commands.
- Power managers, storage, package managers, the firewall, users' own attributes and resources: straight-line calls, or claims about other programs.
