# Verification of the provisioner's safety decisions

The provisioner prepares and maintains ComputeStacks nodes. Its risky decisions -- may this disk be
formatted, may this container be stopped, would this run lock its operator out -- sit in pure filter
plugins. This project models those plugins and the few task files that act on their answers, and proves
what they promise. `dafny verify dfyconfig.toml` checks it all.

| module | what it models |
|---|---|
| `Text`, `Ordering`, `Selection` | the string, sorting and filtering operations the plugins use |
| `Shlex`, `ShlexLine` | reading and quoting a line, and every form a line may be written in |
| `TailscaleArgs`, `TailscaleLine` | the parser of the role's flags, and the grammar it reads |
| `Tailscale`, `TailscaleSet`, `TailscaleReport` | the comparison of a node's tailscale settings with the flags, and the repair it prints |
| `TailscaleFields`, `TailscaleMessages` | the same comparison field by field and message by message |
| `Blkid`, `NodeStorage`, `DiskSoundness` | the data-disk probe and classifier, and what a verdict means |
| `StorageReads`, `StorageVerdict` | what each command's text and fields say, and the exact condition of every verdict |
| `DiskWorld` | a node's disk over every history of runs, crashes, reboots and writes, between runs and within them |
| `NodeContainers`, `MaintenanceHold`, `MaintenanceDecision` | which containers a maintenance run records and finds again, how it reads the hold, when it stops |
| `Maintenance`, `MaintenanceResume` | the maintenance run as a state machine with crashes and resumed runs |
| `LogLine`, `SeedPreview`, `PreviewReads` | the normal form and fingerprint of a seed preview |
| `Addresses`, `PublicIpv6`, `PreflightSsh` | IPv4 and IPv6 text, the canonical public address, the ssh accept list |
| `AgentImmutable` | which agent.yml keys a render would change |
| `MaintainStatic` | the ordered-subsequence check over nested task lists |

A plugin loop is a method proved against a specification function; the properties are lemmas about that
function. Command output arrives already registered, JSON and YAML already parsed. The SHA-256 digest is a
function parameter, injective where a result needs it.

## Where code and documentation part

* A flag spelled `--_positional` overwrites the key the parser keeps positional words under, so an
  unexpected word can go unreported (`ReservedFlagDropsWord`, `ReservedFlagHidesWord`).
* The printed repair quotes the host name and the operator but not the routes. It is read back right exactly
  when the routes hold nothing special to the reader (`RepairLineExact`), which for the shell it is printed for
  is more than for `shlex.split` (`SemicolonOnlySplits`).
* The documentation of the classifier says a blank disk was read cleanly by blkid and has nothing mounted
  at the paths. The code also answers `blank` when blkid did not run, and when a path is mounted from the
  device itself while lsblk does not list that mount (`BlankWithoutBlkid`, `BlankOverMount`); in no other case
  (`BlankIsSound`).
* A disk is blank when nothing on it shows a signature. Data without one is formatted (`FormatLosesExactly`), and
  a directory written to after the probe is mounted over (`BothLossesHappen`); nothing else is ever lost
  (`HarmExactly`).
* `_beneath` never places anything but the root itself beneath the root (`BeneathRoot`).
* Matching a recorded container by name cannot see its label: a container made during the window under the
  name of a recorded one that is gone is stopped and started whatever it is. That is the only way a system
  container is touched (`SystemListedExactly`), and it happens (`SystemContainerIsStarted`).

## Model

| member | source | states |
|---|---|---|
| TailscaleArgs.Parse | roles/tailscale/filter_plugins/tailscale.py:91-112 | The token loop returns the dictionary that LineFlags and LineWords describe for every line, or raises, exactly on a line that cannot be read (ReadableExactly) and on a word after a flag `--_positional` (LineFails) |
| TailscaleArgs.ItemsConserveTokens | roles/tailscale/filter_plugins/tailscale.py:91-112 | Every token is consumed exactly once, as a flag, as the value of the flag before it, or as a positional word: spelling the items again gives the token list |
| TailscaleArgs.ParseFaithful | roles/tailscale/filter_plugins/tailscale.py:91-112 | The dictionary holds the last value of every flag and every positional word, in order, if and only if no flag is spelled with the key `_positional` that the parser uses itself |
| TailscaleArgs.ReservedFlagDropsWord | roles/tailscale/filter_plugins/tailscale.py:98-111 | The failing input: `x --_positional=` parses to a dictionary that has forgotten the word `x` |
| TailscaleArgs.RenderParse | roles/tailscale/filter_plugins/tailscale.py:91-112 | Writing any flag map as `--name=value` tokens, in any order, and parsing them returns that map |
| TailscaleArgs.SpacedEqualsJoined | roles/tailscale/filter_plugins/tailscale.py:101-111 | `--name value` and `--name=value` mean the same, anywhere on the line, for a flag that takes a value and a value that does not start with a dash |
| TailscaleLine.SwitchesExactly | roles/tailscale/filter_plugins/tailscale.py:57-73 | The flags that never take the next word are the five prefs switches, the exit node, SNAT and the seven ignored flags, name by name, and no other |
| TailscaleLine.LineReads | roles/tailscale/filter_plugins/tailscale.py:95-111 | Any line written from words and flags in the four forms -- joined, spaced, bare, with any number of leading dashes -- is read piece by piece for what each means: a bare switch is `true`, any other bare flag empty |
| TailscaleLine.EveryLine | roles/tailscale/filter_plugins/tailscale.py:95-111 | No token list is outside those forms |
| TailscaleLine.LineFlags | roles/tailscale/filter_plugins/tailscale.py:101-111 | The dictionary of a line holds the names of its flags and no other, each with what its last piece says |
| TailscaleLine.LineWords | roles/tailscale/filter_plugins/tailscale.py:98-100 | The words of a line without a flag `--_positional` are kept in order, under an entry that is there only when there are words |
| TailscaleLine.LineFails | roles/tailscale/filter_plugins/tailscale.py:98-100 | Parsing raises if and only if a word comes after a flag `--_positional` |
| TailscaleLine.BareSwitchIsTrue | roles/tailscale/filter_plugins/tailscale.py:102-105 | A bare switch means `true` anywhere on a line, also in front of a word |
| TailscaleLine.BareFlagIsEmpty | roles/tailscale/filter_plugins/tailscale.py:109-111 | A bare value flag at the end of the line or in front of another flag has the empty value |
| Shlex.SplitQuoted | roles/tailscale/filter_plugins/tailscale.py:93 | Quoting each word with `shlex.quote`, joining with blanks and reading the line, with `shlex.split` or in a shell, gives the words back, for all words |
| Shlex.RawInLineExact | roles/tailscale/filter_plugins/tailscale.py:147 | On a line of otherwise well-spelled texts, one unquoted text is read back as written if and only if it holds no character special to the reader: blanks, quotes and backslash for `shlex.split`, for a shell also operators, expansions, patterns, the line end, and a `#` or `~` in front |
| ShlexLine.LineSplits | roles/tailscale/filter_plugins/tailscale.py:93 | A line of words written with any mix of plain characters, backslash escapes and both kinds of quotation, separated by blanks of any kind, is split into exactly what they mean |
| ShlexLine.ReadableExactly | roles/tailscale/filter_plugins/tailscale.py:93 | A text can be read if and only if it is written in those forms with no quotation and no backslash left open at its end |
| ShlexLine.QuoteExactly | roles/tailscale/filter_plugins/tailscale.py:147 | Quoting leaves a text of safe characters as it is and puts any other between single quotes, each of its own single quotes between double quotes |
| Tailscale.Compare | roles/tailscale/filter_plugins/tailscale.py:115-214 | The comparison, popping flags from the dictionary as it goes, returns the problem list given section by section: login, positional words, five switches, two texts, control URL, routes, SNAT, netfilter mode, tags, exit node, three must-be-default prefs, leftovers |
| Tailscale.CompareSwitches | roles/tailscale/filter_plugins/tailscale.py:135-141 | The loop over the switch flags reports each pref that differs, with its setting, and leaves exactly the other flags in the dictionary |
| Tailscale.CompareTexts | roles/tailscale/filter_plugins/tailscale.py:142-147 | The same for the host name and the operator |
| Tailscale.CompareControl | roles/tailscale/filter_plugins/tailscale.py:149-155 | The control URL is compared up to trailing slashes, or with the defaults when the flag is missing |
| Tailscale.CompareRoutes | roles/tailscale/filter_plugins/tailscale.py:157-170 | The wanted routes and exit pair are compared as sorted lists, and the repair names only the half that differs |
| Tailscale.CompareSnat | roles/tailscale/filter_plugins/tailscale.py:172-175 | NoSNAT is the opposite of the flag |
| Tailscale.CompareMode | roles/tailscale/filter_plugins/tailscale.py:177-183 | An unknown netfilter mode is reported as such, a known one that differs with its setting |
| Tailscale.CompareTags | roles/tailscale/filter_plugins/tailscale.py:185-192 | Tags from the flag and the role are merged, prefixed and compared as sorted lists; a difference is never settable |
| Tailscale.CompareExitNode | roles/tailscale/filter_plugins/tailscale.py:194-198 | A given exit node cannot be verified; one in use without the flag is reset |
| Tailscale.CompareLeftover | roles/tailscale/filter_plugins/tailscale.py:209-213 | Ignored flags are dropped and every other flag left is reported by name, in order |
| TailscaleReport.SilentIffAgrees | roles/tailscale/filter_plugins/tailscale.py:115-214 | For every flag dictionary, the problem list is empty if and only if the node agrees with it: logged in and running, no positional word, every key but the parser's own one that is compared or ignored, and every compared preference at the value the flags denote |
| TailscaleFields.SilentOnFields | roles/tailscale/filter_plugins/tailscale.py:57-214 | The same in the fields of the preferences document and the names of the flags: which field each flag is compared with, what it means when either is missing, and every constant |
| TailscaleFields.YesExactly | roles/tailscale/filter_plugins/tailscale.py:83-84 | A text means yes if and only if, whitespace aside and in letters of either case, it is 1, true, t, yes, y or on |
| TailscaleMessages.ReportedExactly | roles/tailscale/filter_plugins/tailscale.py:115-214 | A difference is reported, with its texts and its repair, if and only if it is there, for every kind of difference in terms of fields and flags |
| TailscaleMessages.ReportInOrder | roles/tailscale/filter_plugins/tailscale.py:115-214 | The differences come in the order of the preferences, one a preference; of the flags that cannot be checked each is named once, in order |
| TailscaleMessages.WordsComeFirst | roles/tailscale/filter_plugins/tailscale.py:127-133 | Every unexpected word is reported, in the order of the line, right behind the login |
| TailscaleReport.PrefsProblemsExactly | roles/tailscale/filter_plugins/tailscale.py:217-233 | For every command line: it raises exactly on a line that cannot be read; it is empty whenever the node agrees with the line, down to its last word and flag; and an empty list means such agreement if and only if no flag is spelled with the parser's own key |
| TailscaleReport.SetArgsIsFixedPoint | roles/tailscale/filter_plugins/tailscale.py:236-244 | For every node, command line and tags: once the settings it asks for are applied it asks for nothing more and leaves the same to be done by hand |
| TailscaleReport.EveryTokenAccounted | roles/tailscale/filter_plugins/tailscale.py:131-133 | A command line is read and its every positional word and every flag neither compared nor ignored is reported, if and only if no flag is spelled `--_positional` |
| TailscaleReport.ReservedFlagHidesWord | roles/tailscale/filter_plugins/tailscale.py:132-133 | The exception: some node is reported as agreeing with `x --_positional=` although `x` is unexpected |
| TailscaleSet.NothingDropped | roles/tailscale/filter_plugins/tailscale.py:236-244 | Every difference is in exactly one of `set` and `manual` |
| TailscaleSet.ListRoundTrip | roles/tailscale/filter_plugins/tailscale.py:87-88 | Joining a parsed list with commas and parsing it again gives the same list |
| TailscaleSet.RoutesReached | roles/tailscale/filter_plugins/tailscale.py:157-170 | Whichever part of the routes repair is printed, applying it leaves exactly the wanted set of routes |
| TailscaleSet.RepairIsFixedPoint | roles/tailscale/filter_plugins/tailscale.py:115-214 | Applying every printed setting and comparing again yields an empty `set` and exactly the original `manual` list, for all preferences, flag dictionaries and tags |
| TailscaleReport.RepairLineExact | roles/tailscale/filter_plugins/tailscale.py:147-175 | The repair printed as one command line is read back as the settings it stands for if and only if no printed route holds a character special to the reader, for `shlex.split` and for a shell alike |
| TailscaleReport.SemicolonOnlySplits | roles/tailscale/tasks/status.yml:97-99 | The two readers differ: with `10.0.0.0/8;reboot` as a route some repair is read back by the splitter and not by the shell it is printed for |
| TailscaleReport.TokensMeanSettings | roles/tailscale/filter_plugins/tailscale.py:236-244 | The tokens of a repair, parsed as flags, give every flag the value the repair sets for it |
| Blkid.ParseBlkid | roles/node_storage/filter_plugins/node_storage.py:111-124 | The line loop returns the map of the lines that hold a `=`, keys stripped, values unescaped, later lines winning |
| Blkid.LineEnds | roles/node_storage/filter_plugins/node_storage.py:118 | Whatever the output, a line ends at the first line break, a carriage return with a line feed counting as one |
| Blkid.EntryExactly | roles/node_storage/filter_plugins/node_storage.py:119-123 | Whatever the line, key and value are what stands before and behind its first `=`; a line without one holds no entry |
| Blkid.LastEntryCounts | roles/node_storage/filter_plugins/node_storage.py:117-124 | Of several entries of one key the last counts |
| Blkid.ParsePrintExact | roles/node_storage/filter_plugins/node_storage.py:111-124 | Parsing undoes backslash-escaped printing, for any key order and any set of escaped characters, if and only if no key has `=`, a line break or surrounding whitespace and no value a line break or trailing whitespace |
| NodeStorage.BuildProbe | roles/node_storage/filter_plugins/node_storage.py:201-272 | The three loops over registered results build the probe, later results of one path winning |
| StorageReads.LastListingCounts | roles/node_storage/filter_plugins/node_storage.py:245-259 | A path counts as holding something if and only if it is a directory, unmounted, and its last listing ran, succeeded and printed something |
| StorageReads.LastMountCounts | roles/node_storage/filter_plugins/node_storage.py:235-237 | Of several mount results for one path the last counts |
| StorageReads.FindmntExactly | roles/node_storage/filter_plugins/node_storage.py:159-169 | The visible filesystem is the last one listed by a run that succeeded |
| StorageReads.MountPointsExactly | roles/node_storage/filter_plugins/node_storage.py:69-78 | A mount point is one that the list names, or the single entry where there is no list, nulls and empty texts apart |
| StorageReads.SourceExactly | roles/node_storage/filter_plugins/node_storage.py:54-60 | A source with a bracketed directory at its end is the device before the first bracket and that directory |
| StorageReads.KNameExactly | roles/node_storage/filter_plugins/node_storage.py:49-51 | The kernel name is what follows the last slash, slashes at the end and whitespace around apart |
| StorageReads.QuotaExactly | roles/node_storage/filter_plugins/node_storage.py:89-90 | A mount has project quotas if and only if some option between the commas, whitespace aside, is `prjquota` or `pquota` |
| NodeStorage.FindRoot | roles/node_storage/filter_plugins/node_storage.py:342-347 | The walk finds / exactly when some device of the tree, the disk itself or one stacked on it at any depth, is mounted there |
| NodeStorage.CheckDevice | roles/node_storage/filter_plugins/node_storage.py:322-405 | The device passes if and only if it is a readable whole disk without children, root file system or partition table, and carries no signature and no file system type or exactly the role's own; it is refused as the root disk if and only if / is mounted somewhere in its tree |
| NodeStorage.CheckMounts | roles/node_storage/filter_plugins/node_storage.py:425-454 | The first allowed path mounted from elsewhere, wrongly or without one of the options of QuotaExactly is refused; otherwise the dictionary records exactly the mounted paths |
| NodeStorage.CheckTypes | roles/node_storage/filter_plugins/node_storage.py:462-479 | The first unmounted path that is unchecked or no directory is refused |
| NodeStorage.CheckListings | roles/node_storage/filter_plugins/node_storage.py:480-489 | The first path whose contents could not be listed is refused |
| NodeStorage.Classify | roles/node_storage/filter_plugins/node_storage.py:279-522 | The classifier, with the dictionary of mounted paths it fills, returns the verdict that VerdictExactly describes field by field |
| NodeStorage.BlankExactly | roles/node_storage/filter_plugins/node_storage.py:308-516 | `blank` if and only if the device is a whole disk without signature, file system type or mount, and every path is safe to cover or mounted as the role mounts it |
| NodeStorage.OursAndReadyExactly | roles/node_storage/filter_plugins/node_storage.py:308-522 | `ours` or `ready` if and only if it is the role's file system on a whole disk mounted only below allowed paths with all paths in order; `ready` when all are mounted, and `missing` lists exactly the rest |
| StorageVerdict.VerdictExactly | roles/node_storage/filter_plugins/node_storage.py:279-522 | The whole verdict in the fields of the probe: refused, with these data, if and only if the rule of that refusal fails with every rule before it passed; blank, ours with these paths missing in their order, or ready, each if and only if its own conditions hold |
| DiskSoundness.BlankVerdictExactly | roles/node_storage/filter_plugins/node_storage.py:127-169 | The blank verdict, end to end, in terms of raw command results, for every set of results |
| DiskSoundness.BlankIsSound | roles/node_storage/filter_plugins/node_storage.py:308-516 | On a blank verdict the device is an unmounted, childless whole disk; and blkid found no signature on it, with every path unmounted and absent or an empty, cleanly listed plain directory, if and only if blkid ran and lsblk shows the mounts findmnt shows |
| DiskSoundness.BlankWithoutBlkid | roles/node_storage/filter_plugins/node_storage.py:127-137 | The first condition can fail: a device whose blkid was skipped is called blank |
| DiskSoundness.BlankOverMount | roles/node_storage/filter_plugins/node_storage.py:426-454 | So can the second: a path mounted from the device passes when lsblk does not list the mount |
| DiskSoundness.BeneathIsPrefix | roles/node_storage/filter_plugins/node_storage.py:63-66 | The string test is component-wise prefix for normalized absolute paths with a non-root base, so it is an order and rejects look-alike names |
| DiskSoundness.BeneathRoot | roles/node_storage/filter_plugins/node_storage.py:63-66 | With the root as base nothing but the root itself counts as beneath it |
| DiskSoundness.OutsideExactly | roles/node_storage/filter_plugins/node_storage.py:408-418 | `outside` is empty if and only if every mountpoint lies in the subtree of an allowed path |
| DiskWorld.ProbeSees | roles/node_storage/filter_plugins/node_storage.py:201-272 | On any node, the probe built from what the commands print tells device, signature, mounts, types, contents and listing errors as they are |
| DiskWorld.BlankInWorld | roles/node_storage/filter_plugins/node_storage.py:279-298 | The verdict is blank if and only if the node holds nothing that could be lost |
| DiskWorld.OursInWorld | roles/node_storage/filter_plugins/node_storage.py:279-298 | The verdict is ours or ready if and only if the role's file system is in place as far as it goes; ready if and only if every path is mounted |
| DiskWorld.FormatIsSafe | roles/node_storage/tasks/apply.yml:36-52 | Formatting a blank node leaves a node the next run recognizes, and loses something if and only if the device holds data that shows no signature |
| DiskWorld.FormatLosesExactly | roles/node_storage/tasks/apply.yml:36-52 | The same of every node the classifier calls blank: what it cannot see is exactly unsigned data on the device |
| DiskWorld.PlaceIsSafe | roles/node_storage/tasks/apply.yml:74-113 | Mounting one path, or only writing its fstab entry, keeps every guarantee and touches no other path |
| DiskWorld.PlacementsAreSafe | roles/node_storage/tasks/apply.yml:74-113 | So does any number of them, cut off anywhere |
| DiskWorld.RunIsSafe | roles/node_storage/tasks/apply.yml:36-113 | A run with any Docker writes and container mounts between its tasks, dying after any of them: it formats if and only if it gets to the format of a blank node, and it loses something if and only if that format meets unsigned data, or the format or the mount of a path comes after a write to that path since the probe |
| DiskWorld.EventIsSafe | roles/node_storage/filter_plugins/node_storage.py:284-298 | Every event keeps every guarantee; only a run formats, and only a blank node; and only a run loses anything, exactly in the two cases of RunIsSafe |
| DiskWorld.HarmExactly | roles/node_storage/filter_plugins/node_storage.py:284-298 | Over every history of runs, crashes, reboots, container mounts and Docker writes, something is lost if and only if some run in it formats unsigned data, or formats or mounts after a write to the path since its probe |
| DiskWorld.NeverHarmed | roles/node_storage/filter_plugins/node_storage.py:284-298 | From any untouched node, over every such history, mkfs runs at most once and its file system stays; where data on the device shows a signature, something is lost if and only if the format or the mount of a path comes after a write to that path since the probe of that run |
| DiskWorld.BothLossesHappen | roles/node_storage/tasks/apply.yml:36-113 | Both cases occur: a raw device with unsigned data is formatted, and a path written to behind the probe is mounted over, on a node that comes to no harm without that write |
| DiskWorld.RunFinishes | roles/node_storage/tasks/apply.yml:1-113 | After any run that is not refused, with any Docker writes and container mounts between its tasks, dying after any of them: the next verdict refuses if and only if a path was written to and its mount did not come; once formatted the node is never blank again; and a run that does all its tasks, raced or not, ends finished and ready |
| DiskWorld.EmptyNodeIsFinished | roles/node_storage/filter_plugins/node_storage.py:284-298 | The road is open: some valid configuration and untouched node is blank, is ours when the run dies after the format, and is ready when it does not |
| DiskWorld.ReadyForever | roles/node_storage/filter_plugins/node_storage.py:293-296 | After an uninterrupted run the verdict is ready after every further history, without another format |
| DiskWorld.WriteRefusesForever | roles/node_storage/filter_plugins/node_storage.py:491-512 | Docker writing to an ordinary unmounted path makes every later verdict refuse, whatever happens next |
| NodeContainers.SelectRunningTenants | roles/node_upgrade/filter_plugins/node_upgrade.py:57-80 | The loop returns exactly the selection that SelectedExactly describes, for every container list |
| NodeContainers.SelectedExactly | roles/node_upgrade/filter_plugins/node_upgrade.py:57-80 | Increasing positions list exactly the containers that run and whose label `com.computestacks.role` is missing or other than `system`, and the selection is their ids and their names without leading slashes |
| NodeContainers.BareExactly | roles/node_upgrade/filter_plugins/node_upgrade.py:37-40 | The recorded name is the name without its leading slashes, all of them and nothing else |
| NodeContainers.LastRowCounts | roles/node_upgrade/filter_plugins/node_upgrade.py:127-128 | Of several rows with one id, or one name, the last counts |
| NodeContainers.ResolveRecorded | roles/node_upgrade/filter_plugins/node_upgrade.py:116-141 | The two index loops, last row winning, and the loop over the recorded entries return exactly the resolution that ResolveExactly describes |
| NodeContainers.ResolveExactly | roles/node_upgrade/filter_plugins/node_upgrade.py:116-141 | Order and length are kept; an entry is found if and only if its id or its name exists, and then reports id and state of that container, the name counting only when the id is gone |
| NodeContainers.ResolveInjectiveExactly | roles/node_upgrade/filter_plugins/node_upgrade.py:116-141 | With distinct ids and names, two entries never resolve to one container if and only if no surviving recorded container bears the name of a recorded one that is gone |
| NodeContainers.AcceptedDown | roles/node_upgrade/filter_plugins/node_upgrade.py:155-167 | An entry is accepted exactly when some item is its name or a prefix of at least twelve characters of either id |
| NodeContainers.AcceptedExactly | roles/node_upgrade/filter_plugins/node_upgrade.py:155-167 | Accepted if and only if the list has the name, or at least twelve characters that begin the recorded or the current id |
| NodeContainers.PartitionAccepted | roles/node_upgrade/filter_plugins/node_upgrade.py:170-180 | The loop returns the two lists that PartitionConserves describes |
| NodeContainers.PartitionConserves | roles/node_upgrade/filter_plugins/node_upgrade.py:170-180 | The two lists are exactly what is accepted and what is not, and interleave in order to the input, so none is lost or doubled |
| MaintenanceDecision.DockerDrift | roles/node_upgrade/filter_plugins/node_upgrade.py:205-219 | The loop returns the drift list that DriftExactly describes, in pin order |
| MaintenanceDecision.SplitPinExactly | roles/node_upgrade/filter_plugins/node_upgrade.py:199-202 | A pin is split at its first `=` into name and version, and an entry without one is a bare name, for all entries |
| MaintenanceDecision.DriftExactly | roles/node_upgrade/filter_plugins/node_upgrade.py:199-219 | The drift reports exactly the unsatisfied pins, each with its pin and what is installed, and is empty if and only if every pin is satisfied |
| MaintenanceDecision.DriftInOrder | roles/node_upgrade/filter_plugins/node_upgrade.py:213-219 | Increasing positions list exactly the unsatisfied pins, each reported at its place |
| MaintenanceDecision.InstallEndsDrift | roles/node_upgrade/filter_plugins/node_upgrade.py:205-219 | Without conflicting pins, any transaction that installs what drifts at its pin and touches nothing else leaves no drift and every satisfied package as it was |
| MaintenanceDecision.PinsSatisfiableExactly | roles/node_upgrade/filter_plugins/node_upgrade.py:205-219 | Some set of installed packages has no drift if and only if no two pins ask for different versions of one package |
| MaintenanceDecision.FilesNewerThan | roles/node_upgrade/filter_plugins/node_upgrade.py:538-569 | The loop, over plain rows and looped stat results alike, returns the paths of the existing files modified after the epoch in whole seconds, in order |
| MaintenanceDecision.NewerThanTheStart | roles/node_upgrade/filter_plugins/node_upgrade.py:544-567 | With the start truncated to the second, a file written at or before the start is never reported and one written in any later second always is |
| MaintenanceDecision.NewerInOrder | roles/node_upgrade/filter_plugins/node_upgrade.py:556-569 | Increasing positions list exactly the newer files, each reported at its place |
| MaintenanceDecision.MaintainDecide | roles/node_upgrade/filter_plugins/node_upgrade.py:437-488 | The loops return the decision that StopsExactly describes, restart reasons stripped and without repeats |
| MaintenanceDecision.StopsExactly | roles/node_upgrade/filter_plugins/node_upgrade.py:437-488 | The run stops if and only if a package drifts, a restart reason is not blank, a reboot is pending or it is forced; each is among the reasons exactly when it holds |
| MaintenanceDecision.RestartsInOrder | roles/node_upgrade/filter_plugins/node_upgrade.py:461-465 | The restart reasons are those that are not blank, each at the first position that says it |
| MaintenanceDecision.ReasonsInOrder | roles/node_upgrade/filter_plugins/node_upgrade.py:468-488 | The reasons come as drift, restarts in their order, reboot, force |
| MaintenanceDecision.DecisionIsFixed | roles/node_upgrade/filter_plugins/node_upgrade.py:457-459 | Feeding a recorded decision's own fields back gives that decision |
| MaintenanceDecision.UnloadedFileStops | roles/node_upgrade/filter_plugins/node_upgrade.py:547-551 | A file written in a later second than the start of dockerd stops the run and is named, whatever reasons were noted or lost |
| MaintenanceHold.FirstLine | roles/node_upgrade/filter_plugins/node_upgrade.py:230-234 | The loop finds the first line that is not blank |
| MaintenanceHold.ClassifyOn | roles/node_upgrade/filter_plugins/node_upgrade.py:248-342 | Whichever exit of the command printed the document with this code, the result names its documented outcome, `held` is the node's true state when a status was printed and None otherwise, and `ok` means the quiesced exit |
| MaintenanceHold.ClassifiesEveryExit | roles/node_upgrade/filter_plugins/node_upgrade.py:256-286 | So for every documented exit, a status under any other code, code 0 without a hold and output that is neither document included, and whatever else its document holds |
| MaintenanceHold.ExitCodeIsNotEnough | roles/node_upgrade/filter_plugins/node_upgrade.py:251-254 | For each of the codes 1, 3 and 4 two exits share the code and leave different states |
| MaintenanceHold.ErrorDocumentExactly | roles/node_upgrade/filter_plugins/node_upgrade.py:240-241 | A document with an error is never a status; it leaves `held` unknown and lets a poll go on only for exit code 3, the document's own code first |
| MaintenanceHold.OnExactly | roles/node_upgrade/filter_plugins/node_upgrade.py:222-342 | Every outcome, and whether the call is repeated, in terms of the keys of the document and the exit code |
| MaintenanceHold.AgentExactly | roles/node_upgrade/filter_plugins/node_upgrade.py:380-434 | Every answer about the agent in the same terms; an error document lets the poll go on if and only if its own code, or the exit code where it has none that is a number, is 3 |
| MaintenanceHold.RetryNeverRepeatsAHold | roles/node_upgrade/tasks/hold.yml:132-160 | Over every sequence of attempts, a call is repeated only after one that certainly placed nothing, and an `ok` last call placed the hold |
| MaintenanceHold.AgentStatus | roles/node_upgrade/filter_plugins/node_upgrade.py:380-434 | Whatever sample of the node the call showed, the poll ends ready if and only if the sample has the hold and an active agent, ends refused if and only if the hold is missing or the call is not understood, and `held` is the sample's |
| MaintenanceHold.AgentVerdictExactly | roles/node_upgrade/filter_plugins/node_upgrade.py:380-434 | The same of the specification the waits over many polls are proved with, for every sample and every document that shows it |
| MaintenanceHold.WaitEndsOnTheHold | roles/node_upgrade/tasks/agent_wait.yml:9-31 | A wait that ends ready saw hold and agent in that very sample, and no earlier sample showed the hold gone |
| Maintenance.EventKeeps | roles/node_upgrade/tasks/maintain_cycle.yml:30-157 | Every step of the run and everything anybody else does keeps the invariant: phases in order, the recorded list, what may be touched, what came back |
| Maintenance.ReleaseBringsEverythingBack | roles/node_upgrade/tasks/start.yml:2-104 | Over every history with crashes and resumed runs, when the run is about to clear the hold every recorded container that still exists and is not accepted down runs, unless it stopped by itself after the start gate; a replaced one came back under its name |
| Maintenance.NeverTouchesOthers | roles/node_upgrade/tasks/stop.yml:2-24 | Over every history, of the containers that existed when the list was recorded the run asks docker to stop or start only ones that ran and did not carry the label `com.computestacks.role` with the value `system` |
| Maintenance.ListedExactly | roles/node_upgrade/filter_plugins/node_upgrade.py:116-141 | A container is on the list to start if and only if it was recorded or bears the name of a recorded one that is gone, and on the list to stop if and only if it also runs |
| Maintenance.SystemListedExactly | roles/node_upgrade/filter_plugins/node_upgrade.py:116-141 | A system container is asked to start if and only if one bears the name of a recorded container that is gone, and to stop if and only if such a one runs |
| Maintenance.SystemContainerIsStarted | roles/node_upgrade/tasks/start.yml:2-30 | It happens: some history from a fresh node ends with a system container among those the run started |
| Maintenance.RunChangesOnly | roles/node_upgrade/tasks/stop.yml:19-75 | A run step adds and removes no container; one comes up only when docker was asked to start it, and goes down only when docker was asked to stop it or with dockerd between the stop gate and the start gate |
| Maintenance.RecordedOnce | roles/node_upgrade/tasks/record.yml:1-5 | The list is recorded once, before anything is stopped; the decision is taken once; marked phases and accepted names stay |
| Maintenance.StepsAreGuarded | roles/node_upgrade/tasks/hold_check.yml:1-9 | `stopped` is marked with no recorded container running, `started` with every required one running; lists are made and dockerd taken down only under the hold; a run without the hold is resumed only once its release began |
| MaintenanceResume.FreshRunTakesItsOwnHold | roles/node_upgrade/tasks/hold.yml:11-22 | With no run under way, the run alone gets to write a state file if and only if nobody holds the node; on a held one, however often it is tried, it changes nothing |
| Maintenance.HoldOutlivesTheStop | roles/node_upgrade/tasks/maintain_cycle.yml:98-157 | The run clears the hold only with everything started again, or having stopped nothing |
| MaintenanceResume.TaskAdvances | roles/node_upgrade/tasks/maintain_cycle.yml:36-108 | From any state the cycle can be in, the next task, when docker, apt and the agent do as told, marks at least one more phase and leaves the rest possible; it accepts down only what is gone, and what it starts is everything recorded that exists |
| MaintenanceResume.ResumeFinishes | roles/node_upgrade/tasks/maintain_cycle.yml:1-28 | From wherever a run stopped or died, with the hold there or its release begun, the run alone can go on to the archive, whatever the decision; it starts every recorded container that still exists, newly accepts down only names of entries that are gone, and none at all when nothing is missing |
| MaintenanceResume.RescueFinishes | roles/node_upgrade/tasks/maintain_cycle.yml:115-157 | A run that lost its hold before it changed anything clears up after itself and can be started over and carried to the archive |
| MaintenanceResume.ResumeExactly | roles/node_upgrade/tasks/hold.yml:52-70 | In every reachable state with a state file and no live run: the run alone can reach the archive if and only if the hold is there, its release has begun, or it has not begun to change the node; from any other, whatever it tries changes neither node nor state file |
| MaintenanceResume.FreshRunCompletes | roles/node_upgrade/tasks/maintain_cycle.yml:1-28 | On any node nobody holds and no run is under way on, a run that takes the hold and writes its state file can be carried on by itself to the archive, whatever the decision, with everything started again and nothing accepted down |
| LogLine.LogExactly | roles/controller_seed/filter_plugins/controller_seed_preview.py:76-80 | The matcher accepts a line if and only if it is an optional color, a level, blanks with perhaps a color, an ISO 8601 UTC time, blanks and `pid=` with a digit |
| PreviewReads.CleanedExactly | roles/controller_seed/filter_plugins/controller_seed_preview.py:93-102 | Increasing positions list exactly the lines that are no log lines, and what is left is those lines without trailing carriage returns |
| PreviewReads.LogLineVanishes | roles/controller_seed/filter_plugins/controller_seed_preview.py:99-102 | A log line anywhere in a preview changes nothing, and any other line stays where it stands |
| PreviewReads.RewriteAllExactly | roles/controller_seed/filter_plugins/controller_seed_preview.py:69-82 | A line becomes its head and `<id>` if and only if it is digits behind one of the three heads, given as text, perhaps with a line feed; any other stays |
| SeedPreview.HeadExactly | roles/controller_seed/filter_plugins/controller_seed_preview.py:70-72 | What the matcher takes for the part before the id is exactly the two attribute patterns: indent, `[a-z_]+_id`, the separator, any text, the lead of the id |
| SeedPreview.RewriteExactly | roles/controller_seed/filter_plugins/controller_seed_preview.py:69-74 | A rewriting changes a line if and only if the pattern matches it somehow |
| SeedPreview.MatchIsFound | roles/controller_seed/filter_plugins/controller_seed_preview.py:69-74 | However a line is split to match, the rewriting replaces exactly those digits and keeps the rest |
| SeedPreview.RewritesCommute | roles/controller_seed/filter_plugins/controller_seed_preview.py:103-105 | The three rewritings exclude each other, are idempotent and commute |
| SeedPreview.Normalize | roles/controller_seed/filter_plugins/controller_seed_preview.py:93-106 | The loop, stripping, dropping and rewriting each line in turn, returns the normal form: the lines of CleanedExactly, each as RewriteAllExactly has it |
| SeedPreview.NormalIsNormal | roles/controller_seed/filter_plugins/controller_seed_preview.py:93-106 | Normalizing twice is normalizing once |
| SeedPreview.SameRewriteExactly | roles/controller_seed/filter_plugins/controller_seed_preview.py:69-82 | Two lines without the placeholder are rewritten alike if and only if they are equal or of one shape and differ only in the id |
| SeedPreview.SlotsDecide | roles/controller_seed/filter_plugins/controller_seed_preview.py:69-82 | For all lines without line feed: two are rewritten alike if and only if they are equal or of one shape and differ only in a number or placeholder in the place of the id |
| SeedPreview.FingerprintOfSlots | roles/controller_seed/filter_plugins/controller_seed_preview.py:109-123 | For all previews of lines without line feed, with an injective hash: one fingerprint if and only if, carriage returns and log lines aside, they agree line by line in everything but what stands in those places |
| SeedPreview.FingerprintExactly | roles/controller_seed/filter_plugins/controller_seed_preview.py:109-123 | So when no raw line carries the placeholder there, one fingerprint if and only if the lines agree in everything but the ids |
| SeedPreview.RawMarkCollides | roles/controller_seed/filter_plugins/controller_seed_preview.py:82 | With the placeholder in a raw line it fails: two previews that do not agree have one normal form, and so one fingerprint |
| SeedPreview.RefusedExactly | roles/controller_seed/filter_plugins/controller_seed_preview.py:109-121 | A preview is refused if and only if every line is blank or a log line |
| PreviewReads.RefusedOnLines | roles/controller_seed/filter_plugins/controller_seed_preview.py:109-121 | In the lines as given: refused if and only if each is a log line or nothing but whitespace |
| Addresses.V4RoundTrip | roles/preflight/filter_plugins/preflight_ssh.py:34-46 | Reading a printed dotted quad gives the address back |
| Addresses.V4Exactly | roles/preflight/filter_plugins/preflight_ssh.py:34-46 | An IPv4 address is read from its own dotted quad and from no other text |
| Addresses.QuadReads | roles/preflight/filter_plugins/preflight_ssh.py:34-46 | A dotted quad is its four numbers, the first worth most |
| Addresses.PartsExactly | roles/preflight/filter_plugins/preflight_ipv6.py:44-47 | An IPv6 text is read exactly from eight groups, or from at most seven with two colons once between, before or after them, in any spelling of the groups |
| Addresses.GroupExactly | roles/preflight/filter_plugins/preflight_ipv6.py:44-47 | A group is one to four hexadecimal digits of either case, and worth what they spell |
| Addresses.EightReads | roles/preflight/filter_plugins/preflight_ipv6.py:44-47 | An address is its eight groups, the first worth most |
| Addresses.V6RoundTrip | roles/preflight/filter_plugins/preflight_ipv6.py:31-58 | Reading the canonical text of any 128-bit address gives it back (section 2.2 of RFC 4291) |
| Addresses.CanonicalForm | roles/preflight/filter_plugins/preflight_ipv6.py:58-64 | The text leaves out the leftmost of the longest runs of at least two zero groups, and nothing else (section 4.2 of RFC 5952) |
| PublicIpv6.AcceptedExactly | roles/preflight/filter_plugins/preflight_ipv6.py:20-65 | A text is accepted if and only if it is the canonical text of an address in none of the excluded ranges |
| PublicIpv6.AcceptedOnRanges | roles/preflight/filter_plugins/preflight_ipv6.py:46-65 | So if and only if it is the canonical text of an address above `::1`, below `fe80::` and outside `::ffff:0:0/96` |
| PublicIpv6.SpecialExactly | roles/preflight/filter_plugins/preflight_ipv6.py:46-57 | Each refused range, by its first and last address |
| PublicIpv6.ProblemsExactly | roles/preflight/filter_plugins/preflight_ipv6.py:31-65 | Each problem if and only if what it says is so, of the text alone or of the number it reads as |
| PublicIpv6.OneSpelling | roles/preflight/filter_plugins/preflight_ipv6.py:1-12 | Accepted texts are equal if and only if their addresses are |
| PublicIpv6.AdviceIsAccepted | roles/preflight/filter_plugins/preflight_ipv6.py:58-64 | The spelling a refusal proposes is accepted and means the same address |
| PreflightSsh.HoldsExactly | roles/preflight/filter_plugins/preflight_ssh.py:103-105 | Masking, the integer interval and the leading bits decide membership alike |
| PreflightSsh.CidrReads | roles/preflight/filter_plugins/preflight_ssh.py:49-56 | A network reads the same with its prefix length, its netmask or its host mask, host bits cleared |
| PreflightSsh.Cidr6Reads | roles/preflight/filter_plugins/preflight_ssh.py:49-56 | The same for IPv6 with a prefix length |
| PreflightSsh.V4PrefixExactly | roles/preflight/filter_plugins/preflight_ssh.py:49-56 | A prefix length is read from its digits, its netmask and its host mask, and from nothing else |
| PreflightSsh.EntryExactly | roles/preflight/filter_plugins/preflight_ssh.py:49-56 | Without a slash an entry is one address, with one an address and a prefix length, with more neither |
| PreflightSsh.BareV4Reads | roles/preflight/filter_plugins/preflight_ssh.py:49-56 | A bare IPv4 address in the list is that one host |
| PreflightSsh.BareV6Reads | roles/preflight/filter_plugins/preflight_ssh.py:49-56 | A bare IPv6 address in the list is that one host |
| PreflightSsh.CidrHolds | roles/preflight/filter_plugins/preflight_ssh.py:49-56 | An entry with a prefix length holds the addresses of its block and no other |
| PreflightSsh.Cidr6Holds | roles/preflight/filter_plugins/preflight_ssh.py:49-56 | The same for IPv6 |
| PreflightSsh.SourceExactly | roles/preflight/filter_plugins/preflight_ssh.py:34-46 | A source is the address its text reads as, or the IPv4 address an IPv4-mapped one maps |
| PreflightSsh.LoopbackExactly | roles/preflight/filter_plugins/preflight_ssh.py:29-31 | Loopback is all of 127.0.0.0/8 and `::1` |
| PreflightSsh.SshCovered | roles/preflight/filter_plugins/preflight_ssh.py:86-106 | The early-return loop decides whether the list is empty or some readable entry, one bare host or a block of addresses, holds the source |
| PreflightSsh.CoveredExactly | roles/preflight/filter_plugins/preflight_ssh.py:86-106 | With a list that is not empty, covered if and only if some entry of the same version, given or loopback, has the source within its interval |
| PreflightSsh.ListedHostsExactly | roles/preflight/filter_plugins/preflight_ssh.py:86-106 | A list of bare IPv4 addresses covers those hosts and loopback, and no other source |
| PreflightSsh.CoveredGrows | roles/preflight/filter_plugins/preflight_ssh.py:98-106 | More entries never uncover a source, except that the empty list covers everything |
| PreflightSsh.UnparsedExactly | roles/preflight/filter_plugins/preflight_ssh.py:76-83 | The reported entries are exactly those that are neither an address nor a network |
| PreflightSsh.DroppingUnparsedExactly | roles/preflight/filter_plugins/preflight_ssh.py:76-106 | Dropping them changes the answer exactly where it empties the list and only the default acceptance covers the source |
| PreflightSsh.MappedIsTheSame | roles/preflight/filter_plugins/preflight_ssh.py:34-46 | `::ffff:a.b.c.d` and `a.b.c.d` are one address and are covered alike by every list |
| PreflightSsh.ZoneIsDropped | roles/preflight/filter_plugins/preflight_ssh.py:37-39 | A zone index does not change the address |
| AgentImmutable.Get | roles/cs_agent/filter_plugins/cs_agent_immutable.py:67-73 | The walk returns the value at the dotted path, or nothing when a step meets no mapping or no such key |
| AgentImmutable.ImmutableChanges | roles/cs_agent/filter_plugins/cs_agent_immutable.py:87-109 | The loop returns the changes of the listed or default keys, or an error for a document that is no mapping |
| AgentImmutable.ReportedExactly | roles/cs_agent/filter_plugins/cs_agent_immutable.py:76-109 | With an injective hash a key is reported if and only if its setting differs, as added, removed or changed exactly as it is |
| AgentImmutable.ScalarsCompareAsText | roles/cs_agent/filter_plugins/cs_agent_immutable.py:79-82 | A number and its text are one setting, null is the empty text, absent is neither, and lists and mappings compare as they are |
| AgentImmutable.SameTexts | roles/cs_agent/filter_plugins/cs_agent_immutable.py:79-82 | Two settings that are scalars are the same if and only if Python writes them alike |
| AgentImmutable.NumbersDiffer | roles/cs_agent/filter_plugins/cs_agent_immutable.py:79-82 | Two numbers are one setting if and only if they are equal |
| AgentImmutable.SwapMirrors | roles/cs_agent/filter_plugins/cs_agent_immutable.py:98-109 | Swapping the documents reports the same keys in the same order with added and removed exchanged |
| AgentImmutable.NoChangeIsEquivalence | roles/cs_agent/filter_plugins/cs_agent_immutable.py:98-109 | "Nothing would change" is reflexive, symmetric and transitive |
| AgentImmutable.RewriteKeepsReports | roles/cs_agent/filter_plugins/cs_agent_immutable.py:67-109 | Rewriting or removing any path that is neither a prefix nor an extension of a listed key changes no report |
| AgentImmutable.RewriteOfKeyIsReported | roles/cs_agent/filter_plugins/cs_agent_immutable.py:67-109 | Rewriting a listed key itself is reported unless the setting stays the same |
| MaintainStatic.FlattenedTaskNames | tests/filter_plugins/maintain_static.py:136-147 | The loop, calling itself on each block, returns the labels depth first, non-tasks skipped and nameless tasks labelled by their meta action |
| MaintainStatic.InOrder | tests/filter_plugins/maintain_static.py:150-158 | The greedy loop returns true if and only if some increasing positions spell the wanted names |
| MaintainStatic.PlacesName | tests/filter_plugins/maintain_static.py:136-147 | The flattened names are those of the tasks at each place of the nested list, one for one |
| MaintainStatic.InOrderDecidesRunningOrder | tests/filter_plugins/maintain_static.py:136-158 | Over the flattened list it decides whether tasks of those names run in that order, however blocks are nested |

## Left out

- RepairIsFixedPoint: what `tailscale set` does is an assumption written out as `TailscaleSet.Apply`: each flag sets its preference, routes are kept as a set, and setting routes keeps the exit pair only when both halves were there.
- SilentIffAgrees: preferences arrive with the JSON types tailscale prints, a missing key apart; other types are not modelled.
- NeverHarmed: an operator's wipe, a disk swap and foreign mounts made during the history are not events, and a reboot in the middle of a run ends it.
- RunIsSafe: a task is done or not done; a half-written file system is not modelled. Mounting by UUID is mounting the classified device.
- RepairLineExact: a shell is that of the POSIX standard: brace and history expansion are not modelled, and any unquoted `[`, `*` or `?` counts as acted on, also where a shell would leave it as written because it is no pattern or matches no file.
- ClassifiesEveryExit: the exit paths are those the plugin documents; cs-agent itself is not part of this model.
- ReleaseBringsEverythingBack: a container keeps its name and labels for life, ids never return, and the state file is written in one step; the helper's retry timing is any subset of containers coming up. A listing and the mark that follows it are one step, which loses nothing because the mark reads only the listing.
- ResumeFinishes: shows that the run can reach the end when docker, apt and the agent obey and the operator accepts down what is gone, not that they do.
- StepsAreGuarded: the reading of the hold and the step it guards are one event, so a hold that is lost between the two is not modelled.
- ScalarsCompareAsText: floats and dates are scalars given by their text.
- FingerprintExactly: the UTF-8 encoding and SHA-256 are one function, injective by hypothesis.
- CoveredExactly: Python's `ipaddress` is not part of the repository; its reading of addresses and networks is modelled in `Addresses` and `PreflightSsh`, without IPv6 zones inside a printed network.
- Operator-facing wording: problems and refusals are datatypes with their data, in the order of the code.
- Non-ASCII digits and letters: `\d`, `isdigit` and `lower` are modelled on ASCII.
- Ansible, SSH, systemd, Docker, apt, lsblk, findmnt and blkid themselves.
- The other filters of the core files (`parse_inspect`, `parse_ps`, `parse_dpkg_status`, `accept_down_list`, `state_owner`, `parse_apt_sim`, `systemd_unix_ts`, `preflight_ssh_connection`, `preflight_rollback_pending`, `included_roles`, the handler and notify listings): parsing and listing that would only add easy members.
- `tests/check_pins.py`, `cs_agent_export.py`, `node_kernel.py`, `preflight.py`: network lookups and flat lists of checks.
- The download, converge and OS-update steps of a maintenance run: they neither stop nor start a container, and a failure in them is a crash of the run.
