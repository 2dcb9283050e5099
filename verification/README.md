# FastoNoSQL, verified core

A Dafny model of the hard parts of FastoNoSQL: the intrusive hash table and the settings daemon that
uses it, the hand-written printers and parsers of connection settings, the execute loop with the
observer that folds repeated runs into one displayed node per command, the notifications of the local
stores, the server-info history log, and command dispatch. `dafny verify dfyconfig.toml` checks
everything.

Code that works in place is modelled in place: elements are heap objects with `prev`/`next` and
`hhPrev`/`hhNext`, buckets are an array, settings and tree nodes are classes, character loops are loops.
Every such method is tied by its contract to a value (a sequence, a map, a record, a list of
announcements), and the theorems are about those values.

| files | what they model |
|---|---|
| `Sequences`, `Net` | facts about sequences, and the host address, shared by several modules |
| `Bits`, `Jenkins` | 32-bit words as bounded naturals, the bit operations of the macros, the Jenkins hash |
| `StableSort`, `HashSort` | bottom-up mergesort on sequences, and the in-place list sort that refines it |
| `Buckets`, `UtHash` | bucket chains, expansion and its inhibition, the whole table with its order list |
| `SettingsSpec`, `Daemon` | the settings as a list of entries that refines a map, and the daemon's functions on the heap |
| `Text`, `SshInfo`, `ConnectionSettings`, `ClusterSettings` | printers and parsers of SSH data, connections and clusters |
| `RedisConfig` | the Redis configuration as command-line options |
| `Announcements`, `ExecuteRun` | what an execute run announces, and the tree, observer and loop that produce it |
| `LocalStores` | LMDB and LevelDB connections over failing primitives, and a client's mirror |
| `History`, `ServerInfo` | the stamped history log and the two info texts stored in it |
| `Dispatch` | command table lookup and arity |

## Main results

- **Hash table.** Every run of add, delete, delete-all and reload on the heap table acts on its contents as
  the same run acts on a string-to-string map (`Daemon.Settings.RunAll`), and `FindSetting` reads that map.
  A file of settings, one to a line, gives every key the value of its last line (`FileIsRead`), and a
  setting survives its line exactly when it fits the buffer and has no delimiter in it (`WritableIff`).
  `Hash.Valid` holds after every step: order list and bucket chains hold the same elements once each, both
  link pairs are inverse, every element is in its home bucket, counts are chain lengths, the tail is the
  last element.
- **Expansion** keeps the contents, leaves the statistics at their exact values, and the bucket count, the
  failure streak and the inhibition flag are functions of the history of expansions.
- **Sort** is a stable sort for every comparator that is a total preorder, terminates for every
  comparator at all, and touches no bucket chain.
- **Jenkins mixing**, the nine lines on 32-bit words with each operation given bit by bit, is a bijection;
  two keys of equal length that differ in exactly one block of twelve bytes always end in different states.
- **Round trips** of SSH data, connections, clusters, the Redis configuration and the history log are
  stated with the exact condition under which they hold. Two of them show a defect. A memcached or SSDB
  command line without a comma is never read back, and of one with a comma only the part before it is, so
  the settings come back exactly when the default line, or that prefix, stands for the whole line
  (`RemoteRoundTrip`). A Redis configuration with intrinsic latency loses its duration and every option
  printed after it (`IntrinsicLatencyIsLost`).
- **Folded runs.** With history off, distinct commands and any number of repeats, every command is
  announced once and its first result once, and the first child of the command holds the value of its most
  recent result, wherever the run stops (`FoldedRun`). Without distinctness the general statements are
  `CommandsShownOnce`, `ResultsShownOnce`, `DisplayIsLatest` and `UpdatesAreOwners`.
- **Runs with history** announce every command and every result once and in order, and update nothing
  (`FullRun`).
- **Mirrors.** After any run of connection calls over a local store with arbitrary primitive failures, each
  Delete being given an empty vector, a client's mirror is the store plus exactly the keys lost by renames
  that failed in their final write and were not written, renamed to or deleted since (`RunCalls`, with
  `MirrorTracksStore` for the outcomes). Without failures every call does what it is meant to, and the
  mirror is the store. A vector that is not empty can spoil the mirror (`StaleKeys`).
- **Dispatch** finds the entry whose words lead the tokens; no command line trips its CHECK on the number of
  tokens exactly when every name in the table has at most two words (`NeverTripsIff`). The case of ASCII
  letters does not matter (`CaseDoesNotMatter`).

## Conventions

- `HostCodec` and `Env` stand for library code that is not part of this model: address texts, command-line
  conversion, the checksum and the default SSH data. What a theorem needs of them is a precondition
  (`Inverse`, `Consistent`, `Settles`, `ReadsDecimals`).
- Store primitives fail according to a function from the call number, so the contracts hold for every
  pattern of failures. A failing primitive leaves the store unchanged.
- The outcome of executing a command, and whether a run has been interrupted, are functions of the number of
  the execution.
- Progress is computed in real numbers and sent truncated, as the conversion to `int` does.
- Where a comment and the code disagree the code is followed: `NOTREACHED()` branches return null as written,
  so a run needs no assumption that every execution attaches a result.

## Model

| member | source | states |
|---|---|---|
| `Bits.AndWiderMask` | src/server_config_daemon/uthash.h:207-210 | masking with one more bit keeps the old value or adds the new bit's weight |
| `Bits.CeilByShift` | src/server_config_daemon/uthash.h:691-694 | shift plus one-if-remainder is division rounded up |
| `Bits.XorBit` | src/server_config_daemon/uthash.h:417-428 | a bit of x ^ y is set exactly when the bits of x and y differ |
| `Bits.AndBit` | src/server_config_daemon/uthash.h:207-210 | a bit of x & y is set exactly when it is set in both |
| `Bits.ShiftAndMask` | src/server_config_daemon/uthash.h:207-210 | the shift is division and the mask is the remainder |
| `Buckets.HomeAfterDoubling` | src/server_config_daemon/uthash.h:696-712 | an item of old bucket b goes to bucket b or b plus the old number of buckets |
| `Buckets.HomeIsRemainder` | src/server_config_daemon/uthash.h:207-210 | the bucket is the hash value modulo the number of buckets |
| `Buckets.IdealChainMaxlen` | src/server_config_daemon/uthash.h:691-694 | the ideal length is the ceiling of items over new buckets, at least 1 when there is an item |
| `Buckets.BalancedTable` | src/server_config_daemon/uthash.h:680-726 | after an expansion: the ideal length, no excess exactly when no chain is longer, and multipliers for exactly the longer buckets |
| `Buckets.LinkFirst` | src/server_config_daemon/uthash.h:625-631 | the element becomes the head of its chain, the chain stays doubly linked |
| `Buckets.Unlink` | src/server_config_daemon/uthash.h:639-649 | the element leaves its chain, the others keep their order and links |
| `Buckets.Prepend` | src/server_config_daemon/uthash.h:625-631 | one chain grows at its head, its count follows, every other chain is unchanged |
| `Buckets.DelInBkt` | src/server_config_daemon/uthash.h:639-649 | one chain loses exactly this element, its count follows |
| `Buckets.Rehash` | src/server_config_daemon/uthash.h:699-712 | one element moves to its new home; counters of excess items and multipliers stay exact |
| `Buckets.RehashChain` | src/server_config_daemon/uthash.h:696-712 | all elements of an old chain move, none is lost or duplicated |
| `Buckets.RehashAll` | src/server_config_daemon/uthash.h:695-714 | the new buckets hold the same items, each in its home, with exact statistics |
| `Buckets.Table.ExpandBuckets` | src/server_config_daemon/uthash.h:680-726 | twice the buckets, the same items, exact ideal length, excess count and multipliers, and one more entry of history |
| `Buckets.Table.Swap` | src/server_config_daemon/uthash.h:715-724 | the failure streak and the inhibition flag follow the history of expansions |
| `Buckets.Table.AddToBkt` | src/server_config_daemon/uthash.h:625-636 | the item is added, and the table expands exactly when the bucket is at its threshold and expansion is not inhibited |
| `Buckets.Table.Remove` | src/server_config_daemon/uthash.h:252-254 | the item leaves its bucket and the count of items |
| `Buckets.Table.FindInBkt` | src/server_config_daemon/uthash.h:611-622 | finds an element of the chain with this key, or none has it |
| `Buckets.CountsSum` | src/server_config_daemon/uthash.h:287-334 | the bucket counts add up to the number of items |
| `Buckets.StreakIsTrailing` | src/server_config_daemon/uthash.h:716-724 | the streak is exactly the number of ineffective expansions after the last effective one |
| `StableSort.MergePermutes` | src/server_config_daemon/uthash.h:759-803 | a merge is a permutation of its two runs |
| `StableSort.MergeSorts` | src/server_config_daemon/uthash.h:759-803 | merging sorted runs gives a sorted run |
| `StableSort.MergeIsStable` | src/server_config_daemon/uthash.h:759-803 | equal elements keep their order, those of the left run first |
| `StableSort.MergeRunsDoubles` | src/server_config_daemon/uthash.h:747-805 | one pass turns sorted runs of n into sorted runs of 2n |
| `StableSort.BottomUpSorts` | src/server_config_daemon/uthash.h:733-818 | passes until one merge covers the list give a sorted list |
| `StableSort.BottomUpIsStable` | src/server_config_daemon/uthash.h:733-818 | equal elements keep their order over all passes |
| `StableSort.TiesCount` | src/server_config_daemon/uthash.h:733-818 | the elements whose order stability speaks of are those that compare equal, each as often as it occurs |
| `StableSort.SortIsStable` | src/server_config_daemon/uthash.h:733-818 | for a total preorder the result is a sorted, stable permutation |
| `HashSort.Emit` | src/server_config_daemon/uthash.h:792-802 | the next element is linked to the tail of the output |
| `HashSort.Advance` | src/server_config_daemon/uthash.h:748-758 | the second cursor is n steps on, or at the end, and the first run's length is counted |
| `HashSort.Pick` | src/server_config_daemon/uthash.h:759-791 | the element taken is the head of the merge of what is left of the two runs |
| `HashSort.MergeTwo` | src/server_config_daemon/uthash.h:759-803 | two runs are consumed and the output grows by their merge |
| `HashSort.MergePair` | src/server_config_daemon/uthash.h:747-805 | one round of a pass does one step of the sequence pass |
| `HashSort.MergePass` | src/server_config_daemon/uthash.h:742-808 | a pass computes the sequence pass in place; at most one merge exactly when the runs cover the list |
| `HashSort.Sort` | src/server_config_daemon/uthash.h:733-818 | the list is relinked to the bottom-up sort of the old list, with inverse links, head first and tail last |
| `UtHash.Hash.Find` | src/server_config_daemon/uthash.h:103-113 | returns the element with this key, or null when no element has it |
| `UtHash.Hash.Append` | src/server_config_daemon/uthash.h:187-196 | the element becomes the last of the order list, in a new table when there was none |
| `UtHash.Hash.Add` | src/server_config_daemon/uthash.h:182-204 | whatever the key, keeps the invariant and appends to the order; expansions exactly as the bucket's state asks, and never again once inhibited |
| `UtHash.Hash.AddToTable` | src/server_config_daemon/uthash.h:197-203 | count, hash, key length and bucket are set so that the whole table is valid again |
| `UtHash.Hash.Delete` | src/server_config_daemon/uthash.h:224-257 | exactly this element leaves order and bucket; deleting the last one frees the table |
| `UtHash.Hash.UnlinkFromOrder` | src/server_config_daemon/uthash.h:236-251 | the order list loses the element; head and tail are updated |
| `UtHash.Hash.Sort` | src/server_config_daemon/uthash.h:733-818 | the invariant holds, the entries are the stable sort of the old ones, the buckets are untouched |
| `Jenkins.RoundIsBijective` | src/server_config_daemon/uthash.h:417-428 | every three lines of the mix can be undone, whatever the shifts |
| `Jenkins.MixIsBijective` | src/server_config_daemon/uthash.h:417-428 | the mix is a bijection on triples of 32-bit words |
| `Jenkins.MixInPlace` | src/server_config_daemon/uthash.h:417-428 | the nine lines of the macro, in place, compute the mix |
| `Jenkins.WordOperations` | src/server_config_daemon/uthash.h:417-428 | the operations of the mix are those of unsigned 32-bit numbers: sums and differences modulo 2^32, quotients, shifts and xor bit by bit |
| `Jenkins.AddBlockIsInjective` | src/server_config_daemon/uthash.h:437-446 | adding a full block keeps different states or different blocks apart |
| `Jenkins.AddTailIsInjective` | src/server_config_daemon/uthash.h:453-466 | so does adding the partial last block |
| `Jenkins.RunKeepsApart` | src/server_config_daemon/uthash.h:430-469 | different states stay different, whatever follows |
| `Jenkins.OneBlockMatters` | src/server_config_daemon/uthash.h:430-469 | keys of equal length that differ in exactly one block end in different states |
| `Jenkins.TailWord` | src/server_config_daemon/uthash.h:453-466 | the fall-through cases add the little-endian word of the bytes that exist |
| `Jenkins.HashJen` | src/server_config_daemon/uthash.h:430-469 | computes the state and bucket by the block-wise definition from the macro's initial words, reading every byte exactly once and none beyond the key |
| `SettingsSpec.PutRefinesMap` | src/server_config_daemon/main.cpp:71-82 | adding updates the denoted map and keeps keys unique |
| `SettingsSpec.EraseRefinesMap` | src/server_config_daemon/main.cpp:90-93 | deleting removes the key from the denoted map |
| `SettingsSpec.LoadRefinesMap` | src/server_config_daemon/main.cpp:345-371 | loading chunks is a sequence of map updates |
| `SettingsSpec.RunRefinesMap` | src/server_config_daemon/main.cpp:71-102 | any run of commands on the list of entries denotes the same run on a plain map |
| `SettingsSpec.LastAssignmentWins` | src/server_config_daemon/main.cpp:345-371 | after a reload a key has the value of the last chunk that assigns it, and nothing older survives |
| `SettingsSpec.ChunksCover` | src/server_config_daemon/main.cpp:352-368 | the chunks that fgets yields are the whole file |
| `SettingsSpec.ChunkIsOnly` | src/server_config_daemon/main.cpp:352-356 | a chunk ends after a newline, at the end of the file or after 255 characters, and nowhere else |
| `SettingsSpec.KeyAndValue` | src/server_config_daemon/main.cpp:357-368 | a chunk assigns what is between its first '=' and its first CR, LF or NUL to what is before, and nothing without '=' |
| `SettingsSpec.WritableIff` | src/server_config_daemon/main.cpp:353-368 | a setting is read back from its own line exactly when the line fits the buffer and its texts have no character that ends a key or a line |
| `SettingsSpec.FileIsRead` | src/server_config_daemon/main.cpp:345-371 | reloading a file of such lines gives each key the value of its last line, and no other key |
| `SettingsSpec.ReloadReplaces` | src/server_config_daemon/main.cpp:345-371 | whatever was set before, a reload leaves what the file says, and nothing when it cannot be opened |
| `Daemon.Settings.FindSetting` | src/server_config_daemon/main.cpp:84-88 | returns a live setting with the mapped value exactly when the key is mapped |
| `Daemon.Settings.AddSetting` | src/server_config_daemon/main.cpp:71-82 | the contents become the old ones with the key put in place or at the end |
| `Daemon.Settings.InsertSetting` | src/server_config_daemon/main.cpp:75-77 | a new key goes to the end |
| `Daemon.Settings.DeleteSetting` | src/server_config_daemon/main.cpp:90-93 | the key is erased and its setting freed once |
| `Daemon.Settings.DeleteAndStep` | src/server_config_daemon/main.cpp:95-102 | one round of the iteration deletes the first setting and stands at the next |
| `Daemon.Settings.DeleteAllSetting` | src/server_config_daemon/main.cpp:95-102 | terminates, frees every setting exactly once in order, leaves the empty table |
| `Daemon.Settings.Fgets` | src/server_config_daemon/main.cpp:353-356 | the next chunk, and the end of file seen only when nothing is left |
| `Daemon.Settings.LoadLine` | src/server_config_daemon/main.cpp:357-368 | a line is split at its first '=' and assigned; other lines are skipped |
| `Daemon.Settings.LoadFile` | src/server_config_daemon/main.cpp:352-370 | the contents are those of loading all chunks from nothing, in settings, a table and buckets that are new |
| `Daemon.Settings.ReadConfigFile` | src/server_config_daemon/main.cpp:345-371 | everything old is freed, then the file is loaded into new settings, or nothing when it cannot be opened |
| `Daemon.Settings.Perform` | src/server_config_daemon/main.cpp:71-102 | each command leaves a valid table whose contents are one step of the list, with new settings, table and buckets where they changed |
| `Daemon.Settings.RunAll` | src/server_config_daemon/main.cpp:71-102 | any run of add, delete, delete-all and reload on the heap table has the effect of the same run on a map |
| `SshInfo.FromText` | src/core/ssh_info.cpp:105-139 | the loop assigns the fields line by line |
| `SshInfo.OneField` | src/core/ssh_info.cpp:114-137 | which field a line sets, and that any other line sets nothing |
| `SshInfo.RoundTrip` | src/core/ssh_info.cpp:48-53 | all seven fields come back exactly when no text field contains CRLF |
| `SshInfo.RoundTripAfter` | src/core/ssh_info.cpp:105-139 | with other text in front, the fields come back exactly when no text field contains CRLF and that text leaves the address alone |
| `SshInfo.RoundTripWithoutLastChar` | src/core/ssh_info.cpp:105-139 | without the last character everything but the method comes back |
| `SshInfo.MethodRoundTrip` | src/core/ssh_info.cpp:60-78 | the method text is read back |
| `SshInfo.SameButMethod` | src/core/ssh_info.h:55-59 | operator== holds exactly of objects that differ in the method at most |
| `ConnectionSettings.Connection.ToString` | src/core/connection_settings/iconnection_settings_ssh.cpp:30-35 | prints type, path, interval, command line and, where there is one, the SSH text |
| `ConnectionSettings.CreateFromString` | src/core/connection_settings_factory.cpp:105-150 | the character loop computes the comma-by-comma parse |
| `ConnectionSettings.HeaderRoundTrip` | src/core/connection_settings/iconnection_settings.cpp:123-125 | type, path and interval come back, and the parser sees the rest of the text after them |
| `ConnectionSettings.SshRoundTrip` | src/core/connection_settings_factory.cpp:105-150 | Redis settings come back exactly when the path has no comma, no SSH field a CRLF, and a command line with a comma stands for its own prefix and leaves the address alone |
| `ConnectionSettings.SshRoundTripWithoutLastChar` | src/core/connection_settings_factory.cpp:105-150 | without the last character everything but the SSH method comes back |
| `ConnectionSettings.LocalRoundTrip` | src/core/connection_settings_factory.cpp:127-139 | local store settings come back exactly when the path has no comma, whatever the command line |
| `ConnectionSettings.RemoteRoundTrip` | src/core/connection_settings/iconnection_settings.cpp:195-200 | memcached and SSDB settings come back exactly when the path has no comma and the command line is what its text before a comma, or the default, stands for |
| `ConnectionSettings.ParsedPathHasNoComma` | src/core/connection_settings_factory.cpp:112-125 | whatever the text, a parsed path has no comma |
| `ConnectionSettings.ParsedIsConsistent` | src/core/connection_settings_factory.cpp:105-150 | whatever the text, parsed settings are as the setters keep them, so the round trips apply to them |
| `ConnectionSettings.OnlyRedisHasSsh` | src/core/connection_settings_factory.cpp:105-150 | whatever the text, only Redis settings come out with SSH data of their own |
| `ConnectionSettings.TypeIsFirstDigit` | src/core/connection_settings_factory.cpp:119-119 | the type is read from the first character, which is its digit, whatever follows |
| `ClusterSettings.ClusterConnection.ToString` | src/core/connection_settings/icluster_connection_settings.cpp:47-59 | prints the header and every node framed by 0x1E |
| `ClusterSettings.ReadNodes` | src/core/cluster_connection_settings_factory.cpp:71-82 | the inner loop adds the nodes between separators, the last one without its final character |
| `ClusterSettings.CreateCluster` | src/core/cluster_connection_settings_factory.cpp:45-93 | the outer loop computes the cluster parse |
| `ClusterSettings.NodesRoundTrip` | src/core/cluster_connection_settings_factory.cpp:56-90 | the printed nodes come back in order, the last one without its SSH method |
| `ClusterSettings.PrintableComesBack` | src/core/cluster_connection_settings_factory.cpp:56-90 | printable nodes and a comma-free path are enough, whatever the library conversions do with 0x1E |
| `ClusterSettings.ClusterRoundTrip` | src/core/cluster_connection_settings_factory.cpp:56-90 | a printed cluster comes back, except for the SSH method of its last node, exactly when its path has no comma and every node is printable |
| `ClusterSettings.SameUpToMethod` | src/core/ssh_info.h:55-59 | under the equality of SSH data the restored nodes are the printed ones |
| `RedisConfig.ParseOption` | src/core/redis/config.cpp:47-128 | one round recognizes exactly the listed options, takes a value where one is due, and stops otherwise |
| `RedisConfig.ParseOptions` | src/core/redis/config.cpp:45-132 | the loop reads options from the left until the first token that is not one |
| `RedisConfig.NamesDiffer` | src/core/redis/config.cpp:50-112 | no option name hides another |
| `RedisConfig.ParseReads` | src/core/redis/config.cpp:45-132 | the result depends on the last value given to each option only |
| `RedisConfig.IntervalIsLast` | src/core/redis/config.cpp:65-67 | the interval is the time of the last -i that is read, in microseconds and rounded down |
| `RedisConfig.IntervalOption` | src/core/redis/config.cpp:65-67 | in particular of -i t alone, fractions of a second included |
| `RedisConfig.RemoteArgs` | src/core/config/config.cpp:55-76 | host and port when the address is valid, delimiter and separator when not empty |
| `RedisConfig.ConvertToArgs` | src/core/redis/config.cpp:215-278 | the printed tokens in order |
| `RedisConfig.ParsePrinted` | src/core/redis/config.cpp:215-278 | what is restored of every field, even when values look like option names |
| `RedisConfig.ConfigRoundTrip` | src/core/redis/config.cpp:47-137 | a configuration comes back exactly when it is canonical |
| `RedisConfig.IntrinsicLatencyIsLost` | src/core/redis/config.cpp:257-261 | the mode is read back as the duration, and every later option is lost |
| `Announcements.CommandsShownOnce` | src/core/driver/first_child_update_root_locker.cpp:35-46 | exactly the watched commands are announced, once each |
| `Announcements.ResultsShownOnce` | src/core/driver/first_child_update_root_locker.cpp:48-58 | only the first result of the first command with a text is announced, and exactly once |
| `Announcements.HistoryIsInOrder` | src/core/driver/root_locker.cpp:59-61 | with history on, the announcements are the commands, each followed by its results, and nothing else |
| `Announcements.HistoryShowsAll` | src/core/driver/root_locker.cpp:59-61 | with history on, every result is announced, and exactly once |
| `Announcements.UpdatesAreOwners` | src/core/driver/first_child_update_root_locker.cpp:48-58 | only the first result of the first command with its text is ever updated, and nothing with history on |
| `Announcements.DisplayIsLatest` | src/core/driver/first_child_update_root_locker.cpp:48-58 | whoever follows the announcements sees the most recent result of each text |
| `Announcements.RepeatsFold` | src/core/driver/first_child_update_root_locker.cpp:35-92 | in repeated runs of distinct commands each command and first result is announced once and the latest value is displayed |
| `ExecuteRun.Node.AddChildren` | src/global/global.cpp:63-74 | the child is appended, announced, and only then given the observer; null is ignored |
| `ExecuteRun.Locker.ChildrenAdded` | src/core/driver/first_child_update_root_locker.cpp:35-58 | what is announced, what is watched, and whose value a new child replaces |
| `ExecuteRun.Locker.FindCmdChildNode` | src/core/driver/first_child_update_root_locker.cpp:60-81 | the first child of the watched command of the same text, or null |
| `ExecuteRun.Locker.FindWatchedCmd` | src/core/driver/first_child_update_root_locker.cpp:83-92 | the first watched command with this text |
| `ExecuteRun.ValueAfterResult` | src/core/driver/first_child_update_root_locker.cpp:48-58 | a new result takes the place of the value shown for its text and changes no other |
| `ExecuteRun.StableCommand` | src/core/command/command.cpp:24-34 | exactly one carriage return at the end is dropped, and nothing else |
| `ExecuteRun.CreateCommand` | src/core/command/command.h:34-52 | a command node is added and announced, unless nothing is left of the text |
| `ExecuteRun.CreateCommandFast` | src/core/command/command.h:55-67 | an unobserved command outside the tree, unless nothing is left of the text |
| `ExecuteRun.Attach` | src/global/global.cpp:63-74 | attaching a result keeps tree, shown values and announcements in step |
| `ExecuteRun.AttachAll` | src/core/driver/idriver.cpp:172-174 | all results of an execution are attached in order |
| `ExecuteRun.Attempt` | src/core/driver/idriver.cpp:437-447 | one command is created and executed; it fails when it cannot be created or its execution fails |
| `ExecuteRun.Driver.Try` | src/core/driver/idriver.cpp:434-447 | one step of progress is sent, then the command is attempted |
| `ExecuteRun.Driver.Round` | src/core/driver/idriver.cpp:425-448 | one round attempts the commands in order, and ends early at the first failure or interruption only |
| `ExecuteRun.Driver.Loop` | src/core/driver/idriver.cpp:423-454 | attempts follow the commands modulo their number and stop at the first failure or interruption and nowhere else |
| `ExecuteRun.Driver.HandleExecute` | src/core/driver/idriver.cpp:393-460 | the whole message sequence of every path: one response, then progress 100, and the tree of what was executed |
| `ExecuteRun.StepsRise` | src/core/driver/idriver.cpp:421-435 | progress never falls, stays at most 99, and is 99 at the last attempt of a full run |
| `ExecuteRun.OneOutcome` | src/core/driver/idriver.cpp:423-454 | request and world determine where a run stops and with which error |
| `ExecuteRun.CompleteRun` | src/core/driver/idriver.cpp:423-454 | a run ends without an error exactly when no attempt fails or is interrupted, and then it has made every attempt |
| `ExecuteRun.FoldedRun` | src/core/driver/idriver.cpp:419-454 | after any run of distinct commands: one announcement per command and first result, and the first child holds the most recent value |
| `ExecuteRun.FullRun` | src/core/driver/root_locker.cpp:59-65 | at any point of a run with history: every command and result announced once and in order, each result node with its own value |
| `LocalStores.Connection.SetInner` | src/core/lmdb/db_connection.cpp:229-258 | the key is written exactly when the connection is open and no primitive fails; otherwise the store is unchanged; no transaction stays open |
| `LocalStores.Connection.GetInner` | src/core/lmdb/db_connection.cpp:260-284 | a value is read exactly when the connection is open, no primitive fails and the key is there; the store is unchanged, and no transaction stays open |
| `LocalStores.Connection.DelInner` | src/core/lmdb/db_connection.cpp:286-312 | the key is gone exactly when the connection is open and no primitive fails, in LMDB also only when it was there; otherwise the store is unchanged |
| `LocalStores.Connection.DeleteImpl` | src/core/leveldb/db_connection.cpp:334-347 | exactly the keys appended to the list are gone, and of those that can be deleted no more are left out than primitives failed |
| `LocalStores.Connection.RenameImpl` | src/core/leveldb/db_connection.cpp:374-393 | the error tells whether the key moved, stayed, or was lost in the final write; on success the value stands under the new key |
| `LocalStores.MoveRelocates` | src/core/leveldb/db_connection.cpp:374-393 | a move is exactly the change that puts the old value under the new key, removes the old key and leaves every other key alone |
| `LocalStores.Connection.Set` | src/core/internal/cdb_connection.h:130-151 | store and mirror change alike on success and not at all on any error |
| `LocalStores.Connection.Get` | src/core/internal/cdb_connection.h:154-175 | what is loaded and reported is what the store holds; nothing changes |
| `LocalStores.Connection.Delete` | src/core/internal/cdb_connection.h:106-127 | the store loses the deleted keys, the mirror every key in the caller's list |
| `LocalStores.Connection.Rename` | src/core/internal/cdb_connection.h:178-194 | store and mirror move the key alike, except that a failed final write is not announced |
| `LocalStores.Perform` | src/core/internal/cdb_connection.h:105-194 | each call has an outcome it may have, the intended one when no primitive fails, and store and mirror change as that outcome does |
| `LocalStores.OutcomeFitsCall` | src/core/internal/cdb_connection.h:105-194 | an outcome names its call: only a Set writes its value, only a Delete removes some of its keys, only a Rename moves or drops its key |
| `LocalStores.MirrorTracksStore` | src/core/internal/cdb_connection.h:105-194 | after any run of possible outcomes the mirror is the store plus exactly the lost keys |
| `LocalStores.MirrorIsStore` | src/core/internal/cdb_connection.h:105-194 | they are equal exactly when no key is lost, so always when no rename fails in its final write |
| `LocalStores.LmdbNeverForgets` | src/core/lmdb/db_connection.cpp:286-312 | in LMDB a lost key is only mended by writing it or renaming to it |
| `LocalStores.RunCalls` | src/core/internal/cdb_connection.h:105-194 | after any run of calls the client's mirror is the store plus exactly the lost keys; without failures every call has its intended outcome and the mirror is the store |
| `LocalStores.StaleKeys` | src/core/internal/cdb_connection.h:121-124 | a list that was not empty spoils the mirror exactly when it names a key that is still stored |
| `History.GetStamp` | src/core/driver/idriver.cpp:76-97 | recognizes exactly the stamp lines and their time |
| `History.StampRoundTrip` | src/core/driver/idriver.cpp:72-97 | a stamp is read back as its time |
| `History.ReadHistory` | src/core/driver/idriver.cpp:549-578 | the loop computes the snapshots of the line sequence |
| `History.EveryStampCounts` | src/core/driver/idriver.cpp:565-577 | every stamp line makes exactly one snapshot |
| `History.WriteAppends` | src/core/driver/idriver.cpp:339-354 | the log grows by a stamp and a text for each snapshot and by nothing else |
| `History.ReadBack` | src/core/driver/idriver.cpp:339-354 | without stray stamp lines the reader sees the snapshots that were written |
| `History.HistoryRoundTrip` | src/core/driver/idriver.cpp:549-578 | the log comes back exactly when no info text has a stamp line and every info survives its own text |
| `ServerInfo.FindLabel` | src/core/leveldb/server_info.cpp:148-155 | the growing word finds the label exactly when the text begins with it |
| `ServerInfo.StatsFromText` | src/core/leveldb/server_info.cpp:67-89 | the loop assigns the numbers line by line |
| `ServerInfo.OneStat` | src/core/leveldb/server_info.cpp:67-89 | which number a line sets, and that any other line sets nothing |
| `ServerInfo.MakeLeveldbServerInfo` | src/core/leveldb/server_info.cpp:138-158 | no object for an empty text, defaults without the label, the parsed statistics otherwise |
| `ServerInfo.StatsRoundTrip` | src/core/leveldb/server_info.cpp:127-164 | LevelDB statistics survive printing and parsing, whatever the object started from |
| `ServerInfo.LeveldbHistory` | src/core/leveldb/server_info.cpp:67-164 | a LevelDB history log is read back exactly as written |
| `ServerInfo.PathFromText` | src/core/lmdb/server_info.cpp:58-72 | the loop assigns the path line by line |
| `ServerInfo.OnePath` | src/core/lmdb/server_info.cpp:58-72 | only the line of the path sets the path |
| `ServerInfo.MakeLmdbServerInfo` | src/core/lmdb/server_info.cpp:110-130 | no object for an empty text, an empty path without the label, the parsed path otherwise |
| `ServerInfo.PathRoundTrip` | src/core/lmdb/server_info.cpp:102-136 | an LMDB path survives printing and parsing exactly when it contains no CRLF |
| `ServerInfo.LmdbHistory` | src/core/lmdb/server_info.cpp:58-136 | an LMDB log is read back exactly when no path contains CRLF or makes a stamp line |
| `ServerInfo.LmdbHistoryOfPlainPaths` | src/core/lmdb/server_info.cpp:58-136 | in particular when no path contains a newline |
| `Dispatch.MergedMatches` | src/core/command_holder.cpp:64-71 | joining the tokens and comparing with the name is matching word by word, ignoring case |
| `Dispatch.BlankNeverMatches` | src/core/command_holder.cpp:64-71 | a token that contains a blank matches no name |
| `Dispatch.SameLetter` | src/core/command_holder.cpp:69-69 | characters count as equal exactly when they are, or are the two cases of one ASCII letter |
| `Dispatch.CaseDoesNotMatter` | src/core/command_holder.cpp:64-71 | changing the case of ASCII letters in the tokens changes no match |
| `Dispatch.OtherSpaceNeverMatches` | src/core/command_holder.cpp:27-29 | a name with white space other than blanks matches nothing, since its count of words is off |
| `Dispatch.CommandHolder.IsCommand` | src/core/command_holder.cpp:53-77 | true exactly when the name's words are the leading tokens, with their number as the offset |
| `Dispatch.OneFirst` | src/core/internal/command_handler.cpp:34-54 | the order of the table decides: at most one entry is the first that matches |
| `Dispatch.NeverTripsIff` | src/core/command_holder.cpp:58-63 | no command line trips the check on the number of tokens exactly when every name in the table has at most two words |
| `Dispatch.LongNamesAreNot` | src/core/command_holder.cpp:63-63 | in particular a table with a name of three words can be tripped |
| `Dispatch.Execute` | src/core/internal/command_handler.cpp:34-54 | the first matching entry is called with exactly the remaining tokens when their number is allowed, refused otherwise, and unknown exactly when nothing matches |

## Left out

- The GUI, the shell, translations, Qt events and threads, sockets, signals and the daemon's request loop.
- HASH_SELECT, HASH_REPLACE, HASH_CLEAR, the Bloom filter and the other hash functions of uthash.h.
- Out-of-memory paths, and the wrap-around of `num_buckets`, `num_items` and counts beyond 32 bits.
- Keys as NUL-terminated byte strings: hash table keys are character sequences, and the table's hash function
  is any function of the key; `Jenkins` proves what is particular to HASH_JEN.
- Read errors of fgets before the end of the file, where the source loops without progress.
- Address texts, command-line conversion, prepare_path, the CRC and atof on text that is not a decimal number:
  library code that is not part of this model. Decimal texts that do not fit their integer type, and text that
  is not decimal, which is read as 0.
- Splitting a printed Redis configuration into tokens (sdssplitargslong), so configurations are stated on
  token lists; values that contain NUL; rounding of intervals beyond the exact range of a double.
- ClusterSettings.ClusterRoundTrip: states nodes that have an SSH part and a comma-free command line in
  printed form, and library conversions that add no 0x1E to a text without one.
- The sentinel list text and its base64 wrapping, the memcached server info, which leaves its parser early.
- Results below results (Redis arrays attach children to a result): the model's results are direct children of
  the command. The sleep between rounds, the time stamps of the root and the values' types.
- Dispatch.CommandHolder.IsCommand: needs the number of tokens that the source's CHECK demands, which
  `NeverTripsIff` shows for exactly the tables without longer names.
- LocalStores.Connection.DeleteImpl: the order of the deleted keys is in the list, the contract speaks of the
  set of their strings.
- ExecuteRun.CreateCommand: the parent is null or the root of the run, as at its callers in the execute loop.
- ExecuteRun.AttachAll: the results are direct children of the command, as under "Results below results".
- Select, SetTTL, Quit, Keys, Info and Flushdb of the connections; values other than strings, which the
  wrappers convert before storing.
- A negative time after -i, whose conversion to an unsigned number the language leaves undefined; the model
  counts it as none.
- Opening, rotating and clearing the history file; a log whose last line is cut off is modelled, read errors
  are not.
- ServersManager, SettingsManager and other containers, whose members are easy.
