# healthy: process sampling, deltas and the top-20 tracker

healthy is a small GTK process monitor. Each sampling round does three things.
It reads every `/proc/[pid]/stat`, `statm`, `io` and `cmdline` file. It also reads
the machine-wide cpu and memory counters and the per-connection lines of `ss -tipHOn`,
once before and once after a sleep. From the two snapshots it computes each process's
cpu, memory, network and io usage, optionally grouping the processes by parent pid or by
name. A collector then keeps, for each of the four usages, a rolling history of
`num_samples` values for every process that has ever made the top 20. It returns the 20
histories of largest sum.

This project models that core:

- `pytext.dfy` (module `PyText`): the Python string and integer builtins the code relies
  on. These are `strip`, `split()`, `split(" ")`, `index`, slicing, `replace`, `int()` and
  `str()`, all over `seq<char>`.
- `procstat.dfy` (module `ProcStat`): `PIDStat` as a value (`Stat`). It holds the
  constructor's parsing of a stat and a statm line, and the key `__eq__`/`__hash__` use
  under each `GROUP_BY` mode.
- `procfiles.dfy` (module `ProcFiles`): `read_stat` with its sentinel record, plus
  `read_global_cpu` and `read_global_mem`. Each reads the lines of files that are given
  as inputs.
- `sstip.dfy` (module `SsTip`): `parse_ss_tip`, as `re.search` runs its pattern: the
  leftmost start, maximal digit runs, and greedy `.*` that stays on one line.
- `sslayout.dfy` and `ssexample.dfy` (modules `SsTipLayout`, `SsExample`): what
  `parse_ss_tip` returns on every connection line of the usual shape, and on the line of
  the unit test.
- `delta.dfy` (module `Delta`): the tail of `process_stats`. That is the `net_stats`
  totals, the per-pid usage deltas and the optional grouping.
- `sorting.dfy` (module `Sorting`): `list.sort(key=..., reverse=True)` as a stable
  insertion sort. It has a functional specification and an in-place array version.
- `tracker.dfy` (module `Tracker`): `PIDStatsCollector` as a class with four `History`
  dicts. It contains `collect_top_20` and one round of `update`.

A dict keyed by `PIDStat` objects is modelled by its keys in insertion order plus a map
from `KeyOf(mode, record)` to the value. `EqualIffSameKey` proves this is exactly the
identity `__eq__` and `__hash__` give a record.

One index deserves a note. `PIDStat.__init__` reads `ppid` from `fields[5]`
(healthy.py:35). After the name is put back at index 1, that index holds field 6 of a
proc(5) stat line, which is the session id. The parent pid is field 4, at `fields[3]`.
The model keeps the index the code reads: `ParseStatOfLayout` states that the record's
`ppid` is the line's session field. So the model's "group by ppid" groups by session, as
the program does.

## Model

| member | source | states |
|---|---|---|
| PyText.LStrip | healthy.py:351 | the result is a suffix of the input, every dropped character is whitespace, and it does not start with whitespace |
| PyText.RStrip | healthy.py:351 | the result is a prefix of the input, every dropped character is whitespace, and it does not end with whitespace |
| PyText.StripLine | healthy.py:351 | strip() removes the newline readline() leaves, and nothing else, from a line without outer whitespace |
| PyText.SplitWs | healthy.py:30 | every field of split() is non-empty and holds no whitespace |
| PyText.SplitWsJoin | healthy.py:30 | round trip: split() of words joined by one whitespace character gives the words back |
| PyText.SplitOn | healthy.py:42 | split(" ") yields at least one field and no field contains the separator |
| PyText.SplitOnJoin | healthy.py:42 | round trip: split(c) of fields joined with c gives the fields back |
| PyText.IndexOf | healthy.py:27 | str.index returns the first position holding the character |
| PyText.Slice | healthy.py:28 | s[i:j] has Python's clamped length and the characters of s from i |
| PyText.SliceFrom | healthy.py:29 | s[i:] has length max(0, len - i) and the characters of s from i |
| PyText.ReplaceChar | healthy.py:57 | replace keeps the length and swaps exactly the occurrences of one character |
| PyText.Digits | healthy.py:488 | str(n) of a natural number is a non-empty run of digits |
| PyText.DigitsCanonical | healthy.py:488 | str(n) has no leading zero: it starts with '0' exactly when n is 0, and is then the single digit "0" |
| PyText.ParseIntOfDecimal | healthy.py:33-37 | round trip: int(str(n)) == n for every integer, negative ones included |
| ProcStat.ModeOf | healthy.py:69-83 | GROUP_BY selects ppid mode exactly for "ppid", name mode exactly for "name", and pid mode for every other value |
| ProcStat.EqualIffSameKey | healthy.py:69-83 | in each mode, __eq__ holds exactly when the hashed values (pid and tcomm, ppid, or tcomm) are equal |
| ProcStat.InsertAt1 | healthy.py:31 | list.insert(1, x) puts x second and keeps the other fields in order, or yields [x] on an empty list |
| ProcStat.NameOf | healthy.py:27-28 | the name is the text strictly between the first '(' and the first ')', and empty when the ')' comes first |
| ProcStat.StatFields | healthy.py:27-31 | the fields exist exactly when both parentheses occur, and field 1 is the name |
| ProcStat.NameWithParen | healthy.py:27-31 | a process name holding ')' is cut at its first ')': for the name "a) b" the fields are 1, a, b), S, 7, so every field after the name moves one index up |
| ProcStat.IntField | healthy.py:33-37 | reading past the end of the field list fails |
| ProcStat.StatOfFields | healthy.py:33-64 | a record is built exactly when int() accepts stat fields 0, 5, 13, 14 and statm fields 0, 1; it has those values, tcomm = field 1, summed net and io byte pairs, the cmdline passed in, and all usages 0 |
| ProcStat.ParseStat | healthy.py:26-64 | the constructor succeeds exactly when the stat line has both parentheses and the six int() calls succeed (otherwise the ValueError or IndexError); its record has the name, the given byte pairs and their sums, and zero usages |
| ProcStat.CmdlineOf | healthy.py:54-59 | cmdline is set exactly when the file's first line could be read; it is that line stripped, with every NUL turned into a space |
| ProcStat.StatFieldsOfLayout | healthy.py:27-31 | a proc(5) stat line whose name has no ')' yields the fields pid, name, then the remaining fields, whatever spaces or '(' the name holds |
| ProcStat.ParseStatOfLayout | healthy.py:26-64 | on a proc(5) stat line and a statm line, the record has pid, name, session (read as ppid), utime, stime, size and resident from their fields |
| ProcFiles.SentinelStat | healthy.py:373 | the fake record has pid -1, name "<error>", no cmdline, and every count and usage 0 |
| ProcFiles.SentinelParses | healthy.py:373 | the constructor accepts the two fake lines and builds exactly the fake record |
| ProcFiles.SentinelStatLayout | healthy.py:373 | the fake stat line is a proc(5) stat line of pid -1, named "<error>", state Z, then 49 zeros |
| ProcFiles.ReadIo | healthy.py:355-367 | with no io file both counters are 0; otherwise read_bytes is line 5's second field and write_bytes line 6's, each 0 when unreadable, and write_bytes stays 0 when line 5 fails |
| ProcFiles.LabelledValue | healthy.py:363-364 | the second whitespace field of "label value rest\n" reads back as the value |
| ProcFiles.ReadIoOfLayout | healthy.py:358-364 | an io file in proc(5) layout yields its read_bytes and write_bytes counters |
| ProcFiles.ReadIoOfShortFile | healthy.py:357-367 | an io file of at most four lines leaves both counters 0 and raises nothing |
| ProcFiles.ReadStat | healthy.py:348-373 | a stat or statm input that is None (open or readline raised) yields the fake record; otherwise the record comes from the lines read |
| ProcFiles.ReadStatOfUnparsed | healthy.py:369-373 | when the constructor raises on the lines read, read_stat returns the fake record |
| ProcFiles.ReadStatOfParsed | healthy.py:350-369 | when the stripped first lines parse, read_stat returns the constructor's record |
| ProcFiles.ReadStatUnmeasured | healthy.py:348-373 | whatever the files hold, read_stat's record has zero network counters and zero usages |
| ProcFiles.ReadStatOfLayout | healthy.py:348-369 | on stat, statm and io files in proc(5) layout, read_stat builds the record of their fields with the io counters and (0, 0) for the network |
| ProcFiles.ParseAll | healthy.py:379 | [int(x) for x in ws] succeeds exactly when every field parses, keeping order and length |
| ProcFiles.ParseAllDecimals | healthy.py:379 | round trip: the decimal texts of a list of integers parse back to that list |
| ProcFiles.Take | healthy.py:380 | xs[:8] is the prefix of length min(8, len) |
| ProcFiles.GlobalCpuOfLayout | healthy.py:376-380 | a first /proc/stat line "cpu  " plus counters yields the sum of the first eight counters |
| ProcFiles.GlobalMemOfLayout | healthy.py:383-389 | on a /proc/meminfo in proc(5) layout, the result is (MemTotal - MemAvailable) * 1024 |
| ProcFiles.GlobalMemBounds | healthy.py:389 | the used memory lies between 0 and MemTotal * 1024 when no more is available than there is |
| ProcFiles.GlobalMemFails | healthy.py:385-388 | read_global_mem raises when line 1 or line 3 has no integer as its second field |
| SsTip.LeftmostFirst | healthy.py:403 | the chosen start is a match, and no earlier start is |
| SsTip.SentReceivedGreedy | healthy.py:397 | the two greedy .* stay on the line and settle on the last label positions from which the rest still matches; they fail only when no such position exists |
| SsTip.ParseSsTip | healthy.py:401-409 | None exactly when the pattern matches at no position; otherwise the numbers of the leftmost match |
| SsTipLayout.ParseSsTipOfLayout | healthy.py:396-409 | on a line "...pid=P,fd=F...bytes_sent:S...bytes_received:R..." with no other pid= before the first one (process names such as python3 included), the result is (P, F, S, R) |
| SsExample.TestLineParses | healthy_test.py:6-25 | on the unit test's ss line, parse_ss_tip returns (1367, 7, 276685, 810911) |
| Delta.OwnersAre | healthy.py:432-437 | a pid gets a net_stats entry exactly when some parsed connection after the sleep carries it |
| Delta.TrafficOfStranger | healthy.py:438-445 | a pid that owns no connection has no traffic |
| Delta.TrafficAppend | healthy.py:431-447 | traffic adds up over consecutive parts of a connection list |
| Delta.NetStats | healthy.py:431-447 | net_stats holds exactly the pids that own a connection after the sleep, each mapped to bytes after minus bytes before; the connections of vanished pids are skipped |
| Delta.CpuShare | healthy.py:456-457 | cpu usage times the global cpu delta equals cpu_time * 100 * cpu_count |
| Delta.MemShare | healthy.py:458 | mem usage times the global memory equals resident * PAGE_SIZE * 100 |
| Delta.CpuShareExample | healthy.py:456-457 | 250 of 1000 jiffies on 4 cpus is 100% |
| Delta.Measure | healthy.py:453-466 | only the usages change; cpu comes from both snapshots, mem from the after one; net is the net_stats entry when positive and 0 otherwise; io is the growth of the io bytes when positive and otherwise kept |
| Delta.MeasureNonNegative | healthy.py:459-466 | for a freshly read record, the net and io usages are non-negative, and io is positive exactly when the io bytes grew |
| Delta.SurvivorsAre | healthy.py:452-453 | an after entry is measured exactly when its pid is also in the before snapshot |
| Delta.MeasuredOfSurvivors | healthy.py:451-467 | one record per surviving pid, in after order, each its after record measured against its before record |
| Delta.MeasureAll | healthy.py:451-467 | the loop raises (None) exactly when a divisor is 0 and some pid survives; otherwise it returns the measured survivors, or [] when nothing is divided |
| Delta.MinPid | healthy.py:478-480 | the group pid is a member's pid and no member's pid is smaller |
| Delta.AccumulateIs | healthy.py:470-484 | a group record counts its members, has the smallest pid with the name of the first member holding it, sums each usage, and keeps the first member's other fields |
| Delta.AccumulatePid | healthy.py:477-479 | the group record's pid is the smallest pid among its members |
| Delta.AccumulateName | healthy.py:477-479 | because the comparison is strict, the group keeps the name of the first member whose pid is that smallest pid; a later member with an equal pid does not replace it |
| Delta.MembersAre | healthy.py:471-474 | a record is a member of key k exactly when it is in the list and its key is k |
| Delta.FirstSeenIs | healthy.py:470-474 | the grouped keys are distinct and are exactly the keys of the records |
| Delta.MembersOfSeen | healthy.py:473-474 | a key has members exactly when it is among the grouped keys |
| Delta.Labelled | healthy.py:485-488 | a group of n > 1 gets " (n)" after its name, and no other field changes |
| Delta.Grouped | healthy.py:489 | the grouped list has one record per distinct key |
| Delta.GroupedIs | healthy.py:469-489 | record i counts the members of the i-th first-seen key, carries the minimum pid with the name of the first member holding it and " (n)" when n > 1, and sums each usage |
| Delta.Gather | healthy.py:470-484 | the first grouping loop builds, for each key in first-seen order, the record accumulated from its members |
| Delta.GatherNew | healthy.py:473-475 | a record of an unseen key opens a group of its own with count 1 |
| Delta.GatherOld | healthy.py:476-484 | a record of a seen key joins that key's group |
| Delta.LabelGroups | healthy.py:485-488 | the second grouping loop labels every group and keeps the keys |
| Delta.Group | healthy.py:469-490 | with no group_by the list is returned as it is; otherwise it is the grouped list |
| Delta.ProcessStats | healthy.py:431-490 | None exactly when a divisor is 0 and some pid survives; the empty list when a divisor is 0 and no pid survives; otherwise the measured survivors against the net_stats totals, grouped unless the mode is pid |
| Sorting.InsertPermutes | healthy.py:322 | placing one element keeps every other element |
| Sorting.SortDescDescending | healthy.py:322 | the sort leaves the list in non-increasing key order |
| Sorting.SortDescPermutes | healthy.py:322 | the sort is a permutation |
| Sorting.SortDescStable | healthy.py:322 | the sort is stable: elements with equal keys keep their order |
| Sorting.SortInPlace | healthy.py:322 | sorting the array in place leaves exactly the stable descending sort of its old contents |
| Tracker.Zeros | healthy.py:328 | [0] * n has length n and holds only zeros |
| Tracker.PushFull | healthy.py:330-332 | appending then popping the front of a full history drops the oldest sample, puts the new one last, and keeps the length |
| Tracker.RecordTracks | healthy.py:326-332 | the first loop keeps one history per distinct key and adds exactly the keys of the top 20 |
| Tracker.RecordKeepsKeys | healthy.py:326-329 | the first loop only appends keys; stored keys keep their place and order |
| Tracker.RecordOthers | healthy.py:326-332 | the first loop leaves the history of a key outside the top 20 untouched |
| Tracker.RecordOnce | healthy.py:326-332 | for a key held by exactly one of the first 20 records, the first loop pushes that record's usage onto the key's history, which starts as [0] * n for a new key |
| Tracker.RecordShared | healthy.py:325-332 | for a key held by one or more of the first 20 records, the first loop pushes the usage of each of them, in order, onto the one history, which starts as [0] * n for a new key |
| Tracker.AgeInOrderIsAge | healthy.py:334-338 | visiting distinct keys in order pushes 0 exactly onto the visited histories outside the top 20 |
| Tracker.AgeInOrderAll | healthy.py:334-338 | over a well-formed dict, the second loop's order does not matter |
| Tracker.CollectTracks | healthy.py:321-340 | collect_top_20 keeps the dict well formed, removes no key, appends the new top-20 keys, and keeps the old keys in order |
| Tracker.CollectFilled | healthy.py:326-338 | after collect_top_20 every history holds exactly num_samples samples |
| Tracker.CollectTopBuffer | healthy.py:326-332 | a key held by exactly one of the first 20 records ends with that record's usage: a full history drops its oldest sample, and a new key gets num_samples - 1 zeros then the usage |
| Tracker.PushAllFull | healthy.py:330-332 | pushing m values onto a full history keeps its length and leaves the newest num_samples of the old samples followed by the values |
| Tracker.CollectSharedBuffer | healthy.py:325-337 | after collect_top_20, a key held by m of the first 20 records has a full history made of its old history (or zeros) followed by the m usages, minus the m oldest samples; two fake records of a failed read drop two samples of their shared history |
| Tracker.CollectAgedBuffer | healthy.py:334-338 | a tracked key outside the top 20 drops its oldest sample and gets 0 last |
| Tracker.CollectAgedExample | healthy.py:334-338 | with five samples, [5,5,5,5,5] becomes [5,5,5,5,0] |
| Tracker.Top20 | healthy.py:323 | stats[:20] is the prefix of length min(20, len) |
| Tracker.Items | healthy.py:342 | items() pairs each stored key, in insertion order, with its history |
| Tracker.Ranked | healthy.py:343-344 | the result holds min(20, number of items) entries |
| Tracker.RankedDescending | healthy.py:343-344 | the result is in non-increasing order of history sum |
| Tracker.RankedPermutes | healthy.py:343-344 | the result is drawn from the dict's items, each at most once |
| Tracker.RankedTop | healthy.py:343-344 | no item left out has a larger sum than an item kept |
| Tracker.RankedStable | healthy.py:343-344 | among items of equal sum, those kept are the first ones in insertion order |
| Tracker.Rank | healthy.py:342-344 | sorting the items in an array and slicing gives the ranking |
| Tracker.AlivePids | healthy.py:303-305 | alive_pids is exactly the set of pids of the snapshot's records |
| Tracker.History.constructor | healthy.py:284-287 | a new dict is empty and well formed |
| Tracker.PIDStatsCollector.constructor | healthy.py:274-287 | four distinct empty histories, with num_samples given |
| Tracker.PIDStatsCollector.RecordTop | healthy.py:326-332 | the first loop's new dict state is Record of the old state and the top 20 |
| Tracker.PIDStatsCollector.AgeOthers | healthy.py:334-338 | the second loop keeps the keys and pushes 0 onto every history outside the top 20 |
| Tracker.PIDStatsCollector.CollectTop20 | healthy.py:321-344 | the list ends stably sorted by usage, the dict becomes Collect of its old state and the first 20 records and stays well formed, and the result is the ranking of its items |
| Tracker.PIDStatsCollector.Step | healthy.py:307-319 | one collect_top_20 call keeps every history at num_samples samples |
| Tracker.PIDStatsCollector.Cycle | healthy.py:303-319 | one update round: alive pids, then cpu, mem, net and io collected in turn over the list each previous sort left, with all four dicts kept well formed and full |

## Left out

- The GTK window, the graphs and the key handling are not modelled. Neither is the
  background thread that loops `update`, or the `GLib.idle_add` hand-off of results to
  the display.
- File and process I/O is not modelled. Every `/proc` file is an input: the sequence of
  lines successive `readline()` calls return, or `None` when `open` fails or reading
  raises, including text that is not valid UTF-8 or a process that exits between the
  `open` and the `readline()`. This covers
  `os.listdir("/proc")`, the `ss` subprocess (`read_net_per_process`, whose parsed lines
  are an input), `time.sleep`, `os.cpu_count()` and `PAGE_SIZE`.
- The `print` diagnostics are not modelled.
- The pid snapshots are not built from directory listings. `process_stats` receives them
  as a map from pid (before) and a list of (pid, record) entries (after). A `/proc`
  directory name is modelled by its integer value, so `pid in pid_stats_before` and
  `int(pid) in net_stats` use the same pid.
- `PIDStat` is a value, not an object. `process_stats` sets the usages of the after
  records, and grouping mutates a group's first member, in place. Each such object is
  reachable only from the after snapshot and the result list, so the model builds the
  updated records as new values. The aliasing is not captured.
- The list built in `collect_top_20`'s second loop is not modelled: line 342 replaces it
  before it is used.
- `num_samples` is `int(60 / sample_seconds)`, floating-point division and truncation of
  a user setting. It is taken as a natural-number parameter.
- Delta.CpuShare: usages are exact reals, not IEEE doubles, so the rounding of the
  divisions and products is not modelled.
- Delta.MemShare: exact reals as for Delta.CpuShare.
- Delta.MeasureAll: `os.cpu_count()` returning `None` (a TypeError in the source) is not
  modelled; the cpu count is an integer.
- ProcStat.ParseStat: `int()` is modelled for ASCII digits with optional sign, underscores
  and surrounding whitespace. Other Unicode decimal digits are not accepted.
- SsTip.ParseSsTip: `\d` matches only ASCII digits here, while Python's `str` patterns
  also match other Unicode decimal digits. The line is not decoded from UTF-8 bytes; it
  is given as characters.
- The `TestReadNetPerProcess` unit test runs the real `ss` command, so it is not
  modelled.
- SsExample.TestLineParses: the unit test's line is written as the pieces
  `parse_ss_tip` picks apart. The pid, descriptor and byte counts are written through
  `Digits`, and the rest of the line is word-for-word text. The model does not prove that
  this concatenation equals the test's single literal.
