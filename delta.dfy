/**
  The part of process_stats in healthy.py that runs after the two snapshots
  are taken: the per-pid network totals, the per-pid usage deltas, and the
  optional grouping of the records by a key. The snapshots, the connection
  lists, the global cpu and memory counters, the cpu count and the page size
  are inputs.
 */
module Delta {
  import opened Wrappers
  import opened PyText
  import opened SsTip
  import opened ProcStat

  /* ---------- net_stats ---------- */

  /** The bytes sent and received by the connections of pid p in xs; a None entry is a line that did not parse. */
  function Traffic(xs: seq<Option<ConnectionInfo>>, p: int): int
    decreases |xs|
  {
    if xs == [] then 0
    else
      var c := xs[|xs| - 1];
      Traffic(xs[..|xs| - 1], p) + (if c.Some? && c.value.pid == p then c.value.bytesSent + c.value.bytesReceived else 0)
  }

  /** The pids that own a connection in xs. */
  function Owners(xs: seq<Option<ConnectionInfo>>): (r: set<int>)
    decreases |xs|
  {
    if xs == [] then {}
    else Owners(xs[..|xs| - 1]) + (if xs[|xs| - 1].Some? then {xs[|xs| - 1].value.pid} else {})
  }

  /** A pid owns a connection in xs exactly when some parsed entry carries it. */
  lemma {:induction false} OwnersAre(xs: seq<Option<ConnectionInfo>>, p: int)
    ensures p in Owners(xs) <==> exists i | 0 <= i < |xs| :: xs[i].Some? && xs[i].value.pid == p
    decreases |xs|
  {
    if xs != [] {
      var init := xs[..|xs| - 1];
      OwnersAre(init, p);
      if exists i | 0 <= i < |init| :: init[i].Some? && init[i].value.pid == p {
        var i :| 0 <= i < |init| && init[i].Some? && init[i].value.pid == p;
        assert xs[i] == init[i];
      }
      if exists i | 0 <= i < |xs| :: xs[i].Some? && xs[i].value.pid == p {
        var i :| 0 <= i < |xs| && xs[i].Some? && xs[i].value.pid == p;
        if i < |init| {
          assert init[i] == xs[i];
        }
      }
    }
  }

  /** A pid that owns no connection has no traffic. */
  lemma {:induction false} TrafficOfStranger(xs: seq<Option<ConnectionInfo>>, p: int)
    requires p !in Owners(xs)
    ensures Traffic(xs, p) == 0
    decreases |xs|
  {
    if xs != [] {
      TrafficOfStranger(xs[..|xs| - 1], p);
    }
  }

  /** Traffic adds up over consecutive parts of a connection list. */
  lemma {:induction false} TrafficAppend(xs: seq<Option<ConnectionInfo>>, ys: seq<Option<ConnectionInfo>>, p: int)
    ensures Traffic(xs + ys, p) == Traffic(xs, p) + Traffic(ys, p)
    decreases |ys|
  {
    if ys == [] {
      assert xs + ys == xs;
    } else {
      assert (xs + ys)[..|xs + ys| - 1] == xs + ys[..|ys| - 1];
      TrafficAppend(xs, ys[..|ys| - 1], p);
    }
  }

  /**
    The net_stats loops: a pid gets an entry exactly when it owns a
    connection after the sleep, and the entry is the traffic after less the
    traffic before; connections of pids that vanished are skipped.
   */
  method NetStats(after: seq<Option<ConnectionInfo>>, before: seq<Option<ConnectionInfo>>) returns (net: map<int, int>)
    ensures net.Keys == Owners(after)
    ensures forall p | p in net :: net[p] == Traffic(after, p) - Traffic(before, p)
  {
    net := map[];
    var i := 0;
    while i < |after|
      invariant 0 <= i <= |after|
      invariant net.Keys == Owners(after[..i])
      invariant forall p | p in net :: net[p] == Traffic(after[..i], p)
    {
      assert after[..i + 1][..i] == after[..i];
      match after[i] {
        case None =>
        case Some(info) =>
          if info.pid !in net {
            TrafficOfStranger(after[..i], info.pid);
            net := net[info.pid := 0];
          }
          net := net[info.pid := net[info.pid] + (info.bytesSent + info.bytesReceived)];
      }
      i := i + 1;
    }
    assert after[..i] == after;
    var j := 0;
    while j < |before|
      invariant 0 <= j <= |before|
      invariant net.Keys == Owners(after)
      invariant forall p | p in net :: net[p] == Traffic(after, p) - Traffic(before[..j], p)
    {
      assert before[..j + 1][..j] == before[..j];
      match before[j] {
        case None =>
        case Some(info) =>
          if info.pid in net {
            net := net[info.pid := net[info.pid] - (info.bytesSent + info.bytesReceived)];
          }
      }
      j := j + 1;
    }
    assert before[..j] == before;
  }

  /** net_stats as a dict value: for each pid that owns a connection after the sleep, its traffic after less its traffic before. */
  function NetTotals(after: seq<Option<ConnectionInfo>>, before: seq<Option<ConnectionInfo>>): map<int, int> {
    map p | p in Owners(after) :: Traffic(after, p) - Traffic(before, p)
  }

  /* ---------- per-pid deltas ---------- */

  /** One entry of the after snapshot: the /proc directory name as an int, and the record read from it. */
  datatype Entry = Entry(pid: int, stat: Stat)

  /** (cpu_time / global_cpu) * 100.0 * cpu_count */
  function CpuShare(cpuTime: int, globalCpu: int, cpuCount: int): (r: real)
    requires globalCpu != 0
    ensures r * globalCpu as real == (cpuTime * 100 * cpuCount) as real
  {
    (cpuTime as real / globalCpu as real) * 100.0 * cpuCount as real
  }

  /** ((resident * PAGE_SIZE) / global_mem) * 100 */
  function MemShare(resident: int, pageSize: int, globalMem: int): (r: real)
    requires globalMem != 0
    ensures r * globalMem as real == (resident * pageSize * 100) as real
  {
    ((resident * pageSize) as real / globalMem as real) * 100.0
  }

  /** The fields a delta leaves as the after record has them: all but the four usages. */
  predicate SameButUsage(a: Stat, b: Stat) {
    a.(cpuUsage := 0.0, memUsage := 0.0, netUsage := 0.0, ioUsage := 0.0)
      == b.(cpuUsage := 0.0, memUsage := 0.0, netUsage := 0.0, ioUsage := 0.0)
  }

  /**
    The body of the loop over pid_stats_after for a pid p found in both
    snapshots: the after record with its usages set. cpu is the share of the
    machine's cpu time the process took between the snapshots, scaled by the
    cpu count; mem is its resident set as a share of the used memory; net is
    the pid's net_stats entry when it is positive, 0 otherwise; io is the
    growth of the io counters when positive, and otherwise what the after
    record already held.
   */
  function Measure(p: int, before: Stat, after: Stat, net: map<int, int>,
                   globalCpu: int, globalMem: int, cpuCount: int, pageSize: int): (r: Stat)
    requires globalCpu != 0 && globalMem != 0
    ensures SameButUsage(r, after)
    ensures r.cpuUsage * globalCpu as real
         == (((after.utime + after.stime) - (before.utime + before.stime)) * 100 * cpuCount) as real
    ensures r.memUsage * globalMem as real == (after.resident * pageSize * 100) as real
    ensures r.netUsage >= 0.0
    ensures r.netUsage > 0.0 <==> p in net && net[p] > 0
    ensures r.netUsage > 0.0 ==> r.netUsage == net[p] as real
    ensures after.ioBytes > before.ioBytes ==> r.ioUsage == (after.ioBytes - before.ioBytes) as real
    ensures after.ioBytes <= before.ioBytes ==> r.ioUsage == after.ioUsage
  {
    var cpuTime := (after.utime + after.stime) - (before.utime + before.stime);
    var netUsage := if p in net && net[p] > 0 then net[p] as real else 0.0;
    var ioBytes := after.ioBytes - before.ioBytes;
    after.(cpuUsage := CpuShare(cpuTime, globalCpu, cpuCount),
           memUsage := MemShare(after.resident, pageSize, globalMem),
           netUsage := netUsage,
           ioUsage := if ioBytes > 0 then ioBytes as real else after.ioUsage)
  }

  /** A process that used 250 of the machine's 1000 jiffies on a 4-core machine shows 100% cpu. */
  lemma CpuShareExample()
    ensures CpuShare(250, 1000, 4) == 100.0
  {
  }

  /**
    A record as read_stat returns it (io usage 0) comes out of the delta with
    a net and an io usage that are never negative, and an io usage that is
    positive exactly when the io counters grew.
   */
  lemma MeasureNonNegative(p: int, before: Stat, after: Stat, net: map<int, int>,
                           globalCpu: int, globalMem: int, cpuCount: int, pageSize: int)
    requires globalCpu != 0 && globalMem != 0
    requires after.ioUsage == 0.0
    ensures var r := Measure(p, before, after, net, globalCpu, globalMem, cpuCount, pageSize);
      r.netUsage >= 0.0 && r.ioUsage >= 0.0 && (r.ioUsage > 0.0 <==> after.ioBytes > before.ioBytes)
  {
  }

  /** The entries of the after snapshot whose pid the before snapshot also holds, in order. */
  function Survivors(before: map<int, Stat>, after: seq<Entry>): (r: seq<Entry>)
    decreases |after|
  {
    if after == [] then []
    else Survivors(before, after[..|after| - 1])
         + (if after[|after| - 1].pid in before then [after[|after| - 1]] else [])
  }

  /** The measured records of the survivors, in the order of the after snapshot. */
  function Measured(before: map<int, Stat>, after: seq<Entry>, net: map<int, int>,
                    globalCpu: int, globalMem: int, cpuCount: int, pageSize: int): (r: seq<Stat>)
    requires globalCpu != 0 && globalMem != 0
    decreases |after|
  {
    if after == [] then []
    else
      var e := after[|after| - 1];
      Measured(before, after[..|after| - 1], net, globalCpu, globalMem, cpuCount, pageSize)
      + (if e.pid in before then [Measure(e.pid, before[e.pid], e.stat, net, globalCpu, globalMem, cpuCount, pageSize)] else [])
  }

  /**
    Only pids present in both snapshots yield a record, one each in the order
    of the after snapshot, and each is the after record of that pid with its
    usages measured against the before record.
   */
  lemma {:induction false} MeasuredOfSurvivors(before: map<int, Stat>, after: seq<Entry>, net: map<int, int>,
                                               globalCpu: int, globalMem: int, cpuCount: int, pageSize: int)
    requires globalCpu != 0 && globalMem != 0
    ensures var r := Measured(before, after, net, globalCpu, globalMem, cpuCount, pageSize);
      var s := Survivors(before, after);
      |r| == |s| && forall k | 0 <= k < |r| ::
        s[k].pid in before
        && r[k] == Measure(s[k].pid, before[s[k].pid], s[k].stat, net, globalCpu, globalMem, cpuCount, pageSize)
    decreases |after|
  {
    if after != [] {
      MeasuredOfSurvivors(before, after[..|after| - 1], net, globalCpu, globalMem, cpuCount, pageSize);
    }
  }

  /** An entry survives exactly when its pid is in the before snapshot. */
  lemma {:induction false} SurvivorsAre(before: map<int, Stat>, after: seq<Entry>, e: Entry)
    ensures e in Survivors(before, after) <==> e in after && e.pid in before
    decreases |after|
  {
    if after != [] {
      var init := after[..|after| - 1];
      SurvivorsAre(before, init, e);
      assert after == init + [after[|after| - 1]];
    }
  }

  /** Some pid of the after snapshot is also in the before snapshot. */
  predicate AnySurvivor(before: map<int, Stat>, after: seq<Entry>) {
    exists i | 0 <= i < |after| :: after[i].pid in before
  }

  /**
    The loop over pid_stats_after. None is the ZeroDivisionError the first
    surviving pid raises when the global cpu or memory delta is 0; with no
    survivor nothing is divided and the list is empty.
   */
  method MeasureAll(before: map<int, Stat>, after: seq<Entry>, net: map<int, int>,
                    globalCpu: int, globalMem: int, cpuCount: int, pageSize: int) returns (r: Option<seq<Stat>>)
    ensures r.None? <==> (globalCpu == 0 || globalMem == 0) && AnySurvivor(before, after)
    ensures r.Some? && globalCpu != 0 && globalMem != 0 ==>
      r.value == Measured(before, after, net, globalCpu, globalMem, cpuCount, pageSize)
    ensures r.Some? && (globalCpu == 0 || globalMem == 0) ==> r.value == []
  {
    var stats: seq<Stat> := [];
    var i := 0;
    while i < |after|
      invariant 0 <= i <= |after|
      invariant globalCpu == 0 || globalMem == 0 ==> stats == [] && forall k | 0 <= k < i :: after[k].pid !in before
      invariant globalCpu != 0 && globalMem != 0 ==>
        stats == Measured(before, after[..i], net, globalCpu, globalMem, cpuCount, pageSize)
    {
      var e := after[i];
      if e.pid in before {
        if globalCpu == 0 || globalMem == 0 {
          return None;
        }
        assert after[..i + 1][..i] == after[..i];
        stats := stats + [Measure(e.pid, before[e.pid], e.stat, net, globalCpu, globalMem, cpuCount, pageSize)];
      } else if globalCpu != 0 && globalMem != 0 {
        assert after[..i + 1][..i] == after[..i];
      }
      i := i + 1;
    }
    assert after[..i] == after;
    return Some(stats);
  }

  /* ---------- grouping ---------- */

  /** One step of the grouping loop: member s joins the group record g. */
  function Join1(g: Stat, s: Stat): Stat {
    var g1 := g.(numProcesses := g.numProcesses + 1);
    var g2 := if s.pid < g1.pid then g1.(pid := s.pid, tcomm := s.tcomm) else g1;
    g2.(cpuUsage := g2.cpuUsage + s.cpuUsage, memUsage := g2.memUsage + s.memUsage,
        netUsage := g2.netUsage + s.netUsage, ioUsage := g2.ioUsage + s.ioUsage)
  }

  /** The group record the loop has built once it has seen the members ms, in order. */
  function Accumulate(ms: seq<Stat>): Stat
    requires ms != []
    decreases |ms|
  {
    if |ms| == 1 then ms[0].(numProcesses := 1)
    else Join1(Accumulate(ms[..|ms| - 1]), ms[|ms| - 1])
  }

  /** The smallest pid among ms. */
  function MinPid(ms: seq<Stat>): (m: int)
    requires ms != []
    ensures forall i | 0 <= i < |ms| :: m <= ms[i].pid
    ensures exists i | 0 <= i < |ms| :: ms[i].pid == m
    decreases |ms|
  {
    if |ms| == 1 then ms[0].pid
    else
      var m := MinPid(ms[..|ms| - 1]);
      assert forall i | 0 <= i < |ms| - 1 :: ms[..|ms| - 1][i] == ms[i];
      if ms[|ms| - 1].pid < m then ms[|ms| - 1].pid else m
  }

  /** The sum of the usages along d over ms. */
  function Total(ms: seq<Stat>, d: Dimension): real
    decreases |ms|
  {
    if ms == [] then 0.0 else Total(ms[..|ms| - 1], d) + UsageOf(ms[|ms| - 1], d)
  }

  /** The fields grouping keeps from the first member. */
  predicate SameButGrouped(a: Stat, b: Stat) {
    SameButUsage(a.(pid := 0, tcomm := "", numProcesses := 1), b.(pid := 0, tcomm := "", numProcesses := 1))
  }

  /**
    A group record holds the member count, the smallest member pid with the
    name of the first member that has it (a later tie does not replace it), the sum of each usage over the members, and every other
    field of the first member.
   */
  lemma {:induction false} AccumulateIs(ms: seq<Stat>)
    requires ms != []
    ensures var g := Accumulate(ms);
      && g.numProcesses == |ms|
      && g.pid == MinPid(ms)
      && (exists i | 0 <= i < |ms| :: ms[i].pid == g.pid && ms[i].tcomm == g.tcomm
            && forall j | 0 <= j < i :: ms[j].pid != g.pid)
      && g.cpuUsage == Total(ms, Cpu)
      && g.memUsage == Total(ms, Mem)
      && g.netUsage == Total(ms, Net)
      && g.ioUsage == Total(ms, Io)
      && SameButGrouped(g, ms[0])
    decreases |ms|
  {
    var g := Accumulate(ms);
    if |ms| == 1 {
      assert ms[..0] == [];
    } else {
      var init := ms[..|ms| - 1];
      AccumulateIs(init);
      assert init[0] == ms[0];
    }
    AccumulatePid(ms);
    AccumulateName(ms);
    var i :| FirstWithPid(ms, i, g.pid) && ms[i].tcomm == g.tcomm;
    assert ms[i].pid == g.pid && ms[i].tcomm == g.tcomm;
  }

  /** Index i holds the first member of ms whose pid is p. */
  predicate FirstWithPid(ms: seq<Stat>, i: int, p: int) {
    0 <= i < |ms| && ms[i].pid == p && forall j | 0 <= j < i :: ms[j].pid != p
  }

  lemma {:induction false} AccumulatePid(ms: seq<Stat>)
    requires ms != []
    ensures Accumulate(ms).pid == MinPid(ms)
    decreases |ms|
  {
    if |ms| > 1 {
      AccumulatePid(ms[..|ms| - 1]);
    }
  }

  /** The strict < keeps the name of the first member with the smallest pid. */
  lemma {:induction false} AccumulateName(ms: seq<Stat>)
    requires ms != []
    ensures exists i :: FirstWithPid(ms, i, Accumulate(ms).pid) && ms[i].tcomm == Accumulate(ms).tcomm
    decreases |ms|
  {
    var g := Accumulate(ms);
    if |ms| == 1 {
      assert FirstWithPid(ms, 0, g.pid);
    } else {
      var init, last := ms[..|ms| - 1], ms[|ms| - 1];
      AccumulateName(init);
      AccumulatePid(init);
      var g0 := Accumulate(init);
      var i0 :| FirstWithPid(init, i0, g0.pid) && init[i0].tcomm == g0.tcomm;
      assert forall j | 0 <= j < |init| :: ms[j] == init[j];
      if last.pid < g0.pid {
        assert FirstWithPid(ms, |ms| - 1, g.pid);
      } else {
        assert FirstWithPid(ms, i0, g.pid);
      }
    }
  }

  /** The members of the group of key k among stats, in order. */
  function Members(stats: seq<Stat>, mode: GroupMode, k: Key): (r: seq<Stat>)
    decreases |stats|
  {
    if stats == [] then []
    else Members(stats[..|stats| - 1], mode, k)
         + (if KeyOf(mode, stats[|stats| - 1]) == k then [stats[|stats| - 1]] else [])
  }

  /** The distinct keys of stats in the order they are first seen: the key order of the grouped dict. */
  function FirstSeen(stats: seq<Stat>, mode: GroupMode): (r: seq<Key>)
    decreases |stats|
  {
    if stats == [] then []
    else
      var r0 := FirstSeen(stats[..|stats| - 1], mode);
      var k := KeyOf(mode, stats[|stats| - 1]);
      if k in r0 then r0 else r0 + [k]
  }

  /** The members of k are exactly the records of stats whose key is k. */
  lemma {:induction false} MembersAre(stats: seq<Stat>, mode: GroupMode, k: Key, s: Stat)
    ensures s in Members(stats, mode, k) <==> s in stats && KeyOf(mode, s) == k
    decreases |stats|
  {
    if stats != [] {
      var init := stats[..|stats| - 1];
      MembersAre(init, mode, k, s);
      assert stats == init + [stats[|stats| - 1]];
    }
  }

  /** No key occurs twice in ks. */
  predicate Distinct(ks: seq<Key>) {
    forall i, j | 0 <= i < j < |ks| :: ks[i] != ks[j]
  }

  /** The grouped dict has one key per distinct key of the records, each once. */
  lemma {:induction false} FirstSeenIs(stats: seq<Stat>, mode: GroupMode)
    ensures Distinct(FirstSeen(stats, mode))
    ensures forall s | s in stats :: KeyOf(mode, s) in FirstSeen(stats, mode)
    ensures forall k | k in FirstSeen(stats, mode) :: exists s | s in stats :: KeyOf(mode, s) == k
    decreases |stats|
  {
    if stats != [] {
      var init := stats[..|stats| - 1];
      FirstSeenIs(init, mode);
      assert stats == init + [stats[|stats| - 1]];
      var r0, k := FirstSeen(init, mode), KeyOf(mode, stats[|stats| - 1]);
      if k !in r0 {
        var r := r0 + [k];
        forall i, j | 0 <= i < j < |r| ensures r[i] != r[j] {
          if j == |r0| {
            assert r[i] == r0[i] && r0[i] in r0;
          } else {
            assert r[i] == r0[i] && r[j] == r0[j];
          }
        }
      }
    }
  }

  /** A key has members exactly when it is seen. */
  lemma {:induction false} MembersOfSeen(stats: seq<Stat>, mode: GroupMode, k: Key)
    ensures Members(stats, mode, k) != [] <==> k in FirstSeen(stats, mode)
    decreases |stats|
  {
    if stats != [] {
      MembersOfSeen(stats[..|stats| - 1], mode, k);
    }
  }

  /** The " (n)" the second loop appends to the name of a group of more than one process. */
  function Labelled(g: Stat): (r: Stat)
    ensures g.numProcesses > 1 ==> r.tcomm == g.tcomm + " (" + ToDecimal(g.numProcesses) + ")"
    ensures g.numProcesses <= 1 ==> r.tcomm == g.tcomm
    ensures r.(tcomm := "") == g.(tcomm := "")
  {
    if g.numProcesses > 1 then g.(tcomm := g.tcomm + " (" + ToDecimal(g.numProcesses) + ")") else g
  }

  /** The grouped list: one labelled group record per key, in first-seen order. */
  function Grouped(stats: seq<Stat>, mode: GroupMode): (r: seq<Stat>)
    ensures |r| == |FirstSeen(stats, mode)|
  {
    var keys := FirstSeen(stats, mode);
    seq(|keys|, i requires 0 <= i < |keys| =>
      MembersOfSeen(stats, mode, keys[i]);
      Labelled(Accumulate(Members(stats, mode, keys[i]))))
  }

  /**
    The grouped list in terms of the members: record i belongs to the i-th
    key first seen, counts its members, carries the smallest member pid and
    the name of the first member with that pid, followed by " (n)" exactly when there are n > 1
    members, and sums each usage over the members.
   */
  lemma GroupedIs(stats: seq<Stat>, mode: GroupMode, i: nat)
    requires i < |FirstSeen(stats, mode)|
    ensures var k := FirstSeen(stats, mode)[i];
      var ms := Members(stats, mode, k);
      var g := Grouped(stats, mode)[i];
      && ms != []
      && g.numProcesses == |ms|
      && g.pid == MinPid(ms)
      && (exists j | 0 <= j < |ms| :: ms[j].pid == g.pid
            && g.tcomm == (if |ms| > 1 then ms[j].tcomm + " (" + ToDecimal(|ms|) + ")" else ms[j].tcomm)
            && forall j' | 0 <= j' < j :: ms[j'].pid != g.pid)
      && g.cpuUsage == Total(ms, Cpu)
      && g.memUsage == Total(ms, Mem)
      && g.netUsage == Total(ms, Net)
      && g.ioUsage == Total(ms, Io)
  {
    var k := FirstSeen(stats, mode)[i];
    MembersOfSeen(stats, mode, k);
    var ms := Members(stats, mode, k);
    AccumulateIs(ms);
  }

  /**
    The grouping step of process_stats. Without a group_by function (GROUP_BY
    'pid') the list is returned as it is; otherwise records are grouped by
    ppid or by name into the grouped dict, whose values come out in the order
    their keys were first seen.
   */
  method Group(stats: seq<Stat>, mode: GroupMode) returns (r: seq<Stat>)
    ensures mode == ByPid ==> r == stats
    ensures mode != ByPid ==> r == Grouped(stats, mode)
  {
    if mode == ByPid {
      return stats;
    }
    var order, grouped := Gather(stats, mode);
    FirstSeenIs(stats, mode);
    grouped := LabelGroups(order, grouped);
    r := seq(|order|, n requires 0 <= n < |order| => grouped[order[n]]);
    forall n | 0 <= n < |order| ensures r[n] == Grouped(stats, mode)[n] {
      MembersOfSeen(stats, mode, order[n]);
    }
  }

  /**
    The first loop of the grouping step: the grouped dict holds, for each key
    in first-seen order, the record built from the key's members.
   */
  method Gather(stats: seq<Stat>, mode: GroupMode) returns (order: seq<Key>, grouped: map<Key, Stat>)
    ensures Gathered(stats, mode, order, grouped)
  {
    order := [];
    grouped := map[];
    var i := 0;
    while i < |stats|
      invariant 0 <= i <= |stats|
      invariant Gathered(stats[..i], mode, order, grouped)
    {
      var s := stats[i];
      var key := KeyOf(mode, s);
      assert stats[..i + 1] == stats[..i] + [s];
      if key !in grouped {
        GatherNew(stats[..i], mode, order, grouped, s);
        grouped := grouped[key := s.(numProcesses := 1)];
        order := order + [key];
      } else {
        GatherOld(stats[..i], mode, order, grouped, s);
        grouped := grouped[key := Join1(grouped[key], s)];
      }
      i := i + 1;
    }
    assert stats[..i] == stats;
  }

  /**
    What the first loop of the grouping step has built after the records
    stats: the keys in first-seen order, and for each key the record built
    from its members.
   */
  predicate Gathered(stats: seq<Stat>, mode: GroupMode, order: seq<Key>, grouped: map<Key, Stat>) {
    && order == FirstSeen(stats, mode)
    && grouped.Keys == (set k | k in order)
    && Built(stats, mode, grouped)
  }

  /** Each record of grouped is the one built from its key's members in stats. */
  predicate Built(stats: seq<Stat>, mode: GroupMode, grouped: map<Key, Stat>) {
    forall k | k in grouped :: Members(stats, mode, k) != [] && grouped[k] == Accumulate(Members(stats, mode, k))
  }

  /** One more record leaves the groups of the other keys as they were built. */
  lemma BuiltSnoc(stats: seq<Stat>, mode: GroupMode, grouped: map<Key, Stat>, s: Stat, g: Stat)
    requires Built(stats, mode, grouped)
    requires Members(stats + [s], mode, KeyOf(mode, s)) != []
    requires g == Accumulate(Members(stats + [s], mode, KeyOf(mode, s)))
    ensures Built(stats + [s], mode, grouped[KeyOf(mode, s) := g])
  {
    var key := KeyOf(mode, s);
    var grouped' := grouped[key := g];
    forall k | k in grouped'
      ensures Members(stats + [s], mode, k) != [] && grouped'[k] == Accumulate(Members(stats + [s], mode, k))
    {
      if k != key {
        MembersSnoc(stats, mode, k, s);
        assert grouped'[k] == grouped[k];
      }
    }
  }

  /** A record of a key not seen yet opens a group of its own. */
  lemma GatherNew(stats: seq<Stat>, mode: GroupMode, order: seq<Key>, grouped: map<Key, Stat>, s: Stat)
    requires Gathered(stats, mode, order, grouped) && KeyOf(mode, s) !in grouped
    ensures Gathered(stats + [s], mode, order + [KeyOf(mode, s)], grouped[KeyOf(mode, s) := s.(numProcesses := 1)])
  {
    var key := KeyOf(mode, s);
    var stats' := stats + [s];
    var grouped' := grouped[key := s.(numProcesses := 1)];
    MembersOfSeen(stats, mode, key);
    FirstSeenSnoc(stats, mode, s);
    MembersSnoc(stats, mode, key, s);
    assert Members(stats', mode, key) == [s];
    BuiltSnoc(stats, mode, grouped, s, s.(numProcesses := 1));
  }

  /** A record of a key seen before joins that key's group. */
  lemma GatherOld(stats: seq<Stat>, mode: GroupMode, order: seq<Key>, grouped: map<Key, Stat>, s: Stat)
    requires Gathered(stats, mode, order, grouped) && KeyOf(mode, s) in grouped
    ensures Gathered(stats + [s], mode, order, grouped[KeyOf(mode, s) := Join1(grouped[KeyOf(mode, s)], s)])
  {
    var key := KeyOf(mode, s);
    var stats' := stats + [s];
    var grouped' := grouped[key := Join1(grouped[key], s)];
    FirstSeenSnoc(stats, mode, s);
    MembersSnoc(stats, mode, key, s);
    AccumulateSnoc(Members(stats, mode, key), s);
    BuiltSnoc(stats, mode, grouped, s, Join1(grouped[key], s));
  }

  lemma MembersSnoc(stats: seq<Stat>, mode: GroupMode, k: Key, s: Stat)
    ensures KeyOf(mode, s) == k ==> Members(stats + [s], mode, k) == Members(stats, mode, k) + [s]
    ensures KeyOf(mode, s) != k ==> Members(stats + [s], mode, k) == Members(stats, mode, k)
  {
    assert (stats + [s])[..|stats|] == stats;
  }

  lemma FirstSeenSnoc(stats: seq<Stat>, mode: GroupMode, s: Stat)
    ensures var k := KeyOf(mode, s);
      FirstSeen(stats + [s], mode) == if k in FirstSeen(stats, mode) then FirstSeen(stats, mode)
                                      else FirstSeen(stats, mode) + [k]
  {
    assert (stats + [s])[..|stats|] == stats;
  }

  /** Joining one more member to a group. */
  lemma AccumulateSnoc(ms: seq<Stat>, s: Stat)
    requires ms != []
    ensures Accumulate(ms + [s]) == Join1(Accumulate(ms), s)
  {
    assert (ms + [s])[..|ms|] == ms;
  }

  /** The second loop of the grouping step: each group of more than one process gets " (n)" after its name. */
  method LabelGroups(order: seq<Key>, grouped: map<Key, Stat>) returns (labelled: map<Key, Stat>)
    requires Distinct(order)
    requires grouped.Keys == set k | k in order
    ensures labelled.Keys == grouped.Keys
    ensures forall k | k in labelled :: labelled[k] == Labelled(grouped[k])
  {
    labelled := grouped;
    var j := 0;
    while j < |order|
      invariant 0 <= j <= |order|
      invariant labelled.Keys == grouped.Keys
      invariant forall n | 0 <= n < |order| ::
        labelled[order[n]] == if n < j then Labelled(grouped[order[n]]) else grouped[order[n]]
    {
      var key := order[j];
      ghost var before := labelled;
      if labelled[key].numProcesses > 1 {
        labelled := labelled[key := labelled[key].(tcomm := labelled[key].tcomm + " (" + ToDecimal(labelled[key].numProcesses) + ")")];
      }
      assert labelled == before[key := Labelled(grouped[key])];
      forall n | 0 <= n < |order| && n != j ensures order[n] != key {
        if n < j {
          assert order[n] != order[j];
        } else {
          assert order[j] != order[n];
        }
      }
      j := j + 1;
    }
    forall k | k in labelled ensures labelled[k] == Labelled(grouped[k]) {
      var n :| 0 <= n < |order| && order[n] == k;
    }
  }

  /**
    The tail of process_stats: the net_stats totals, the measured records of
    the pids found in both snapshots, grouped when a mode other than pid is
    set. None is the ZeroDivisionError of a zero global cpu or memory delta.
   */
  method ProcessStats(before: map<int, Stat>, after: seq<Entry>,
                      netBefore: seq<Option<ConnectionInfo>>, netAfter: seq<Option<ConnectionInfo>>,
                      globalCpu: int, globalMem: int, cpuCount: int, pageSize: int, mode: GroupMode)
    returns (r: Option<seq<Stat>>)
    ensures r.None? <==> (globalCpu == 0 || globalMem == 0) && AnySurvivor(before, after)
    ensures r.Some? && globalCpu != 0 && globalMem != 0 ==>
      var ms := Measured(before, after, NetTotals(netAfter, netBefore), globalCpu, globalMem, cpuCount, pageSize);
      r.value == if mode == ByPid then ms else Grouped(ms, mode)
    ensures r.Some? && (globalCpu == 0 || globalMem == 0) ==> r.value == []
  {
    var net := NetStats(netAfter, netBefore);
    var measured := MeasureAll(before, after, net, globalCpu, globalMem, cpuCount, pageSize);
    if measured.None? {
      return None;
    }
    assert net == NetTotals(netAfter, netBefore);
    var grouped := Group(measured.value, mode);
    return Some(grouped);
  }
}
