/**
  One process snapshot (class PIDStat in healthy.py) and the readers of the
  /proc files it is built from. A /proc file is given as the sequence of strings
  that successive readline() calls return, or None when opening or reading it
  raises (it is missing, its process has exited, or its text is not UTF-8).
  The layout of /proc/[pid]/stat, statm and io is the one the Linux kernel
  documents in Documentation/filesystems/proc.rst and proc(5).
 */
module ProcStat {
  import opened Wrappers
  import opened PyText

  /**
    A PIDStat. The four usage fields are filled in by the delta engine;
    numProcesses is the member count the grouping step attaches (1 otherwise).
   */
  datatype Stat = Stat(
    pid: int,
    tcomm: string,
    ppid: int,
    utime: int,
    stime: int,
    size: int,
    resident: int,
    receiveBytes: int,
    transmitBytes: int,
    netBytes: int,
    readBytes: int,
    writeBytes: int,
    ioBytes: int,
    cmdline: Option<string>,
    cpuUsage: real,
    memUsage: real,
    netUsage: real,
    ioUsage: real,
    numProcesses: nat)

  /** The four usages a record carries, one per panel and per history of the collector. */
  datatype Dimension = Cpu | Mem | Net | Io

  /** The usage of s along d: the sort_key lambdas of PIDStatsCollector.update. */
  function UsageOf(s: Stat, d: Dimension): real {
    match d
    case Cpu => s.cpuUsage
    case Mem => s.memUsage
    case Net => s.netUsage
    case Io => s.ioUsage
  }

  /** The GROUP_BY setting. */
  datatype GroupMode = ByPid | ByPpid | ByName

  /** GROUP_BY is compared with 'ppid' and 'name'; every other value behaves as 'pid'. */
  function ModeOf(groupBy: string): (m: GroupMode)
    ensures m == ByPpid <==> groupBy == "ppid"
    ensures m == ByName <==> groupBy == "name"
    ensures m == ByPid <==> groupBy != "ppid" && groupBy != "name"
  {
    if groupBy == "ppid" then ByPpid else if groupBy == "name" then ByName else ByPid
  }

  /** The value __hash__ hashes under each mode. */
  datatype Key = PidKey(pid: int, tcomm: string) | PpidKey(ppid: int) | NameKey(name: string)

  function KeyOf(mode: GroupMode, s: Stat): Key {
    match mode
    case ByPpid => PpidKey(s.ppid)
    case ByName => NameKey(s.tcomm)
    case ByPid => PidKey(s.pid, s.tcomm)
  }

  /** PIDStat.__eq__ */
  predicate Equal(mode: GroupMode, a: Stat, b: Stat) {
    match mode
    case ByPpid => a.ppid == b.ppid
    case ByName => a.tcomm == b.tcomm
    case ByPid => a.pid == b.pid && a.tcomm == b.tcomm
  }

  /**
    __eq__ and __hash__ agree: two records are equal exactly when they hash the
    same value, so equal records have equal hashes and a dict keyed by records
    is a map keyed by KeyOf.
   */
  lemma EqualIffSameKey(mode: GroupMode, a: Stat, b: Stat)
    ensures Equal(mode, a, b) <==> KeyOf(mode, a) == KeyOf(mode, b)
    ensures mode == ByPpid ==> (Equal(mode, a, b) <==> a.ppid == b.ppid)
    ensures mode == ByName ==> (Equal(mode, a, b) <==> a.tcomm == b.tcomm)
    ensures mode == ByPid ==> (Equal(mode, a, b) <==> (a.pid, a.tcomm) == (b.pid, b.tcomm))
  {
  }

  /** What the k-th readline() call returns; "" past the end of the file. */
  function ReadLine(lines: seq<string>, k: nat): string {
    if k < |lines| then lines[k] else ""
  }

  /** list.insert(1, x): at index 1, or at the end of an empty list. */
  function InsertAt1(xs: seq<string>, x: string): (r: seq<string>)
    ensures |r| == |xs| + 1
    ensures xs == [] ==> r == [x]
    ensures xs != [] ==> r[0] == xs[0] && r[1] == x && r[2..] == xs[1..]
  {
    if xs == [] then [x] else [xs[0], x] + xs[1..]
  }

  /**
    The fields of a stat line: the name between the first '(' and the first ')'
    is cut out together with the character after ')', the rest is split on
    whitespace, and the name goes back in at index 1. None is the ValueError
    of str.index when a parenthesis is missing.
   */
  function StatFields(line: string): (r: Option<seq<string>>)
    ensures r.Some? <==> '(' in line && ')' in line
    ensures r.Some? && |r.value| >= 2 ==> r.value[1] == NameOf(line)
  {
    if '(' in line && ')' in line then
      var ns := IndexOf(line, '(');
      var ne := IndexOf(line, ')');
      var rest := line[..ns] + SliceFrom(line, ne + 2);
      Some(InsertAt1(SplitWs(rest), NameOf(line)))
    else
      None
  }

  /** The name of a stat line: the text after the first '(' up to the first ')', empty when the ')' comes first. */
  function NameOf(line: string): (name: string)
    requires '(' in line && ')' in line
    ensures IndexOf(line, '(') < IndexOf(line, ')') ==> name == line[IndexOf(line, '(') + 1..IndexOf(line, ')')]
    ensures IndexOf(line, ')') < IndexOf(line, '(') ==> name == ""
  {
    Slice(line, IndexOf(line, '(') + 1, IndexOf(line, ')'))
  }

  /** int(fs[i]); None is the IndexError or the ValueError. */
  function IntField(fs: seq<string>, i: nat): (r: Option<int>)
    ensures i >= |fs| ==> r == None
  {
    if i < |fs| then ParseInt(fs[i]) else None
  }

  /**
    PIDStat.__init__ on a stat line and a statm line. None is any exception the
    constructor raises outside its cmdline read (a missing parenthesis, fewer
    than 15 fields, a field int() refuses, fewer than two statm fields). The
    cmdline file is the one of the process the stat line names; when it cannot
    be read, cmdline stays None.
   */
  function ParseStat(statLine: string, statmLine: string, net: (int, int), io: (int, int),
                     cmdlineFile: Option<seq<string>>): (r: Option<Stat>)
    ensures r.Some? ==> '(' in statLine && ')' in statLine && r.value.tcomm == NameOf(statLine)
    ensures r.Some? ==> r.value.receiveBytes == net.0 && r.value.transmitBytes == net.1 && r.value.netBytes == net.0 + net.1
    ensures r.Some? ==> r.value.readBytes == io.0 && r.value.writeBytes == io.1 && r.value.ioBytes == io.0 + io.1
    ensures r.Some? ==> r.value.cpuUsage == 0.0 && r.value.memUsage == 0.0 && r.value.netUsage == 0.0 && r.value.ioUsage == 0.0
    ensures r.Some? <==> StatFields(statLine).Some? && IntsParse(StatFields(statLine).value, SplitOn(statmLine, ' '))
  {
    match StatFields(statLine)
    case None => None
    case Some(f) => StatOfFields(f, SplitOn(statmLine, ' '), net, io, CmdlineOf(cmdlineFile))
  }

  /**
    The six int() calls of the constructor succeed: pid, session, utime and
    stime at indices 0, 5, 13 and 14 of the stat fields, size and resident at
    indices 0 and 1 of the statm fields.
   */
  predicate IntsParse(f: seq<string>, m: seq<string>) {
    && IntField(f, 0).Some? && IntField(f, 5).Some? && IntField(f, 13).Some? && IntField(f, 14).Some?
    && IntField(m, 0).Some? && IntField(m, 1).Some?
  }

  /**
    A name holding ')' is cut at its first ')': for the process "a) b" the
    name read is "a", the rest of the name becomes a field of its own, and
    every later field moves one index up.
   */
  lemma NameWithParen()
    ensures StatFields("1 (a) b) S 7") == Some(["1", "a", "b)", "S", "7"])
  {
    var line := "1 (a) b) S 7";
    NameWithParenMarks();
    var ws := ["1", "b)", "S", "7"];
    assert line[..2] + SliceFrom(line, 6) == Join(ws, " ");
    forall i | 0 <= i < |ws| ensures ws[i] != [] && NoSpace(ws[i]) {
    }
    SplitWsJoin(ws, ' ');
    assert NameOf(line) == "a" by {
      assert line[3..4] == "a";
    }
    assert InsertAt1(ws, "a") == ["1", "a", "b)", "S", "7"];
  }

  /** The parentheses of "1 (a) b) S 7" are at indices 2 and 4. */
  lemma NameWithParenMarks()
    ensures IndexOf("1 (a) b) S 7", '(') == 2 && IndexOf("1 (a) b) S 7", ')') == 4
  {
    var line := "1 (a) b) S 7";
    assert line[..2] == "1 " && line[..4] == "1 (a";
    IndexOfFirst(line, '(', 2);
    IndexOfFirst(line, ')', 4);
  }

  /** The record built from the stat fields f and the statm fields m. */
  function StatOfFields(f: seq<string>, m: seq<string>, net: (int, int), io: (int, int),
                        cmdline: Option<string>): (r: Option<Stat>)
    ensures r.Some? <==> IntsParse(f, m)
    ensures r.Some? ==> |f| >= 15 && r.value.tcomm == f[1]
    ensures r.Some? ==> r.value.pid == IntField(f, 0).value && r.value.ppid == IntField(f, 5).value
    ensures r.Some? ==> r.value.utime == IntField(f, 13).value && r.value.stime == IntField(f, 14).value
    ensures r.Some? ==> r.value.size == IntField(m, 0).value && r.value.resident == IntField(m, 1).value
    ensures r.Some? ==> r.value.receiveBytes == net.0 && r.value.transmitBytes == net.1 && r.value.netBytes == net.0 + net.1
    ensures r.Some? ==> r.value.readBytes == io.0 && r.value.writeBytes == io.1 && r.value.ioBytes == io.0 + io.1
    ensures r.Some? ==> r.value.cmdline == cmdline && r.value.numProcesses == 1
    ensures r.Some? ==> r.value.cpuUsage == 0.0 && r.value.memUsage == 0.0 && r.value.netUsage == 0.0 && r.value.ioUsage == 0.0
  {
    var pid, ppid, utime, stime := IntField(f, 0), IntField(f, 5), IntField(f, 13), IntField(f, 14);
    var size, resident := IntField(m, 0), IntField(m, 1);
    if pid.None? || ppid.None? || utime.None? || stime.None? || size.None? || resident.None? then None
    else
      Some(NewStat(pid.value, f[1], ppid.value, utime.value, stime.value, size.value, resident.value,
                   net, io, cmdline))
  }

  /**
    The field assignments of PIDStat.__init__ once the values are read: the
    byte totals are the sums of their pairs and every usage starts at 0.
   */
  function NewStat(pid: int, tcomm: string, ppid: int, utime: int, stime: int, size: int, resident: int,
                   net: (int, int), io: (int, int), cmdline: Option<string>): Stat
  {
    Stat(pid, tcomm, ppid, utime, stime, size, resident,
         net.0, net.1, net.0 + net.1, io.0, io.1, io.0 + io.1,
         cmdline, 0.0, 0.0, 0.0, 0.0, 1)
  }

  /**
    The first line of the cmdline file, stripped, with its NUL separators
    turned into spaces; None when opening or reading the file raised.
   */
  function CmdlineOf(cmdlineFile: Option<seq<string>>): (r: Option<string>)
    ensures r.Some? <==> cmdlineFile.Some?
    ensures r.Some? ==> |r.value| == |Strip(ReadLine(cmdlineFile.value, 0))| && '\0' !in r.value
    ensures r.Some? ==> forall i | 0 <= i < |r.value| ::
      r.value[i] == (var c := Strip(ReadLine(cmdlineFile.value, 0))[i]; if c == '\0' then ' ' else c)
  {
    match cmdlineFile
    case None => None
    case Some(lines) => Some(ReplaceChar(Strip(ReadLine(lines, 0)), '\0', ' '))
  }

  /**
    A stat line laid out as proc(5) describes it: the pid, the command name in
    parentheses, then the remaining fields from state (field 3) on, so tail[1] is
    ppid (field 4), tail[3] is session (field 6), tail[11] is utime (field 14)
    and tail[12] is stime (field 15).
   */
  function StatLine(pid: int, comm: string, tail: seq<string>): string {
    ToDecimal(pid) + " (" + comm + ") " + Join(tail, " ")
  }

  predicate Words(ws: seq<string>) {
    forall i | 0 <= i < |ws| :: ws[i] != [] && NoSpace(ws[i])
  }

  /** The fields of a proc(5) stat line are the pid, the name and the remaining fields, whatever the name holds but ')'. */
  lemma {:induction false} StatFieldsOfLayout(pid: int, comm: string, tail: seq<string>)
    requires ')' !in comm
    requires Words(tail)
    ensures StatFields(StatLine(pid, comm, tail)) == Some([ToDecimal(pid), comm] + tail)
  {
    var d := ToDecimal(pid);
    var j := Join(tail, " ");
    var line := StatLine(pid, comm, tail);
    StatLineMarks(pid, comm, tail);
    DecimalNoSpace(pid);
    SplitWsAtSpace(d, ' ', j);
    assert d + " " + j == d + [' '] + j;
    SplitWsWord(d);
    SplitWsJoin(tail, ' ');
    assert SplitWs(d + " " + j) == [d] + tail;
  }

  /**
    In a proc(5) stat line the first '(' follows the pid and a blank and the
    first ')' ends the name, so the fields are those of the pid and the
    fields after ") ", with the name inserted second.
   */
  lemma StatLineMarks(pid: int, comm: string, tail: seq<string>)
    requires ')' !in comm
    ensures StatFields(StatLine(pid, comm, tail))
         == Some(InsertAt1(SplitWs(ToDecimal(pid) + " " + Join(tail, " ")), comm))
  {
    var d := ToDecimal(pid);
    var j := Join(tail, " ");
    var line := StatLine(pid, comm, tail);
    DecimalNoParen(pid);
    assert line == d + " (" + comm + ") " + j;
    var ns := |d| + 1;
    var ne := |d| + 2 + |comm|;
    assert line[ns] == '(' && line[..ns] == d + " ";
    IndexOfFirst(line, '(', ns);
    assert line[ne] == ')' && line[..ne] == d + " (" + comm;
    assert ')' !in d + " (" + comm;
    IndexOfFirst(line, ')', ne);
    assert NameOf(line) == comm;
    assert SliceFrom(line, ne + 2) == j;
  }

  /** The decimal text of a number holds no parenthesis. */
  lemma DecimalNoParen(n: int)
    ensures '(' !in ToDecimal(n) && ')' !in ToDecimal(n)
  {
    var d := ToDecimal(n);
    assert forall i | 0 <= i < |d| :: d[i] == '-' || IsDigit(d[i]);
  }

  /**
    Parsing a proc(5) stat line and a statm line "size resident ...": pid,
    tcomm, utime and stime are fields 1, 2, 14 and 15, ppid is field 6
    (session), the index the source reads, and every usage starts at 0.
   */
  lemma {:induction false} ParseStatOfLayout(pid: int, comm: string, tail: seq<string>, session: int,
                                             utime: int, stime: int, size: int, resident: int,
                                             statmTail: seq<string>, net: (int, int), io: (int, int),
                                             cmdlineFile: Option<seq<string>>)
    requires ')' !in comm
    requires Words(tail) && |tail| >= 13
    requires tail[3] == ToDecimal(session) && tail[11] == ToDecimal(utime) && tail[12] == ToDecimal(stime)
    requires forall i | 0 <= i < |statmTail| :: ' ' !in statmTail[i]
    ensures ParseStat(StatLine(pid, comm, tail), Join([ToDecimal(size), ToDecimal(resident)] + statmTail, " "),
                      net, io, cmdlineFile)
         == Some(NewStat(pid, comm, session, utime, stime, size, resident, net, io, CmdlineOf(cmdlineFile)))
  {
    var statLine := StatLine(pid, comm, tail);
    var statmLine := Join([ToDecimal(size), ToDecimal(resident)] + statmTail, " ");
    var f := [ToDecimal(pid), comm] + tail;
    var c := CmdlineOf(cmdlineFile);
    var m := SplitOn(statmLine, ' ');
    LayoutFields(pid, comm, tail, session, utime, stime, size, resident, statmTail);
    ParseStatOfStatFields(statLine, statmLine, f, net, io, cmdlineFile);
    StatOfParsedFields(f, m, pid, comm, session, utime, stime, size, resident, net, io, c);
  }

  /** The stat fields of a proc(5) layout and the int() of each field the record reads. */
  lemma LayoutFields(pid: int, comm: string, tail: seq<string>, session: int, utime: int, stime: int,
                     size: int, resident: int, statmTail: seq<string>)
    requires ')' !in comm
    requires Words(tail) && |tail| >= 13
    requires tail[3] == ToDecimal(session) && tail[11] == ToDecimal(utime) && tail[12] == ToDecimal(stime)
    requires forall i | 0 <= i < |statmTail| :: ' ' !in statmTail[i]
    ensures var f := [ToDecimal(pid), comm] + tail;
      && StatFields(StatLine(pid, comm, tail)) == Some(f) && f[1] == comm
      && IntField(f, 0) == Some(pid) && IntField(f, 5) == Some(session)
      && IntField(f, 13) == Some(utime) && IntField(f, 14) == Some(stime)
    ensures var m := SplitOn(Join([ToDecimal(size), ToDecimal(resident)] + statmTail, " "), ' ');
      IntField(m, 0) == Some(size) && IntField(m, 1) == Some(resident)
  {
    StatFieldsOfLayout(pid, comm, tail);
    StatIntFields(pid, comm, tail, session, utime, stime);
    StatmIntFields(size, resident, statmTail);
  }

  /** ParseStat of a line whose fields are f. */
  lemma ParseStatOfStatFields(statLine: string, statmLine: string, f: seq<string>, net: (int, int), io: (int, int),
                              cmdlineFile: Option<seq<string>>)
    requires StatFields(statLine) == Some(f)
    ensures ParseStat(statLine, statmLine, net, io, cmdlineFile)
         == StatOfFields(f, SplitOn(statmLine, ' '), net, io, CmdlineOf(cmdlineFile))
  {
  }

  /** The record of fields that all parse. */
  lemma StatOfParsedFields(f: seq<string>, m: seq<string>, pid: int, tcomm: string, ppid: int,
                           utime: int, stime: int, size: int, resident: int,
                           net: (int, int), io: (int, int), cmdline: Option<string>)
    requires |f| >= 2 && f[1] == tcomm
    requires IntField(f, 0) == Some(pid) && IntField(f, 5) == Some(ppid)
    requires IntField(f, 13) == Some(utime) && IntField(f, 14) == Some(stime)
    requires IntField(m, 0) == Some(size) && IntField(m, 1) == Some(resident)
    ensures StatOfFields(f, m, net, io, cmdline)
         == Some(NewStat(pid, tcomm, ppid, utime, stime, size, resident, net, io, cmdline))
  {
  }

  lemma StatIntFields(pid: int, comm: string, tail: seq<string>, session: int, utime: int, stime: int)
    requires |tail| >= 13
    requires tail[3] == ToDecimal(session) && tail[11] == ToDecimal(utime) && tail[12] == ToDecimal(stime)
    ensures var f := [ToDecimal(pid), comm] + tail;
      && IntField(f, 0) == Some(pid) && IntField(f, 5) == Some(session)
      && IntField(f, 13) == Some(utime) && IntField(f, 14) == Some(stime) && f[1] == comm
  {
    var f := [ToDecimal(pid), comm] + tail;
    assert f[0] == ToDecimal(pid) && f[5] == tail[3] && f[13] == tail[11] && f[14] == tail[12];
    ParseIntOfDecimal(pid);
    ParseIntOfDecimal(session);
    ParseIntOfDecimal(utime);
    ParseIntOfDecimal(stime);
  }

  lemma StatmIntFields(size: int, resident: int, statmTail: seq<string>)
    requires forall i | 0 <= i < |statmTail| :: ' ' !in statmTail[i]
    ensures var m := SplitOn(Join([ToDecimal(size), ToDecimal(resident)] + statmTail, " "), ' ');
      IntField(m, 0) == Some(size) && IntField(m, 1) == Some(resident)
  {
    var parts := [ToDecimal(size), ToDecimal(resident)] + statmTail;
    StatmPartsNoBlank(size, resident, statmTail);
    SplitOnJoin(parts, ' ');
    IntFieldOfDecimal(parts, 0, size);
    IntFieldOfDecimal(parts, 1, resident);
  }

  lemma StatmPartsNoBlank(size: int, resident: int, statmTail: seq<string>)
    requires forall i | 0 <= i < |statmTail| :: ' ' !in statmTail[i]
    ensures var parts := [ToDecimal(size), ToDecimal(resident)] + statmTail;
      forall i | 0 <= i < |parts| :: ' ' !in parts[i]
  {
    DecimalNoSpace(size);
    DecimalNoSpace(resident);
    assert IsSpace(' ');
  }

  /** A field holding the decimal text of v reads back as v. */
  lemma IntFieldOfDecimal(fs: seq<string>, i: nat, v: int)
    requires i < |fs| && fs[i] == ToDecimal(v)
    ensures IntField(fs, i) == Some(v)
  {
    ParseIntOfDecimal(v);
  }
}
