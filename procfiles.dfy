/**
  The readers of the /proc files around PIDStat (read_stat, read_global_cpu and
  read_global_mem in healthy.py), over the lines of files given as inputs.
 */
module ProcFiles {
  import opened Wrappers
  import opened PyText
  import opened ProcStat

  /** s repeated n times. */
  function Repeat(s: string, n: nat): (r: string)
    ensures |r| == n * |s|
  {
    if n == 0 then "" else s + Repeat(s, n - 1)
  }

  /** The fake stat line read_stat substitutes: "-1 (<error>) Z" followed by 49 " 0" fields. */
  const SentinelStatLine: string := "-1 (<error>) Z" + Repeat(" 0", 49)

  /** The fake statm line read_stat substitutes. */
  const SentinelStatmLine: string := "0 0 0 0 0 0 0"

  lemma JoinZeros(n: nat)
    ensures Join(["Z"] + seq(n, _ => "0"), " ") == "Z" + Repeat(" 0", n)
  {
    if n > 0 {
      JoinZeros(n - 1);
      assert (["Z"] + seq(n, _ => "0"))[1..] == ["0"] + seq(n - 1, _ => "0");
      JoinZerosTail(n);
    }
  }

  lemma JoinZerosTail(n: nat)
    requires n > 0
    ensures Join(["0"] + seq(n - 1, _ => "0"), " ") == "0" + Repeat(" 0", n - 1)
    decreases n
  {
    if n > 1 {
      JoinZerosTail(n - 1);
      assert (["0"] + seq(n - 1, _ => "0"))[1..] == ["0"] + seq(n - 2, _ => "0");
    }
  }

  function SentinelTail(): seq<string> {
    ["Z"] + seq(49, _ => "0")
  }

  /** A stat line of pid -1 named "<error>" whose fields after the name are "Z" and n >= 12 zeros parses to a record of zeros. */
  lemma ZeroStatParses(n: nat)
    requires n >= 12
    ensures ParseStat(StatLine(-1, "<error>", ["Z"] + seq(n, _ => "0")),
                      Join([ToDecimal(0), ToDecimal(0)] + ["0", "0", "0", "0", "0"], " "), (0, 0), (0, 0), None)
         == Some(NewStat(-1, "<error>", 0, 0, 0, 0, 0, (0, 0), (0, 0), None))
  {
    var t := ["Z"] + seq(n, _ => "0");
    assert Words(t) && t[3] == ToDecimal(0) && t[11] == ToDecimal(0) && t[12] == ToDecimal(0);
    assert ')' !in "<error>";
    ParseStatOfLayout(-1, "<error>", t, 0, 0, 0, 0, 0, ["0", "0", "0", "0", "0"], (0, 0), (0, 0), None);
  }

  /** The fake stat line is a proc(5) stat line of pid -1 named "<error>". */
  lemma SentinelStatLayout()
    ensures SentinelStatLine == StatLine(-1, "<error>", SentinelTail())
  {
    JoinZeros(49);
    assert ToDecimal(-1) == "-1";
    SentinelHead(Repeat(" 0", 49));
  }

  lemma SentinelHead(zeros: string)
    ensures "-1 (<error>) Z" + zeros == "-1" + " (" + "<error>" + ") " + ("Z" + zeros)
  {
    assert "-1 (<error>) Z" == "-1" + " (" + "<error>" + ") " + "Z";
  }

  /** The fake statm line is a statm line of seven zeros. */
  lemma SentinelStatmLayout()
    ensures SentinelStatmLine == Join([ToDecimal(0), ToDecimal(0)] + ["0", "0", "0", "0", "0"], " ")
  {
    JoinZerosTail(7);
    assert Repeat(" 0", 6) == " 0 0 0 0 0 0";
    assert [ToDecimal(0), ToDecimal(0)] + ["0", "0", "0", "0", "0"] == ["0"] + seq(6, _ => "0");
  }

  /**
    The record read_stat substitutes when a process cannot be read: the
    constructor applied to the fake lines, which must parse since the source
    calls it without a handler. It has pid -1, the name "<error>", and every
    counter, size and usage 0.
   */
  function SentinelStat(): (r: Stat)
    ensures r == Stat(-1, "<error>", 0, 0, 0, 0, 0, 0, 0, 0, 0, 0, 0, None, 0.0, 0.0, 0.0, 0.0, 1)
  {
    NewStat(-1, "<error>", 0, 0, 0, 0, 0, (0, 0), (0, 0), None)
  }

  /** The constructor accepts the fake lines, so the substitution itself never raises, and builds SentinelStat(). */
  lemma SentinelParses()
    ensures ParseStat(SentinelStatLine, SentinelStatmLine, (0, 0), (0, 0), None) == Some(SentinelStat())
  {
    ZeroStatParses(49);
    SentinelStatLayout();
    SentinelStatmLayout();
  }

  /** int(line.strip().split()[1]); None is the IndexError or the ValueError. */
  function SecondInt(line: string): Option<int> {
    IntField(SplitWs(Strip(line)), 1)
  }

  /**
    The read_bytes and write_bytes counters of /proc/[pid]/io: the second
    whitespace field of its fifth and sixth lines. A counter that cannot be
    read stays 0; when the sixth line fails, the fifth's value is kept.
   */
  function ReadIo(ioFile: Option<seq<string>>): (r: (int, int))
    ensures ioFile.None? ==> r == (0, 0)
    ensures ioFile.Some? ==> r.0 == (match SecondInt(ReadLine(ioFile.value, 4)) case Some(v) => v case None => 0)
    ensures ioFile.Some? ==> r.1 == (match (SecondInt(ReadLine(ioFile.value, 4)), SecondInt(ReadLine(ioFile.value, 5)))
                                     case (Some(_), Some(w)) => w
                                     case _ => 0)
  {
    match ioFile
    case None => (0, 0)
    case Some(lines) =>
      match SecondInt(ReadLine(lines, 4))
      case None => (0, 0)
      case Some(rb) =>
        match SecondInt(ReadLine(lines, 5))
        case None => (rb, 0)
        case Some(wb) => (rb, wb)
  }

  /**
    A line "label value rest" as readline() returns it: after strip() and
    split(), the value is the second field, whatever whitespace pads the
    value and ends the line.
   */
  lemma LabelledValue(tag: string, pad: string, n: int, rest: string, eol: string)
    requires tag != [] && NoSpace(tag)
    requires pad != [] && forall i | 0 <= i < |pad| :: IsSpace(pad[i])
    requires rest != [] ==> IsSpace(rest[0]) && !IsSpace(rest[|rest| - 1])
    requires forall i | 0 <= i < |eol| :: IsSpace(eol[i])
    ensures SecondInt(tag + pad + ToDecimal(n) + rest + eol) == Some(n)
  {
    StripLabelled(tag, pad, n, rest, eol);
    SplitLabelled(tag, pad, ToDecimal(n), rest);
    SplitValue(n, rest);
    ParseIntOfDecimal(n);
  }

  lemma StripLabelled(tag: string, pad: string, n: int, rest: string, eol: string)
    requires tag != [] && NoSpace(tag)
    requires rest != [] ==> IsSpace(rest[0]) && !IsSpace(rest[|rest| - 1])
    requires forall i | 0 <= i < |eol| :: IsSpace(eol[i])
    ensures Strip(tag + pad + ToDecimal(n) + rest + eol) == tag + pad + ToDecimal(n) + rest
  {
    var d := ToDecimal(n);
    DecimalNoSpace(n);
    var line := tag + pad + d + rest;
    assert line[0] == tag[0];
    assert line[|line| - 1] == if rest == [] then d[|d| - 1] else rest[|rest| - 1];
    StripPadded([], line, eol);
    assert [] + line + eol == line + eol;
  }

  lemma SplitLabelled(tag: string, pad: string, value: string, rest: string)
    requires tag != [] && NoSpace(tag)
    requires pad != [] && forall i | 0 <= i < |pad| :: IsSpace(pad[i])
    ensures SplitWs(tag + pad + value + rest) == [tag] + SplitWs(value + rest)
  {
    assert tag + pad + value + rest == tag + [pad[0]] + (pad[1..] + (value + rest));
    SplitWsAtSpace(tag, pad[0], pad[1..] + (value + rest));
    SplitWsLeadingSpace(pad[1..], value + rest);
    SplitWsWord(tag);
  }

  lemma SplitValue(n: int, rest: string)
    requires rest != [] ==> IsSpace(rest[0])
    ensures var fs := SplitWs(ToDecimal(n) + rest); |fs| >= 1 && fs[0] == ToDecimal(n)
  {
    var d := ToDecimal(n);
    DecimalNoSpace(n);
    if rest == [] {
      assert d + rest == d;
      SplitWsWord(d);
    } else {
      assert d + rest == d + [rest[0]] + rest[1..];
      SplitWsAtSpace(d, rest[0], rest[1..]);
      SplitWsWord(d);
    }
  }

  /** The labels of the io and meminfo lines read here hold no whitespace. */
  lemma LabelsHaveNoSpace()
    ensures NoSpace("read_bytes:") && NoSpace("write_bytes:")
    ensures NoSpace("MemTotal:") && NoSpace("MemAvailable:")
  {
  }

  lemma ReadBytesLine(lines: seq<string>, readBytes: int)
    requires |lines| >= 5 && lines[4] == "read_bytes:" + " " + ToDecimal(readBytes) + "\n"
    ensures SecondInt(ReadLine(lines, 4)) == Some(readBytes)
  {
    LabelsHaveNoSpace();
    var d := ToDecimal(readBytes);
    assert lines[4] == "read_bytes:" + " " + d + "" + "\n";
    LabelledValue("read_bytes:", " ", readBytes, "", "\n");
  }

  lemma WriteBytesLine(lines: seq<string>, writeBytes: int)
    requires |lines| >= 6 && lines[5] == "write_bytes:" + " " + ToDecimal(writeBytes) + "\n"
    ensures SecondInt(ReadLine(lines, 5)) == Some(writeBytes)
  {
    LabelsHaveNoSpace();
    var d := ToDecimal(writeBytes);
    assert lines[5] == "write_bytes:" + " " + d + "" + "\n";
    LabelledValue("write_bytes:", " ", writeBytes, "", "\n");
  }

  /**
    The io file as proc(5) lays it out, rchar, wchar, syscr, syscw, then
    read_bytes and write_bytes on lines 5 and 6: the two counters are read.
   */
  lemma ReadIoOfLayout(lines: seq<string>, readBytes: int, writeBytes: int)
    requires |lines| >= 6
    requires lines[4] == "read_bytes:" + " " + ToDecimal(readBytes) + "\n"
    requires lines[5] == "write_bytes:" + " " + ToDecimal(writeBytes) + "\n"
    ensures ReadIo(Some(lines)) == (readBytes, writeBytes)
  {
    ReadBytesLine(lines, readBytes);
    WriteBytesLine(lines, writeBytes);
  }

  /** An io file too short to hold read_bytes leaves both counters 0; the failure is swallowed. */
  lemma ReadIoOfShortFile(lines: seq<string>)
    requires |lines| <= 4
    ensures ReadIo(Some(lines)) == (0, 0)
  {
    assert ReadLine(lines, 4) == "";
    assert Strip("") == "" && SplitWs("") == [];
  }

  /**
    read_stat: a stat or statm file whose opening or reading raised (None)
    yields the sentinel record; otherwise the record is built from their lines.
   */
  function ReadStat(statFile: Option<seq<string>>, statmFile: Option<seq<string>>,
                    ioFile: Option<seq<string>>, cmdlineFile: Option<seq<string>>): (r: Stat)
    ensures statFile.None? || statmFile.None? ==> r == SentinelStat()
    ensures statFile.Some? && statmFile.Some? ==> r == ReadStatOf(statFile.value, statmFile.value, ioFile, cmdlineFile)
  {
    if statFile.None? || statmFile.None? then SentinelStat()
    else ReadStatOf(statFile.value, statmFile.value, ioFile, cmdlineFile)
  }

  /**
    read_stat once the stat and statm files have been read: their first lines are
    read and stripped, the io counters are read as far as they go, the
    network counters are (0, 0), and a record that cannot be built yields the
    sentinel record instead.
   */
  function ReadStatOf(statFile: seq<string>, statmFile: seq<string>,
                      ioFile: Option<seq<string>>, cmdlineFile: Option<seq<string>>): (r: Stat)
  {
    match ParseStat(Strip(ReadLine(statFile, 0)), Strip(ReadLine(statmFile, 0)),
                    (0, 0), ReadIo(ioFile), cmdlineFile)
    case None => SentinelStat()
    case Some(s) => s
  }

  /** Once the files have been read, read_stat returns the sentinel record when PIDStat raises. */
  lemma ReadStatOfUnparsed(statFile: seq<string>, statmFile: seq<string>,
                           ioFile: Option<seq<string>>, cmdlineFile: Option<seq<string>>)
    requires ParseStat(Strip(ReadLine(statFile, 0)), Strip(ReadLine(statmFile, 0)),
                       (0, 0), ReadIo(ioFile), cmdlineFile).None?
    ensures ReadStatOf(statFile, statmFile, ioFile, cmdlineFile) == SentinelStat()
  {
  }

  /** What read_stat returns before process_stats fills in the traffic and the usages: all of them 0. */
  predicate Unmeasured(r: Stat) {
    && r.receiveBytes == 0 && r.transmitBytes == 0 && r.netBytes == 0
    && r.cpuUsage == 0.0 && r.memUsage == 0.0 && r.netUsage == 0.0 && r.ioUsage == 0.0
  }

  /** read_stat leaves the network counters and every usage at 0, whatever the files hold. */
  lemma ReadStatUnmeasured(statFile: Option<seq<string>>, statmFile: Option<seq<string>>,
                           ioFile: Option<seq<string>>, cmdlineFile: Option<seq<string>>)
    ensures Unmeasured(ReadStat(statFile, statmFile, ioFile, cmdlineFile))
  {
    var r := ReadStat(statFile, statmFile, ioFile, cmdlineFile);
    if statFile.None? || statmFile.None? {
      SentinelUnmeasured(r);
    } else {
      ReadStatOfUnmeasured(statFile.value, statmFile.value, ioFile, cmdlineFile);
    }
  }

  lemma ReadStatOfUnmeasured(statFile: seq<string>, statmFile: seq<string>,
                             ioFile: Option<seq<string>>, cmdlineFile: Option<seq<string>>)
    ensures Unmeasured(ReadStatOf(statFile, statmFile, ioFile, cmdlineFile))
  {
    var r := ReadStatOf(statFile, statmFile, ioFile, cmdlineFile);
    var statLine, statmLine := Strip(ReadLine(statFile, 0)), Strip(ReadLine(statmFile, 0));
    var p := ParseStat(statLine, statmLine, (0, 0), ReadIo(ioFile), cmdlineFile);
    if p.None? {
      ReadStatOfUnparsed(statFile, statmFile, ioFile, cmdlineFile);
      SentinelUnmeasured(r);
    } else {
      ReadStatOfParsed(statFile, statmFile, ioFile, cmdlineFile, statLine, statmLine, ReadIo(ioFile), p.value);
      ParsedUnmeasured(statLine, statmLine, ReadIo(ioFile), cmdlineFile, p.value);
    }
  }

  lemma ParsedUnmeasured(statLine: string, statmLine: string, io: (int, int), cmdlineFile: Option<seq<string>>, s: Stat)
    requires ParseStat(statLine, statmLine, (0, 0), io, cmdlineFile) == Some(s)
    ensures Unmeasured(s)
  {
  }

  lemma SentinelUnmeasured(r: Stat)
    requires r == SentinelStat()
    ensures Unmeasured(r)
  {
  }

  /** A stat line laid out as proc(5) describes it, read with its newline and stripped, is itself. */
  lemma StatLineRead(pid: int, comm: string, tail: seq<string>)
    requires Words(tail) && tail != []
    ensures Strip(ReadLine([StatLine(pid, comm, tail) + "\n"], 0)) == StatLine(pid, comm, tail)
  {
    DecimalNoSpace(pid);
    JoinLast(tail, " ");
    StripLine(StatLine(pid, comm, tail));
  }

  /** A statm line of words, read with its newline and stripped, is itself. */
  lemma StatmLineRead(parts: seq<string>)
    requires Words(parts) && parts != []
    ensures Strip(ReadLine([Join(parts, " ") + "\n"], 0)) == Join(parts, " ")
  {
    JoinLast(parts, " ");
    assert parts[0] != [];
    StripLine(Join(parts, " "));
  }

  /** The statm line of a proc(5) layout, read with its newline and stripped, is itself. */
  lemma StatmLayoutRead(size: int, resident: int, statmTail: seq<string>)
    requires Words(statmTail)
    ensures var statmLine := Join([ToDecimal(size), ToDecimal(resident)] + statmTail, " ");
      Strip(ReadLine([statmLine + "\n"], 0)) == statmLine
  {
    var statmParts := [ToDecimal(size), ToDecimal(resident)] + statmTail;
    DecimalNoSpace(size);
    DecimalNoSpace(resident);
    assert Words(statmParts);
    StatmLineRead(statmParts);
  }

  /** Words contain no ' '. */
  lemma WordsNoBlank(ws: seq<string>)
    requires Words(ws)
    ensures forall i | 0 <= i < |ws| :: ' ' !in ws[i]
  {
    assert IsSpace(' ');
    forall i | 0 <= i < |ws| ensures ' ' !in ws[i] {
      assert NoSpace(ws[i]);
    }
  }

  /** ReadStatOf once both lines are known to parse. */
  lemma ReadStatOfParsed(statFile: seq<string>, statmFile: seq<string>, ioFile: Option<seq<string>>,
                         cmdlineFile: Option<seq<string>>, statLine: string, statmLine: string, io: (int, int), s: Stat)
    requires Strip(ReadLine(statFile, 0)) == statLine && Strip(ReadLine(statmFile, 0)) == statmLine
    requires ReadIo(ioFile) == io
    requires ParseStat(statLine, statmLine, (0, 0), io, cmdlineFile) == Some(s)
    ensures ReadStatOf(statFile, statmFile, ioFile, cmdlineFile) == s
  {
  }

  /**
    read_stat on /proc/[pid]/stat, statm and io files laid out as proc(5)
    describes them builds the record of those fields, with the io counters
    and the cmdline file's text, and (0, 0) for the network.
   */
  lemma ReadStatOfLayout(pid: int, comm: string, tail: seq<string>, session: int,
                         utime: int, stime: int, size: int, resident: int,
                         statmTail: seq<string>, ioLines: seq<string>,
                         readBytes: int, writeBytes: int, cmdlineFile: Option<seq<string>>)
    requires ')' !in comm
    requires Words(tail) && |tail| >= 13
    requires tail[3] == ToDecimal(session) && tail[11] == ToDecimal(utime) && tail[12] == ToDecimal(stime)
    requires Words(statmTail)
    requires |ioLines| >= 6
    requires ioLines[4] == "read_bytes:" + " " + ToDecimal(readBytes) + "\n"
    requires ioLines[5] == "write_bytes:" + " " + ToDecimal(writeBytes) + "\n"
    ensures ReadStatOf([StatLine(pid, comm, tail) + "\n"],
                       [Join([ToDecimal(size), ToDecimal(resident)] + statmTail, " ") + "\n"],
                       Some(ioLines), cmdlineFile)
         == NewStat(pid, comm, session, utime, stime, size, resident, (0, 0), (readBytes, writeBytes),
                    CmdlineOf(cmdlineFile))
  {
    var statLine := StatLine(pid, comm, tail);
    var statmLine := Join([ToDecimal(size), ToDecimal(resident)] + statmTail, " ");
    StatLineRead(pid, comm, tail);
    StatmLayoutRead(size, resident, statmTail);
    ReadIoOfLayout(ioLines, readBytes, writeBytes);
    WordsNoBlank(statmTail);
    ParseStatOfLayout(pid, comm, tail, session, utime, stime, size, resident, statmTail,
                      (0, 0), (readBytes, writeBytes), cmdlineFile);
    ReadStatOfParsed([statLine + "\n"], [statmLine + "\n"], Some(ioLines), cmdlineFile,
                     statLine, statmLine, (readBytes, writeBytes),
                     NewStat(pid, comm, session, utime, stime, size, resident, (0, 0), (readBytes, writeBytes),
                             CmdlineOf(cmdlineFile)));
  }

  /** [int(x) for x in ws]; None when int() refuses one of them. */
  function ParseAll(ws: seq<string>): (r: Option<seq<int>>)
    ensures r.Some? <==> forall i | 0 <= i < |ws| :: ParseInt(ws[i]).Some?
    ensures r.Some? ==> |r.value| == |ws| && forall i | 0 <= i < |ws| :: ParseInt(ws[i]) == Some(r.value[i])
    decreases |ws|
  {
    if ws == [] then Some([])
    else
      match ParseInt(ws[0])
      case None => None
      case Some(v) =>
        match ParseAll(ws[1..])
        case None => None
        case Some(vs) => Some([v] + vs)
  }

  function Sum(xs: seq<int>): int
    decreases |xs|
  {
    if xs == [] then 0 else xs[0] + Sum(xs[1..])
  }

  /** xs[:n] */
  function Take(xs: seq<int>, n: nat): (r: seq<int>)
    ensures |r| == if n <= |xs| then n else |xs|
    ensures r == xs[..|r|]
  {
    if n <= |xs| then xs[..n] else xs
  }

  /**
    read_global_cpu on the lines of /proc/stat: the first line, stripped, less
    its first five characters (the "cpu  " label), split into integers, and
    the sum of the first eight (user, nice, system, idle, iowait, irq, softirq,
    steal). None is the ValueError of a field that is not a number.
   */
  function GlobalCpu(procStat: seq<string>): Option<int> {
    match ParseAll(SplitWs(SliceFrom(Strip(ReadLine(procStat, 0)), 5)))
    case None => None
    case Some(counters) => Some(Sum(Take(counters, 8)))
  }

  /** The decimal texts of xs, in order. */
  function Decimals(xs: seq<int>): (r: seq<string>)
    ensures |r| == |xs| && Words(r)
    ensures forall i | 0 <= i < |xs| :: r[i] == ToDecimal(xs[i])
  {
    seq(|xs|, i requires 0 <= i < |xs| => DecimalNoSpace(xs[i]); ToDecimal(xs[i]))
  }

  /** Round trip: the decimal texts of xs read back as xs. */
  lemma ParseAllDecimals(xs: seq<int>)
    ensures ParseAll(Decimals(xs)) == Some(xs)
  {
    var ds := Decimals(xs);
    forall i | 0 <= i < |xs| ensures ParseInt(ds[i]) == Some(xs[i]) {
      ParseIntOfDecimal(xs[i]);
    }
    var r := ParseAll(ds);
    assert r.Some?;
    assert forall i | 0 <= i < |xs| :: r.value[i] == xs[i];
    assert r.value == xs;
  }

  /**
    read_global_cpu on a /proc/stat whose first line is the "cpu" label, two
    spaces and the counters: the sum of the first eight counters, so guest
    and guest_nice (the ninth and tenth) are left out.
   */
  lemma GlobalCpuOfLayout(procStat: seq<string>, counters: seq<int>)
    requires |procStat| >= 1 && counters != []
    requires procStat[0] == "cpu  " + Join(Decimals(counters), " ") + "\n"
    ensures GlobalCpu(procStat) == Some(Sum(Take(counters, 8)))
  {
    var j := Join(Decimals(counters), " ");
    var line := "cpu  " + j;
    JoinLast(Decimals(counters), " ");
    DecimalNoSpace(counters[|counters| - 1]);
    assert line[|line| - 1] == j[|j| - 1];
    StripPadded([], line, "\n");
    assert [] + line + "\n" == procStat[0];
    assert SliceFrom(line, 5) == j;
    SplitWsJoin(Decimals(counters), ' ');
    ParseAllDecimals(counters);
  }

  /**
    read_global_mem on the lines of /proc/meminfo: MemTotal (line 1) less
    MemAvailable (line 3), in kB, times 1024. None is the IndexError or the
    ValueError of either value.
   */
  function GlobalMem(meminfo: seq<string>): (r: Option<int>)
  {
    match SecondInt(ReadLine(meminfo, 0))
    case None => None
    case Some(total) =>
      match SecondInt(ReadLine(meminfo, 2))
      case None => None
      case Some(avail) => Some((total - avail) * 1024)
  }

  /**
    read_global_mem on a /proc/meminfo laid out as proc(5) describes it: the
    used memory in bytes, which is never negative when no more is available
    than there is.
   */
  lemma GlobalMemOfLayout(meminfo: seq<string>, total: int, avail: int, pad0: string, pad2: string)
    requires |meminfo| >= 3
    requires pad0 != [] && forall i | 0 <= i < |pad0| :: pad0[i] == ' '
    requires pad2 != [] && forall i | 0 <= i < |pad2| :: pad2[i] == ' '
    requires meminfo[0] == "MemTotal:" + pad0 + ToDecimal(total) + " kB" + "\n"
    requires meminfo[2] == "MemAvailable:" + pad2 + ToDecimal(avail) + " kB" + "\n"
    ensures GlobalMem(meminfo) == Some((total - avail) * 1024)
  {
    MemTotalLine(meminfo, total, pad0);
    MemAvailableLine(meminfo, avail, pad2);
    GlobalMemOfLines(meminfo, total, avail);
  }

  lemma GlobalMemOfLines(meminfo: seq<string>, total: int, avail: int)
    requires SecondInt(ReadLine(meminfo, 0)) == Some(total) && SecondInt(ReadLine(meminfo, 2)) == Some(avail)
    ensures GlobalMem(meminfo) == Some((total - avail) * 1024)
  {
  }

  lemma MemTotalLine(meminfo: seq<string>, total: int, pad: string)
    requires |meminfo| >= 1
    requires pad != [] && forall i | 0 <= i < |pad| :: pad[i] == ' '
    requires meminfo[0] == "MemTotal:" + pad + ToDecimal(total) + " kB" + "\n"
    ensures SecondInt(ReadLine(meminfo, 0)) == Some(total)
  {
    LabelsHaveNoSpace();
    LabelledValue("MemTotal:", pad, total, " kB", "\n");
  }

  lemma MemAvailableLine(meminfo: seq<string>, avail: int, pad: string)
    requires |meminfo| >= 3
    requires pad != [] && forall i | 0 <= i < |pad| :: pad[i] == ' '
    requires meminfo[2] == "MemAvailable:" + pad + ToDecimal(avail) + " kB" + "\n"
    ensures SecondInt(ReadLine(meminfo, 2)) == Some(avail)
  {
    LabelsHaveNoSpace();
    LabelledValue("MemAvailable:", pad, avail, " kB", "\n");
  }

  /** The used memory is never negative and never more than the total when no more is available than there is. */
  lemma GlobalMemBounds(meminfo: seq<string>, total: int, avail: int)
    requires SecondInt(ReadLine(meminfo, 0)) == Some(total) && SecondInt(ReadLine(meminfo, 2)) == Some(avail)
    requires 0 <= avail <= total
    ensures GlobalMem(meminfo).Some? && 0 <= GlobalMem(meminfo).value <= total * 1024
  {
  }

  /** read_global_mem raises when either line is missing or does not carry an int as its second field. */
  lemma GlobalMemFails(meminfo: seq<string>)
    requires SecondInt(ReadLine(meminfo, 0)) == None || SecondInt(ReadLine(meminfo, 2)) == None
    ensures GlobalMem(meminfo) == None
  {
  }
}
