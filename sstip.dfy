/**
  parse_ss_tip in healthy.py: the per-connection line printed by
  `ss -tipHOn`, scanned the way Python's re.search runs the pattern
  pid=(\d+),fd=(\d+).*bytes_sent:(\d+).*bytes_received:(\d+)
  The scanner tries every start position from the left; at a start position
  the digit runs are maximal, `.` is any character but '\n', and each greedy
  `.*` settles on the last position from which the rest of the pattern still
  matches.
 */
module SsTip {
  import opened Wrappers
  import opened PyText

  /** The ConnectionInfo namedtuple. */
  datatype ConnectionInfo = ConnectionInfo(pid: int, fd: int, bytesSent: int, bytesReceived: int)

  const PidLabel: string := "pid="
  const FdLabel: string := ",fd="
  const SentLabel: string := "bytes_sent:"
  const ReceivedLabel: string := "bytes_received:"

  /** w occurs in s at position k. */
  predicate At(s: string, k: nat, w: string) {
    k + |w| <= |s| && forall m | 0 <= m < |w| :: s[k + m] == w[m]
  }

  /** w occurs nowhere in s. */
  predicate NoWord(s: string, w: string) {
    forall k | 0 <= k <= |s| :: !At(s, k, w)
  }

  /** The length of the run of digits that starts at position k: what a greedy \d* takes there. */
  function DigitRun(s: string, k: nat): (n: nat)
    ensures k + n <= |s| || n == 0
    decreases |s| - k
  {
    if k < |s| && IsDigit(s[k]) then 1 + DigitRun(s, k + 1) else 0
  }

  /** The run is maximal: digits all the way, and no digit right after it. */
  lemma {:induction false} DigitRunIs(s: string, k: nat)
    ensures forall j | k <= j < k + DigitRun(s, k) :: IsDigit(s[j])
    ensures k + DigitRun(s, k) < |s| ==> !IsDigit(s[k + DigitRun(s, k)])
    decreases |s| - k
  {
    if k < |s| && IsDigit(s[k]) {
      DigitRunIs(s, k + 1);
    }
  }

  /** The decimal value of the n digits from position k. */
  function RunValue(s: string, k: nat, n: nat): nat
    requires k + n <= |s| && forall j | k <= j < k + n :: IsDigit(s[j])
    decreases n
  {
    if n == 0 then 0 else RunValue(s, k, n - 1) * 10 + DigitVal(s[k + n - 1])
  }

  /** The digits at k read as a decimal number: int() of the group. */
  lemma {:induction false} RunValueIsInt(s: string, k: nat, n: nat)
    requires 0 < n && k + n <= |s| && forall j | k <= j < k + n :: IsDigit(s[j])
    ensures ValidDigits(s[k..k + n]) && RunValue(s, k, n) == DigitsValue(s[k..k + n])
    decreases n
  {
    var t := s[k..k + n];
    assert t[|t| - 1] == s[k + n - 1];
    if n > 1 {
      RunValueIsInt(s, k, n - 1);
      assert t[..|t| - 1] == s[k..k + n - 1];
      assert t[|t| - 2] == s[k + n - 2];
    }
  }

  /** int() of the digit run at position k. */
  function Number(s: string, k: nat): nat
    requires DigitRun(s, k) > 0
  {
    DigitRunIs(s, k);
    RunValue(s, k, DigitRun(s, k))
  }

  /** Number is int() of the text of the digit run. */
  lemma NumberIsInt(s: string, k: nat)
    requires DigitRun(s, k) > 0
    ensures ValidDigits(s[k..k + DigitRun(s, k)]) && Number(s, k) == DigitsValue(s[k..k + DigitRun(s, k)])
  {
    DigitRunIs(s, k);
    RunValueIsInt(s, k, DigitRun(s, k));
  }

  /** The end of the text `.` can cover from position k: the first '\n' at or after k, or the end of s. */
  function LineEnd(s: string, k: nat): (e: nat)
    requires k <= |s|
    ensures k <= e <= |s|
    ensures e < |s| ==> s[e] == '\n'
    decreases |s| - k
  {
    if k == |s| || s[k] == '\n' then k else LineEnd(s, k + 1)
  }

  /** `.` covers no '\n': there is none from k up to LineEnd. */
  lemma {:induction false} LineEndIs(s: string, k: nat)
    requires k <= |s|
    ensures forall j | k <= j < LineEnd(s, k) :: s[j] != '\n'
    decreases |s| - k
  {
    if !(k == |s| || s[k] == '\n') {
      LineEndIs(s, k + 1);
    }
  }

  /** The last position in [lo, hi) where found holds, scanning down from hi; None when there is none. */
  function LastWhere(found: nat -> bool, lo: nat, hi: nat): (r: Option<nat>)
    ensures r.Some? ==> lo <= r.value < hi && found(r.value)
    decreases hi
  {
    if hi <= lo then None
    else if found(hi - 1) then Some(hi - 1)
    else LastWhere(found, lo, hi - 1)
  }

  /** LastWhere is the last such position, and None only when there is none. */
  lemma {:induction false} LastWhereGreedy(found: nat -> bool, lo: nat, hi: nat)
    ensures var r := LastWhere(found, lo, hi);
      r.Some? ==> forall l | r.value < l < hi :: !found(l)
    ensures LastWhere(found, lo, hi).None? ==> forall l | lo <= l < hi :: !found(l)
    decreases hi
  {
    if hi > lo && !found(hi - 1) {
      LastWhereGreedy(found, lo, hi - 1);
    }
  }

  /** A position where found holds and after which, up to hi, it does not, is the one LastWhere finds. */
  lemma {:induction false} LastWhereIs(found: nat -> bool, lo: nat, hi: nat, l: nat)
    requires lo <= l < hi && found(l)
    requires forall m | l < m < hi :: !found(m)
    ensures LastWhere(found, lo, hi) == Some(l)
    decreases hi
  {
    if l < hi - 1 {
      LastWhereIs(found, lo, hi - 1, l);
    }
  }

  /** The first position in [i, n) where found holds; n when there is none. */
  function FirstWhere(found: nat -> bool, i: nat, n: nat): (r: nat)
    requires i <= n
    ensures i <= r <= n
    decreases n - i
  {
    if i == n || found(i) then i else FirstWhere(found, i + 1, n)
  }

  /** FirstWhere finds a position where found holds, and it holds nowhere before that from i on. */
  lemma {:induction false} FirstWhereFirst(found: nat -> bool, i: nat, n: nat)
    requires i <= n
    ensures FirstWhere(found, i, n) < n ==> found(FirstWhere(found, i, n))
    ensures forall j | i <= j < FirstWhere(found, i, n) :: !found(j)
    decreases n - i
  {
    if !(i == n || found(i)) {
      FirstWhereFirst(found, i + 1, n);
    }
  }

  /** A position where found holds and before which, from i on, it does not, is the one FirstWhere finds. */
  lemma {:induction false} FirstWhereIs(found: nat -> bool, i: nat, k: nat, n: nat)
    requires i <= k < n && found(k)
    requires forall j | i <= j < k :: !found(j)
    ensures FirstWhere(found, i, n) == k
    decreases k - i
  {
    if i < k {
      FirstWhereIs(found, i + 1, k, n);
    }
  }

  /** bytes_received:(\d+) matches at position l. */
  predicate ReceivedAt(s: string, l: nat) {
    At(s, l, ReceivedLabel) && DigitRun(s, l + |ReceivedLabel|) > 0
  }

  /** The positions where bytes_received:(\d+) matches. */
  function ReceivedHere(s: string): nat -> bool {
    (l: nat) => ReceivedAt(s, l)
  }

  /**
    The greedy `.*bytes_received:` from lo, with `.` unable to pass hi: the
    last position in [lo, hi) where bytes_received:(\d+) matches.
   */
  function LastReceived(s: string, lo: nat, hi: nat): (r: Option<nat>)
    ensures r.Some? ==> lo <= r.value < hi && ReceivedAt(s, r.value)
  {
    LastWhere(ReceivedHere(s), lo, hi)
  }

  /** LastReceived is the last match in [lo, hi), and None only when there is none. */
  lemma LastReceivedGreedy(s: string, lo: nat, hi: nat)
    ensures var r := LastReceived(s, lo, hi);
      r.Some? ==> forall l | r.value < l < hi :: !ReceivedAt(s, l)
    ensures LastReceived(s, lo, hi).None? ==> forall l | lo <= l < hi :: !ReceivedAt(s, l)
  {
    LastWhereGreedy(ReceivedHere(s), lo, hi);
    forall l ensures ReceivedHere(s)(l) == ReceivedAt(s, l) {
    }
  }

  /** The end of the digits after bytes_sent: at k. */
  function SentEnd(s: string, k: nat): nat {
    k + |SentLabel| + DigitRun(s, k + |SentLabel|)
  }

  /** bytes_sent:(\d+).*bytes_received:(\d+) matches at position k, `.` unable to pass e. */
  predicate SentAt(s: string, k: nat, e: nat) {
    && At(s, k, SentLabel) && DigitRun(s, k + |SentLabel|) > 0
    && LastReceived(s, SentEnd(s, k), e).Some?
  }

  /** The positions where the rest of the pattern matches from bytes_sent:, `.` unable to pass e. */
  function SentHere(s: string, e: nat): nat -> bool {
    (k: nat) => SentAt(s, k, e)
  }

  /**
    The greedy `.*bytes_sent:` from lo, with `.` unable to pass e: the last
    position in [lo, hi) where the rest of the pattern matches.
   */
  function LastSent(s: string, lo: nat, hi: nat, e: nat): (r: Option<nat>)
    ensures r.Some? ==> lo <= r.value < hi && SentAt(s, r.value, e)
  {
    LastWhere(SentHere(s, e), lo, hi)
  }

  /** LastSent is the last place in [lo, hi) where the rest matches, and None only when there is none. */
  lemma LastSentGreedy(s: string, lo: nat, hi: nat, e: nat)
    ensures var r := LastSent(s, lo, hi, e);
      r.Some? ==> forall k | r.value < k < hi :: !SentAt(s, k, e)
    ensures LastSent(s, lo, hi, e).None? ==> forall k | lo <= k < hi :: !SentAt(s, k, e)
  {
    LastWhereGreedy(SentHere(s, e), lo, hi);
    forall k ensures SentHere(s, e)(k) == SentAt(s, k, e) {
    }
  }

  /** Where the fd digits start when pid=(\d+),fd= matches at i. */
  function FdStart(s: string, i: nat): nat {
    i + |PidLabel| + DigitRun(s, i + |PidLabel|) + |FdLabel|
  }

  /** The end of the fd digits when pid=(\d+),fd=(\d+) matches at i. */
  function FdEnd(s: string, i: nat): nat {
    FdStart(s, i) + DigitRun(s, FdStart(s, i))
  }

  /** Where the bytes_sent: and bytes_received: labels of a match start. */
  datatype Labels = Labels(sentAt: nat, receivedAt: nat)

  /**
    The part .*bytes_sent:(\d+).*bytes_received:(\d+) matched from position
    j: the positions of the bytes_sent: and bytes_received: labels where the
    two greedy `.*` settle, or None when the part does not match.
   */
  function SentReceived(s: string, j: nat): (r: Option<Labels>)
    requires j <= |s|
    ensures r.Some? ==> At(s, r.value.sentAt, SentLabel) && DigitRun(s, r.value.sentAt + |SentLabel|) > 0
    ensures r.Some? ==> ReceivedAt(s, r.value.receivedAt)
  {
    var e := LineEnd(s, j);
    match LastSent(s, j, e, e)
    case None => None
    case Some(k) => Some(Labels(k, LastReceived(s, SentEnd(s, k), e).value))
  }

  /**
    The two greedy `.*` of SentReceived: they stay on the line (no '\n'
    before the received label), settle on the last places where the rest of
    the pattern matches, and fail only when bytes_sent:(\d+).*bytes_received:(\d+)
    matches nowhere on the line from j.
   */
  lemma SentReceivedGreedy(s: string, j: nat)
    requires j <= |s|
    ensures var r := SentReceived(s, j);
      r.Some? ==> j <= r.value.sentAt && SentEnd(s, r.value.sentAt) <= r.value.receivedAt
    ensures var r := SentReceived(s, j);
      r.Some? ==> forall x | j <= x < r.value.receivedAt :: s[x] != '\n'
    ensures var r := SentReceived(s, j);
      r.Some? ==> forall k' | r.value.sentAt < k' < LineEnd(s, j) :: !SentAt(s, k', LineEnd(s, j))
    ensures var r := SentReceived(s, j);
      r.Some? ==> forall l' | r.value.receivedAt < l' < LineEnd(s, j) :: !ReceivedAt(s, l')
    ensures SentReceived(s, j).None? <==> forall k | j <= k < LineEnd(s, j) :: !SentAt(s, k, LineEnd(s, j))
  {
    var e := LineEnd(s, j);
    LineEndIs(s, j);
    LastSentGreedy(s, j, e, e);
    var r := LastSent(s, j, e, e);
    if r.Some? {
      LastReceivedGreedy(s, SentEnd(s, r.value), e);
    }
  }

  /** pid=(\d+),fd=(\d+) matches at position i. */
  predicate PidFdAt(s: string, i: nat) {
    && At(s, i, PidLabel) && DigitRun(s, i + |PidLabel|) > 0
    && At(s, i + |PidLabel| + DigitRun(s, i + |PidLabel|), FdLabel)
    && DigitRun(s, FdStart(s, i)) > 0
  }

  /**
    The pattern matched with its start anchored at position i; None when it
    does not match there. pid and fd are the digit runs after pid= at i and
    after the ,fd= that follows them; the byte counts are the digit runs after
    the labels SentReceived settles on.
   */
  function MatchAt(s: string, i: nat): Option<ConnectionInfo>
  {
    if !PidFdAt(s, i) then None
    else
      match SentReceived(s, FdEnd(s, i))
      case None => None
      case Some(r) => Some(Captured(s, i, r))
  }

  /** The four groups once pid=(\d+),fd=(\d+) matches at i and the byte-count labels are at r. */
  function Captured(s: string, i: nat, r: Labels): ConnectionInfo
    requires PidFdAt(s, i)
    requires DigitRun(s, r.sentAt + |SentLabel|) > 0 && DigitRun(s, r.receivedAt + |ReceivedLabel|) > 0
  {
    ConnectionInfo(Number(s, i + |PidLabel|), Number(s, FdStart(s, i)),
                   Number(s, r.sentAt + |SentLabel|), Number(s, r.receivedAt + |ReceivedLabel|))
  }

  /** The start positions where the pattern matches. */
  function MatchHere(s: string): nat -> bool {
    (i: nat) => MatchAt(s, i).Some?
  }

  /** The leftmost start position from i on where the pattern matches; |s| + 1 when there is none. */
  function Leftmost(s: string, i: nat): (n: nat)
    requires i <= |s| + 1
    ensures i <= n <= |s| + 1
  {
    FirstWhere(MatchHere(s), i, |s| + 1)
  }

  /** Leftmost is a match, and no position before it from i on is one. */
  lemma LeftmostFirst(s: string, i: nat)
    requires i <= |s| + 1
    ensures Leftmost(s, i) <= |s| ==> MatchAt(s, Leftmost(s, i)).Some?
    ensures forall j | i <= j < Leftmost(s, i) :: MatchAt(s, j).None?
  {
    FirstWhereFirst(MatchHere(s), i, |s| + 1);
    forall j ensures MatchHere(s)(j) == MatchAt(s, j).Some? {
    }
  }

  /**
    parse_ss_tip, as re.search runs: None when the pattern matches nowhere in
    the line, and otherwise the four numbers of the match that starts
    leftmost.
   */
  function ParseSsTip(line: string): (r: Option<ConnectionInfo>)
    ensures r.None? <==> forall i | 0 <= i <= |line| :: MatchAt(line, i).None?
    ensures r.Some? ==> r == MatchAt(line, Leftmost(line, 0))
  {
    var i := Leftmost(line, 0);
    LeftmostFirst(line, 0);
    if i <= |line| then MatchAt(line, i) else None
  }
}
