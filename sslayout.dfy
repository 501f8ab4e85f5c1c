/**
  What parse_ss_tip reads from a line laid out the way `ss -tipHOn` prints
  one connection: some text without pid=, then pid=<pid>,fd=<fd>, then
  text, bytes_sent:<n>, text, bytes_received:<m> and the rest of the line.
 */
module SsTipLayout {
  import opened Wrappers
  import opened PyText
  import opened SsTip

  /** A piece at position k extends into what follows it. */
  lemma AtPrefix(s: string, t: string, k: nat, w: string)
    requires At(s, k, w)
    ensures At(s + t, k, w)
  {
    assert (s + t)[k..k + |w|] == s[k..k + |w|];
  }

  /** The last piece of a concatenation sits at the length of what precedes it. */
  lemma AtEnd(s: string, w: string)
    ensures At(s + w, |s|, w)
  {
    assert (s + w)[|s|..|s| + |w|] == w;
  }

  /** An occurrence of w that lies inside a piece d at k0 is an occurrence of w in d. */
  lemma AtInside(s: string, k0: nat, d: string, k: nat, w: string)
    requires At(s, k0, d) && k0 <= k && k + |w| <= k0 + |d|
    ensures At(s, k, w) <==> At(d, k - k0, w)
  {
    assert s[k..k + |w|] == d[k - k0..k - k0 + |w|] by {
      assert s[k0..k0 + |d|] == d;
      forall x | k <= x < k + |w|
        ensures s[x] == d[x - k0]
      {
        AtChar(s, k0, d, x);
      }
    }
  }

  /** The characters of a piece are the characters of the line at its place. */
  lemma AtChar(s: string, k0: nat, d: string, x: nat)
    requires At(s, k0, d) && k0 <= x < k0 + |d|
    ensures x < |s| && s[x] == d[x - k0]
  {
    assert s[x] == s[k0..k0 + |d|][x - k0];
  }

  /** An occurrence of w cannot cover a character that w does not contain. */
  lemma NotAcross(s: string, k: nat, w: string, x: nat)
    requires k <= x < |s| && x < k + |w| && s[x] !in w
    ensures !At(s, k, w)
  {
    if At(s, k, w) {
      AtChar(s, k, w, x);
    }
  }

  /** The digit run at a piece of digits followed by a non-digit is that piece. */
  lemma {:induction false} DigitRunOfPiece(s: string, k: nat, d: string)
    requires At(s, k, d) && AllDigits(d)
    requires k + |d| == |s| || !IsDigit(s[k + |d|])
    ensures DigitRun(s, k) == |d|
    decreases |d|
  {
    if d != [] {
      AtChar(s, k, d, k);
      assert At(s, k + 1, d[1..]) by {
        assert s[k + 1..k + 1 + |d[1..]|] == s[k..k + |d|][1..];
      }
      DigitRunOfPiece(s, k + 1, d[1..]);
    }
  }

  /** The greedy search for bytes_received: settles on the last place where it matches. */
  lemma LastReceivedIs(s: string, lo: nat, hi: nat, l: nat)
    requires lo <= l < hi && ReceivedAt(s, l)
    requires forall l' | l < l' < hi :: !ReceivedAt(s, l')
    ensures LastReceived(s, lo, hi) == Some(l)
  {
    forall m ensures ReceivedHere(s)(m) == ReceivedAt(s, m) {
    }
    LastWhereIs(ReceivedHere(s), lo, hi, l);
  }

  /** The greedy search for bytes_sent: settles on the last place where the rest of the pattern matches. */
  lemma LastSentIs(s: string, lo: nat, hi: nat, e: nat, k: nat)
    requires lo <= k < hi && SentAt(s, k, e)
    requires forall k' | k < k' < hi :: !SentAt(s, k', e)
    ensures LastSent(s, lo, hi, e) == Some(k)
  {
    forall m ensures SentHere(s, e)(m) == SentAt(s, m, e) {
    }
    LastWhereIs(SentHere(s, e), lo, hi, k);
  }

  /** A word never occurs in a string that lacks its first character. */
  lemma NoWordOfFirst(s: string, w: string)
    requires w != [] && w[0] !in s
    ensures NoWord(s, w)
  {
    forall k | 0 <= k <= |s|
      ensures !At(s, k, w)
    {
      if At(s, k, w) {
        AtChar(s, k, w, k);
      }
    }
  }

  /** Two strings without a word, joined by a character the word lacks, are without it too. */
  lemma NoWordJoin(a: string, c: char, b: string, w: string)
    requires NoWord(a, w) && NoWord(b, w) && c !in w
    ensures NoWord(a + [c] + b, w)
  {
    var s := a + [c] + b;
    AtEnd(a, [c]);
    AtPrefix(a + [c], b, |a|, [c]);
    AtEnd(a + [c], b);
    AtPrefix(a, [c] + b, 0, a) by { assert a == [] + a; AtEnd([], a); }
    assert s == a + ([c] + b);
    forall k | 0 <= k <= |s|
      ensures !At(s, k, w)
    {
      if k + |w| > |s| {
      } else if k + |w| <= |a| {
        AtInside(s, 0, a, k, w);
      } else if k > |a| {
        AtInside(s, |a| + 1, b, k, w);
      } else {
        NotAcross(s, k, w, |a|);
      }
    }
  }

  /** The pieces joined with nothing between them. */
  function Concat(ps: seq<string>): string {
    if ps == [] then [] else Concat(ps[..|ps| - 1]) + ps[|ps| - 1]
  }

  /** Where piece i starts in Concat(ps). */
  function Offset(ps: seq<string>, i: nat): nat
    requires i <= |ps|
  {
    |Concat(ps[..i])|
  }

  /** Each piece sits at its offset, and the next piece starts right after it. */
  lemma {:induction false} PieceAt(ps: seq<string>, i: nat)
    requires i < |ps|
    ensures At(Concat(ps), Offset(ps, i), ps[i])
    ensures Offset(ps, i + 1) == Offset(ps, i) + |ps[i]|
    decreases |ps|
  {
    var init := ps[..|ps| - 1];
    assert ps[..i + 1][..i] == ps[..i];
    if i == |ps| - 1 {
      assert ps[..i] == init;
      AtEnd(Concat(init), ps[i]);
    } else {
      PieceAt(init, i);
      assert init[..i] == ps[..i] && init[..i + 1] == ps[..i + 1] && init[i] == ps[i];
      AtPrefix(Concat(init), ps[|ps| - 1], Offset(init, i), ps[i]);
    }
  }

  /** The first piece starts the line and the second follows it. */
  lemma FrontPieces(ps: seq<string>)
    requires |ps| >= 2
    ensures At(Concat(ps), 0, ps[0]) && At(Concat(ps), |ps[0]|, ps[1])
  {
    PieceAt(ps, 0);
    PieceAt(ps, 1);
    assert ps[..0] == [];
  }

  /** The whole line ends where the last piece does. */
  lemma ConcatLength(ps: seq<string>)
    ensures |Concat(ps)| == Offset(ps, |ps|)
  {
    assert ps[..|ps|] == ps;
  }

  /** Facts about the labels' characters that the proofs below use. */
  lemma LabelChars()
    ensures 'b' !in SentLabel[1..] && 'b' !in ReceivedLabel[1..]
    ensures ' ' !in SentLabel && ' ' !in ReceivedLabel
    ensures SentLabel[0] == 'b' && ReceivedLabel[0] == 'b' && ReceivedLabel[6] !in SentLabel
  {
  }

  /** Neither label holds a '\n'. */
  lemma LabelNewline()
    ensures '\n' !in SentLabel && '\n' !in ReceivedLabel
  {
  }

  /** A word does not occur where its first character is missing. */
  lemma NotAtFirst(s: string, k: nat, w: string)
    requires w != [] && (k >= |s| || s[k] != w[0])
    ensures !At(s, k, w)
  {
    if At(s, k, w) {
      AtChar(s, k, w, k);
    }
  }

  /** Inside a label, past its first character, no label starts. */
  lemma NotAtInLabel(s: string, k0: nat, lab: string, k: nat, w: string)
    requires At(s, k0, lab) && k0 < k < k0 + |lab|
    requires w != [] && w[0] !in lab[1..]
    ensures !At(s, k, w)
  {
    AtChar(s, k0, lab, k);
    assert lab[k - k0] == lab[1..][k - k0 - 1];
    NotAtFirst(s, k, w);
  }

  /** A run of one or more digits, as str() prints a natural number. */
  predicate DigitWord(d: string) {
    d != [] && AllDigits(d)
  }

  /** Inside a run of digits, no label starts. */
  lemma NotAtInDigits(s: string, k0: nat, d: string, k: nat, w: string)
    requires At(s, k0, d) && AllDigits(d) && k0 <= k < k0 + |d|
    requires w != [] && !IsDigit(w[0])
    ensures !At(s, k, w)
  {
    AtChar(s, k0, d, k);
    NotAtFirst(s, k, w);
  }

  /** int() of the digit run at a piece of digits followed by a non-digit is the value of that piece. */
  lemma NumberOfPiece(s: string, k: nat, d: string)
    requires At(s, k, d) && DigitWord(d)
    requires k + |d| == |s| || !IsDigit(s[k + |d|])
    ensures DigitRun(s, k) == |d| > 0 && ValidDigits(d)
    ensures Number(s, k) == DigitsValue(d)
  {
    DigitRunOfPiece(s, k, d);
    NumberIsInt(s, k);
    assert s[k..k + DigitRun(s, k)] == d;
  }

  /**
    bytes_received:<dr> followed by a tail that starts with a space and
    holds no bytes_received: is the last place where bytes_received:(\d+)
    matches, and its digits read back as the value of dr.
   */
  lemma ReceivedLast(line: string, kr: nat, dr: string, tail: string)
    requires At(line, kr, ReceivedLabel) && At(line, kr + |ReceivedLabel|, dr) && DigitWord(dr)
    requires var t := kr + |ReceivedLabel| + |dr|; At(line, t, tail) && |line| == t + |tail|
    requires tail == [] || tail[0] == ' '
    requires NoWord(tail, ReceivedLabel)
    ensures ReceivedAt(line, kr)
    ensures forall l | kr < l < |line| :: !ReceivedAt(line, l)
  {
    var m := kr + |ReceivedLabel|;
    var t := m + |dr|;
    if tail == [] {
      assert t == |line|;
    } else {
      AtChar(line, t, tail, t);
      assert !IsDigit(line[t]);
    }
    DigitRunOfPiece(line, m, dr);
    LabelChars();
    forall l | kr < l < |line|
      ensures !ReceivedAt(line, l)
    {
      if l < m {
        NotAtInLabel(line, kr, ReceivedLabel, l, ReceivedLabel);
      } else if l < t {
        NotAtInDigits(line, m, dr, l, ReceivedLabel);
      } else if l + |ReceivedLabel| <= |line| {
        AtInside(line, t, tail, l, ReceivedLabel);
      }
    }
  }

  /** No bytes_sent: starts inside bytes_sent:<ds> past its first character. */
  lemma NotSentInSent(line: string, ks: nat, ds: string, k: nat)
    requires At(line, ks, SentLabel) && At(line, ks + |SentLabel|, ds) && AllDigits(ds)
    requires ks < k < ks + |SentLabel| + |ds|
    ensures !At(line, k, SentLabel)
  {
    LabelChars();
    if k < ks + |SentLabel| {
      NotAtInLabel(line, ks, SentLabel, k, SentLabel);
    } else {
      NotAtInDigits(line, ks + |SentLabel|, ds, k, SentLabel);
    }
  }

  /** No bytes_sent: starts inside a middle that ends with a space and holds none. */
  lemma NotSentInMiddle(line: string, h: nat, mid2: string, k: nat)
    requires At(line, h, mid2) && mid2 != [] && mid2[|mid2| - 1] == ' ' && NoWord(mid2, SentLabel)
    requires h <= k < h + |mid2|
    ensures !At(line, k, SentLabel)
  {
    LabelChars();
    if k + |SentLabel| <= h + |mid2| {
      AtInside(line, h, mid2, k, SentLabel);
    } else {
      AtChar(line, h, mid2, h + |mid2| - 1);
      NotAcross(line, k, SentLabel, h + |mid2| - 1);
    }
  }

  /** No bytes_sent: starts inside bytes_received:<dr> followed by a tail that holds none. */
  lemma NotSentInReceived(line: string, kr: nat, dr: string, tail: string, k: nat)
    requires At(line, kr, ReceivedLabel) && At(line, kr + |ReceivedLabel|, dr) && AllDigits(dr)
    requires var t := kr + |ReceivedLabel| + |dr|; At(line, t, tail) && |line| == t + |tail|
    requires NoWord(tail, SentLabel)
    requires kr <= k
    ensures !At(line, k, SentLabel)
  {
    LabelChars();
    var m := kr + |ReceivedLabel|;
    var t := m + |dr|;
    if k == kr {
      AtChar(line, kr, ReceivedLabel, kr + 6);
      NotAcross(line, k, SentLabel, kr + 6);
    } else if k < m {
      NotAtInLabel(line, kr, ReceivedLabel, k, SentLabel);
    } else if k < t {
      NotAtInDigits(line, m, dr, k, SentLabel);
    } else if k + |SentLabel| <= |line| {
      AtInside(line, t, tail, k, SentLabel);
    }
  }

  /**
    bytes_sent:<ds>, then a middle that starts and ends with a space and
    holds no bytes_sent:, then bytes_received:<dr> and a tail without
    bytes_sent: starting with a space: no bytes_sent: occurs after the first,
    and its digits read back as the value of ds.
   */
  lemma SentLast(line: string, ks: nat, ds: string, mid2: string, dr: string, tail: string)
    requires var h := ks + |SentLabel| + |ds|;
      && At(line, ks, SentLabel) && At(line, ks + |SentLabel|, ds) && DigitWord(ds) && At(line, h, mid2)
      && At(line, h + |mid2|, ReceivedLabel) && At(line, h + |mid2| + |ReceivedLabel|, dr) && AllDigits(dr)
      && At(line, h + |mid2| + |ReceivedLabel| + |dr|, tail)
      && |line| == h + |mid2| + |ReceivedLabel| + |dr| + |tail|
    requires mid2 != [] && mid2[0] == ' ' && mid2[|mid2| - 1] == ' '
    requires NoWord(mid2, SentLabel) && NoWord(tail, SentLabel)
    ensures DigitRun(line, ks + |SentLabel|) == |ds| > 0
    ensures forall k | ks < k < |line| :: !At(line, k, SentLabel)
  {
    var h := ks + |SentLabel| + |ds|;
    AtChar(line, h, mid2, h);
    DigitRunOfPiece(line, ks + |SentLabel|, ds);
    forall k | ks < k < |line|
      ensures !At(line, k, SentLabel)
    {
      if k < h {
        NotSentInSent(line, ks, ds, k);
      } else if k < h + |mid2| {
        NotSentInMiddle(line, h, mid2, k);
      } else {
        NotSentInReceived(line, h + |mid2|, dr, tail, k);
      }
    }
  }

  /** The leftmost start is the first position where the pattern matches. */
  lemma LeftmostIs(s: string, i: nat, n: nat)
    requires i <= n <= |s| && MatchAt(s, n).Some?
    requires forall j | i <= j < n :: MatchAt(s, j).None?
    ensures Leftmost(s, i) == n
  {
    forall j ensures MatchHere(s)(j) == MatchAt(s, j).Some? {
    }
    FirstWhereIs(MatchHere(s), i, n, |s| + 1);
  }

  /** The pieces of one connection line, in order. */
  function SsPieces(pre: string, pid: nat, fd: nat, mid1: string, sent: nat, mid2: string, recv: nat,
                    tail: string): (ps: seq<string>)
    ensures |ps| == 12
  {
    [pre, PidLabel, Digits(pid), FdLabel, Digits(fd), mid1, SentLabel, Digits(sent), mid2,
     ReceivedLabel, Digits(recv), tail]
  }

  /** One connection line: text, pid=<pid>,fd=<fd>, text, bytes_sent:<sent>, text, bytes_received:<recv>, the rest. */
  function SsLine(pre: string, pid: nat, fd: nat, mid1: string, sent: nat, mid2: string, recv: nat,
                  tail: string): string
  {
    Concat(SsPieces(pre, pid, fd, mid1, sent, mid2, recv, tail))
  }

  /** line is the pieces ps laid end to end, piece i starting at o[i]. */
  predicate Laid(line: string, ps: seq<string>, o: seq<nat>) {
    && |o| == |ps| + 1 && o[0] == 0 && o[|ps|] == |line|
    && (forall i {:trigger ps[i]} | 0 <= i < |ps| :: o[i + 1] == o[i] + |ps[i]|)
    && (forall i {:trigger ps[i]} | 0 <= i < |ps| :: At(line, o[i], ps[i]))
  }

  /** Concat lays its pieces end to end. */
  lemma ConcatLaid(ps: seq<string>)
    ensures Laid(Concat(ps), ps, seq(|ps| + 1, i requires 0 <= i <= |ps| => Offset(ps, i)))
  {
    forall i | 0 <= i < |ps|
      ensures At(Concat(ps), Offset(ps, i), ps[i]) && Offset(ps, i + 1) == Offset(ps, i) + |ps[i]|
    {
      PieceAt(ps, i);
    }
    ConcatLength(ps);
  }

  /** pid=(\d+),fd=(\d+) matches at the pid= piece. */
  lemma PidFdLayout(line: string, ps: seq<string>, o: seq<nat>)
    requires Laid(line, ps, o) && ConnectionPieces(ps)
    ensures PidFdAt(line, o[1]) && FdStart(line, o[1]) == o[4] && FdEnd(line, o[1]) == o[5]
  {
    assert At(line, o[1], ps[1]) && At(line, o[2], ps[2]) && At(line, o[3], ps[3]);
    assert At(line, o[4], ps[4]) && At(line, o[5], ps[5]);
    assert o[2] == o[1] + |ps[1]| && o[3] == o[2] + |ps[2]| && o[4] == o[3] + |ps[3]|;
    assert o[5] == o[4] + |ps[4]| && o[6] == o[5] + |ps[5]|;
    AtChar(line, o[3], FdLabel, o[3]);
    DigitRunOfPiece(line, o[2], ps[2]);
    AtChar(line, o[5], ps[5], o[5]);
    DigitRunOfPiece(line, o[4], ps[4]);
  }

  /** The digit piece i, followed by a piece that starts with a non-digit or by nothing, reads back as its value. */
  lemma NumberLayout(line: string, ps: seq<string>, o: seq<nat>, i: nat)
    requires Laid(line, ps, o) && i < |ps| && DigitWord(ps[i])
    requires i + 1 == |ps| || (ps[i + 1] == [] && i + 2 == |ps|) || (ps[i + 1] != [] && !IsDigit(ps[i + 1][0]))
    ensures ValidDigits(ps[i]) && DigitRun(line, o[i]) > 0 && Number(line, o[i]) == DigitsValue(ps[i])
  {
    assert At(line, o[i], ps[i]) && o[i + 1] == o[i] + |ps[i]|;
    if i + 1 < |ps| && ps[i + 1] != [] {
      assert At(line, o[i + 1], ps[i + 1]);
      AtChar(line, o[i + 1], ps[i + 1], o[i + 1]);
    } else if i + 1 < |ps| {
      assert o[i + 2] == o[i + 1] + |ps[i + 1]|;
    }
    NumberOfPiece(line, o[i], ps[i]);
  }

  /** `.` runs across a piece without '\n'. */
  lemma {:induction false} LineEndSkip(s: string, k: nat, d: string)
    requires At(s, k, d) && '\n' !in d
    ensures LineEnd(s, k) == LineEnd(s, k + |d|)
    decreases |d|
  {
    if d != [] {
      AtChar(s, k, d, k);
      assert At(s, k + 1, d[1..]) by {
        assert s[k + 1..k + 1 + |d[1..]|] == s[k..k + |d|][1..];
      }
      LineEndSkip(s, k + 1, d[1..]);
    }
  }

  /** A piece at i of the layout that holds no '\n' is skipped by `.`. */
  lemma LineEndSkipLaid(line: string, ps: seq<string>, o: seq<nat>, i: nat)
    requires Laid(line, ps, o) && i < |ps| && '\n' !in ps[i]
    ensures LineEnd(line, o[i]) == LineEnd(line, o[i + 1])
  {
    assert At(line, o[i], ps[i]) && o[i + 1] == o[i] + |ps[i]|;
    LineEndSkip(line, o[i], ps[i]);
  }

  /** A run of digits holds no '\n'. */
  lemma DigitsNoNewline(d: string)
    requires AllDigits(d)
    ensures '\n' !in d
  {
  }

  /** No '\n' from the end of the fd digits on, so `.` can run to the end of the line. */
  lemma NoNewlineLayout(line: string, ps: seq<string>, o: seq<nat>)
    requires Laid(line, ps, o) && |ps| == 12
    requires ps[6] == SentLabel && AllDigits(ps[7]) && ps[9] == ReceivedLabel && AllDigits(ps[10])
    requires '\n' !in ps[5] && '\n' !in ps[8] && '\n' !in ps[11]
    ensures o[5] <= |line| && LineEnd(line, o[5]) == |line|
  {
    LabelNewline();
    DigitsNoNewline(ps[7]);
    DigitsNoNewline(ps[10]);
    LineEndSkipLaid(line, ps, o, 5);
    LineEndSkipLaid(line, ps, o, 6);
    LineEndSkipLaid(line, ps, o, 7);
    LineEndSkipLaid(line, ps, o, 8);
    LineEndSkipLaid(line, ps, o, 9);
    LineEndSkipLaid(line, ps, o, 10);
    LineEndSkipLaid(line, ps, o, 11);
  }

  /** From h on, the greedy search for bytes_received: settles on the last one, at kr. */
  lemma ReceivedFrom(line: string, h: nat, kr: nat, dr: string, tail: string)
    requires h <= kr
    requires At(line, kr, ReceivedLabel) && At(line, kr + |ReceivedLabel|, dr) && DigitWord(dr)
    requires At(line, kr + |ReceivedLabel| + |dr|, tail) && |line| == kr + |ReceivedLabel| + |dr| + |tail|
    requires tail == [] || tail[0] == ' '
    requires NoWord(tail, ReceivedLabel)
    ensures kr < |line| && LastReceived(line, h, |line|) == Some(kr)
  {
    ReceivedLast(line, kr, dr, tail);
    LastReceivedIs(line, h, |line|, kr);
  }

  /** From lo on, the greedy search for bytes_sent: settles on the one at ks, and its digits end where ds does. */
  lemma SentFrom(line: string, lo: nat, ks: nat, ds: string, mid2: string, dr: string, tail: string)
    requires lo <= ks
    requires var h := ks + |SentLabel| + |ds|;
      && At(line, ks, SentLabel) && At(line, ks + |SentLabel|, ds) && DigitWord(ds) && At(line, h, mid2)
      && At(line, h + |mid2|, ReceivedLabel) && At(line, h + |mid2| + |ReceivedLabel|, dr) && DigitWord(dr)
      && At(line, h + |mid2| + |ReceivedLabel| + |dr|, tail)
      && |line| == h + |mid2| + |ReceivedLabel| + |dr| + |tail|
    requires mid2 != [] && mid2[0] == ' ' && mid2[|mid2| - 1] == ' '
    requires tail == [] || tail[0] == ' '
    requires NoWord(mid2, SentLabel) && NoWord(tail, SentLabel) && NoWord(tail, ReceivedLabel)
    ensures SentEnd(line, ks) == ks + |SentLabel| + |ds|
    ensures ks < |line| && LastSent(line, lo, |line|, |line|) == Some(ks)
  {
    var h := ks + |SentLabel| + |ds|;
    SentLast(line, ks, ds, mid2, dr, tail);
    ReceivedFrom(line, h, h + |mid2|, dr, tail);
    assert SentAt(line, ks, |line|);
    LastSentIs(line, lo, |line|, |line|, ks);
  }

  /** Where the pieces from the first middle on sit. */
  lemma LaidTail(line: string, ps: seq<string>, o: seq<nat>)
    requires Laid(line, ps, o) && |ps| == 12
    ensures At(line, o[6], ps[6]) && At(line, o[7], ps[7]) && At(line, o[8], ps[8])
    ensures At(line, o[9], ps[9]) && At(line, o[10], ps[10]) && At(line, o[11], ps[11])
    ensures o[6] == o[5] + |ps[5]| && o[7] == o[6] + |ps[6]| && o[8] == o[7] + |ps[7]|
    ensures o[9] == o[8] + |ps[8]| && o[10] == o[9] + |ps[9]|
    ensures o[11] == o[10] + |ps[10]| && |line| == o[11] + |ps[11]|
  {
    assert ps[5] == ps[5] && ps[6] == ps[6] && ps[7] == ps[7] && ps[8] == ps[8];
    assert ps[9] == ps[9] && ps[10] == ps[10] && ps[11] == ps[11];
  }

  /**
    From the end of the fd digits, the rest of the pattern settles on the
    bytes_sent: piece and the bytes_received: piece.
   */
  lemma SentReceivedLayout(line: string, ps: seq<string>, o: seq<nat>)
    requires Laid(line, ps, o) && ConnectionPieces(ps)
    ensures o[5] <= |line| && SentReceived(line, o[5]) == Some(Labels(o[6], o[9]))
  {
    LaidTail(line, ps, o);
    NoNewlineLayout(line, ps, o);
    SentReceivedPlaced(line, o[5], o[6], ps[7], ps[8], ps[10], ps[11]);
  }

  /** SentReceived from j on a line that has no '\n' from j on and ends bytes_sent:, digits, mid2, bytes_received:, digits, tail. */
  lemma SentReceivedPlaced(line: string, j: nat, ks: nat, ds: string, mid2: string, dr: string, tail: string)
    requires j <= ks && j <= |line| && LineEnd(line, j) == |line|
    requires var h := ks + |SentLabel| + |ds|;
      && At(line, ks, SentLabel) && At(line, ks + |SentLabel|, ds) && DigitWord(ds) && At(line, h, mid2)
      && At(line, h + |mid2|, ReceivedLabel) && At(line, h + |mid2| + |ReceivedLabel|, dr) && DigitWord(dr)
      && At(line, h + |mid2| + |ReceivedLabel| + |dr|, tail)
      && |line| == h + |mid2| + |ReceivedLabel| + |dr| + |tail|
    requires mid2 != [] && mid2[0] == ' ' && mid2[|mid2| - 1] == ' '
    requires tail == [] || tail[0] == ' '
    requires NoWord(mid2, SentLabel) && NoWord(tail, SentLabel) && NoWord(tail, ReceivedLabel)
    ensures SentReceived(line, j) == Some(Labels(ks, ks + |SentLabel| + |ds| + |mid2|))
  {
    var h := ks + |SentLabel| + |ds|;
    SentFrom(line, j, ks, ds, mid2, dr, tail);
    ReceivedFrom(line, h, h + |mid2|, dr, tail);
    SentReceivedOf(line, j, ks, h + |mid2|);
  }

  /** SentReceived from j once the `.` run, the bytes_sent: search and the bytes_received: search are known. */
  lemma SentReceivedOf(line: string, j: nat, ks: nat, kr: nat)
    requires j <= |line| && LineEnd(line, j) == |line|
    requires LastSent(line, j, |line|, |line|) == Some(ks)
    requires LastReceived(line, SentEnd(line, ks), |line|) == Some(kr)
    ensures SentReceived(line, j) == Some(Labels(ks, kr))
  {
  }

  /** The match anchored at i, once pid=(\d+),fd=(\d+) matches there and the rest settles on k and l. */
  lemma MatchAtOfParts(line: string, i: nat, k: nat, l: nat)
    requires PidFdAt(line, i) && FdEnd(line, i) <= |line| && SentReceived(line, FdEnd(line, i)) == Some(Labels(k, l))
    requires DigitRun(line, k + |SentLabel|) > 0 && DigitRun(line, l + |ReceivedLabel|) > 0
    ensures MatchAt(line, i) == Some(Captured(line, i, Labels(k, l)))
  {
  }

  /** The four groups of a match read as the numbers at their places. */
  lemma CapturedOf(line: string, i: nat, k: nat, l: nat, a: nat, b: nat, c: nat, d: nat)
    requires PidFdAt(line, i) && Number(line, i + |PidLabel|) == a && Number(line, FdStart(line, i)) == b
    requires DigitRun(line, k + |SentLabel|) > 0 && Number(line, k + |SentLabel|) == c
    requires DigitRun(line, l + |ReceivedLabel|) > 0 && Number(line, l + |ReceivedLabel|) == d
    ensures Captured(line, i, Labels(k, l)) == ConnectionInfo(a, b, c, d)
  {
  }

  /** The four digit pieces of a connection line read back as their values. */
  lemma NumbersLaid(line: string, ps: seq<string>, o: seq<nat>)
    requires Laid(line, ps, o) && ConnectionPieces(ps)
    ensures o[2] == o[1] + |PidLabel| && o[7] == o[6] + |SentLabel| && o[10] == o[9] + |ReceivedLabel|
    ensures ValidDigits(ps[2]) && DigitRun(line, o[2]) > 0 && Number(line, o[2]) == DigitsValue(ps[2])
    ensures ValidDigits(ps[4]) && DigitRun(line, o[4]) > 0 && Number(line, o[4]) == DigitsValue(ps[4])
    ensures ValidDigits(ps[7]) && DigitRun(line, o[7]) > 0 && Number(line, o[7]) == DigitsValue(ps[7])
    ensures ValidDigits(ps[10]) && DigitRun(line, o[10]) > 0 && Number(line, o[10]) == DigitsValue(ps[10])
  {
    assert o[2] == o[1] + |ps[1]| && o[7] == o[6] + |ps[6]| && o[10] == o[9] + |ps[9]|;
    NumberLayout(line, ps, o, 2);
    NumberLayout(line, ps, o, 4);
    NumberLayout(line, ps, o, 7);
    NumberLayout(line, ps, o, 10);
  }

  /**
    The twelve pieces of a connection line as the lemmas above need them:
    the labels in place, runs of digits, middles that start with a non-digit
    or a space, no '\n' after the fd digits, and no second label where the
    greedy `.*` could settle on it.
   */
  predicate ConnectionPieces(ps: seq<string>) {
    && |ps| == 12
    && ps[1] == PidLabel && DigitWord(ps[2]) && ps[3] == FdLabel && DigitWord(ps[4])
    && ps[5] != [] && !IsDigit(ps[5][0])
    && ps[6] == SentLabel && DigitWord(ps[7]) && ps[9] == ReceivedLabel && DigitWord(ps[10])
    && ps[8] != [] && ps[8][0] == ' ' && ps[8][|ps[8]| - 1] == ' '
    && (ps[11] == [] || ps[11][0] == ' ')
    && '\n' !in ps[5] && '\n' !in ps[8] && '\n' !in ps[11]
    && NoWord(ps[8], SentLabel) && NoWord(ps[11], SentLabel) && NoWord(ps[11], ReceivedLabel)
  }

  /** The pieces SsLine lays out are the pieces of a connection line. */
  lemma SsPiecesConnection(pre: string, pid: nat, fd: nat, mid1: string, sent: nat, mid2: string, recv: nat,
                           tail: string)
    requires mid1 != [] && !IsDigit(mid1[0])
    requires mid2 != [] && mid2[0] == ' ' && mid2[|mid2| - 1] == ' '
    requires tail == [] || tail[0] == ' '
    requires '\n' !in mid1 && '\n' !in mid2 && '\n' !in tail
    requires NoWord(mid2, SentLabel) && NoWord(tail, SentLabel) && NoWord(tail, ReceivedLabel)
    ensures var ps := SsPieces(pre, pid, fd, mid1, sent, mid2, recv, tail);
      && ConnectionPieces(ps) && ps[0] == pre
      && ps[2] == Digits(pid) && ps[4] == Digits(fd) && ps[7] == Digits(sent) && ps[10] == Digits(recv)
  {
  }

  /**
    A line laid out as pre, pid=, digits, ,fd=, digits, a middle, bytes_sent:,
    digits, a middle, bytes_received:, digits and a tail: the pattern
    anchored at pid= reads the values of the four digit pieces.
   */
  lemma MatchAtLaid(line: string, ps: seq<string>, o: seq<nat>)
    requires Laid(line, ps, o) && ConnectionPieces(ps)
    ensures ValidDigits(ps[2]) && ValidDigits(ps[4]) && ValidDigits(ps[7]) && ValidDigits(ps[10])
    ensures MatchAt(line, o[1])
      == Some(ConnectionInfo(DigitsValue(ps[2]), DigitsValue(ps[4]), DigitsValue(ps[7]), DigitsValue(ps[10])))
  {
    NumbersLaid(line, ps, o);
    PartsOfLaid(line, ps, o);
    MatchAtNumbers(line, o[1], o[6], o[9], DigitsValue(ps[2]), DigitsValue(ps[4]), DigitsValue(ps[7]),
                   DigitsValue(ps[10]));
  }

  /**
    The parts of a match at i: pid=<a>,fd=<b>, then, on the same line,
    bytes_sent:<c> at k and bytes_received:<d> at l.
   */
  predicate PartsAt(line: string, i: nat, k: nat, l: nat, a: nat, b: nat, c: nat, d: nat) {
    && PidFdAt(line, i) && FdEnd(line, i) <= |line| && SentReceived(line, FdEnd(line, i)) == Some(Labels(k, l))
    && Number(line, i + |PidLabel|) == a && Number(line, FdStart(line, i)) == b
    && DigitRun(line, k + |SentLabel|) > 0 && Number(line, k + |SentLabel|) == c
    && DigitRun(line, l + |ReceivedLabel|) > 0 && Number(line, l + |ReceivedLabel|) == d
  }

  /** The pieces of a connection line are the parts of a match at the pid= piece. */
  lemma PartsOfLaid(line: string, ps: seq<string>, o: seq<nat>)
    requires Laid(line, ps, o) && ConnectionPieces(ps)
    requires ValidDigits(ps[2]) && ValidDigits(ps[4]) && ValidDigits(ps[7]) && ValidDigits(ps[10])
    ensures PartsAt(line, o[1], o[6], o[9], DigitsValue(ps[2]), DigitsValue(ps[4]), DigitsValue(ps[7]),
                    DigitsValue(ps[10]))
  {
    PidFdLayout(line, ps, o);
    SentReceivedLayout(line, ps, o);
    NumbersLaid(line, ps, o);
  }

  /** The match at i, given where its parts are and what its four numbers read. */
  lemma MatchAtNumbers(line: string, i: nat, k: nat, l: nat, a: nat, b: nat, c: nat, d: nat)
    requires PartsAt(line, i, k, l, a, b, c, d)
    ensures MatchAt(line, i) == Some(ConnectionInfo(a, b, c, d))
  {
    MatchAtOfParts(line, i, k, l);
    CapturedOf(line, i, k, l, a, b, c, d);
  }

  /**
    Anchored at the pid= after pre, the pattern matches and reads pid, fd,
    sent and recv: the greedy `.*` settle on the only bytes_sent: and the
    last bytes_received:, and the line holds no '\n' for `.` to stop at.
   */
  lemma MatchAtLayout(pre: string, pid: nat, fd: nat, mid1: string, sent: nat, mid2: string, recv: nat,
                      tail: string)
    requires mid1 != [] && !IsDigit(mid1[0])
    requires mid2 != [] && mid2[0] == ' ' && mid2[|mid2| - 1] == ' '
    requires tail == [] || tail[0] == ' '
    requires '\n' !in mid1 && '\n' !in mid2 && '\n' !in tail
    requires NoWord(mid2, SentLabel) && NoWord(tail, SentLabel) && NoWord(tail, ReceivedLabel)
    ensures MatchAt(SsLine(pre, pid, fd, mid1, sent, mid2, recv, tail), |pre|)
      == Some(ConnectionInfo(pid, fd, sent, recv))
  {
    var ps := SsPieces(pre, pid, fd, mid1, sent, mid2, recv, tail);
    SsPiecesConnection(pre, pid, fd, mid1, sent, mid2, recv, tail);
    MatchAtConcat(ps);
    DigitsValueOfDigits(pid);
    DigitsValueOfDigits(fd);
    DigitsValueOfDigits(sent);
    DigitsValueOfDigits(recv);
  }

  /** MatchAtLaid on the concatenation of the pieces, anchored after the first one. */
  lemma MatchAtConcat(ps: seq<string>)
    requires ConnectionPieces(ps)
    ensures ValidDigits(ps[2]) && ValidDigits(ps[4]) && ValidDigits(ps[7]) && ValidDigits(ps[10])
    ensures MatchAt(Concat(ps), |ps[0]|)
      == Some(ConnectionInfo(DigitsValue(ps[2]), DigitsValue(ps[4]), DigitsValue(ps[7]), DigitsValue(ps[10])))
  {
    var o := seq(|ps| + 1, i requires 0 <= i <= |ps| => Offset(ps, i));
    ConcatLaid(ps);
    assert o[1] == |ps[0]| by {
      assert o[1] == o[0] + |ps[0]|;
    }
    MatchAtLaid(Concat(ps), ps, o);
  }

  /**
    parse_ss_tip on a connection line whose text before pid= holds no other
    pid=: the leftmost match starts at that pid=, and the result is the pid,
    fd and byte counts written in the line.
   */
  lemma ParseSsTipOfLayout(pre: string, pid: nat, fd: nat, mid1: string, sent: nat, mid2: string, recv: nat,
                           tail: string)
    requires NoWord(pre, PidLabel)
    requires mid1 != [] && !IsDigit(mid1[0])
    requires mid2 != [] && mid2[0] == ' ' && mid2[|mid2| - 1] == ' '
    requires tail == [] || tail[0] == ' '
    requires '\n' !in mid1 && '\n' !in mid2 && '\n' !in tail
    requires NoWord(mid2, SentLabel) && NoWord(tail, SentLabel) && NoWord(tail, ReceivedLabel)
    ensures ParseSsTip(SsLine(pre, pid, fd, mid1, sent, mid2, recv, tail))
      == Some(ConnectionInfo(pid, fd, sent, recv))
  {
    var ps := SsPieces(pre, pid, fd, mid1, sent, mid2, recv, tail);
    var line := Concat(ps);
    FrontPieces(ps);
    MatchAtLayout(pre, pid, fd, mid1, sent, mid2, recv, tail);
    NoMatchBefore(line, pre);
    LeftmostIs(line, 0, |pre|);
  }

  /**
    A pid= that starts inside pre lies inside pre or runs into the pid= that
    follows pre; the first is excluded, and the second would need a 'p' in
    "id=".
   */
  lemma NoPidBefore(line: string, pre: string, j: nat)
    requires At(line, 0, pre) && At(line, |pre|, PidLabel) && NoWord(pre, PidLabel) && j < |pre|
    ensures !At(line, j, PidLabel)
  {
    if j + |PidLabel| <= |pre| {
      AtInside(line, 0, pre, j, PidLabel);
    } else if At(line, j, PidLabel) {
      AtChar(line, j, PidLabel, |pre|);
      AtChar(line, |pre|, PidLabel, |pre|);
    }
  }

  /** No match starts inside a pre that holds no pid= and is followed by pid=. */
  lemma NoMatchBefore(line: string, pre: string)
    requires At(line, 0, pre) && At(line, |pre|, PidLabel) && NoWord(pre, PidLabel)
    ensures forall j | 0 <= j < |pre| :: MatchAt(line, j).None?
  {
    forall j | 0 <= j < |pre|
      ensures MatchAt(line, j).None?
    {
      NoPidBefore(line, pre, j);
    }
  }

  /** Text made of words, each preceded by one space. */
  function Spaced(ws: seq<string>): (r: string)
    ensures ws != [] ==> r != [] && r[0] == ' '
  {
    if ws == [] then [] else Spaced(ws[..|ws| - 1]) + [' '] + ws[|ws| - 1]
  }

  /**
    A word w without spaces cannot occur in a string shorter than w, or in
    one that lacks w's first character, or in one that does not start with
    w and has w's first character only in front.
   */
  predicate Clear(word: string, w: string) {
    |word| < |w| || (w != [] && w[0] !in word) || (w != [] && !At(word, 0, w) && w[0] !in word[1..])
  }

  lemma NoWordOfClear(word: string, w: string)
    requires Clear(word, w)
    ensures NoWord(word, w)
  {
    forall k | 0 <= k <= |word|
      ensures !At(word, k, w)
    {
      if 0 < k < |word| {
        assert word[1..][k - 1] == word[k];
      }
      if At(word, k, w) {
        AtChar(word, k, w, k);
      }
    }
  }

  /** Spaced words that are each clear of a spaceless w hold no w. */
  lemma {:induction false} NoWordSpaced(ws: seq<string>, w: string)
    requires w != [] && ' ' !in w
    requires forall i | 0 <= i < |ws| :: Clear(ws[i], w)
    ensures NoWord(Spaced(ws), w)
    decreases |ws|
  {
    if ws == [] {
      assert !At(Spaced(ws), 0, w);
    } else {
      NoWordSpaced(ws[..|ws| - 1], w);
      NoWordOfClear(ws[|ws| - 1], w);
      NoWordJoin(Spaced(ws[..|ws| - 1]), ' ', ws[|ws| - 1], w);
    }
  }

  /** Spaced words without '\n' hold no '\n'. */
  lemma {:induction false} NoNewlineSpaced(ws: seq<string>)
    requires forall i | 0 <= i < |ws| :: '\n' !in ws[i]
    ensures '\n' !in Spaced(ws)
    decreases |ws|
  {
    if ws != [] {
      NoNewlineSpaced(ws[..|ws| - 1]);
    }
  }
}
