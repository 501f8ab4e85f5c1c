/**
  The connection line of the parse_ss_tip unit test, taken apart into the
  pieces the layout lemma of SsTipLayout names, and parse_ss_tip's answer on it.
 */
module SsExample {
  import opened Wrappers
  import opened PyText
  import opened SsTip
  import opened SsTipLayout

  /** The text in front of pid=: state, queues, addresses and the process name. */
  const Front: string :=
    "ESTAB 0" + "      0" + "                               " + "192.168.43.58:53056" + "               "
    + "194.35.102.50:443" + " users:((" + "\"firefox-bin\","

  /** The text between the descriptor and bytes_sent:. */
  const Middle: string :=
    ")) cubic" + " wscale:7,7" + " rto:303.333" + " rtt:95.077/48.14" + " ato:40" + " mss:1348" + " pmtu:1500"
    + " rcvmss:1348" + " advmss:1448" + " cwnd:7" + " ssthresh:4 "

  /** The text between the sent and the received byte counts. */
  const Between: string := "" + " " + "bytes_retrans:524" + " " + "bytes_acked:276162" + " " + ""

  /** The words after the received byte count, four or three at a time. */
  const Rest1: string := "segs_out:1827" + " " + "segs_in:1334" + " " + "data_segs_out:806" + " " + "data_segs_in:1223"
  const Rest2: string := "send" + " " + "793967bps" + " " + "lastsnd:800" + " " + "lastrcv:667"
  const Rest3: string := "lastack:667" + " " + "pacing_rate" + " " + "952752bps" + " " + "delivery_rate"
  const Rest4: string := "1561688bps" + " " + "delivered:803" + " " + "app_limited" + " " + "busy:41095ms"
  const Rest5: string := "retrans:0/9" + " " + "dsack_dups:5" + " " + "rcv_rtt:38.584"
  const Rest6: string := "rcv_space:26731" + " " + "rcv_ssthresh:122896" + " " + "minrtt:26.457"

  /** The text after the received byte count. */
  const Rest: string := "" + " " + Rest1 + " " + Rest2 + " " + Rest3 + " " + Rest4 + " " + Rest5 + " " + Rest6

  /** The unit test's line: its pid is 1367, its descriptor 7, 276685 bytes sent and 810911 received. */
  function TestLine(): string {
    SsLine(Front, 1367, 7, Middle, 276685, Between, 810911, Rest)
  }

  /** Neither byte-count label nor a line break occurs in s. */
  predicate Free(s: string) {
    NoWord(s, SentLabel) && NoWord(s, ReceivedLabel) && '\n' !in s
  }

  lemma WordFree(word: string)
    requires Clear(word, SentLabel) && Clear(word, ReceivedLabel) && '\n' !in word
    ensures Free(word)
  {
    NoWordOfClear(word, SentLabel);
    NoWordOfClear(word, ReceivedLabel);
  }

  /** A word without b, or one shorter than both labels, holds neither. */
  lemma PlainFree(word: string)
    requires 'b' !in word || |word| < |SentLabel|
    requires '\n' !in word
    ensures Free(word)
  {
    LabelChars();
    WordFree(word);
  }

  lemma Joined(a: string, b: string)
    requires Free(a) && Free(b)
    ensures Free(a + " " + b)
  {
    LabelChars();
    NoWordJoin(a, ' ', b, SentLabel);
    NoWordJoin(a, ' ', b, ReceivedLabel);
  }

  /** A word that starts with the labels' b but parts from bytes_sent: at i and from bytes_received: at j. */
  lemma LabelLikeFree(word: string, i: nat, j: nat)
    requires i < |word| && i < |SentLabel| && word[i] != SentLabel[i]
    requires j < |word| && j < |ReceivedLabel| && word[j] != ReceivedLabel[j]
    requires 'b' !in word[1..] && '\n' !in word
    ensures Free(word)
  {
    LabelChars();
    WordFree(word);
  }

  lemma RetransFree()
    ensures Free("bytes_retrans:524")
  {
    var w := "bytes_retrans:524";
    assert w[1..] == "ytes_retrans:524";
    LabelLikeFree(w, 6, 8);
  }

  lemma AckedFree()
    ensures Free("bytes_acked:276162")
  {
    var w := "bytes_acked:276162";
    assert w[1..] == "ytes_acked:276162";
    LabelLikeFree(w, 6, 6);
  }

  lemma BetweenFree()
    ensures Free(Between)
  {
    RetransFree();
    AckedFree();
    Joined("", "bytes_retrans:524");
    Joined("" + " " + "bytes_retrans:524", "bytes_acked:276162");
    Joined("" + " " + "bytes_retrans:524" + " " + "bytes_acked:276162", "");
  }

  lemma BusyFree()
    ensures Free("busy:41095ms")
  {
    var w := "busy:41095ms";
    assert w[1..] == "usy:41095ms";
    LabelLikeFree(w, 1, 1);
  }

  lemma Rest1Free()
    ensures Free(Rest1)
  {
    PlainFree("segs_out:1827");
    var t := "segs_out:1827";
    PlainFree("segs_in:1334");
    Joined(t, "segs_in:1334");
    t := t + " " + "segs_in:1334";
    PlainFree("data_segs_out:806");
    Joined(t, "data_segs_out:806");
    t := t + " " + "data_segs_out:806";
    PlainFree("data_segs_in:1223");
    Joined(t, "data_segs_in:1223");
    t := t + " " + "data_segs_in:1223";
  }

  lemma Rest2Free()
    ensures Free(Rest2)
  {
    PlainFree("send");
    var t := "send";
    PlainFree("793967bps");
    Joined(t, "793967bps");
    t := t + " " + "793967bps";
    PlainFree("lastsnd:800");
    Joined(t, "lastsnd:800");
    t := t + " " + "lastsnd:800";
    PlainFree("lastrcv:667");
    Joined(t, "lastrcv:667");
    t := t + " " + "lastrcv:667";
  }

  lemma Rest3Free()
    ensures Free(Rest3)
  {
    PlainFree("lastack:667");
    var t := "lastack:667";
    PlainFree("pacing_rate");
    Joined(t, "pacing_rate");
    t := t + " " + "pacing_rate";
    PlainFree("952752bps");
    Joined(t, "952752bps");
    t := t + " " + "952752bps";
    PlainFree("delivery_rate");
    Joined(t, "delivery_rate");
    t := t + " " + "delivery_rate";
  }

  lemma Rest4Free()
    ensures Free(Rest4)
  {
    PlainFree("1561688bps");
    var t := "1561688bps";
    PlainFree("delivered:803");
    Joined(t, "delivered:803");
    t := t + " " + "delivered:803";
    PlainFree("app_limited");
    Joined(t, "app_limited");
    t := t + " " + "app_limited";
    BusyFree();
    Joined(t, "busy:41095ms");
    t := t + " " + "busy:41095ms";
  }

  lemma Rest5Free()
    ensures Free(Rest5)
  {
    PlainFree("retrans:0/9");
    var t := "retrans:0/9";
    PlainFree("dsack_dups:5");
    Joined(t, "dsack_dups:5");
    t := t + " " + "dsack_dups:5";
    PlainFree("rcv_rtt:38.584");
    Joined(t, "rcv_rtt:38.584");
    t := t + " " + "rcv_rtt:38.584";
  }

  lemma Rest6Free()
    ensures Free(Rest6)
  {
    PlainFree("rcv_space:26731");
    var t := "rcv_space:26731";
    PlainFree("rcv_ssthresh:122896");
    Joined(t, "rcv_ssthresh:122896");
    t := t + " " + "rcv_ssthresh:122896";
    PlainFree("minrtt:26.457");
    Joined(t, "minrtt:26.457");
    t := t + " " + "minrtt:26.457";
  }

  lemma RestFree()
    ensures Free(Rest)
  {
    Rest1Free();
    Rest2Free();
    Rest3Free();
    Rest4Free();
    Rest5Free();
    Rest6Free();
    var t := "" + " " + Rest1;
    Joined("", Rest1);
    Joined(t, Rest2);
    t := t + " " + Rest2;
    Joined(t, Rest3);
    t := t + " " + Rest3;
    Joined(t, Rest4);
    t := t + " " + Rest4;
    Joined(t, Rest5);
    t := t + " " + Rest5;
    Joined(t, Rest6);
  }

  /** No p occurs before pid=, so the leftmost match of the pattern starts there. */
  lemma FrontHasNoP()
    ensures 'p' !in Front
  {
    assert 'p' !in "ESTAB 0" && 'p' !in "      0" && 'p' !in "                               ";
    assert 'p' !in "192.168.43.58:53056" && 'p' !in "               " && 'p' !in "194.35.102.50:443";
    assert 'p' !in " users:((" && 'p' !in "\"firefox-bin\",";
  }

  lemma MiddleOneLine()
    ensures Middle != [] && Middle[0] == ')' && '\n' !in Middle
  {
    assert '\n' !in ")) cubic" && '\n' !in " wscale:7,7" && '\n' !in " rto:303.333" && '\n' !in " rtt:95.077/48.14";
    assert '\n' !in " ato:40" && '\n' !in " mss:1348" && '\n' !in " pmtu:1500" && '\n' !in " rcvmss:1348";
    assert '\n' !in " advmss:1448" && '\n' !in " cwnd:7" && '\n' !in " ssthresh:4 ";
  }

  /** parse_ss_tip on the unit test's line: pid 1367, descriptor 7, 276685 bytes sent, 810911 received. */
  lemma TestLineParses()
    ensures ParseSsTip(TestLine()) == Some(ConnectionInfo(1367, 7, 276685, 810911))
  {
    FrontHasNoP();
    NoWordOfFirst(Front, PidLabel);
    MiddleOneLine();
    BetweenFree();
    RestFree();
    ParseSsTipOfLayout(Front, 1367, 7, Middle, 276685, Between, 810911, Rest);
  }
}
