/**
  The Python string and integer builtins that healthy.py leans on, over seq<char>:
  str.strip, str.split() (runs of whitespace), str.split(sep) (one separator
  character), str.index, clamped slicing, str.replace on one character,
  int(str) and str(int).
 */
module PyText {
  import opened Wrappers

  /** The characters Python's str.isspace() accepts; str.split() and str.strip() use exactly these. */
  predicate IsSpace(c: char) {
    ('\t' <= c <= '\r') || ('\U{1c}' <= c <= ' ') || ('\U{85}' <= c && IsWideSpace(c))
  }

  /** The whitespace characters from U+0085 on. */
  predicate IsWideSpace(c: char) {
    || c == '\U{85}' || c == '\U{a0}' || c == '\U{1680}'
    || ('\U{2000}' <= c <= '\U{200a}') || c == '\U{2028}' || c == '\U{2029}'
    || c == '\U{202f}' || c == '\U{205f}' || c == '\U{3000}'
  }

  predicate IsDigit(c: char) {
    '0' <= c <= '9'
  }

  predicate NoSpace(s: string) {
    forall i | 0 <= i < |s| :: !IsSpace(s[i])
  }

  predicate AllDigits(s: string) {
    forall i | 0 <= i < |s| :: IsDigit(s[i])
  }

  /** str.lstrip(): drops the leading whitespace and nothing else. */
  function LStrip(s: string): (r: string)
    ensures |r| <= |s| && r == s[|s| - |r|..]
    ensures r != [] ==> !IsSpace(r[0])
    ensures forall i | 0 <= i < |s| - |r| :: IsSpace(s[i])
    decreases |s|
  {
    if s != [] && IsSpace(s[0]) then LStrip(s[1..]) else s
  }

  /** str.rstrip(): drops the trailing whitespace and nothing else. */
  function RStrip(s: string): (r: string)
    ensures |r| <= |s| && r == s[..|r|]
    ensures r != [] ==> !IsSpace(r[|r| - 1])
    ensures forall i | |r| <= i < |s| :: IsSpace(s[i])
    decreases |s|
  {
    if s != [] && IsSpace(s[|s| - 1]) then RStrip(s[..|s| - 1]) else s
  }

  /** str.strip() */
  function Strip(s: string): string {
    RStrip(LStrip(s))
  }

  /** strip() removes exactly the whitespace around a string that neither starts nor ends with whitespace. */
  lemma StripPadded(lead: string, s: string, trail: string)
    requires forall i | 0 <= i < |lead| :: IsSpace(lead[i])
    requires forall i | 0 <= i < |trail| :: IsSpace(trail[i])
    requires s != [] ==> !IsSpace(s[0]) && !IsSpace(s[|s| - 1])
    ensures Strip(lead + s + trail) == s
  {
    var t := lead + s + trail;
    var l := LStrip(t);
    if s == [] {
      assert forall i | 0 <= i < |t| :: IsSpace(t[i]);
      assert l == [];
    } else {
      assert !IsSpace(t[|lead|]);
      assert |l| == |s| + |trail|;
      assert l == s + trail;
      var r := RStrip(l);
      assert !IsSpace(l[|s| - 1]);
      assert |r| == |s|;
    }
  }

  /** A word without whitespace is its own strip(). */
  lemma StripWord(w: string)
    requires NoSpace(w)
    ensures Strip(w) == w
  {
    StripPadded([], w, []);
    assert [] + w + [] == w;
  }

  /** strip() removes the newline readline() leaves at the end of a line. */
  lemma StripLine(s: string)
    requires s != [] && !IsSpace(s[0]) && !IsSpace(s[|s| - 1])
    ensures Strip(s + "\n") == s
  {
    StripPadded([], s, "\n");
    assert [] + s + "\n" == s + "\n";
  }

  /** Length of the maximal run of non-whitespace characters that starts s. */
  function TokenLen(s: string): (k: nat)
    ensures k <= |s|
    ensures forall i | 0 <= i < k :: !IsSpace(s[i])
    ensures k < |s| ==> IsSpace(s[k])
    decreases |s|
  {
    if s == [] || IsSpace(s[0]) then 0 else 1 + TokenLen(s[1..])
  }

  /** str.split() with no separator: the maximal runs of non-whitespace, in order. */
  function SplitWs(s: string): (r: seq<string>)
    ensures forall i | 0 <= i < |r| :: r[i] != [] && NoSpace(r[i])
    decreases |s|
  {
    if s == [] then []
    else if IsSpace(s[0]) then SplitWs(s[1..])
    else
      var k := TokenLen(s);
      [s[..k]] + SplitWs(s[k..])
  }

  lemma TokenLenSpaceAfter(a: string, b: string)
    requires NoSpace(a) && b != [] && IsSpace(b[0])
    ensures TokenLen(a + b) == |a|
    decreases |a|
  {
    if a != [] {
      assert (a + b)[1..] == a[1..] + b;
      TokenLenSpaceAfter(a[1..], b);
    }
  }

  /** A whitespace character cuts str.split() into the split of each side. */
  lemma {:induction false} SplitWsAtSpace(a: string, c: char, b: string)
    requires IsSpace(c)
    ensures SplitWs(a + [c] + b) == SplitWs(a) + SplitWs(b)
    decreases |a|
  {
    var s := a + [c] + b;
    if a == [] {
      assert s[1..] == b;
    } else if IsSpace(a[0]) {
      assert s[1..] == a[1..] + [c] + b;
      SplitWsAtSpace(a[1..], c, b);
    } else {
      var k := TokenLen(a);
      SplitWsFirstToken(a, c, b);
      SplitWsAtSpace(a[k..], c, b);
    }
  }

  /** The first token of a + [c] + b lies inside a when a starts with a non-space. */
  lemma SplitWsFirstToken(a: string, c: char, b: string)
    requires IsSpace(c) && a != [] && !IsSpace(a[0])
    ensures 0 < TokenLen(a) <= |a|
    ensures SplitWs(a + [c] + b) == [a[..TokenLen(a)]] + SplitWs(a[TokenLen(a)..] + [c] + b)
    ensures SplitWs(a) == [a[..TokenLen(a)]] + SplitWs(a[TokenLen(a)..])
  {
    var s := a + [c] + b;
    var k := TokenLen(a);
    assert a == a[..k] + a[k..];
    if k < |a| {
      assert s == a[..k] + (a[k..] + [c] + b);
      TokenLenSpaceAfter(a[..k], a[k..] + [c] + b);
    } else {
      assert s == a + ([c] + b);
      TokenLenSpaceAfter(a, [c] + b);
    }
    assert s[..k] == a[..k];
    assert s[k..] == a[k..] + [c] + b;
  }

  /** A word without whitespace splits to itself. */
  lemma SplitWsWord(w: string)
    requires w != [] && NoSpace(w)
    ensures SplitWs(w) == [w]
  {
    assert TokenLen(w) == |w|;
    assert w[..|w|] == w && w[|w|..] == [];
  }

  /** parts[0] + sep + parts[1] + ... + sep + parts[|parts| - 1], as Python's sep.join(parts). */
  function Join(parts: seq<string>, sep: string): string
    decreases |parts|
  {
    if parts == [] then ""
    else if |parts| == 1 then parts[0]
    else parts[0] + sep + Join(parts[1..], sep)
  }

  /** Round trip: splitting words joined by one whitespace character gives the words back. */
  lemma {:induction false} SplitWsJoin(ws: seq<string>, c: char)
    requires IsSpace(c)
    requires forall i | 0 <= i < |ws| :: ws[i] != [] && NoSpace(ws[i])
    ensures SplitWs(Join(ws, [c])) == ws
    decreases |ws|
  {
    if ws == [] {
    } else if |ws| == 1 {
      SplitWsWord(ws[0]);
    } else {
      SplitWsAtSpace(ws[0], c, Join(ws[1..], [c]));
      SplitWsWord(ws[0]);
      SplitWsJoin(ws[1..], c);
      assert ws == [ws[0]] + ws[1..];
    }
  }

  /** str.index(c): the first position of c; the source's ValueError is the caller's c !in s case. */
  function IndexOf(s: string, c: char): (i: nat)
    requires c in s
    ensures i < |s| && s[i] == c && c !in s[..i]
  {
    if s[0] == c then 0 else 1 + IndexOf(s[1..], c)
  }

  /** str.split(c) with a one-character separator: empty fields are kept. */
  function SplitOn(s: string, c: char): (r: seq<string>)
    ensures |r| >= 1
    ensures forall i | 0 <= i < |r| :: c !in r[i]
    decreases |s|
  {
    if c in s then
      var i := IndexOf(s, c);
      [s[..i]] + SplitOn(s[i + 1..], c)
    else
      [s]
  }

  /** Round trip: splitting on c the fields joined with c gives the fields back. */
  lemma {:induction false} SplitOnJoin(parts: seq<string>, c: char)
    requires |parts| >= 1
    requires forall i | 0 <= i < |parts| :: c !in parts[i]
    ensures SplitOn(Join(parts, [c]), c) == parts
    decreases |parts|
  {
    if |parts| > 1 {
      var s := Join(parts, [c]);
      var rest := Join(parts[1..], [c]);
      JoinSplits(parts, c);
      IndexOfFirst(s, c, |parts[0]|);
      assert c in s;
      SplitOnJoin(parts[1..], c);
      assert SplitOn(s, c) == [parts[0]] + SplitOn(rest, c);
      assert parts == [parts[0]] + parts[1..];
    }
  }

  /** Joining at least two fields: the first field, the separator at its end, then the join of the rest. */
  lemma JoinSplits(parts: seq<string>, c: char)
    requires |parts| > 1
    ensures var s := Join(parts, [c]);
      && |parts[0]| < |s| && s[|parts[0]|] == c
      && s[..|parts[0]|] == parts[0] && s[|parts[0]| + 1..] == Join(parts[1..], [c])
  {
    var s := Join(parts, [c]);
    assert s == parts[0] + [c] + Join(parts[1..], [c]);
  }

  /** The first occurrence of c is where c occurs with no c before it. */
  lemma IndexOfFirst(s: string, c: char, k: nat)
    requires k < |s| && s[k] == c && c !in s[..k]
    ensures IndexOf(s, c) == k
  {
    var r := IndexOf(s, c);
    assert forall m | 0 <= m < k :: s[..k][m] == s[m];
    assert forall m | 0 <= m < r :: s[..r][m] == s[m];
  }

  /** s[i:j] for non-negative bounds: Python clamps both bounds to the length and yields "" when i >= j. */
  function Slice(s: string, i: nat, j: nat): (r: string)
    ensures |r| == if j <= |s| && i <= j then j - i else if i <= |s| && j > |s| then |s| - i else 0
    ensures forall k | 0 <= k < |r| :: r[k] == s[i + k]
  {
    var hi := if j <= |s| then j else |s|;
    if i < hi then s[i..hi] else ""
  }

  /** s[i:] for a non-negative i. */
  function SliceFrom(s: string, i: nat): (r: string)
    ensures |r| == if i <= |s| then |s| - i else 0
    ensures forall k | 0 <= k < |r| :: r[k] == s[i + k]
  {
    if i <= |s| then s[i..] else ""
  }

  /** s.replace(a, b) for one-character a and b. */
  function ReplaceChar(s: string, a: char, b: char): (r: string)
    ensures |r| == |s|
    ensures forall k | 0 <= k < |s| :: r[k] == (if s[k] == a then b else s[k])
    decreases |s|
  {
    if s == [] then [] else [if s[0] == a then b else s[0]] + ReplaceChar(s[1..], a, b)
  }

  function DigitChar(d: nat): char
    requires d < 10
  {
    "0123456789"[d]
  }

  function DigitVal(c: char): nat
    requires IsDigit(c)
  {
    c as int - '0' as int
  }

  /**
    The digits part of int(): at least one digit, and an underscore only
    singly between two digits. Read from the right: a final digit, preceded by
    nothing, by valid digits, or by an underscore after valid digits.
   */
  predicate ValidDigits(t: string)
    decreases |t|
  {
    && t != [] && IsDigit(t[|t| - 1])
    && (|t| == 1 || if t[|t| - 2] == '_' then |t| >= 3 && ValidDigits(t[..|t| - 2]) else ValidDigits(t[..|t| - 1]))
  }

  /** The value of valid digits, the underscores ignored. */
  function DigitsValue(t: string): nat
    requires ValidDigits(t)
    decreases |t|
  {
    if |t| == 1 then DigitVal(t[0])
    else if t[|t| - 2] == '_' then DigitsValue(t[..|t| - 2]) * 10 + DigitVal(t[|t| - 1])
    else DigitsValue(t[..|t| - 1]) * 10 + DigitVal(t[|t| - 1])
  }

  /** int(s) on a str: whitespace around is allowed, then an optional sign, then the digits. None is the ValueError. */
  function ParseInt(s: string): Option<int> {
    var t := Strip(s);
    if t != [] && (t[0] == '-' || t[0] == '+') then
      if ValidDigits(t[1..]) then
        var v: int := DigitsValue(t[1..]);
        Some(if t[0] == '-' then -v else v)
      else None
    else if ValidDigits(t) then Some(DigitsValue(t))
    else None
  }

  /** The decimal digits of n, most significant first, as str(n) writes them. */
  function Digits(n: nat): (r: string)
    ensures r != [] && AllDigits(r)
  {
    if n < 10 then [DigitChar(n)] else Digits(n / 10) + [DigitChar(n % 10)]
  }

  /** str(n) has no leading zero: it starts with '0' only for n = 0, which is "0". */
  lemma {:induction false} DigitsCanonical(n: nat)
    ensures var r := Digits(n); r[0] == '0' ==> |r| == 1
    ensures Digits(n)[0] == '0' <==> n == 0
  {
    if n >= 10 {
      DigitsCanonical(n / 10);
      assert Digits(n)[0] == Digits(n / 10)[0];
    }
  }

  /** str(n) and f"{n}" for an int. */
  function ToDecimal(n: int): string {
    if n < 0 then "-" + Digits(-n) else Digits(n)
  }

  /** Round trip: the digits of n read back as n. */
  lemma {:induction false} DigitsValueOfDigits(n: nat)
    ensures ValidDigits(Digits(n))
    ensures DigitsValue(Digits(n)) == n
  {
    var d := Digits(n);
    if n >= 10 {
      DigitsValueOfDigits(n / 10);
      assert d[..|d| - 1] == Digits(n / 10);
    }
  }

  /** Round trip: int(str(n)) == n. */
  lemma ParseIntOfDecimal(n: int)
    ensures ParseInt(ToDecimal(n)) == Some(n)
  {
    if n < 0 {
      ParseIntOfNegative(n);
    } else {
      ParseIntOfNatural(n);
    }
  }

  lemma ParseIntOfNegative(n: int)
    requires n < 0
    ensures ParseInt(ToDecimal(n)) == Some(n)
  {
    var s := ToDecimal(n);
    NegativeDecimal(n);
    DecimalNoSpace(n);
    StripWord(s);
    ParseIntSigned(s, -n);
  }

  /** str(n) of a negative n is '-' followed by the digits of -n. */
  lemma NegativeDecimal(n: int)
    requires n < 0
    ensures var s := ToDecimal(n);
      s != [] && s[0] == '-' && ValidDigits(s[1..]) && DigitsValue(s[1..]) == -n
  {
    var m: nat := -n;
    var d := Digits(m);
    assert ToDecimal(n) == "-" + d;
    DigitsValueOfDigits(m);
    SignedDigits(ToDecimal(n), d, m);
  }

  /** A minus sign followed by valid digits of value v. */
  lemma SignedDigits(s: string, d: string, v: nat)
    requires s == "-" + d && ValidDigits(d) && DigitsValue(d) == v
    ensures s != [] && s[0] == '-' && ValidDigits(s[1..]) && DigitsValue(s[1..]) == v
  {
    assert s[1..] == d;
  }

  lemma ParseIntOfNatural(n: nat)
    ensures ParseInt(ToDecimal(n)) == Some(n)
  {
    var s := ToDecimal(n);
    StripWord(s);
    DigitsValueOfDigits(n);
    ParseIntUnsigned(s, n);
  }

  /** int() of a stripped minus sign followed by valid digits. */
  lemma ParseIntSigned(s: string, v: nat)
    requires Strip(s) == s && s != [] && s[0] == '-'
    requires ValidDigits(s[1..]) && DigitsValue(s[1..]) == v
    ensures ParseInt(s) == Some(-(v as int))
  {
  }

  /** int() of stripped valid digits. */
  lemma ParseIntUnsigned(s: string, v: nat)
    requires Strip(s) == s && ValidDigits(s) && DigitsValue(s) == v
    ensures ParseInt(s) == Some(v)
  {
    ValidDigitsFirst(s);
  }

  /** Valid digits start with a digit, so never with a sign. */
  lemma {:induction false} ValidDigitsFirst(t: string)
    requires ValidDigits(t)
    ensures IsDigit(t[0])
    decreases |t|
  {
    if |t| > 1 {
      if t[|t| - 2] == '_' {
        ValidDigitsFirst(t[..|t| - 2]);
      } else {
        ValidDigitsFirst(t[..|t| - 1]);
      }
    }
  }

  /** The decimal text of a number contains no whitespace. */
  lemma DecimalNoSpace(n: int)
    ensures ToDecimal(n) != [] && NoSpace(ToDecimal(n))
  {
  }

  /** The last character of a join is the last character of its last part. */
  lemma {:induction false} JoinLast(parts: seq<string>, sep: string)
    requires parts != [] && parts[|parts| - 1] != []
    ensures var j := Join(parts, sep); j != [] && j[|j| - 1] == parts[|parts| - 1][|parts[|parts| - 1]| - 1]
    decreases |parts|
  {
    if |parts| > 1 {
      JoinLast(parts[1..], sep);
    }
  }

  /** split() ignores whitespace in front. */
  lemma {:induction false} SplitWsLeadingSpace(pad: string, s: string)
    requires forall i | 0 <= i < |pad| :: IsSpace(pad[i])
    ensures SplitWs(pad + s) == SplitWs(s)
    decreases |pad|
  {
    if pad != [] {
      assert (pad + s)[1..] == pad[1..] + s;
      SplitWsLeadingSpace(pad[1..], s);
    } else {
      assert pad + s == s;
    }
  }
}
