/**
 * The lines the server itself composes: the join and disconnect notices and
 * the welcome line, each carrying a count written the way Go's %v writes an
 * int. A parser for that count is the formatting's inverse and shows that a
 * client can read the count back from every notice.
 */
module Notices {
  import opened Relay

  datatype Option<T> = None | Some(value: T)

  predicate IsDigit(ch: char) {
    '0' <= ch <= '9'
  }

  /** A non-empty run of decimal digits. */
  predicate IsDecimal(s: string) {
    |s| > 0 && forall i :: 0 <= i < |s| ==> IsDigit(s[i])
  }

  function DigitChar(d: nat): (ch: char)
    requires d < 10
    ensures IsDigit(ch) && ch as int - '0' as int == d
  {
    ('0' as int + d) as char
  }

  /** The decimal digits of n, most significant first. */
  function NatToDecimal(n: nat): (s: string)
    ensures IsDecimal(s)
    ensures s[0] == '0' <==> n == 0
    decreases n
  {
    if n < 10 then [DigitChar(n)] else NatToDecimal(n / 10) + [DigitChar(n % 10)]
  }

  /** An int as %v formats it: a minus sign for a negative value, then the
      digits of its magnitude. */
  function FormatInt(n: int): (s: string)
    ensures |s| > 0
    ensures s[0] == '-' <==> n < 0
    ensures n < 0 ==> IsDecimal(s[1..])
    ensures n >= 0 ==> IsDecimal(s)
  {
    if n < 0 then "-" + NatToDecimal(-n) else NatToDecimal(n)
  }

  function DigitValue(ch: char): nat
    requires IsDigit(ch)
  {
    ch as int - '0' as int
  }

  /** The value of a run of decimal digits. */
  function DigitsValue(s: string): nat
    requires forall i :: 0 <= i < |s| ==> IsDigit(s[i])
  {
    if s == [] then 0 else DigitsValue(s[..|s| - 1]) * 10 + DigitValue(s[|s| - 1])
  }

  /** Reads an int written with an optional minus sign and decimal digits. */
  function ParseInt(s: string): Option<int> {
    if |s| > 0 && s[0] == '-' && IsDecimal(s[1..]) then Some(0 - DigitsValue(s[1..]) as int)
    else if IsDecimal(s) then Some(DigitsValue(s))
    else None
  }

  lemma {:induction false} DecimalRoundTrip(n: nat)
    ensures DigitsValue(NatToDecimal(n)) == n
    decreases n
  {
    var s := NatToDecimal(n);
    if n >= 10 {
      DecimalRoundTrip(n / 10);
      assert s[..|s| - 1] == NatToDecimal(n / 10);
    }
  }

  /** Reading back a formatted count gives the count. */
  lemma FormatIntRoundTrip(n: int)
    ensures ParseInt(FormatInt(n)) == Some(n)
  {
    var s := FormatInt(n);
    if n < 0 {
      assert s[1..] == NatToDecimal(-n);
      DecimalRoundTrip(-n);
    } else {
      DecimalRoundTrip(n);
    }
  }

  /** A formatted count holds no newline, so it cannot break a line in two. */
  lemma FormatIntHasNoNewline(n: int)
    ensures forall i :: 0 <= i < |FormatInt(n)| ==> FormatInt(n)[i] != '\n'
  {
    var s := FormatInt(n);
    forall i | 0 <= i < |s| ensures s[i] != '\n' {
      if n < 0 && i > 0 {
        assert s[i] == s[1..][i - 1];
      }
    }
  }

  // The two long heads are each written as two literals: the verifier sees
  // the characters of a string literal only up to about forty of them.
  const JoinHead: string := "A user has connected to the server." + " There are now "
  const LeaveHead: string := "A user has disconnected from the server." + " There are now "
  const NoticeTail: string := " others here."
  const WelcomeHead: string := "Welcome. There are "
  const WelcomeTail: string := " others currently here."

  /** The notice broadcast when a client joins. */
  function JoinNotice(count: int): Msg {
    JoinHead + FormatInt(count) + NoticeTail + "\n"
  }

  /** The notice broadcast when a client disconnects. */
  function LeaveNotice(count: int): Msg {
    LeaveHead + FormatInt(count) + NoticeTail + "\n"
  }

  /** The line written to a client as its handler starts. */
  function WelcomeLine(count: int): Msg {
    WelcomeHead + FormatInt(count) + WelcomeTail + "\n"
  }

  /** The count a client reads from a line made of head, a count, tail and
      the newline. */
  function CountIn(head: string, tail: string, m: Msg): Option<int> {
    var t := tail + "\n";
    if |head| + |t| <= |m| && m[..|head|] == head && m[|m| - |t|..] == t
    then ParseInt(m[|head|..|m| - |t|])
    else None
  }

  /** A head, a formatted count and a tail, none holding a newline, followed
      by the newline make a single line, from which the count reads back. */
  lemma {:induction false} FramedCount(head: string, n: int, tail: string)
    requires '\n' !in head && '\n' !in tail
    ensures IsLine(head + FormatInt(n) + tail + "\n")
    ensures CountIn(head, tail, head + FormatInt(n) + tail + "\n") == Some(n)
  {
    var f := FormatInt(n);
    var m := head + f + tail + "\n";
    FormatIntHasNoNewline(n);
    forall i | 0 <= i < |m| - 1 ensures m[i] != '\n' {
      if i < |head| {
        assert m[i] == head[i];
      } else if i < |head| + |f| {
        assert m[i] == f[i - |head|];
      } else {
        assert m[i] == tail[i - |head| - |f|];
      }
    }
    var t := tail + "\n";
    assert m == head + f + t;
    assert m[..|head|] == head;
    assert m[|m| - |t|..] == t;
    assert m[|head|..|m| - |t|] == f;
    FormatIntRoundTrip(n);
  }

  /** Every line the server composes is a single line. */
  lemma NoticesAreLines(count: int)
    ensures IsLine(JoinNotice(count)) && IsLine(LeaveNotice(count)) && IsLine(WelcomeLine(count))
  {
    assert '\n' !in JoinHead && '\n' !in LeaveHead && '\n' !in WelcomeHead;
    assert '\n' !in NoticeTail && '\n' !in WelcomeTail;
    FramedCount(JoinHead, count, NoticeTail);
    FramedCount(LeaveHead, count, NoticeTail);
    FramedCount(WelcomeHead, count, WelcomeTail);
  }

  /** The count each composed line announces reads back from it. */
  lemma NoticeCountsReadBack(count: int)
    ensures CountIn(JoinHead, NoticeTail, JoinNotice(count)) == Some(count)
    ensures CountIn(LeaveHead, NoticeTail, LeaveNotice(count)) == Some(count)
    ensures CountIn(WelcomeHead, WelcomeTail, WelcomeLine(count)) == Some(count)
  {
    assert '\n' !in JoinHead && '\n' !in LeaveHead && '\n' !in WelcomeHead;
    assert '\n' !in NoticeTail && '\n' !in WelcomeTail;
    FramedCount(JoinHead, count, NoticeTail);
    FramedCount(LeaveHead, count, NoticeTail);
    FramedCount(WelcomeHead, count, WelcomeTail);
  }
}
