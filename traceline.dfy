/**
 * The line `trace` writes to stderr: `[<seconds>.<fraction>] <message>\n`,
 * the seconds printed with `%d`, the fraction with `%05d`, both after an
 * `(int)` cast, and the message as `vsprintf` left it in a 1024-byte buffer.
 */
module TraceLine {
  import opened Options
  import opened CArith
  import opened Decimal
  import opened Timestamp

  /** The size of the stack buffer the message is formatted into. */
  const BufferSize: int := 1024

  /** `vsprintf` writes the message and its terminator into the buffer without overflowing it. */
  predicate FitsBuffer(msg: seq<char>) {
    |msg| < BufferSize
  }

  /** The bracketed elapsed time and the space that follows it. */
  function Prefix(elapsed: int): seq<char> {
    "[" + FormatInt(ToInt32(Seconds(elapsed))) + "." + FormatInt05(ToInt32(Fraction(elapsed))) + "] "
  }

  /** The whole line written for a message `msg` traced `elapsed` nanoseconds after the agent started. */
  function Line(elapsed: int, msg: seq<char>): seq<char> {
    Prefix(elapsed) + msg + "\n"
  }

  /** One call of `trace`: the elapsed time it computed and the message it formatted. */
  datatype Write = Write(elapsed: int, message: seq<char>)

  /** What a sequence of `trace` calls leaves on stderr: one line per call, in call order. */
  function Render(writes: seq<Write>): (lines: seq<seq<char>>)
    ensures |lines| == |writes|
  {
    if writes == [] then []
    else Render(writes[..|writes| - 1]) + [Line(writes[|writes| - 1].elapsed, writes[|writes| - 1].message)]
  }

  /** A further `trace` call adds its line after everything written before. */
  lemma RenderAppend(writes: seq<Write>, w: Write)
    ensures Render(writes + [w]) == Render(writes) + [Line(w.elapsed, w.message)]
  {
    assert (writes + [w])[..|writes|] == writes;
  }

  /** The fields a line shows: the two numbers as printed, and the message. */
  datatype Stamp = Stamp(seconds: int, fraction: int, message: seq<char>)

  /** Index of the first `c` in `s`, or `|s|`. */
  function IndexOf(s: seq<char>, c: char): (i: nat)
    ensures i <= |s|
    ensures i < |s| ==> s[i] == c
    ensures forall j :: 0 <= j < i ==> s[j] != c
  {
    if s == [] || s[0] == c then 0 else 1 + IndexOf(s[1..], c)
  }

  /** Reads a trace line back into its fields. */
  function ParseLine(line: seq<char>): Option<Stamp> {
    if |line| < 2 || line[0] != '[' || line[|line| - 1] != '\n' then None
    else
      var body := line[1..|line| - 1];
      var dot := IndexOf(body, '.');
      var close := IndexOf(body, ']');
      if !(dot < close && close + 1 < |body| && body[close + 1] == ' ') then None
      else
        match (ParseInt(body[..dot]), ParseInt(body[dot + 1..close]))
        case (Some(secs), Some(frac)) => Some(Stamp(secs, frac, body[close + 2..]))
        case _ => None
  }

  lemma IndexOfAfter(p: seq<char>, c: char, rest: seq<char>)
    requires forall i :: 0 <= i < |p| ==> p[i] != c
    ensures IndexOf(p + [c] + rest, c) == |p|
  {
    var i := IndexOf(p + [c] + rest, c);
    assert (p + [c] + rest)[|p|] == c;
  }

  /** Line `i` of the text of a series of `trace` calls is the line of call `i`. */
  lemma {:induction false} RenderLine(writes: seq<Write>, i: nat)
    requires i < |writes|
    ensures Render(writes)[i] == Line(writes[i].elapsed, writes[i].message)
  {
    var earlier, last := writes[..|writes| - 1], writes[|writes| - 1];
    assert writes == earlier + [last];
    RenderAppend(earlier, last);
    if i < |earlier| {
      RenderLine(earlier, i);
      assert writes[i] == earlier[i];
    }
  }

  /** The text of a series of `trace` calls is, line by line, the lines of those calls. */
  lemma RenderLines(writes: seq<Write>)
    ensures forall i :: 0 <= i < |writes| ==> Render(writes)[i] == Line(writes[i].elapsed, writes[i].message)
  {
    forall i | 0 <= i < |writes|
      ensures Render(writes)[i] == Line(writes[i].elapsed, writes[i].message)
    {
      RenderLine(writes, i);
    }
  }

  /** The layout alone: numeric fields are found by the first `.` and the first `]`. */
  lemma ParseLayout(a: seq<char>, b: seq<char>, msg: seq<char>)
    requires Numeric(a) && Numeric(b)
    requires ParseInt(a).Some? && ParseInt(b).Some?
    ensures ParseLine("[" + a + "." + b + "] " + msg + "\n") == Some(Stamp(ParseInt(a).value, ParseInt(b).value, msg))
  {
    var line := "[" + a + "." + b + "] " + msg + "\n";
    var body := line[1..|line| - 1];
    LayoutBody(a, b, msg);
    assert body == a + "." + b + "] " + msg;
    assert body[..|a|] == a;
    assert body[|a| + 1..|a| + 1 + |b|] == b;
    assert body[|a| + |b| + 3..] == msg;
  }

  /** Inside the brackets, the first `.` ends the seconds and the first `]` ends the fraction. */
  lemma LayoutBody(a: seq<char>, b: seq<char>, msg: seq<char>)
    requires Numeric(a) && Numeric(b)
    ensures var body := a + "." + b + "] " + msg;
            IndexOf(body, '.') == |a| && IndexOf(body, ']') == |a| + 1 + |b|
  {
    var body := a + "." + b + "] " + msg;
    assert body == a + ['.'] + (b + "] " + msg);
    IndexOfAfter(a, '.', b + "] " + msg);
    assert body == (a + "." + b) + [']'] + (" " + msg);
    forall i | 0 <= i < |a + "." + b| ensures (a + "." + b)[i] != ']' {
      if i < |a| {
        assert (a + "." + b)[i] == a[i];
      } else if i > |a| {
        assert (a + "." + b)[i] == b[i - |a| - 1];
      }
    }
    IndexOfAfter(a + "." + b, ']', " " + msg);
  }

  /**
   * Every line, whatever the elapsed time and whatever the message, reads
   * back as the two printed numbers and the message: the layout is unambiguous.
   */
  lemma LineRoundTrip(elapsed: int, msg: seq<char>)
    ensures ParseLine(Line(elapsed, msg)) == Some(Stamp(ToInt32(Seconds(elapsed)), ToInt32(Fraction(elapsed)), msg))
  {
    var x, y := ToInt32(Seconds(elapsed)), ToInt32(Fraction(elapsed));
    FormatIntRoundTrip(x);
    FormatInt05RoundTrip(y);
    ParseLayout(FormatInt(x), FormatInt05(y), msg);
  }

  /**
   * For a non-negative elapsed time whose seconds fit an `int`, the line
   * shows the true seconds and units, the fraction in exactly five digits.
   */
  lemma LineFields(elapsed: int, msg: seq<char>)
    requires 0 <= elapsed && InInt32(Seconds(elapsed))
    ensures ParseLine(Line(elapsed, msg)) == Some(Stamp(Seconds(elapsed), Fraction(elapsed), msg))
    ensures 0 <= Fraction(elapsed) < UnitsPerSecond
    ensures Line(elapsed, msg) == "[" + Digits(Seconds(elapsed)) + "." + FormatInt05(Fraction(elapsed)) + "] " + msg + "\n"
    ensures |FormatInt05(Fraction(elapsed))| == 5 && AllDigits(FormatInt05(Fraction(elapsed)))
  {
    CastsKeepFields(elapsed);
    FractionRange(elapsed);
    LineRoundTrip(elapsed, msg);
    FormatInt05Width(Fraction(elapsed));
  }

  /** Lines written in time order carry stamps in time order. */
  lemma LinesInTimeOrder(e1: int, m1: seq<char>, e2: int, m2: seq<char>)
    requires 0 <= e1 <= e2 && InInt32(Seconds(e2))
    ensures ParseLine(Line(e1, m1)).Some? && ParseLine(Line(e2, m2)).Some?
    ensures var s1, s2 := ParseLine(Line(e1, m1)).value, ParseLine(Line(e2, m2)).value;
            s1.seconds < s2.seconds || (s1.seconds == s2.seconds && s1.fraction <= s2.fraction)
  {
    Monotone(e1, e2);
    LineFields(e1, m1);
    LineFields(e2, m2);
  }

  /** On stderr, a later call traced at a later elapsed time never shows an earlier stamp. */
  lemma RenderInTimeOrder(writes: seq<Write>, i: nat, j: nat)
    requires i <= j < |writes|
    requires 0 <= writes[i].elapsed <= writes[j].elapsed && InInt32(Seconds(writes[j].elapsed))
    ensures ParseLine(Render(writes)[i]).Some? && ParseLine(Render(writes)[j]).Some?
    ensures var s1, s2 := ParseLine(Render(writes)[i]).value, ParseLine(Render(writes)[j]).value;
            s1.seconds < s2.seconds || (s1.seconds == s2.seconds && s1.fraction <= s2.fraction)
  {
    RenderLine(writes, i);
    RenderLine(writes, j);
    LinesInTimeOrder(writes[i].elapsed, writes[i].message, writes[j].elapsed, writes[j].message);
  }

  /** No line break but the last: each traced event is exactly one line. */
  lemma OneLine(elapsed: int, msg: seq<char>)
    requires forall i :: 0 <= i < |msg| ==> msg[i] != '\n'
    ensures var line := Line(elapsed, msg);
            line[|line| - 1] == '\n' && forall i :: 0 <= i < |line| - 1 ==> line[i] != '\n'
  {
    PrefixHasNoBreak(elapsed);
    BreakOnlyAtEnd(Prefix(elapsed), msg);
  }

  /** The stamp holds no line break: it is brackets, a dot, a space and numeric text. */
  lemma PrefixHasNoBreak(elapsed: int)
    ensures forall i :: 0 <= i < |Prefix(elapsed)| ==> Prefix(elapsed)[i] != '\n'
  {
    FormatIntRoundTrip(ToInt32(Seconds(elapsed)));
    FormatInt05RoundTrip(ToInt32(Fraction(elapsed)));
    StampHasNoBreak(FormatInt(ToInt32(Seconds(elapsed))), FormatInt05(ToInt32(Fraction(elapsed))));
  }

  lemma StampHasNoBreak(a: seq<char>, b: seq<char>)
    requires Numeric(a) && Numeric(b)
    ensures var p := "[" + a + "." + b + "] ";
            forall i :: 0 <= i < |p| ==> p[i] != '\n'
  {
    var p := "[" + a + "." + b + "] ";
    forall i | 0 <= i < |p| ensures p[i] != '\n' {
      if 1 <= i < |a| + 1 {
        assert p[i] == a[i - 1];
      } else if |a| + 2 <= i < |a| + |b| + 2 {
        assert p[i] == b[i - |a| - 2];
      }
    }
  }

  lemma BreakOnlyAtEnd(p: seq<char>, msg: seq<char>)
    requires forall i :: 0 <= i < |p| ==> p[i] != '\n'
    requires forall i :: 0 <= i < |msg| ==> msg[i] != '\n'
    ensures var line := p + msg + "\n";
            line[|line| - 1] == '\n' && forall i :: 0 <= i < |line| - 1 ==> line[i] != '\n'
  {
    var line := p + msg + "\n";
    forall i | 0 <= i < |line| - 1 ensures line[i] != '\n' {
      if i < |p| {
        assert line[i] == p[i];
      } else {
        assert line[i] == msg[i - |p|];
      }
    }
  }

  /** The stamp of an elapsed time whose two fields are known and fit an `int`. */
  lemma PrefixOfFields(elapsed: int, seconds: int, fraction: int)
    requires Seconds(elapsed) == seconds && Fraction(elapsed) == fraction
    requires InInt32(seconds) && InInt32(fraction)
    ensures Prefix(elapsed) == "[" + FormatInt(seconds) + "." + FormatInt05(fraction) + "] "
  {
  }

  /*
   * Concrete stamps. Each is split into the fields (arithmetic), the text of
   * the two numbers (a separate lemma) and their assembly, which keeps every
   * proof obligation small.
   */

  /**
   * A line traced at elapsed time 0 is stamped `[0.00000]`: the agent's start
   * line, when both `GetTime` calls return the same time.
   */
  lemma ZeroExample()
    ensures Prefix(0) == "[0.00000] "
  {
    PrefixOfFields(0, 0, 0);
    ZeroText();
  }

  lemma ZeroText()
    ensures "[" + FormatInt(0) + "." + FormatInt05(0) + "] " == "[0.00000] "
  {
  }

  /** Five milliseconds are 500 units of 10 microseconds: `[0.00500]`. */
  lemma MillisecondsExample()
    ensures Prefix(5_000_000) == "[0.00500] "
  {
    assert Seconds(5_000_000) == 0 && Fraction(5_000_000) == 500;
    PrefixOfFields(5_000_000, 0, 500);
    MillisecondsText();
  }

  lemma MillisecondsText()
    ensures "[" + FormatInt(0) + "." + FormatInt05(500) + "] " == "[0.00500] "
  {
    assert Digits(50) == "50" by { assert Digits(5) == "5"; }
  }

  /** Ten milliseconds: `[0.01000]`. */
  lemma TenMillisecondsExample()
    ensures Prefix(10_000_000) == "[0.01000] "
  {
    assert Seconds(10_000_000) == 0 && Fraction(10_000_000) == 1000;
    PrefixOfFields(10_000_000, 0, 1000);
    TenMillisecondsText();
  }

  lemma TenMillisecondsText()
    ensures "[" + FormatInt(0) + "." + FormatInt05(1000) + "] " == "[0.01000] "
  {
    assert Digits(100) == "100" by { assert Digits(1) == "1"; assert Digits(10) == "10"; }
  }

  /** 1.23456789 seconds print as `[1.23456]`: the sub-unit digits are cut, not rounded. */
  lemma TruncatedExample()
    ensures Prefix(1_234_567_890) == "[1.23456] "
  {
    assert Seconds(1_234_567_890) == 1 && Fraction(1_234_567_890) == 23456;
    PrefixOfFields(1_234_567_890, 1, 23456);
    TruncatedText();
  }

  lemma TruncatedText()
    ensures "[" + FormatInt(1) + "." + FormatInt05(23456) + "] " == "[1.23456] "
  {
    assert Digits(2345) == "2345" by { assert Digits(2) == "2"; assert Digits(23) == "23"; assert Digits(234) == "234"; }
  }

  /** A clock that went back five milliseconds prints the sign inside the fraction field. */
  lemma NegativeExample()
    ensures Prefix(-5_000_000) == "[0.-0500] "
  {
    assert Seconds(-5_000_000) == 0 && Fraction(-5_000_000) == -500;
    PrefixOfFields(-5_000_000, 0, -500);
    NegativeText();
  }

  lemma NegativeText()
    ensures "[" + FormatInt(0) + "." + FormatInt05(-500) + "] " == "[0.-0500] "
  {
    assert Digits(50) == "50" by { assert Digits(5) == "5"; }
  }
}
