/**
  The host's log: records are indented by a nesting level that never goes
  below zero, the text of a fatal-error box gets a carriage return before
  every line feed, and the log and crash-dump files are named after one
  shared stem.
 */
module Log {

  /** `indent_log(n)` applied to the level `indent`: it moves by `n` but stops at zero. */
  function IndentAfter(indent: int, n: int): (r: int)
    ensures r >= 0
    ensures r >= indent + n && (r == 0 || r == indent + n)
  {
    if indent + n < 0 then 0 else indent + n
  }

  /** Going in by `n` and back out by `n` restores any level the log can be at. */
  lemma IndentRoundTrip(indent: int, n: int)
    requires indent >= 0 && n >= 0
    ensures IndentAfter(IndentAfter(indent, n), -n) == indent
  {
  }

  /** Going out first does not round-trip: the clamp at zero forgets how far out it went. */
  lemma IndentOutThenInDiffers()
    ensures IndentAfter(IndentAfter(0, -1), 1) == 1
  {
  }

  /** `n` tab characters. */
  function Tabs(n: nat): (r: string)
    ensures |r| == n && forall i | 0 <= i < n :: r[i] == '\t'
  {
    if n == 0 then [] else Tabs(n - 1) + ['\t']
  }

  /** The log: its nesting level and what has been written to the log file. */
  class Logger {
    /** `indent`. */
    var indent: int
    /** `logfile` is open. */
    var fileOpen: bool
    /** Everything written to `logfile`. */
    var written: string

    ghost predicate Valid()
      reads this`indent
    {
      indent >= 0
    }

    /** The log after `init_log`, with the file open or not. */
    constructor (fileOpen: bool)
      ensures Valid() && indent == 0 && this.fileOpen == fileOpen && written == []
    {
      indent := 0;
      this.fileOpen := fileOpen;
      written := [];
    }

    /** `indent_log`. */
    method IndentLog(n: int)
      requires Valid()
      modifies this`indent
      ensures Valid() && indent == IndentAfter(old(indent), n)
    {
      indent := indent + n;
      if indent < 0 {
        indent := 0;
      }
    }

    /**
      `vlogf` for the formatted `record`: with the file open, one tab per
      level and then the record are written; with no file, nothing is.
      The copy to standard error that debug builds make is left out.
     */
    method Vlogf(record: string)
      requires Valid()
      modifies this`written
      ensures written == old(written) + if fileOpen then Tabs(indent) + record else []
    {
      if fileOpen {
        var i := 0;
        while i < indent
          invariant 0 <= i <= indent
          invariant written == old(written) + Tabs(i)
        {
          written := written + ['\t'];
          i := i + 1;
        }
        written := written + record;
      }
    }
  }

  /** The message-box text for `message`: a carriage return before every line feed. */
  function CrLf(message: string): (r: string)
  {
    if message == [] then []
    else (if message[0] == '\n' then "\r\n" else [message[0]]) + CrLf(message[1..])
  }

  /**
    The loop in `terminate` that builds the message-box text from the
    formatted message, one character at a time.
   */
  method MessageBoxText(message: string) returns (text: string)
    ensures text == CrLf(message)
  {
    text := [];
    var i := 0;
    while i < |message|
      invariant 0 <= i <= |message|
      invariant text == CrLf(message[..i])
    {
      var c := message[i];
      CrLfAppend(message[..i], c);
      assert message[..i + 1] == message[..i] + [c];
      if c == '\n' {
        text := text + ['\r'];
      }
      text := text + [c];
      i := i + 1;
    }
    assert message[..i] == message;
  }

  /** Converting one more character appends its conversion. */
  lemma {:induction false} CrLfAppend(s: string, c: char)
    ensures CrLf(s + [c]) == CrLf(s) + if c == '\n' then "\r\n" else [c]
  {
    if s == [] {
      assert [c][1..] == [];
    } else {
      assert (s + [c])[1..] == s[1..] + [c];
      CrLfAppend(s[1..], c);
    }
  }

  /** The number of line feeds in `s`. */
  function LineFeeds(s: string): (n: nat)
    ensures n <= |s|
  {
    if s == [] then 0 else (if s[0] == '\n' then 1 else 0) + LineFeeds(s[1..])
  }

  /** The text grows by one character per line feed. */
  lemma {:induction false} CrLfLength(s: string)
    ensures |CrLf(s)| == |s| + LineFeeds(s)
  {
    if s != [] {
      CrLfLength(s[1..]);
    }
  }

  /** Every line feed of the text has a carriage return right before it. */
  lemma {:induction false} CrLfPrecedesLf(s: string)
    ensures forall i | 0 <= i < |CrLf(s)| && CrLf(s)[i] == '\n' :: i > 0 && CrLf(s)[i - 1] == '\r'
  {
    if s != [] {
      CrLfPrecedesLf(s[1..]);
      var head := if s[0] == '\n' then "\r\n" else [s[0]];
      assert CrLf(s) == head + CrLf(s[1..]);
      forall i | 0 <= i < |CrLf(s)| && CrLf(s)[i] == '\n'
        ensures i > 0 && CrLf(s)[i - 1] == '\r'
      {
        if i >= |head| {
          assert CrLf(s)[i] == CrLf(s[1..])[i - |head|];
          if i - |head| > 0 {
            assert CrLf(s)[i - 1] == CrLf(s[1..])[i - 1 - |head|];
          }
        }
      }
    }
  }

  /** The converted text never starts with a line feed. */
  lemma CrLfHead(s: string)
    ensures CrLf(s) != [] ==> CrLf(s)[0] != '\n'
  {
  }

  /** Dropping the carriage return in front of each line feed. */
  function DropCr(t: string): (r: string)
    ensures |r| <= |t|
  {
    if t == [] then []
    else if |t| >= 2 && t[0] == '\r' && t[1] == '\n' then ['\n'] + DropCr(t[2..])
    else [t[0]] + DropCr(t[1..])
  }

  /** The message can be read back from the message-box text, even one that already held CR LF pairs. */
  lemma {:induction false} DropCrCrLf(s: string)
    ensures DropCr(CrLf(s)) == s
  {
    if s != [] {
      DropCrCrLf(s[1..]);
      CrLfHead(s[1..]);
      var rest := CrLf(s[1..]);
      if s[0] == '\n' {
        assert CrLf(s) == "\r\n" + rest;
        assert CrLf(s)[2..] == rest;
      } else {
        assert CrLf(s) == [s[0]] + rest;
        assert CrLf(s)[1..] == rest;
      }
    }
  }

  // -------------------------------------------------------------------
  // File names

  /** `std::to_string` of a non-negative number: decimal digits, most significant first. */
  function Decimal(n: nat): (r: string)
    ensures |r| >= 1 && forall i | 0 <= i < |r| :: '0' <= r[i] <= '9'
    decreases n
  {
    if n < 10 then [Digit(n)] else Decimal(n / 10) + [Digit(n % 10)]
  }

  function Digit(d: nat): (c: char)
    requires d < 10
    ensures '0' <= c <= '9' && c as int - '0' as int == d
  {
    ('0' as int + d) as char
  }

  /** The value of a string of decimal digits. */
  function DecimalValue(s: string): nat
    requires forall i | 0 <= i < |s| :: '0' <= s[i] <= '9'
  {
    if s == [] then 0 else 10 * DecimalValue(s[..|s| - 1]) + (s[|s| - 1] as int - '0' as int)
  }

  /** The digits read back as the number they were made from. */
  lemma {:induction false} DecimalRoundTrip(n: nat)
    ensures DecimalValue(Decimal(n)) == n
    decreases n
  {
    if n >= 10 {
      DecimalRoundTrip(n / 10);
      var s := Decimal(n);
      assert s[..|s| - 1] == Decimal(n / 10);
    }
  }

  /** Different numbers have different decimal forms. */
  lemma DecimalInjective(m: nat, n: nat)
    requires m != n
    ensures Decimal(m) != Decimal(n)
  {
    DecimalRoundTrip(m);
    DecimalRoundTrip(n);
  }

  /** The fields of the local time `strftime` formats. */
  datatype Time = Time(year: nat, month: nat, day: nat, hour: nat, minute: nat, second: nat)

  /** `%m`, `%d`, `%H`, `%M` and `%S`: at least two digits, zero-padded. */
  function Pad2(n: nat): (r: string)
    ensures n < 100 ==> |r| == 2
  {
    if n < 10 then "0" + Decimal(n)
    else
      assert n < 100 ==> |Decimal(n / 10)| == 1;
      Decimal(n)
  }

  /** `strftime` with `%Y%m%d_%H%M%S`. */
  function Timestamp(t: Time): string
  {
    Decimal(t.year) + Pad2(t.month) + Pad2(t.day) + "_" + Pad2(t.hour) + Pad2(t.minute) + Pad2(t.second)
  }

  /** A year of four digits and in-range fields give a 15-character time stamp. */
  lemma TimestampLength(t: Time)
    requires 1000 <= t.year <= 9999 && t.month < 100 && t.day < 100 && t.hour < 100 && t.minute < 100 && t.second < 100
    ensures |Timestamp(t)| == 15
  {
    assert |Decimal(t.year)| == 4 by {
      assert |Decimal(t.year / 10)| == 3 by {
        assert |Decimal(t.year / 100)| == 2;
      }
    }
  }

  /**
    The stem `init_log` builds: the temporary directory, `/Microsoft.R.Host_`,
    the suffix and `_` when there is a suffix, the time stamp, and `_pid`
    with the process id.
   */
  function Stem(tempDir: string, suffix: string, stamp: string, pid: nat): string
  {
    tempDir + "/Microsoft.R.Host_" + (if suffix == [] then [] else suffix + "_") + stamp + "_pid" + Decimal(pid)
  }

  datatype LogFiles = LogFiles(log: string, stackDump: string, fullDump: string)

  /** The three file names of `init_log`. */
  function LogFileNames(tempDir: string, suffix: string, t: Time, pid: nat): (r: LogFiles)
    ensures var stem := Stem(tempDir, suffix, Timestamp(t), pid);
      && r.log == stem + ".log" && r.stackDump == stem + ".stack.dmp" && r.fullDump == stem + ".full.dmp"
  {
    var stem := Stem(tempDir, suffix, Timestamp(t), pid);
    LogFiles(stem + ".log", stem + ".stack.dmp", stem + ".full.dmp")
  }

  /** The three names are different files. */
  lemma LogFileNamesDistinct(tempDir: string, suffix: string, t: Time, pid: nat)
    ensures var r := LogFileNames(tempDir, suffix, t, pid);
      r.log != r.stackDump && r.log != r.fullDump && r.stackDump != r.fullDump
  {
    var stem := Stem(tempDir, suffix, Timestamp(t), pid);
    var r := LogFileNames(tempDir, suffix, t, pid);
    assert r.log[|r.log| - 4] == '.';
    assert r.stackDump[|r.stackDump| - 4] == '.';
    assert r.log[|stem| + 1] == 'l' && r.stackDump[|stem| + 1] == 's' && r.fullDump[|stem| + 1] == 'f';
  }

  /** Two hosts started in the same second with the same suffix still get different names when their pids differ. */
  lemma {:induction false} StemsDifferByPid(tempDir: string, suffix: string, stamp: string, pid1: nat, pid2: nat)
    requires pid1 != pid2
    ensures Stem(tempDir, suffix, stamp, pid1) != Stem(tempDir, suffix, stamp, pid2)
  {
    var prefix := tempDir + "/Microsoft.R.Host_" + (if suffix == [] then [] else suffix + "_") + stamp + "_pid";
    DecimalInjective(pid1, pid2);
    assert Stem(tempDir, suffix, stamp, pid1) == prefix + Decimal(pid1);
    assert Stem(tempDir, suffix, stamp, pid2) == prefix + Decimal(pid2);
    assert (prefix + Decimal(pid1))[|prefix|..] == Decimal(pid1);
    assert (prefix + Decimal(pid2))[|prefix|..] == Decimal(pid2);
  }

  /** The suffix appears in the stem, followed by `_`, exactly when there is one. */
  lemma StemSuffix(tempDir: string, suffix: string, stamp: string, pid: nat)
    ensures var head := tempDir + "/Microsoft.R.Host_";
      var stem := Stem(tempDir, suffix, stamp, pid);
      head <= stem &&
      (suffix != [] ==> stem[|head|..|head| + |suffix| + 1] == suffix + "_") &&
      (suffix == [] ==> stem[|head|..|head| + |stamp|] == stamp)
  {
    var head := tempDir + "/Microsoft.R.Host_";
    var mid := if suffix == [] then [] else suffix + "_";
    var stem := Stem(tempDir, suffix, stamp, pid);
    assert stem == head + (mid + (stamp + ("_pid" + Decimal(pid))));
  }
}
