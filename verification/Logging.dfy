/** De-duplication of juxtaposed entries in logging.go, and reading the log back. */
module Logging {

  datatype LogEntry = LogEntry(file: string, line: int, sev: string, msg: string)

  // ----- The message that stands for repetitions -----

  function Digit(d: nat): char
    requires d < 10
  {
    ('0' as int + d) as char
  }

  /** Decimal notation. */
  function Decimal(n: nat): (s: string)
    ensures s != ""
  {
    if n < 10 then [Digit(n)] else Decimal(n / 10) + [Digit(n % 10)]
  }

  /** The value that decimal digits stand for. */
  function Value(s: string): nat
    requires forall i :: 0 <= i < |s| ==> '0' <= s[i] <= '9'
  {
    if s == "" then 0 else 10 * Value(s[..|s| - 1]) + (s[|s| - 1] as int - '0' as int)
  }

  /** Decimal writes a number in digits that stand for it, without leading zeros. */
  lemma {:induction false} DecimalValue(n: nat)
    ensures var s := Decimal(n);
            && (forall i :: 0 <= i < |s| ==> '0' <= s[i] <= '9') && Value(s) == n
            && (s[0] == '0' ==> n == 0 && s == "0")
  {
    if n < 10 {
      assert Decimal(n)[..0] == "";
    } else {
      DecimalValue(n / 10);
      assert Decimal(n)[..|Decimal(n)| - 1] == Decimal(n / 10);
    }
  }

  lemma {:induction false} DecimalInjective(m: nat, n: nat)
    requires Decimal(m) == Decimal(n)
    ensures m == n
  {
    var s, t := Decimal(m), Decimal(n);
    assert s[|s| - 1] == t[|t| - 1];
    assert Digit(m % 10) == s[|s| - 1] && Digit(n % 10) == t[|t| - 1];
    if m < 10 || n < 10 {
      DecimalLength(m);
      DecimalLength(n);
    } else {
      assert s[..|s| - 1] == Decimal(m / 10) && t[..|t| - 1] == Decimal(n / 10);
      DecimalInjective(m / 10, n / 10);
    }
  }

  lemma DecimalLength(n: nat)
    ensures n < 10 <==> |Decimal(n)| == 1
  {
  }

  const BEFORE: string := "... repeated "
  const AFTER: string := " times ..."

  function Repeated(n: nat): string {
    BEFORE + Decimal(n) + AFTER
  }

  lemma RepeatedInjective(m: nat, n: nat)
    requires Repeated(m) == Repeated(n)
    ensures m == n
  {
    var s, t := Repeated(m), Repeated(n);
    assert s[|BEFORE|..|s| - |AFTER|] == Decimal(m);
    assert t[|BEFORE|..|t| - |AFTER|] == Decimal(n);
    DecimalInjective(m, n);
  }

  /** The line x announces that p has been logged n times in a row. */
  ghost predicate Announces(p: LogEntry, x: LogEntry, n: nat) {
    n >= 2 && x == p.(msg := Repeated(n))
  }

  ghost predicate IsAnnouncement(p: LogEntry, x: LogEntry) {
    exists n: nat :: Announces(p, x, n)
  }

  ghost function Announced(p: LogEntry, x: LogEntry): (n: nat)
    requires IsAnnouncement(p, x)
    ensures Announces(p, x, n)
  {
    var n: nat :| Announces(p, x, n);
    n
  }

  // ----- Writing -----

  /** What flush writes when the last entry has been repeated cnt times. */
  function Flush(last: LogEntry, cnt: nat): seq<LogEntry> {
    if cnt > 0 then [last.(msg := Repeated(cnt + 1))] else []
  }

  /** The lines written for the entries xs and a flush at the end. */
  function Lines(last: LogEntry, cnt: nat, xs: seq<LogEntry>): seq<LogEntry>
    decreases |xs|
  {
    if xs == [] then Flush(last, cnt)
    else if xs[0] == last then Lines(last, cnt + 1, xs[1..])
    else Flush(last, cnt) + [xs[0]] + Lines(xs[0], 0, xs[1..])
  }

  class BenchLogging {
    var last: LogEntry
    var cnt: nat
    /** The entries passed to logEntry, which formats them and sends them to the queue. */
    var lines: seq<LogEntry>

    constructor ()
      ensures cnt == 0 && last == LogEntry("", 0, "", "") && lines == []
    {
      last, cnt, lines := LogEntry("", 0, "", ""), 0, [];
    }

    method WriteEntry(e: LogEntry)
      modifies `lines
      ensures lines == old(lines) + [e]
    {
      lines := lines + [e];
    }

    /** Forces the pending repetitions to be written. */
    method FlushLog()
      modifies `lines, `cnt
      ensures lines == old(lines) + Flush(last, old(cnt)) && cnt == 0
    {
      if cnt > 0 {
        cnt := cnt + 1;
        var repeat := last.(msg := Repeated(cnt));
        WriteEntry(repeat);
        cnt := 0;
      }
    }

    /** Logs one entry. */
    method Log(file: string, line: int, sev: string, msg: string)
      modifies this
      ensures var e := LogEntry(file, line, sev, msg);
              if e == old(last) then
                last == old(last) && cnt == old(cnt) + 1 && lines == old(lines)
              else
                last == e && cnt == 0 && lines == old(lines) + Flush(old(last), old(cnt)) + [e]
    {
      var e := LogEntry(file, line, sev, msg);
      if e == last {
        cnt := cnt + 1;
      } else {
        FlushLog();
        WriteEntry(e);
        last := e;
      }
    }

    /** Logs a sequence of entries and flushes, as Run does with its own. */
    method LogAll(xs: seq<LogEntry>)
      modifies this
      ensures lines == old(lines) + Lines(old(last), old(cnt), xs) && cnt == 0
    {
      for i := 0 to |xs|
        invariant lines + Lines(last, cnt, xs[i..]) == old(lines) + Lines(old(last), old(cnt), xs)
      {
        ghost var rest := xs[i..];
        assert rest[0] == xs[i] && rest[1..] == xs[i + 1..];
        ghost var before, last0, cnt0 := lines, last, cnt;
        Log(xs[i].file, xs[i].line, xs[i].sev, xs[i].msg);
        LogUnfolds(before, last0, cnt0, rest);
      }
      FlushLog();
    }
  }

  lemma LogUnfolds(before: seq<LogEntry>, last: LogEntry, cnt: nat, xs: seq<LogEntry>)
    requires xs != []
    ensures before + Lines(last, cnt, xs) ==
            if xs[0] == last then before + Lines(last, cnt + 1, xs[1..])
            else before + Flush(last, cnt) + [xs[0]] + Lines(xs[0], 0, xs[1..])
  {
  }

  // ----- Reading -----

  function Copies(e: LogEntry, n: nat): (s: seq<LogEntry>)
    ensures |s| == n && forall i :: 0 <= i < n ==> s[i] == e
  {
    if n == 0 then [] else Copies(e, n - 1) + [e]
  }

  /** Expands the lines that follow an entry: an announcement stands for the repetitions of that entry. */
  ghost function Expand(prev: LogEntry, lines: seq<LogEntry>): seq<LogEntry>
    decreases |lines|
  {
    if lines == [] then []
    else if IsAnnouncement(prev, lines[0]) then
      Copies(prev, Announced(prev, lines[0]) - 1) + Expand(prev, lines[1..])
    else [lines[0]] + Expand(lines[0], lines[1..])
  }

  /** A genuine entry that reads like the announcement of its predecessor. */
  ghost predicate Misleading(p: LogEntry, x: LogEntry) {
    x != p && IsAnnouncement(p, x)
  }

  /** No entry misleads the reader about the one before it. */
  ghost predicate Clear(last: LogEntry, xs: seq<LogEntry>)
    decreases |xs|
  {
    xs == [] || (!Misleading(last, xs[0]) && Clear(xs[0], xs[1..]))
  }

  lemma ExpandFlush(last: LogEntry, cnt: nat, rest: seq<LogEntry>)
    ensures Expand(last, Flush(last, cnt) + rest) == Copies(last, cnt) + Expand(last, rest)
  {
    if cnt == 0 {
      assert Flush(last, cnt) + rest == rest;
    } else {
      var x := last.(msg := Repeated(cnt + 1));
      var lines := Flush(last, cnt) + rest;
      assert lines[0] == x && lines[1..] == rest;
      assert Announces(last, x, cnt + 1);
      RepeatedInjective(Announced(last, x), cnt + 1);
    }
  }

  /** Reading gives back what was written exactly if no entry is misleading. */
  lemma {:induction false} ExpandLines(last: LogEntry, cnt: nat, xs: seq<LogEntry>)
    ensures Expand(last, Lines(last, cnt, xs)) == Copies(last, cnt) + xs <==> Clear(last, xs)
    decreases |xs|
  {
    if xs == [] {
      assert Flush(last, cnt) + [] == Flush(last, cnt);
      ExpandFlush(last, cnt, []);
    } else if xs[0] == last {
      ExpandLines(last, cnt + 1, xs[1..]);
      assert Copies(last, cnt + 1) + xs[1..] == Copies(last, cnt) + xs;
    } else {
      ExpandNext(last, cnt, xs);
      ExpandLines(xs[0], 0, xs[1..]);
    }
  }

  lemma ExpandNext(last: LogEntry, cnt: nat, xs: seq<LogEntry>)
    requires xs != [] && xs[0] != last
    ensures Expand(last, Lines(last, cnt, xs)) == Copies(last, cnt) + xs <==>
            !IsAnnouncement(last, xs[0]) && Expand(xs[0], Lines(xs[0], 0, xs[1..])) == xs[1..]
  {
    var x, tail := xs[0], Lines(xs[0], 0, xs[1..]);
    var rest := [x] + tail;
    assert Lines(last, cnt, xs) == Flush(last, cnt) + rest;
    ExpandFlush(last, cnt, rest);
    assert rest[0] == x && rest[1..] == tail;
    var got := Expand(last, rest);
    SamePrefix(Copies(last, cnt), got, xs);
    if IsAnnouncement(last, x) {
      assert got[0] == last;
    } else {
      assert got == [x] + Expand(x, tail);
      assert got[1..] == Expand(x, tail);
      assert xs == [x] + xs[1..];
    }
  }

  lemma SamePrefix(p: seq<LogEntry>, s: seq<LogEntry>, t: seq<LogEntry>)
    ensures p + s == p + t <==> s == t
  {
    assert (p + s)[|p|..] == s && (p + t)[|p|..] == t;
  }

  /** A reader who knows the entry logged last before gets exactly what was logged, if and only if no
      entry is misleading. */
  lemma RoundTrip(last: LogEntry, xs: seq<LogEntry>)
    ensures Expand(last, Lines(last, 0, xs)) == xs <==> Clear(last, xs)
  {
    ExpandLines(last, 0, xs);
    assert Copies(last, 0) + xs == xs;
  }

  /** A reader who knows nothing takes the first line as it is. */
  ghost function Read(lines: seq<LogEntry>): seq<LogEntry> {
    if lines == [] then [] else [lines[0]] + Expand(lines[0], lines[1..])
  }

  /** If the first entry differs from the stored one, it comes first in the log. */
  lemma ReadRoundTrip(last: LogEntry, xs: seq<LogEntry>)
    requires xs != [] && xs[0] != last
    ensures Read(Lines(last, 0, xs)) == xs <==> Clear(xs[0], xs[1..])
  {
    var tail := Lines(xs[0], 0, xs[1..]);
    assert Lines(last, 0, xs) == [xs[0]] + tail;
    RoundTrip(xs[0], xs[1..]);
    SamePrefix([xs[0]], Expand(xs[0], tail), xs[1..]);
    assert xs == [xs[0]] + xs[1..];
  }

  /** How many entries at the beginning of xs repeat last. */
  function Leading(last: LogEntry, xs: seq<LogEntry>): (k: nat)
    ensures k <= |xs| && (forall i :: 0 <= i < k ==> xs[i] == last) && (k < |xs| ==> xs[k] != last)
  {
    if xs == [] || xs[0] != last then 0 else 1 + Leading(last, xs[1..])
  }

  /** They are announced together. */
  lemma {:induction false} LinesOfLeading(last: LogEntry, cnt: nat, xs: seq<LogEntry>)
    ensures var k := Leading(last, xs);
            Lines(last, cnt, xs) == Flush(last, cnt + k) + Lines(last, 0, xs[k..])
    decreases |xs|
  {
    var k := Leading(last, xs);
    if k == 0 {
      assert xs[0..] == xs;
    } else {
      LinesOfLeading(last, cnt + 1, xs[1..]);
      assert xs[1..][k - 1..] == xs[k..];
    }
  }

  lemma FlushOne(last: LogEntry, cnt: nat)
    requires cnt >= 1
    ensures Flush(last, 0 + cnt) == [last.(msg := Repeated(cnt + 1))]
  {
  }

  lemma ReadFirst(lines: seq<LogEntry>, x: LogEntry, rest: seq<LogEntry>)
    requires lines == [x] + rest
    ensures Read(lines) == [x] + Expand(x, rest)
  {
    assert lines[1..] == rest;
  }

  /** If the first entry repeats the stored one, the log begins with an announcement, and that is what a
      reader who knows nothing takes for the first entry. */
  lemma FirstEntryRead(last: LogEntry, xs: seq<LogEntry>)
    requires xs != [] && xs[0] == last
    ensures var k := Leading(last, xs);
            var a := last.(msg := Repeated(k + 1));
            k >= 1 && Read(Lines(last, 0, xs)) == [a] + Expand(a, Lines(last, 0, xs[k..]))
  {
    var k := Leading(last, xs);
    LinesOfLeading(last, 0, xs);
    FlushOne(last, k);
    ReadFirst(Lines(last, 0, xs), last.(msg := Repeated(k + 1)), Lines(last, 0, xs[k..]));
  }

  /** The first entry other than p that is expanded after p is no announcement of p. */
  lemma {:induction false} FirstOther(p: LogEntry, lines: seq<LogEntry>, i: nat)
    requires i < |Expand(p, lines)| && Expand(p, lines)[i] != p
    requires forall j :: 0 <= j < i ==> Expand(p, lines)[j] == p
    ensures !IsAnnouncement(p, Expand(p, lines)[i])
    decreases |lines|
  {
    var s := Expand(p, lines);
    var head := if IsAnnouncement(p, lines[0]) then Copies(p, Announced(p, lines[0]) - 1) else [lines[0]];
    if IsAnnouncement(p, lines[0]) || lines[0] == p {
      var rest := Expand(p, lines[1..]);
      assert s == head + rest && i >= |head|;
      forall j | 0 <= j < i - |head| ensures rest[j] == p {
        assert rest[j] == s[|head| + j];
      }
      FirstOther(p, lines[1..], i - |head|);
    } else {
      assert s[0] == lines[0];
    }
  }

  /** Repetitions of last that come from announcements are never followed by the first of the lines. */
  lemma FirstLineNotLater(last: LogEntry, lines: seq<LogEntry>, n: nat)
    requires lines != [] && lines[0] != last && 1 <= n < |Expand(last, lines)|
    requires forall j :: 0 <= j < n ==> Expand(last, lines)[j] == last
    ensures Expand(last, lines)[n] != lines[0]
  {
    if Expand(last, lines)[n] == lines[0] {
      FirstOther(last, lines, n);
      GenuineFirst(last, lines);
    }
  }

  lemma GenuineFirst(p: LogEntry, lines: seq<LogEntry>)
    requires lines != [] && !IsAnnouncement(p, lines[0])
    ensures Expand(p, lines) != [] && Expand(p, lines)[0] == lines[0]
  {
  }

  lemma FirstLine(last: LogEntry, xs: seq<LogEntry>)
    requires xs != [] && xs[0] != last
    ensures Lines(last, 0, xs) != [] && Lines(last, 0, xs)[0] == xs[0]
  {
  }

  /** What is written after the repetitions of last does not expand to them. */
  lemma RepetitionsNotExpanded(last: LogEntry, rest: seq<LogEntry>, n: nat)
    requires n >= 1 && (rest != [] ==> rest[0] != last)
    ensures Expand(last, Lines(last, 0, rest)) != Copies(last, n) + rest
  {
    var lines, got := Lines(last, 0, rest), Copies(last, n) + rest;
    if rest != [] && Expand(last, lines) == got {
      FirstLine(last, rest);
      FirstLineNotLater(last, lines, n);
    }
  }

  /** A first entry that is logged twice or more is lost to such a reader. */
  lemma RepeatedFirstLost(last: LogEntry, xs: seq<LogEntry>)
    requires |xs| >= 2 && xs[0] == xs[1] == last
    ensures Read(Lines(last, 0, xs)) != xs
  {
    var k := Leading(last, xs);
    var a, rest := last.(msg := Repeated(k + 1)), xs[k..];
    FirstEntryRead(last, xs);
    RepetitionsNotExpanded(last, rest, k - 1);
    assert xs == [last] + (Copies(last, k - 1) + rest);
    SamePrefix([last], Expand(last, Lines(last, 0, rest)), Copies(last, k - 1) + rest);
    assert a != last ==> ([a] + Expand(a, Lines(last, 0, rest)))[0] != xs[0];
  }

  /** When a reader who knows nothing gets back what was logged after the entry last. */
  ghost predicate Readable(last: LogEntry, xs: seq<LogEntry>) {
    || xs == []
    || if xs[0] != last then Clear(xs[0], xs[1..])
       else last.msg == Repeated(2) && (|xs| == 1 || xs[1] != last) && Clear(last, xs[1..])
  }

  /** The first entry must differ from the stored one; or it repeats it once and looks like the
      announcement of just that. */
  lemma ReadExact(last: LogEntry, xs: seq<LogEntry>)
    ensures Read(Lines(last, 0, xs)) == xs <==> Readable(last, xs)
  {
    if xs != [] && xs[0] != last {
      ReadRoundTrip(last, xs);
    } else if |xs| >= 2 && xs[1] == last {
      RepeatedFirstLost(last, xs);
    } else if xs != [] {
      var a := last.(msg := Repeated(2));
      FirstEntryRead(last, xs);
      assert Leading(last, xs) == 1;
      assert xs == [last] + xs[1..];
      RoundTrip(last, xs[1..]);
      if a == last {
        SamePrefix([last], Expand(last, Lines(last, 0, xs[1..])), xs[1..]);
      }
    }
  }

  /** A concrete misleading log: the reader sees the first entry twice. */
  lemma MisleadingExample()
    ensures var p := LogEntry("a.cpp", 1, "INFO", "hello");
            var x := p.(msg := Repeated(2));
            Expand(p, Lines(p, 0, [x])) == [p] != [x]
  {
    var p := LogEntry("a.cpp", 1, "INFO", "hello");
    var x := p.(msg := Repeated(2));
    assert Announces(p, x, 2);
    RepeatedInjective(Announced(p, x), 2);
    assert x.msg[0] == '.';
    assert x != p;
    assert Lines(p, 0, [x]) == [x];
    assert [x][1..] == [];
    assert Copies(p, 1) == [p];
  }
}
