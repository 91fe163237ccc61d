/** The result lines of the batched restart: what the remote script prints for each unit, and what
    the client parses from the trimmed output. */
module RestartBatch {
  import opened Strings
  import opened Lines

  /** `restartBatchMarker`. */
  function Marker(): (m: string)
    ensures m != "" && !IsSpace(m[0]) && Free(m, '\t') && Free(m, '\n')
  {
    "PDSVCRESULT"
  }

  /** The line looks like a result. */
  predicate Marked(ln: string) { Marker() + "\t" <= ln }

  // ----- printing, on the host

  /** `tr '\n\t' '  '`. */
  function Flatten(s: string): (r: string)
    ensures |r| == |s| && Free(r, '\n') && Free(r, '\t')
  {
    seq(|s|, i requires 0 <= i < |s| => if s[i] == '\n' || s[i] == '\t' then ' ' else s[i])
  }

  /** `$( … )` drops the newlines at the end. */
  function DropNewlines(s: string): string {
    if s != "" && s[|s| - 1] == '\n' then DropNewlines(s[..|s| - 1]) else s
  }

  /** A line of the session: what the script prints for a unit, or anything else. */
  datatype Line = Unit(svc: string, rc: int, out: string) | Noise(text: string)
  {
    function Text(): string {
      match this
      case Unit(svc, rc, out) => Marker() + "\t" + svc + "\t" + Itoa(rc) + "\t" + Flatten(DropNewlines(out))
      case Noise(text) => text
    }

    /** The unit's name holds no separator; other lines do not look like results. */
    predicate Proper() {
      match this
      case Unit(svc, rc, _) => Free(svc, '\t') && Free(svc, '\n') && -MaxInt - 1 <= rc <= MaxInt
      case Noise(text) => Free(text, '\n') && !Marked(TrimLeft(text))
    }
  }

  // ----- parsing, in the client

  datatype LineResult = LineResult(rc: int, out: string)

  type Results = map<string, LineResult>

  /** `strings.SplitN` with a one-character separator. */
  function SplitN(s: string, sep: char, n: nat): (parts: seq<string>)
    requires n >= 1
    ensures 1 <= |parts| <= n
    decreases n
  {
    if n == 1 then [s]
    else
      var (a, b, found) := Cut(s, sep);
      if found then [a] + SplitN(b, sep, n - 1) else [s]
  }

  /** `rc, _ := strconv.Atoi(s)`: 0 for no number, the nearest bound for one out of range. */
  function AtoiOrZero(s: string): int {
    var neg := s != "" && s[0] == '-';
    var body := if s != "" && (s[0] == '-' || s[0] == '+') then s[1..] else s;
    if Atoi(s).Some? then Atoi(s).value
    else if body == "" || !AllDigits(body) then 0
    else if neg then -MaxInt - 1 else MaxInt
  }

  /** What one line of the output adds to the results. */
  function Entry(ln: string): Results {
    if !Marked(ln) then map[]
    else
      var parts := SplitN(ln, '\t', 4);
      if |parts| < 3 then map[]
      else map[parts[1] := LineResult(AtoiOrZero(TrimSpace(parts[2])), if |parts| == 4 then TrimSpace(parts[3]) else "")]
  }

  function Entries(lines: seq<string>): Results {
    if lines == [] then map[] else Entries(lines[..|lines| - 1]) + Entry(lines[|lines| - 1])
  }

  method ParseRestartBatch(output: string) returns (res: Results)
    ensures res == Entries(Split(output, '\n'))
  {
    hide Split, SplitN, AtoiOrZero, TrimSpace, Marked;
    var lines := Split(output, '\n');
    res := map[];
    for i := 0 to |lines|
      invariant res == Entries(lines[..i])
    {
      assert lines[..i + 1][..i] == lines[..i];
      var ln := lines[i];
      if !Marked(ln) {
        continue;
      }
      var parts := SplitN(ln, '\t', 4);
      if |parts| < 3 {
        continue;
      }
      var rc := AtoiOrZero(TrimSpace(parts[2]));
      var out := "";
      if |parts| == 4 {
        out := TrimSpace(parts[3]);
      }
      res := res[parts[1] := LineResult(rc, out)];
    }
    assert lines[..|lines|] == lines;
  }

  // ----- one line

  lemma {:induction false} CutAt(a: string, b: string, sep: char)
    requires Free(a, sep)
    ensures Cut(a + [sep] + b, sep) == (a, b, true) && Cut(a, sep) == (a, "", false)
  {
    var s := a + [sep] + b;
    if a == "" {
      assert s == [sep] + b && s[1..] == b;
    } else {
      assert Free(a[1..], sep) by {
        assert forall i :: 0 <= i < |a| - 1 ==> a[1..][i] == a[i + 1];
      }
      CutAt(a[1..], b, sep);
      assert s[1..] == a[1..] + [sep] + b;
      assert a == [a[0]] + a[1..];
    }
  }

  lemma SplitThree(a: string, b: string, c: string)
    requires Free(a, '\t') && Free(b, '\t') && Free(c, '\t')
    ensures SplitN(a + "\t" + b + "\t" + c, '\t', 4) == [a, b, c]
  {
    hide Cut;
    CutAt(a, b + "\t" + c, '\t');
    CutAt(b, c, '\t');
    CutAt(c, "", '\t');
    assert a + "\t" + b + "\t" + c == a + "\t" + (b + "\t" + c);
    assert SplitN(c, '\t', 2) == [c];
    assert SplitN(b + "\t" + c, '\t', 3) == [b] + [c];
    assert [a] + ([b] + [c]) == [a, b, c];
  }

  lemma SplitFour(a: string, b: string, c: string, d: string)
    requires Free(a, '\t') && Free(b, '\t') && Free(c, '\t')
    ensures SplitN(a + "\t" + b + "\t" + c + "\t" + d, '\t', 4) == [a, b, c, d]
  {
    hide Cut;
    CutAt(a, b + "\t" + c + "\t" + d, '\t');
    CutAt(b, c + "\t" + d, '\t');
    CutAt(c, d, '\t');
    assert a + "\t" + b + "\t" + c + "\t" + d == a + "\t" + (b + "\t" + c + "\t" + d);
    assert b + "\t" + c + "\t" + d == b + "\t" + (c + "\t" + d);
    assert SplitN(d, '\t', 1) == [d];
    assert SplitN(c + "\t" + d, '\t', 2) == [c] + [d];
    assert SplitN(b + "\t" + (c + "\t" + d), '\t', 3) == [b] + ([c] + [d]);
    assert [a] + ([b] + ([c] + [d])) == [a, b, c, d];
  }

  lemma NumberIsRead(n: int)
    requires -MaxInt - 1 <= n <= MaxInt
    ensures AtoiOrZero(TrimSpace(Itoa(n))) == n && Free(Itoa(n), '\t') && Free(Itoa(n), '\n')
    ensures TrimRight(Itoa(n)) == Itoa(n)
  {
    AtoiItoa(n);
    hide Itoa, Atoi;
    assert !IsSpace(Itoa(n)[0]) && !IsSpace(Itoa(n)[|Itoa(n)| - 1]);
  }

  lemma {:induction false} DroppedNewlines(s: string)
    ensures TrimSpace(Flatten(DropNewlines(s))) == TrimSpace(Flatten(s))
    decreases |s|
  {
    if s != "" && s[|s| - 1] == '\n' {
      var t := s[..|s| - 1];
      DroppedNewlines(t);
      assert Flatten(s) == Flatten(t) + " ";
      hide DropNewlines, Flatten;
      SpaceBehind(Flatten(t));
    }
  }

  lemma SpaceBehind(s: string)
    ensures TrimSpace(s + " ") == TrimSpace(s)
  {
    TrimLeftAppend(s, " ");
    TrimRightAppend(TrimLeft(s), " ");
    assert TrimLeft(" ") == TrimRight(" ") == "" && TrimRight("") == "";
  }

  /** The text of a result line, up to the exit code. */
  function Head(svc: string, rc: int): string { Marker() + "\t" + svc + "\t" + Itoa(rc) }

  /** What a unit's line stands for. */
  function Meaning(l: Line): Results {
    if l.Unit? then map[l.svc := LineResult(l.rc, TrimSpace(Flatten(l.out)))] else map[]
  }

  lemma BlankText()
    ensures TrimSpace("") == ""
  {
  }

  lemma MarkedLine(svc: string, rest: string)
    ensures Marked(Marker() + "\t" + svc + "\t" + rest)
  {
    hide Marker;
    assert Marker() + "\t" + svc + "\t" + rest == Marker() + "\t" + (svc + "\t" + rest);
  }

  lemma HeadMeans(svc: string, rc: int)
    requires Unit(svc, rc, "").Proper()
    ensures Entry(Head(svc, rc)) == map[svc := LineResult(rc, "")]
  {
    hide Itoa, SplitN, AtoiOrZero, TrimSpace, Marker, Marked;
    NumberIsRead(rc);
    SplitThree(Marker(), svc, Itoa(rc));
    MarkedLine(svc, Itoa(rc));
    assert TrimSpace("") == "" by { BlankText(); }
  }

  lemma HeadAndTextMeans(svc: string, rc: int, text: string)
    requires Unit(svc, rc, "").Proper()
    ensures Entry(Head(svc, rc) + "\t" + text) == map[svc := LineResult(rc, TrimSpace(text))]
  {
    hide Itoa, SplitN, AtoiOrZero, TrimSpace, Marker, Marked;
    NumberIsRead(rc);
    SplitFour(Marker(), svc, Itoa(rc), text);
    MarkedLine(svc, Itoa(rc) + "\t" + text);
    assert Head(svc, rc) + "\t" + text == Marker() + "\t" + svc + "\t" + (Itoa(rc) + "\t" + text);
  }

  /** Trimming a line, on either side, does not change what it adds. */
  ghost predicate Steady(text: string, meaning: Results) {
    Entry(text) == Entry(TrimLeft(text)) == Entry(TrimRight(text)) == Entry(TrimSpace(text)) == meaning
  }

  lemma HeadIsTrimmed(svc: string, rc: int, text: string)
    requires -MaxInt - 1 <= rc <= MaxInt
    ensures TrimRight(Head(svc, rc)) == Head(svc, rc)
    ensures TrimLeft(Head(svc, rc) + "\t" + text) == Head(svc, rc) + "\t" + text
  {
    hide Itoa, Marker, TrimRight;
    NumberIsRead(rc);
    TrimRightAppend(Marker() + "\t" + svc + "\t", Itoa(rc));
    assert (Head(svc, rc) + "\t" + text)[0] == Marker()[0];
  }

  lemma TrimRightOfLine(head: string, text: string)
    requires TrimRight(head) == head
    ensures TrimRight(head + "\t" + text) == if TrimRight(text) == "" then head else head + "\t" + TrimRight(text)
  {
    hide TrimRight;
    TabIsBlank();
    TrimRightAppend("\t", text);
    TrimRightAppend(head, "\t" + text);
    hide *;
    assert head + "\t" + text == head + ("\t" + text);
    assert head + ("\t" + TrimRight(text)) == head + "\t" + TrimRight(text);
  }

  lemma TabIsBlank()
    ensures TrimRight("\t") == ""
  {
  }

  lemma {:induction false} UnitIsSteady(l: Line)
    requires l.Unit? && l.Proper()
    ensures Steady(l.Text(), Meaning(l))
  {
    hide Itoa, Marker, Flatten, DropNewlines, Entry, TrimLeft, TrimRight, TrimSpace;
    var head, text := Head(l.svc, l.rc), Flatten(DropNewlines(l.out));
    HeadIsTrimmed(l.svc, l.rc, text);
    TrimRightOfLine(head, text);
    HeadAndTextMeans(l.svc, l.rc, text);
    DroppedNewlines(l.out);
    if TrimRight(text) == "" {
      HeadMeans(l.svc, l.rc);
      BlankBothWays(text);
    } else {
      HeadAndTextMeans(l.svc, l.rc, TrimRight(text));
      TrimSides(text);
    }
    assert l.Text() == head + "\t" + text;
    TrimSpaceIs(l.Text());
  }

  lemma TrimSpaceIs(s: string)
    ensures TrimSpace(s) == TrimRight(TrimLeft(s))
  {
  }

  lemma BlankBothWays(s: string)
    requires TrimRight(s) == ""
    ensures TrimSpace(s) == ""
  {
    BlankRight(s);
    BlankOneWayBlank(s);
    assert TrimRight("") == "";
  }

  /** It does not matter that the right side was trimmed before. */
  lemma TrimSides(s: string)
    ensures TrimSpace(TrimRight(s)) == TrimSpace(s)
  {
    TrimRightIsPrefix(s);
    var n :| 0 <= n <= |s| && TrimRight(s) == s[..n] && forall i :: n <= i < |s| ==> IsSpace(s[i]);
    var tail := s[n..];
    assert s == s[..n] + tail;
    BlankOneWayBlank(tail);
    BlankRight(tail);
    TrimLeftAppend(s[..n], tail);
    TrimRightAppend(TrimLeft(s[..n]), tail);
    assert TrimRight("") == "";
  }

  lemma NoiseIsSteady(l: Line)
    requires l.Noise? && l.Proper()
    ensures Steady(l.Text(), Meaning(l))
  {
    hide Marker;
    var t := l.text;
    MarkedIsTrimmed(t);
    UnmarkedStays(t);
    UnmarkedStays(TrimLeft(t));
  }

  lemma MarkedIsTrimmed(s: string)
    ensures Marked(s) ==> TrimLeft(s) == s
  {
    hide Marker;
    if Marked(s) {
      assert s[0] == Marker()[0];
    }
  }

  lemma UnmarkedStays(s: string)
    requires !Marked(s)
    ensures !Marked(TrimRight(s))
  {
    TrimRightIsPrefix(s);
  }

  // ----- the whole output

  function Texts(lines: seq<Line>): seq<string> {
    seq(|lines|, i requires 0 <= i < |lines| => lines[i].Text())
  }

  /** What the lines stand for; of two lines for one unit the later one counts. */
  function Meanings(lines: seq<Line>): Results {
    if lines == [] then map[] else Meanings(lines[..|lines| - 1]) + Meaning(lines[|lines| - 1])
  }

  lemma {:induction false} EntriesAppend(a: seq<string>, b: seq<string>)
    ensures Entries(a + b) == Entries(a) + Entries(b)
    decreases |b|
  {
    hide Entry;
    if b == [] {
      assert a + b == a;
      assert Entries(a) + map[] == Entries(a);
    } else {
      var n := |b| - 1;
      var init, last := b[..n], b[n];
      EntriesAppend(a, init);
      assert (a + b)[..|a| + n] == a + init;
      EntriesLast(a + b);
      EntriesLast(b);
      hide Entries;
      Regroup(Entries(a), Entries(init), Entry(last));
    }
  }

  lemma EntriesLast(lines: seq<string>)
    requires lines != []
    ensures Entries(lines) == Entries(lines[..|lines| - 1]) + Entry(lines[|lines| - 1])
  {
  }

  lemma Regroup(a: Results, b: Results, c: Results)
    ensures (a + b) + c == a + (b + c)
  {
  }

  lemma OneEntry(s: string)
    ensures Entries([s]) == Entry(s)
  {
    hide Entry;
    assert [s][..0] == [];
  }

  /** Trimming in front of the first line that is kept changes nothing. */
  lemma {:induction false} TrimFirstKeepsEntries(lines: seq<string>)
    requires lines != [] && forall i :: 0 <= i < |lines| ==> Entry(TrimLeft(lines[i])) == Entry(lines[i])
    ensures Entries(TrimFirst(lines)) == Entries(lines)
  {
    hide Entry, TrimLeft;
    var rest := lines[1..];
    assert lines == [lines[0]] + rest;
    EntriesAppend([lines[0]], rest);
    OneEntry(lines[0]);
    OneEntry(TrimLeft(lines[0]));
    if |lines| > 1 && TrimLeft(lines[0]) == "" {
      NoEntry();
      assert forall i :: 0 <= i < |rest| ==> rest[i] == lines[i + 1];
      TrimFirstKeepsEntries(rest);
    } else {
      EntriesAppend([TrimLeft(lines[0])], rest);
      if |lines| == 1 {
        assert lines == [lines[0]];
      }
    }
  }

  lemma NoEntry()
    ensures Entry("") == map[]
  {
  }

  lemma {:induction false} TrimLastKeepsEntries(lines: seq<string>)
    requires lines != [] && forall i :: 0 <= i < |lines| ==> Entry(TrimRight(lines[i])) == Entry(lines[i])
    ensures Entries(TrimLast(lines)) == Entries(lines)
    decreases |lines|
  {
    hide Entry, TrimRight;
    var n := |lines| - 1;
    var init, last := lines[..n], lines[n];
    assert lines == init + [last];
    EntriesAppend(init, [last]);
    OneEntry(last);
    OneEntry(TrimRight(last));
    if n > 0 && TrimRight(last) == "" {
      NoEntry();
      TrimLastKeepsEntries(init);
    } else {
      EntriesAppend(init, [TrimRight(last)]);
      if n == 0 {
        assert lines == [last];
      }
    }
  }

  /** The line adds the same, however it is trimmed. */
  ghost predicate SteadyLine(l: string) { Steady(l, Entry(l)) }

  lemma SteadyAfterFirst(lines: seq<string>)
    requires lines != [] && forall i :: 0 <= i < |lines| ==> SteadyLine(lines[i])
    ensures forall i :: 0 <= i < |TrimFirst(lines)| ==> Entry(TrimRight(TrimFirst(lines)[i])) == Entry(TrimFirst(lines)[i])
  {
    hide Entry, TrimLeft, TrimRight, TrimFirst;
    var mid := TrimFirst(lines);
    TrimFirstForms(lines);
    var d: nat :| FirstKept(lines, d);
    forall i | 0 <= i < |mid| ensures Entry(TrimRight(mid[i])) == Entry(mid[i]) {
      assert SteadyLine(lines[d + i]);
      assert mid[i] == if i == 0 then TrimLeft(lines[d]) else lines[d + i];
    }
  }

  lemma TrimLinesKeepsEntries(lines: seq<string>)
    requires lines != [] && forall i :: 0 <= i < |lines| ==> SteadyLine(lines[i])
    ensures Entries(TrimLines(lines)) == Entries(lines)
  {
    hide Entry, TrimLeft, TrimRight, Entries, TrimFirst, TrimLast;
    forall i | 0 <= i < |lines| ensures Entry(TrimLeft(lines[i])) == Entry(lines[i]) {
      assert SteadyLine(lines[i]);
    }
    TrimFirstKeepsEntries(lines);
    SteadyAfterFirst(lines);
    TrimLastKeepsEntries(TrimFirst(lines));
  }

  lemma {:induction false} TextsMean(lines: seq<Line>)
    requires forall i :: 0 <= i < |lines| ==> Steady(lines[i].Text(), Meaning(lines[i]))
    ensures Entries(Texts(lines)) == Meanings(lines)
  {
    hide Entry, Meaning, Line.Text, TrimLeft, TrimRight;
    if lines != [] {
      var n := |lines| - 1;
      assert Texts(lines)[..n] == Texts(lines[..n]);
      TextsMean(lines[..n]);
      assert Steady(lines[n].Text(), Meaning(lines[n]));
    }
  }

  lemma FreeAppend(a: string, b: string)
    requires Free(a, '\n') && Free(b, '\n')
    ensures Free(a + "\t" + b, '\n')
  {
  }

  lemma TextIsOneLine(l: Line)
    requires l.Proper()
    ensures Free(l.Text(), '\n')
  {
    hide Itoa, Flatten, DropNewlines, Marker;
    if l.Unit? {
      var flat, rc := Flatten(DropNewlines(l.out)), Itoa(l.rc);
      NumberIsRead(l.rc);
      FreeAppend(Marker(), l.svc);
      FreeAppend(Marker() + "\t" + l.svc, rc);
      FreeAppend(Marker() + "\t" + l.svc + "\t" + rc, flat);
    }
  }

  /** Trimming a text whose lines are steady, and cutting it, loses nothing. */
  lemma SteadyText(lines: seq<string>)
    requires lines != [] && NewlineFree(lines) && forall i :: 0 <= i < |lines| ==> SteadyLine(lines[i])
    ensures Entries(Split(TrimSpace(Join(lines, "\n")), '\n')) == Entries(lines)
  {
    hide Entry, TrimLeft, TrimRight, TrimSpace, Entries, TrimLines, Split, Join, SteadyLine;
    SplitTrimmed(lines);
    TrimLinesKeepsEntries(lines);
  }

  lemma SteadyOutput(texts: seq<string>)
    requires NewlineFree(texts) && forall i :: 0 <= i < |texts| ==> SteadyLine(texts[i])
    ensures Entries(Split(TrimSpace(Render(texts)), '\n')) == Entries(texts)
  {
    hide Entry, TrimSpace, Entries, Split, Join, Render, SteadyLine;
    EmptyIsSteady();
    RenderIsJoin(texts);
    SteadyText(texts + [""]);
    EntriesAppend(texts, [""]);
    OneEntry("");
    NoEntry();
    assert Entries(texts) + map[] == Entries(texts);
  }

  /** Printing the results, with any other lines in between, trimming the whole output, and parsing it
      gives back each unit's exit code and its flattened, trimmed output. */
  lemma {:induction false} BatchRoundTrip(lines: seq<Line>)
    requires forall i :: 0 <= i < |lines| ==> lines[i].Proper()
    ensures Entries(Split(TrimSpace(Render(Texts(lines))), '\n')) == Meanings(lines)
  {
    hide Entry, Meaning, Line.Text, Line.Proper, TrimLeft, TrimRight, TrimSpace, Entries, Meanings, Split, Render;
    forall i | 0 <= i < |lines| ensures Steady(lines[i].Text(), Meaning(lines[i])) && Free(lines[i].Text(), '\n') {
      assert lines[i].Proper();
      if lines[i].Unit? { UnitIsSteady(lines[i]); } else { NoiseIsSteady(lines[i]); }
      TextIsOneLine(lines[i]);
    }
    SteadyOutput(Texts(lines));
    TextsMean(lines);
  }

  lemma EmptyIsSteady()
    ensures SteadyLine("")
  {
  }

  /** An output on one line without tabs comes through as it is, but for the blanks around it. */
  lemma PlainOutputSurvives(out: string)
    requires Free(out, '\n') && Free(out, '\t')
    ensures Flatten(out) == out
  {
  }

  // ----- names that break the line

  predicate NameChar(c: char) {
    'a' <= c <= 'z' || 'A' <= c <= 'Z' || '0' <= c <= '9' || c in {'.', '_', '-', '@', ':'}
  }

  /** `validServiceName`: the trimmed name is checked, and the name as given is used. */
  predicate ValidServiceName(s: string) {
    var t := TrimSpace(s);
    t != "" && |t| <= 256 && forall i :: 0 <= i < |t| ==> NameChar(t[i])
  }

  /** A name that passes the check and has no blanks around it is safe in a line and in a quoted argument,
      and every such name of up to 256 characters passes. */
  lemma {:induction false} CheckedNamesAreSafe(name: string)
    requires TrimSpace(name) == name
    ensures ValidServiceName(name) ==>
      name != "" && Free(name, '\t') && Free(name, '\n') && Free(name, ' ') && Free(name, '\'') && Free(name, '\\') && Free(name, '$')
    ensures 0 < |name| <= 256 && (forall i :: 0 <= i < |name| ==> NameChar(name[i])) ==> ValidServiceName(name)
    ensures |name| > 256 ==> !ValidServiceName(name)
  {
  }

  /** A tab behind a name does not matter to the server's check. */
  lemma TabPassesTheCheck(name: string)
    ensures ValidServiceName(name + "\t") <==> ValidServiceName(name)
  {
    TrimLeftAppend(name, "\t");
    TrimRightAppend(TrimLeft(name), "\t");
    assert TrimLeft("\t") == TrimRight("\t") == "" && TrimRight("") == "";
  }

  /** All parts but the last are free of the separator. */
  ghost predicate FrontTabFree(parts: seq<string>) {
    forall i :: 0 <= i < |parts| - 1 ==> Free(parts[i], '\t')
  }

  lemma {:induction false} PartsAreFree(s: string, n: nat)
    requires n >= 1
    ensures FrontTabFree(SplitN(s, '\t', n))
    ensures Free(s, '\n') ==> NewlineFree(SplitN(s, '\t', n))
    decreases n
  {
    hide Cut, Free;
    var (a, b, found) := Cut(s, '\t');
    if n > 1 && found {
      assert s == a + ['\t'] + b;
      FreeParts(a, b);
      PartsAreFree(b, n - 1);
      OnePartMore(a, SplitN(b, '\t', n - 1));
      assert SplitN(s, '\t', n) == [a] + SplitN(b, '\t', n - 1);
    } else {
      assert SplitN(s, '\t', n) == [s];
    }
  }

  lemma OnePartMore(a: string, rest: seq<string>)
    requires Free(a, '\t') && FrontTabFree(rest)
    ensures FrontTabFree([a] + rest)
    ensures Free(a, '\n') && NewlineFree(rest) ==> NewlineFree([a] + rest)
  {
    hide Free;
  }

  lemma FreeParts(a: string, b: string)
    ensures Free(a + ['\t'] + b, '\n') ==> Free(a, '\n') && Free(b, '\n')
  {
    var s := a + ['\t'] + b;
    assert forall i :: 0 <= i < |a| ==> s[i] == a[i];
    assert forall i :: 0 <= i < |b| ==> s[|a| + 1 + i] == b[i];
  }

  /** Whatever the output is, nothing is found under a name with a tab or a newline. */
  lemma {:induction false} FoundNamesAreClean(lines: seq<string>, name: string)
    requires NewlineFree(lines) && name in Entries(lines)
    ensures Free(name, '\t') && Free(name, '\n')
  {
    hide SplitN, AtoiOrZero, TrimSpace, Marked;
    var n := |lines| - 1;
    if name in Entry(lines[n]) {
      PartsAreFree(lines[n], 4);
      assert Free(lines[n], '\n') && name == SplitN(lines[n], '\t', 4)[1];
    } else {
      FoundNamesAreClean(lines[..n], name);
    }
  }

  lemma {:induction false} LaterMeaning(session: seq<Line>, k: nat)
    requires k < |session| && session[k].Unit?
    requires forall j :: k < j < |session| && session[j].Unit? ==> session[j].svc != session[k].svc
    ensures session[k].svc in Meanings(session)
    ensures Meanings(session)[session[k].svc] == LineResult(session[k].rc, TrimSpace(Flatten(session[k].out)))
  {
    hide TrimSpace, Flatten;
    var n := |session| - 1;
    if k < n {
      LaterMeaning(session[..n], k);
    }
  }

  /** For every name, those that the server accepts included: the unit's result is found under its name,
      in any session, if and only if the name holds no tab and no newline. */
  lemma {:induction false} FoundExactlyWhen(session: seq<Line>, k: nat)
    requires k < |session| && session[k].Unit? && -MaxInt - 1 <= session[k].rc <= MaxInt
    requires forall i :: 0 <= i < |session| && i != k ==> session[i].Proper()
    requires forall j :: k < j < |session| && session[j].Unit? ==> session[j].svc != session[k].svc
    ensures var found := Entries(Split(TrimSpace(Render(Texts(session))), '\n')); var name := session[k].svc;
      (name in found && found[name] == LineResult(session[k].rc, TrimSpace(Flatten(session[k].out))))
      <==> Free(name, '\t') && Free(name, '\n')
  {
    var name, pieces := session[k].svc, Split(TrimSpace(Render(Texts(session))), '\n');
    hide Entries, Split, TrimSpace, Flatten, Meanings, Texts, Render;
    if Free(name, '\t') && Free(name, '\n') {
      assert session[k].Proper();
      BatchRoundTrip(session);
      LaterMeaning(session, k);
    } else if name in Entries(pieces) {
      FoundNamesAreClean(pieces, name);
    }
  }

  /** What the line of a name with a tab behind it stands for: the name without the tab, and success. */
  function TabMeaning(name: string, rc: int, out: string): Results {
    map[name := LineResult(0, TrimSpace(Itoa(rc) + "\t" + Flatten(DropNewlines(out))))]
  }

  lemma TabLineMeans(name: string, rest: string)
    requires Free(name, '\t')
    ensures Entry(Marker() + "\t" + name + "\t" + "" + "\t" + rest) == map[name := LineResult(0, TrimSpace(rest))]
  {
    hide SplitN, Marker, TrimSpace, Marked;
    SplitFour(Marker(), name, "", rest);
    MarkedLine(name, "" + "\t" + rest);
    assert Marker() + "\t" + name + "\t" + ("" + "\t" + rest) == Marker() + "\t" + name + "\t" + "" + "\t" + rest;
    BlankText();
    assert AtoiOrZero("") == 0;
  }

  lemma InFront(front: string, a: string, b: string)
    ensures front + (a + "\t" + b) == front + a + "\t" + b
  {
  }

  /** A name with a tab behind it passes the server's check. Its result counts as a success of the unit
      without the tab, whatever its exit code. */
  lemma TabCountsAsSuccess(name: string, rc: int, out: string)
    requires Free(name, '\t') && -MaxInt - 1 <= rc <= MaxInt
    ensures Steady(Unit(name + "\t", rc, out).Text(), TabMeaning(name, rc, out))
  {
    hide Itoa, Marker, Flatten, DropNewlines, Entry, TrimLeft, TrimRight, TrimSpace;
    var head, text := Head(name + "\t", rc), Flatten(DropNewlines(out));
    var front := Marker() + "\t" + name + "\t" + "" + "\t";
    assert head == front + Itoa(rc);
    HeadIsTrimmed(name + "\t", rc, text);
    TrimRightOfLine(head, text);
    TabLineMeans(name, Itoa(rc));
    TabLineMeans(name, Itoa(rc) + "\t" + text);
    TabLineMeans(name, Itoa(rc) + "\t" + TrimRight(text));
    InFront(front, Itoa(rc), text);
    InFront(front, Itoa(rc), TrimRight(text));
    NumberIsRead(rc);
    TrimRightOfLine(Itoa(rc), text);
    TrimSides(Itoa(rc) + "\t" + text);
    TrimSpaceIs(head + "\t" + text);
    assert Unit(name + "\t", rc, out).Text() == head + "\t" + text;
  }

  lemma TabTextIsOneLine(name: string, rc: int, out: string)
    requires Free(name, '\n') && -MaxInt - 1 <= rc <= MaxInt
    ensures Free(Unit(name + "\t", rc, out).Text(), '\n')
  {
    hide Itoa, Flatten, DropNewlines, Marker;
    NumberIsRead(rc);
    FreeAppend(name, "");
    assert name + "\t" + "" == name + "\t";
    FreeAppend(Marker(), name + "\t");
    FreeAppend(Marker() + "\t" + (name + "\t"), Itoa(rc));
    FreeAppend(Marker() + "\t" + (name + "\t") + "\t" + Itoa(rc), Flatten(DropNewlines(out)));
  }
}
