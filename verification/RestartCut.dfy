/** A batched restart whose session breaks off: the output ends anywhere, in the middle of a result
    line too, and what the client parses from it is still never a success that did not happen. */
module RestartCut {
  import opened Strings
  import opened Lines
  import opened RestartBatch
  import RestartDispatch
  import RestartPolicy

  // ----- where a text made of lines may end

  /** The text ends somewhere in line `k`, or behind all of them. */
  ghost predicate EndsIn(lines: seq<string>, text: string, k: nat, rest: string) {
    k <= |lines| && rest <= (if k < |lines| then lines[k] else "") && text == Render(lines[..k]) + rest
  }

  lemma {:induction false} PrefixEnds(lines: seq<string>, n: nat) returns (k: nat, rest: string)
    requires n <= |Render(lines)|
    ensures EndsIn(lines, Render(lines)[..n], k, rest)
  {
    if lines == [] || n <= |lines[0]| {
      k, rest := 0, Render(lines)[..n];
      assert lines[..0] == [];
    } else {
      var head, tail := lines[0] + "\n", Render(lines[1..]);
      k, rest := PrefixEnds(lines[1..], n - |head|);
      assert Render(lines)[..n] == head + tail[..n - |head|];
      assert lines[..k + 1] == [lines[0]] + lines[1..][..k];
      assert head + (Render(lines[1..][..k]) + rest) == head + Render(lines[1..][..k]) + rest;
      k := k + 1;
    }
  }

  lemma {:induction false} RenderThenRest(lines: seq<string>, rest: string)
    ensures Render(lines) + rest == Join(lines + [rest], "\n")
  {
    if lines == [] {
      assert lines + [rest] == [rest];
    } else {
      RenderThenRest(lines[1..], rest);
      assert (lines + [rest])[1..] == lines[1..] + [rest];
      assert Render(lines) + rest == lines[0] + "\n" + (Render(lines[1..]) + rest);
    }
  }

  /** The blanks at the end of the rest do not matter. */
  lemma TrimmedRest(text: string, rest: string)
    ensures TrimSpace(text + rest) == TrimSpace(text + TrimRight(rest))
    ensures TrimRight(TrimRight(rest)) == TrimRight(rest)
  {
    hide TrimSpace, TrimRight;
    TrimRightTwice(rest);
    TrimRightAppend(text, rest);
    TrimRightAppend(text, TrimRight(rest));
    TrimSides(text + rest);
    TrimSides(text + TrimRight(rest));
  }

  lemma {:induction false} TrimRightTwice(s: string)
    ensures TrimRight(TrimRight(s)) == TrimRight(s)
    decreases |s|
  {
    if s != "" && IsSpace(s[|s| - 1]) { TrimRightTwice(s[..|s| - 1]); }
  }

  // ----- numbers cut short

  lemma {:induction false} FirstDigit(n: nat)
    requires n > 0
    ensures DigitsOf(n)[0] != '0'
  {
    if n >= 10 { FirstDigit(n / 10); }
  }

  lemma {:induction false} PositiveValue(d: string)
    requires d != "" && AllDigits(d) && d[0] != '0'
    ensures ValueOf(d) > 0
    decreases |d|
  {
    if |d| > 1 { PositiveValue(d[..|d| - 1]); }
  }

  /** Any part of an exit code that got through is 0 exactly when the exit code is. */
  lemma CutCode(rc: nat, d: string)
    requires d != "" && d <= Itoa(rc) && rc <= MaxInt
    ensures AtoiOrZero(TrimSpace(d)) == 0 <==> rc == 0
    ensures Free(d, '\t')
  {
    assert AllDigits(d) by { assert forall i :: 0 <= i < |d| ==> d[i] == Itoa(rc)[i]; }
    assert TrimSpace(d) == d;
    if rc > 0 {
      FirstDigit(rc);
      PositiveValue(d);
    } else {
      assert d == "0" && d[..0] == "";
      assert ValueOf(d) == 0;
    }
  }

  // ----- a result line cut short

  /** The entry of a unit's line of which a part got through: none, or one under its name that is a
      success exactly when the unit's is. */
  ghost predicate CutEntry(entry: Results, l: Line) {
    entry == map[] || (l.Unit? && l.svc in entry && entry == map[l.svc := entry[l.svc]] && (entry[l.svc].rc == 0 <==> l.rc == 0))
  }

  lemma CutInName(svc: string, y: string)
    requires Free(svc, '\t') && y <= Marker() + "\t" + svc
    ensures Entry(y) == map[]
  {
    hide Marker;
    if Marked(y) {
      var s := y[|Marker() + "\t"|..];
      assert y == Marker() + "\t" + s;
      assert s <= svc;
      assert forall i :: 0 <= i < |s| ==> s[i] == svc[i];
      hide Cut, Free;
      CutAt(Marker(), s, '\t');
      CutAt(s, "", '\t');
      assert SplitN(s, '\t', 3) == [s];
      assert SplitN(y, '\t', 4) == [Marker()] + [s];
    }
  }

  lemma CutInCode(svc: string, rc: nat, d: string)
    requires Free(svc, '\t') && d != "" && d <= Itoa(rc) && rc <= MaxInt
    ensures CutEntry(Entry(Marker() + "\t" + svc + "\t" + d), Unit(svc, rc, ""))
  {
    hide Itoa, SplitN, AtoiOrZero, TrimSpace, Marker, Marked;
    CutCode(rc, d);
    SplitThree(Marker(), svc, d);
    MarkedLine(svc, d);
  }

  lemma TwoParts(front: string, head: string, s: string)
    requires front <= head && s <= head && |front| <= |s|
    ensures s == front + s[|front|..] && s[|front|..] <= head[|front|..]
  {
  }

  lemma CutUnit(l: Line, y: string)
    requires l.Unit? && l.Proper() && l.rc >= 0 && y <= l.Text() && TrimRight(y) == y
    ensures CutEntry(Entry(y), l)
  {
    hide Itoa, Marker, Flatten, DropNewlines, Entry, TrimSpace, Free;
    var front := Marker() + "\t" + l.svc;
    var head := Head(l.svc, l.rc);
    var text := Flatten(DropNewlines(l.out));
    assert l.Text() == head + "\t" + text;
    if |y| <= |front| {
      assert y <= front;
      CutInName(l.svc, y);
    } else if |y| <= |head| {
      assert y <= head && head == front + "\t" + Itoa(l.rc);
      TwoParts(front + "\t", head, y);
      var d := y[|front + "\t"|..];
      assert head[|front + "\t"|..] == Itoa(l.rc);
      assert y == front + "\t" + d;
      TabAtEnd(front);
      CutInCode(l.svc, l.rc, d);
    } else {
      TwoParts(head + "\t", l.Text(), y);
      HeadAndTextMeans(l.svc, l.rc, y[|head + "\t"|..]);
    }
  }

  lemma TabAtEnd(front: string)
    ensures TrimRight(front + "\t" + "") != front + "\t" + ""
  {
    var s := front + "\t" + "";
    assert s[|s| - 1] == '\t' && s[..|s| - 1] == front;
    TrimRightIsPrefix(front);
  }

  lemma {:induction false} PrefixOfNoise(text: string, y: string)
    requires Noise(text).Proper() && y <= text
    ensures Noise(y).Proper()
  {
    hide Marker;
    var rest := text[|y|..];
    assert text == y + rest;
    TrimLeftAppend(y, rest);
    assert forall i :: 0 <= i < |y| ==> y[i] == text[i];
    assert TrimLeft(y) == "" || TrimLeft(y) <= TrimLeft(text);
  }

  /** A trimmed beginning of a proper line is steady, and says at most what the line does. */
  lemma CutLine(l: Line, y: string)
    requires l.Proper() && (l.Unit? ==> l.rc >= 0) && y <= l.Text() && TrimRight(y) == y
    ensures SteadyLine(y) && CutEntry(Entry(y), l)
  {
    hide Itoa, Flatten, DropNewlines, Entry, Marker, Marked;
    if l.Unit? {
      CutUnit(l, y);
      if y != "" {
        assert y[0] == l.Text()[0] == Marker()[0];
        NoLeading(y);
      }
    } else {
      PrefixOfNoise(l.text, y);
      NoiseIsSteady(Noise(y));
    }
  }

  lemma NoLeading(s: string)
    requires s != "" && !IsSpace(s[0])
    ensures TrimLeft(s) == s
  {
  }

  // ----- the whole output cut short

  /** What is parsed are the meanings of the first `k` lines, and of line `k` perhaps a part. */
  ghost predicate ParsedUpTo(found: Results, session: seq<Line>, k: nat) {
    k <= |session| && exists entry ::
      found == Meanings(session[..k]) + entry && (if k < |session| then CutEntry(entry, session[k]) else entry == map[])
  }

  ghost predicate ProperSession(session: seq<Line>) {
    forall i :: 0 <= i < |session| ==> session[i].Proper() && (session[i].Unit? ==> session[i].rc >= 0)
  }

  lemma WholeLines(session: seq<Line>, k: nat)
    requires ProperSession(session) && k <= |session|
    ensures var texts := Texts(session[..k]);
      texts == Texts(session)[..k] && NewlineFree(texts) && Entries(texts) == Meanings(session[..k])
    ensures forall i :: 0 <= i < k ==> SteadyLine(Texts(session[..k])[i])
  {
    hide Entry, Meaning, Line.Text, Line.Proper, TrimLeft, TrimRight, TrimSpace, Entries, Meanings;
    var lines := session[..k];
    forall i | 0 <= i < k ensures Steady(lines[i].Text(), Meaning(lines[i])) && Free(lines[i].Text(), '\n') {
      assert lines[i] == session[i] && session[i].Proper();
      if lines[i].Unit? { UnitIsSteady(lines[i]); } else { NoiseIsSteady(lines[i]); }
      TextIsOneLine(lines[i]);
    }
    TextsMean(lines);
  }

  lemma FreePrefix(s: string, t: string)
    requires Free(t, '\n') && s <= t
    ensures Free(s, '\n')
  {
    assert forall i :: 0 <= i < |s| ==> s[i] == t[i];
  }

  /** Wherever the output of a session breaks off: parsing it gives the results of the lines that came
      through whole, and of the line that did not, nothing or a result that is a success exactly when
      the unit's own is. */
  lemma {:induction false} CutRoundTrip(session: seq<Line>, n: nat) returns (k: nat)
    requires ProperSession(session) && n <= |Render(Texts(session))|
    ensures ParsedUpTo(Entries(Split(TrimSpace(Render(Texts(session))[..n]), '\n')), session, k)
  {
    hide Entry, Meaning, Line.Text, Line.Proper, TrimLeft, TrimRight, TrimSpace, Entries, Meanings, Split, Render, Join;
    var rest: string;
    k, rest := PrefixEnds(Texts(session), n);
    var texts, y := Texts(session)[..k], TrimRight(rest);
    TrimmedRest(Render(texts), rest);
    RenderThenRest(texts, y);
    WholeLines(session, k);
    RestIsSteady(session, k, rest);
    assert forall i :: 0 <= i < |texts + [y]| ==> SteadyLine((texts + [y])[i]);
    SteadyText(texts + [y]);
    EntriesAppend(texts, [y]);
    OneEntry(y);
  }

  lemma RestIsSteady(session: seq<Line>, k: nat, rest: string)
    requires ProperSession(session) && k <= |session|
    requires rest <= if k < |session| then session[k].Text() else ""
    ensures SteadyLine(TrimRight(rest)) && Free(TrimRight(rest), '\n')
    ensures if k < |session| then CutEntry(Entry(TrimRight(rest)), session[k]) else Entry(TrimRight(rest)) == map[]
  {
    hide Entry, Line.Text, Line.Proper;
    var y := TrimRight(rest);
    TrimRightTwice(rest);
    TrimRightIsPrefix(rest);
    hide TrimLeft, TrimRight;
    if k < |session| {
      assert session[k].Proper();
      TextIsOneLine(session[k]);
      FreePrefix(y, session[k].Text());
      CutLine(session[k], y);
    } else {
      EmptyIsSteady();
      NoEntry();
    }
  }

  lemma {:induction false} MeaningIsAUnits(session: seq<Line>, svc: string) returns (k: nat)
    requires svc in Meanings(session)
    ensures k < |session| && session[k].Unit? && session[k].svc == svc && Meanings(session)[svc].rc == session[k].rc
  {
    hide TrimSpace, Flatten;
    var n := |session| - 1;
    if svc in Meaning(session[n]) {
      k := n;
    } else {
      k := MeaningIsAUnits(session[..n], svc);
    }
  }

  /** However little of the output came through, whatever it is read as: a unit that is found was restarted
      under that very name, and is found as a success exactly when one such restart ended with 0. */
  lemma {:induction false} FoundIsReal(session: seq<Line>, n: nat, svc: string) returns (k: nat)
    requires ProperSession(session) && n <= |Render(Texts(session))|
    requires svc in Entries(Split(TrimSpace(Render(Texts(session))[..n]), '\n'))
    ensures k < |session| && session[k].Unit? && session[k].svc == svc
    ensures Entries(Split(TrimSpace(Render(Texts(session))[..n]), '\n'))[svc].rc == 0 <==> session[k].rc == 0
  {
    hide Entries, Split, TrimSpace, Render, Texts, Line.Proper, Meanings;
    var found := Entries(Split(TrimSpace(Render(Texts(session))[..n]), '\n'));
    var cut := CutRoundTrip(session, n);
    var entry :| found == Meanings(session[..cut]) + entry &&
      (if cut < |session| then CutEntry(entry, session[cut]) else entry == map[]);
    if svc in entry {
      k := cut;
    } else {
      k := MeaningIsAUnits(session[..cut], svc);
    }
  }

  /** From the host to the report, wherever the session breaks off: an ordinary unit that is reported as
      dispatched ended with 0, or the connection was lost. */
  lemma {:induction false} SentIsReal(services: seq<string>, batch: RestartDispatch.Reply, replies: seq<RestartDispatch.Reply>,
                                      session: seq<Line>, n: nat, svc: string)
    requires |replies| == |RestartDispatch.Risky(services, true)| && svc in services && !RestartPolicy.IsRisky(svc)
    requires ProperSession(session) && n <= |Render(Texts(session))| && batch.out == TrimSpace(Render(Texts(session))[..n])
    ensures var lines := RestartDispatch.Report(services, batch, replies);
      svc in RestartDispatch.Done(lines) &&
      (RestartDispatch.Done(lines)[svc].kind == RestartDispatch.Sent ==>
        batch.ConnectionLost() || exists k :: 0 <= k < |session| && session[k].Unit? && session[k].svc == svc && session[k].rc == 0)
  {
    hide Entries, Split, TrimSpace, Render, Texts, Line.Proper, RestartDispatch.Report, RestartDispatch.Risky,
         RestartPolicy.IsRisky, RestartDispatch.IsUnitNotFoundText, RestartDispatch.Reason;
    RestartDispatch.BatchLineOf(services, batch, replies, svc);
    if svc in Entries(Split(batch.out, '\n')) {
      var k := FoundIsReal(session, n, svc);
    }
  }
}
