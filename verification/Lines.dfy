/** Texts made of lines: how `strings.TrimSpace`, `strings.Split` and `strings.Contains` act on
    the joined text, restated line by line. */
module Lines {
  import opened Strings

  /** Every line followed by a newline, as the streaming reader accumulates them. */
  function Render(lines: seq<string>): string {
    if lines == [] then "" else lines[0] + "\n" + Render(lines[1..])
  }

  ghost predicate NewlineFree(lines: seq<string>) {
    forall i :: 0 <= i < |lines| ==> Free(lines[i], '\n')
  }

  lemma {:induction false} RenderIsJoin(lines: seq<string>)
    ensures Render(lines) == Join(lines + [""], "\n")
  {
    if lines != [] {
      RenderIsJoin(lines[1..]);
      assert (lines + [""])[1..] == lines[1..] + [""];
    }
  }

  lemma {:induction false} RenderAppend(a: seq<string>, b: seq<string>)
    ensures Render(a + b) == Render(a) + Render(b)
  {
    if a == [] {
      assert a + b == b;
    } else {
      RenderAppend(a[1..], b);
      assert (a + b)[1..] == a[1..] + b;
    }
  }

  // ----- trimming a joined text

  lemma {:induction false} TrimLeftAppend(a: string, b: string)
    ensures TrimLeft(a + b) == if TrimLeft(a) == "" then TrimLeft(b) else TrimLeft(a) + b
  {
    if a == "" {
      assert a + b == b;
    } else if IsSpace(a[0]) {
      TrimLeftAppend(a[1..], b);
      assert (a + b)[1..] == a[1..] + b;
    }
  }

  lemma {:induction false} TrimRightAppend(a: string, b: string)
    ensures TrimRight(a + b) == if TrimRight(b) == "" then TrimRight(a) else a + TrimRight(b)
  {
    if b == "" {
      assert a + b == a;
    } else if IsSpace(b[|b| - 1]) {
      TrimRightAppend(a, b[..|b| - 1]);
      assert (a + b)[..|a + b| - 1] == a + b[..|b| - 1];
    }
  }

  /** Drops blank lines in front and trims the first line that is left. */
  function TrimFirst(lines: seq<string>): (r: seq<string>)
    requires lines != []
    ensures r != []
  {
    if |lines| == 1 then [TrimLeft(lines[0])]
    else if TrimLeft(lines[0]) == "" then TrimFirst(lines[1..])
    else [TrimLeft(lines[0])] + lines[1..]
  }

  /** Drops blank lines at the end and trims the last line that is left. */
  function TrimLast(lines: seq<string>): (r: seq<string>)
    requires lines != []
    ensures r != []
  {
    var n := |lines| - 1;
    if n == 0 then [TrimRight(lines[0])]
    else if TrimRight(lines[n]) == "" then TrimLast(lines[..n])
    else lines[..n] + [TrimRight(lines[n])]
  }

  function TrimLines(lines: seq<string>): (r: seq<string>)
    requires lines != []
  {
    TrimLast(TrimFirst(lines))
  }

  lemma {:induction false} TrimLeftJoin(lines: seq<string>)
    requires lines != []
    ensures TrimLeft(Join(lines, "\n")) == Join(TrimFirst(lines), "\n")
  {
    if |lines| > 1 {
      var rest := Join(lines[1..], "\n");
      TrimLeftAppend(lines[0], "\n" + rest);
      TrimLeftAppend("\n", rest);
      assert lines[0] + "\n" + rest == lines[0] + ("\n" + rest);
      if TrimLeft(lines[0]) == "" {
        TrimLeftJoin(lines[1..]);
      } else {
        assert TrimFirst(lines)[1..] == lines[1..];
        assert TrimLeft(lines[0]) + "\n" + rest == TrimLeft(lines[0]) + ("\n" + rest);
      }
    }
  }

  lemma {:induction false} JoinSnoc(lines: seq<string>, last: string, sep: string)
    requires lines != []
    ensures Join(lines + [last], sep) == Join(lines, sep) + sep + last
  {
    if |lines| > 1 {
      JoinSnoc(lines[1..], last, sep);
      assert (lines + [last])[1..] == lines[1..] + [last];
    } else {
      assert (lines + [last])[1..] == [last];
    }
  }

  lemma {:induction false} TrimRightJoin(lines: seq<string>)
    requires lines != []
    ensures TrimRight(Join(lines, "\n")) == Join(TrimLast(lines), "\n")
    decreases |lines|
  {
    var n := |lines| - 1;
    if n > 0 {
      var init := lines[..n];
      assert lines == init + [lines[n]];
      JoinSnoc(init, lines[n], "\n");
      var text := Join(init, "\n");
      TrimRightAppend(text + "\n", lines[n]);
      TrimRightAppend(text, "\n");
      if TrimRight(lines[n]) == "" {
        TrimRightJoin(init);
      } else {
        JoinSnoc(init, TrimRight(lines[n]), "\n");
      }
    }
  }

  /** What a line may look like after the text around it was trimmed. */
  ghost predicate TrimmedForm(form: string, line: string) {
    form in {line, TrimLeft(line), TrimRight(line), TrimSpace(line)}
  }

  /** Line `d` is the first one that trimming in front keeps. */
  ghost predicate FirstKept(lines: seq<string>, d: nat) {
    d < |lines| && TrimFirst(lines) == [TrimLeft(lines[d])] + lines[d + 1..] &&
    forall i :: 0 <= i < d ==> TrimLeft(lines[i]) == ""
  }

  /** Line `d` is the last one that trimming at the end keeps. */
  ghost predicate LastKept(lines: seq<string>, d: nat) {
    d < |lines| && TrimLast(lines) == lines[..d] + [TrimRight(lines[d])] &&
    forall i :: d < i < |lines| ==> TrimRight(lines[i]) == ""
  }

  lemma {:induction false} TrimFirstForms(lines: seq<string>)
    requires lines != []
    ensures exists d: nat :: FirstKept(lines, d)
  {
    if |lines| == 1 || TrimLeft(lines[0]) != "" {
      assert FirstKept(lines, 0);
    } else {
      TrimFirstForms(lines[1..]);
      var d: nat :| FirstKept(lines[1..], d);
      assert lines[1..][d + 1..] == lines[d + 1 + 1..];
      forall i | 0 <= i < d + 1 ensures TrimLeft(lines[i]) == "" {
        if i > 0 { assert lines[i] == lines[1..][i - 1]; }
      }
      assert FirstKept(lines, d + 1);
    }
  }

  lemma {:induction false} TrimLastForms(lines: seq<string>)
    requires lines != []
    ensures exists d: nat :: LastKept(lines, d)
    decreases |lines|
  {
    var n := |lines| - 1;
    if n == 0 || TrimRight(lines[n]) != "" {
      assert LastKept(lines, n);
    } else {
      TrimLastForms(lines[..n]);
      var d: nat :| LastKept(lines[..n], d);
      assert lines[..n][..d] == lines[..d];
      forall i | d < i < |lines| ensures TrimRight(lines[i]) == "" {
        if i < n { assert lines[i] == lines[..n][i]; }
      }
      assert LastKept(lines, d);
    }
  }

  lemma {:induction false} BlankOneWayBlank(s: string)
    ensures TrimLeft(s) == "" <==> forall i :: 0 <= i < |s| ==> IsSpace(s[i])
  {
    if s != "" {
      BlankOneWayBlank(s[1..]);
      if TrimLeft(s) == "" {
        forall i | 0 <= i < |s| ensures IsSpace(s[i]) {
          if i > 0 { assert s[i] == s[1..][i - 1]; }
        }
      } else if IsSpace(s[0]) {
        var j :| 0 <= j < |s[1..]| && !IsSpace(s[1..][j]);
        assert s[j + 1] == s[1..][j];
      }
    }
  }

  lemma {:induction false} BlankRight(s: string)
    ensures TrimRight(s) == "" <==> forall i :: 0 <= i < |s| ==> IsSpace(s[i])
    decreases |s|
  {
    if s != "" {
      var t := s[..|s| - 1];
      BlankRight(t);
      assert forall i :: 0 <= i < |t| ==> t[i] == s[i];
    }
  }

  lemma {:induction false} TrimFirstKeeps(lines: seq<string>)
    requires lines != []
    ensures forall l :: l in TrimFirst(lines) ==> exists i :: 0 <= i < |lines| && (l == lines[i] || l == TrimLeft(lines[i]))
    ensures forall l :: l in lines && TrimLeft(l) == l != "" ==> l in TrimFirst(lines)
  {
    TrimFirstForms(lines);
    var d: nat :| FirstKept(lines, d);
    var r := TrimFirst(lines);
    forall l | l in r ensures exists i :: 0 <= i < |lines| && (l == lines[i] || l == TrimLeft(lines[i])) {
      var k :| 0 <= k < |r| && r[k] == l;
      assert if k == 0 then l == TrimLeft(lines[d]) else l == lines[d + k];
    }
    forall l | l in lines && TrimLeft(l) == l != "" ensures l in r {
      var i :| 0 <= i < |lines| && lines[i] == l;
      assert r[i - d] == l;
    }
  }

  lemma {:induction false} TrimLastKeeps(lines: seq<string>)
    requires lines != []
    ensures forall l :: l in TrimLast(lines) ==> exists i :: 0 <= i < |lines| && (l == lines[i] || l == TrimRight(lines[i]))
    ensures forall l :: l in lines && TrimRight(l) == l != "" ==> l in TrimLast(lines)
  {
    TrimLastForms(lines);
    var d: nat :| LastKept(lines, d);
    var r := TrimLast(lines);
    forall l | l in r ensures exists i :: 0 <= i < |lines| && (l == lines[i] || l == TrimRight(lines[i])) {
      var k :| 0 <= k < |r| && r[k] == l;
      assert if k == d then l == TrimRight(lines[d]) else l == lines[k];
    }
    forall l | l in lines && TrimRight(l) == l != "" ensures l in r {
      var i :| 0 <= i < |lines| && lines[i] == l;
      assert r[i] == l;
    }
  }

  /** The lines of a trimmed text are trimmed forms of its lines, and a line without white space
      at its ends is still there. */
  lemma TrimLinesKeeps(lines: seq<string>)
    requires lines != []
    ensures forall l :: l in TrimLines(lines) ==> exists i :: 0 <= i < |lines| && TrimmedForm(l, lines[i])
    ensures forall l :: l in lines && TrimLeft(l) == TrimRight(l) == l != "" ==> l in TrimLines(lines)
  {
    var mid := TrimFirst(lines);
    TrimFirstKeeps(lines);
    TrimLastKeeps(mid);
    forall l | l in TrimLines(lines) ensures exists i :: 0 <= i < |lines| && TrimmedForm(l, lines[i]) {
      var j :| 0 <= j < |mid| && (l == mid[j] || l == TrimRight(mid[j]));
      assert mid[j] in mid;
      var i :| 0 <= i < |lines| && (mid[j] == lines[i] || mid[j] == TrimLeft(lines[i]));
      assert TrimmedForm(l, lines[i]);
    }
  }

  lemma TrimmedIsFree(s: string)
    requires Free(s, '\n')
    ensures Free(TrimLeft(s), '\n') && Free(TrimRight(s), '\n')
  {
    TrimLeftIsSuffix(s);
    TrimRightIsPrefix(s);
  }

  lemma TrimFirstNewlineFree(lines: seq<string>)
    requires lines != [] && NewlineFree(lines)
    ensures NewlineFree(TrimFirst(lines))
  {
    hide TrimFirst, TrimLeft, Free;
    TrimFirstForms(lines);
    var d: nat :| FirstKept(lines, d);
    var r := TrimFirst(lines);
    TrimmedIsFree(lines[d]);
    forall i | 0 <= i < |r| ensures Free(r[i], '\n') {
      assert r[i] == if i == 0 then TrimLeft(lines[d]) else lines[d + i];
    }
  }

  lemma TrimLastNewlineFree(lines: seq<string>)
    requires lines != [] && NewlineFree(lines)
    ensures NewlineFree(TrimLast(lines))
  {
    hide TrimLast, TrimRight, Free;
    TrimLastForms(lines);
    var d: nat :| LastKept(lines, d);
    var r := TrimLast(lines);
    TrimmedIsFree(lines[d]);
    forall i | 0 <= i < |r| ensures Free(r[i], '\n') {
      assert r[i] == if i == d then TrimRight(lines[d]) else lines[i];
    }
  }

  lemma {:induction false} TrimLeftIsSuffix(s: string)
    ensures exists n | 0 <= n <= |s| :: TrimLeft(s) == s[n..] && forall i :: 0 <= i < n ==> IsSpace(s[i])
  {
    if s != "" && IsSpace(s[0]) {
      TrimLeftIsSuffix(s[1..]);
      var n :| 0 <= n <= |s[1..]| && TrimLeft(s[1..]) == s[1..][n..] && forall i :: 0 <= i < n ==> IsSpace(s[1..][i]);
      assert s[1..][n..] == s[n + 1..];
      forall i | 0 <= i < n + 1 ensures IsSpace(s[i]) {
        if i > 0 { assert s[i] == s[1..][i - 1]; }
      }
    } else {
      assert TrimLeft(s) == s[0..];
    }
  }

  lemma {:induction false} TrimRightIsPrefix(s: string)
    ensures exists n | 0 <= n <= |s| :: TrimRight(s) == s[..n] && forall i :: n <= i < |s| ==> IsSpace(s[i])
    decreases |s|
  {
    if s != "" && IsSpace(s[|s| - 1]) {
      var t := s[..|s| - 1];
      TrimRightIsPrefix(t);
      var n :| 0 <= n <= |t| && TrimRight(t) == t[..n] && forall i :: n <= i < |t| ==> IsSpace(t[i]);
      assert t[..n] == s[..n];
      assert forall i :: n <= i < |t| ==> s[i] == t[i];
    } else {
      assert TrimRight(s) == s[..|s|];
    }
  }

  /** `strings.Split(strings.TrimSpace(text), "\n")` on a text given by its lines. */
  lemma SplitTrimmed(lines: seq<string>)
    requires lines != [] && NewlineFree(lines)
    ensures Split(TrimSpace(Join(lines, "\n")), '\n') == TrimLines(lines)
    ensures NewlineFree(TrimLines(lines))
  {
    TrimLeftJoin(lines);
    TrimFirstNewlineFree(lines);
    TrimRightJoin(TrimFirst(lines));
    TrimLastNewlineFree(TrimFirst(lines));
    SplitJoin(TrimLines(lines), '\n');
  }

  // ----- searching a text made of lines

  lemma {:induction false} ContainsAcrossNewline(a: string, b: string, sub: string)
    requires sub != "" && Free(sub, '\n')
    ensures Contains(a + "\n" + b, sub) <==> Contains(a, sub) || Contains(b, sub)
  {
    var t := a + "\n" + b;
    assert t[|a|] == '\n';
    if |a| < |sub| {
      assert sub[|a|] != '\n';
      assert !(sub <= t) && !(sub <= a);
    } else {
      assert t[..|sub|] == a[..|sub|];
      assert sub <= t <==> sub <= a;
    }
    if a == "" {
      assert t[1..] == b;
    } else {
      assert t[1..] == a[1..] + "\n" + b;
      ContainsAcrossNewline(a[1..], b, sub);
    }
  }

  lemma {:induction false} ContainsRender(lines: seq<string>, sub: string)
    requires sub != "" && Free(sub, '\n')
    ensures Contains(Render(lines), sub) <==> exists i :: 0 <= i < |lines| && Contains(lines[i], sub)
  {
    if lines != [] {
      ContainsAcrossNewline(lines[0], Render(lines[1..]), sub);
      ContainsRender(lines[1..], sub);
      if Contains(Render(lines[1..]), sub) {
        var j :| 0 <= j < |lines[1..]| && Contains(lines[1..][j], sub);
        assert lines[j + 1] == lines[1..][j];
      }
      if i :| 0 <= i < |lines| && Contains(lines[i], sub) {
        if i > 0 { assert lines[i] == lines[1..][i - 1]; }
      }
    }
  }

  lemma {:induction false} ContainsTrimLeft(s: string, sub: string)
    requires sub != "" && !IsSpace(sub[0])
    ensures Contains(TrimLeft(s), sub) <==> Contains(s, sub)
  {
    if s != "" && IsSpace(s[0]) {
      ContainsTrimLeft(s[1..], sub);
    }
  }

  lemma {:induction false} ContainsSnoc(s: string, c: char, sub: string)
    requires sub != "" && sub[|sub| - 1] != c
    ensures Contains(s + [c], sub) <==> Contains(s, sub)
  {
    var t := s + [c];
    assert sub <= t <==> sub <= s by {
      if |sub| <= |s| {
        assert t[..|sub|] == s[..|sub|];
      } else {
        assert t[|t| - 1] == c;
      }
    }
    if s != "" {
      assert t[1..] == s[1..] + [c];
      ContainsSnoc(s[1..], c, sub);
    }
  }

  lemma {:induction false} ContainsTrimRight(s: string, sub: string)
    requires sub != "" && !IsSpace(sub[|sub| - 1])
    ensures Contains(TrimRight(s), sub) <==> Contains(s, sub)
    decreases |s|
  {
    if s != "" && IsSpace(s[|s| - 1]) {
      var t := s[..|s| - 1];
      assert s == t + [s[|s| - 1]];
      ContainsSnoc(t, s[|s| - 1], sub);
      ContainsTrimRight(t, sub);
    }
  }

  /** Trimming the text of some lines does not change whether a word occurs in one of them. */
  lemma ContainsTrimmedRender(lines: seq<string>, sub: string)
    requires sub != "" && Free(sub, '\n') && !IsSpace(sub[0]) && !IsSpace(sub[|sub| - 1])
    ensures Contains(TrimSpace(Render(lines)), sub) <==> exists i :: 0 <= i < |lines| && Contains(lines[i], sub)
  {
    ContainsTrimRight(TrimLeft(Render(lines)), sub);
    ContainsTrimLeft(Render(lines), sub);
    ContainsRender(lines, sub);
  }
}
