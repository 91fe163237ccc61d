/** Shell quoting and splitting: what the client prints for a shell, what the browser form reads back
    from a pasted command line, and what a POSIX shell makes of the same text. */
module ShellQuote {
  import opened Strings

  // ----- printing

  /** `strings.ReplaceAll` of each single quote. */
  function EscapeQuotes(s: string): string {
    if s == "" then "" else (if s[0] == '\'' then "'\"'\"'" else [s[0]]) + EscapeQuotes(s[1..])
  }

  function ShellSingleQuote(s: string): string {
    if s == "" then "''" else "'" + EscapeQuotes(s) + "'"
  }

  function RunAsRootCommand(command: string): string { "sh -lc " + ShellSingleQuote(command) }

  function SuCommand(cmd: string): string { "su -c " + ShellSingleQuote(cmd) + " root" }

  function Quoted(args: seq<string>): seq<string> {
    seq(|args|, i requires 0 <= i < |args| => ShellSingleQuote(args[i]))
  }

  // ----- splitting, in the browser

  /** JavaScript's `\s`. */
  predicate IsJsSpace(c: char) {
    c == ' ' || '\t' <= c <= '\r' || c == '\U{A0}' || c == '\U{1680}' || '\U{2000}' <= c <= '\U{200A}' ||
    c == '\U{2028}' || c == '\U{2029}' || c == '\U{202F}' || c == '\U{205F}' || c == '\U{3000}' || c == '\U{FEFF}'
  }

  datatype Mode = Bare | Single | Double

  function Closes(q: Mode): char { if q.Single? then '\'' else '"' }

  function Flush(cur: string, has: bool): seq<string> {
    if cur != "" || has then [cur] else []
  }

  /** What the splitter still returns for the text `s`, in the middle of a word `cur`. */
  function ArgsFrom(s: string, cur: string, q: Mode, has: bool): seq<string>
    decreases |s|
  {
    if s == "" then Flush(cur, has)
    else
      var ch := s[0];
      if q != Bare then
        if ch == Closes(q) then ArgsFrom(s[1..], cur, Bare, has)
        else if ch == '\\' && q.Double? && |s| > 1 then ArgsFrom(s[2..], cur + [s[1]], q, has)
        else ArgsFrom(s[1..], cur + [ch], q, has)
      else if ch == '\'' then ArgsFrom(s[1..], cur, Single, true)
      else if ch == '"' then ArgsFrom(s[1..], cur, Double, true)
      else if ch == '\\' && |s| > 1 then ArgsFrom(s[2..], cur + [s[1]], Bare, true)
      else if IsJsSpace(ch) then Flush(cur, has) + ArgsFrom(s[1..], "", Bare, false)
      else ArgsFrom(s[1..], cur + [ch], Bare, has)
  }

  function Args(s: string): seq<string> { ArgsFrom(s, "", Bare, false) }

  /** `pdSplitArgs`. */
  method PdSplitArgs(s: string) returns (out: seq<string>)
    ensures out == Args(s)
  {
    out := [];
    var cur, q, has := "", Bare, false;
    var i := 0;
    while i < |s|
      invariant i <= |s|
      invariant Args(s) == out + ArgsFrom(s[i..], cur, q, has)
    {
      var ch := s[i];
      assert s[i..][1..] == s[i + 1..];
      assert i + 1 < |s| ==> s[i..][2..] == s[i + 2..];
      if q != Bare {
        if ch == Closes(q) {
          q := Bare;
        } else if ch == '\\' && q.Double? && i + 1 < |s| {
          i := i + 1;
          cur := cur + [s[i]];
        } else {
          cur := cur + [ch];
        }
        i := i + 1;
        continue;
      }
      if ch == '\'' || ch == '"' {
        q, has := if ch == '\'' then Single else Double, true;
        i := i + 1;
        continue;
      }
      if ch == '\\' && i + 1 < |s| {
        i := i + 1;
        cur, has := cur + [s[i]], true;
        i := i + 1;
        continue;
      }
      if IsJsSpace(ch) {
        if cur != "" || has {
          out, cur, has := out + [cur], "", false;
        }
        i := i + 1;
        continue;
      }
      cur := cur + [ch];
      i := i + 1;
    }
    if cur != "" || has {
      out := out + [cur];
    }
  }

  // ----- splitting, in a shell

  /** Unquoted characters that are operators, or that start an expansion, a pattern, or a comment. */
  predicate ShellSpecial(c: char) {
    c in {'|', '&', ';', '<', '>', '(', ')', '$', '`', '\n', '*', '?', '[', '#', '~'}
  }

  /** The words of a simple command after quote removal (sections 2.2 and 2.3 of the POSIX.1-2017
      Shell Command Language); None when the text is more than plain words, or a quote stays open. */
  function WordsFrom(s: string, cur: string, q: Mode, has: bool): Option<seq<string>>
    decreases |s|
  {
    if s == "" then (if q.Bare? then Some(Flush(cur, has)) else None)
    else
      var ch := s[0];
      match q
      case Single =>
        if ch == '\'' then WordsFrom(s[1..], cur, Bare, has) else WordsFrom(s[1..], cur + [ch], q, has)
      case Double =>
        if ch == '"' then WordsFrom(s[1..], cur, Bare, has)
        else if ch == '$' || ch == '`' then None
        else if ch == '\\' && |s| > 1 then
          if s[1] == '\n' then WordsFrom(s[2..], cur, q, has)
          else if s[1] in {'$', '`', '"', '\\'} then WordsFrom(s[2..], cur + [s[1]], q, has)
          else WordsFrom(s[2..], cur + ['\\'] + [s[1]], q, has)
        else WordsFrom(s[1..], cur + [ch], q, has)
      case Bare =>
        if ch == '\'' then WordsFrom(s[1..], cur, Single, true)
        else if ch == '"' then WordsFrom(s[1..], cur, Double, true)
        else if ch == '\\' then
          if |s| == 1 then None
          else if s[1] == '\n' then WordsFrom(s[2..], cur, Bare, has)
          else WordsFrom(s[2..], cur + [s[1]], Bare, true)
        else if ch == ' ' || ch == '\t' then
          var rest := WordsFrom(s[1..], "", Bare, false);
          if rest.None? then None else Some(Flush(cur, has) + rest.value)
        else if ShellSpecial(ch) then None
        else WordsFrom(s[1..], cur + [ch], Bare, has)
  }

  function ShellWords(s: string): Option<seq<string>> { WordsFrom(s, "", Bare, false) }

  // ----- quoting, then splitting

  lemma ReadSingleQuote(t: string, cur: string, has: bool)
    ensures ArgsFrom("'" + t, cur, Bare, has) == ArgsFrom(t, cur, Single, true)
    ensures ArgsFrom("'" + t, cur, Single, has) == ArgsFrom(t, cur, Bare, has)
    ensures ArgsFrom("'" + t, cur, Double, has) == ArgsFrom(t, cur + "'", Double, has)
    ensures WordsFrom("'" + t, cur, Bare, has) == WordsFrom(t, cur, Single, true)
    ensures WordsFrom("'" + t, cur, Single, has) == WordsFrom(t, cur, Bare, has)
    ensures WordsFrom("'" + t, cur, Double, has) == WordsFrom(t, cur + "'", Double, has)
  {
    assert ("'" + t)[1..] == t;
  }

  lemma ReadDoubleQuote(t: string, cur: string, has: bool)
    ensures ArgsFrom("\"" + t, cur, Bare, has) == ArgsFrom(t, cur, Double, true)
    ensures ArgsFrom("\"" + t, cur, Double, has) == ArgsFrom(t, cur, Bare, has)
    ensures WordsFrom("\"" + t, cur, Bare, has) == WordsFrom(t, cur, Double, true)
    ensures WordsFrom("\"" + t, cur, Double, has) == WordsFrom(t, cur, Bare, has)
  {
    assert ("\"" + t)[1..] == t;
  }

  lemma ReadQuotedChar(c: char, t: string, cur: string, has: bool)
    requires c != '\''
    ensures ArgsFrom([c] + t, cur, Single, has) == ArgsFrom(t, cur + [c], Single, has)
    ensures WordsFrom([c] + t, cur, Single, has) == WordsFrom(t, cur + [c], Single, has)
  {
    assert ([c] + t)[1..] == t;
  }

  /** The five characters that stand for a single quote inside single quotes. */
  lemma ReadEscapedQuote(t: string, cur: string)
    ensures ArgsFrom("'\"'\"'" + t, cur, Single, true) == ArgsFrom(t, cur + "'", Single, true)
    ensures WordsFrom("'\"'\"'" + t, cur, Single, true) == WordsFrom(t, cur + "'", Single, true)
  {
    hide ArgsFrom, WordsFrom;
    var t1 := "'" + t;
    var t2 := "\"" + t1;
    var t3 := "'" + t2;
    var t4 := "\"" + t3;
    assert "'\"'\"'" + t == "'" + t4;
    ReadSingleQuote(t4, cur, true);
    ReadDoubleQuote(t3, cur, true);
    ReadSingleQuote(t2, cur, true);
    ReadDoubleQuote(t1, cur + "'", true);
    ReadSingleQuote(t, cur + "'", true);
  }

  lemma {:induction false} InsideQuotes(a: string, rest: string, cur: string)
    ensures ArgsFrom(EscapeQuotes(a) + "'" + rest, cur, Single, true) == ArgsFrom(rest, cur + a, Bare, true)
    ensures WordsFrom(EscapeQuotes(a) + "'" + rest, cur, Single, true) == WordsFrom(rest, cur + a, Bare, true)
    decreases |a|
  {
    hide ArgsFrom, WordsFrom;
    var s := EscapeQuotes(a) + "'" + rest;
    if a == "" {
      ReadSingleQuote(rest, cur, true);
      assert s == "'" + rest && cur + a == cur;
    } else {
      var tail := EscapeQuotes(a[1..]) + "'" + rest;
      InsideQuotes(a[1..], rest, cur + [a[0]]);
      assert cur + [a[0]] + a[1..] == cur + a;
      if a[0] == '\'' {
        ReadEscapedQuote(tail, cur);
        assert s == "'\"'\"'" + tail;
      } else {
        ReadQuotedChar(a[0], tail, cur, true);
        assert s == [a[0]] + tail;
      }
    }
  }

  /** A quoted text is read as that text, both in the browser and in a shell. */
  lemma QuoteIsOneWord(a: string, rest: string, cur: string, has: bool)
    ensures ArgsFrom(ShellSingleQuote(a) + rest, cur, Bare, has) == ArgsFrom(rest, cur + a, Bare, true)
    ensures WordsFrom(ShellSingleQuote(a) + rest, cur, Bare, has) == WordsFrom(rest, cur + a, Bare, true)
  {
    hide ArgsFrom, WordsFrom;
    var body := EscapeQuotes(a) + "'" + rest;
    InsideQuotes(a, rest, cur);
    ReadSingleQuote(body, cur, has);
    assert ShellSingleQuote(a) + rest == "'" + body;
  }

  lemma BlankEndsWord(cur: string, rest: string, has: bool)
    ensures ArgsFrom(" " + rest, cur, Bare, has) == Flush(cur, has) + Args(rest)
    ensures WordsFrom(" " + rest, cur, Bare, has) ==
      (var more := ShellWords(rest); if more.None? then None else Some(Flush(cur, has) + more.value))
  {
    assert (" " + rest)[1..] == rest;
  }

  lemma EndOfText(cur: string, has: bool)
    ensures ArgsFrom("", cur, Bare, has) == Flush(cur, has)
    ensures WordsFrom("", cur, Bare, has) == Some(Flush(cur, has))
  {
  }

  /** For every list of texts, empty ones included: quoting each, joining with blanks, and splitting
      gives the list back, in the browser and in a shell. */
  lemma {:induction false} SplitOfQuoted(args: seq<string>)
    ensures Args(Join(Quoted(args), " ")) == args
    ensures ShellWords(Join(Quoted(args), " ")) == Some(args)
  {
    hide ArgsFrom, WordsFrom, ShellSingleQuote;
    if args == [] {
      EndOfText("", false);
    } else {
      var text := Join(Quoted(args), " ");
      assert "" + args[0] == args[0];
      if |args| == 1 {
        QuoteIsOneWord(args[0], "", "", false);
        EndOfText(args[0], true);
        assert text == ShellSingleQuote(args[0]) + "";
      } else {
        var rest := Join(Quoted(args[1..]), " ");
        assert Quoted(args)[1..] == Quoted(args[1..]);
        SplitOfQuoted(args[1..]);
        QuoteIsOneWord(args[0], " " + rest, "", false);
        BlankEndsWord(args[0], rest, true);
        assert text == ShellSingleQuote(args[0]) + (" " + rest);
        assert args == [args[0]] + args[1..];
      }
    }
  }

  predicate PlainWord(w: string) {
    forall i :: 0 <= i < |w| ==> !ShellSpecial(w[i]) && !IsJsSpace(w[i]) && w[i] !in {'\'', '"', '\\'}
  }

  lemma {:induction false} PlainWordIsRead(w: string, rest: string, cur: string, has: bool)
    requires PlainWord(w)
    ensures WordsFrom(w + rest, cur, Bare, has) == WordsFrom(rest, cur + w, Bare, has)
    decreases |w|
  {
    if w == "" {
      assert w + rest == rest && cur + w == cur;
    } else {
      PlainWordIsRead(w[1..], rest, cur + [w[0]], has);
      assert (w + rest)[1..] == w[1..] + rest && cur + [w[0]] + w[1..] == cur + w;
    }
  }

  function Prepend(word: string, rest: Option<seq<string>>): Option<seq<string>> {
    if rest.None? then None else Some([word] + rest.value)
  }

  lemma WordFirst(a: string, rest: string)
    requires PlainWord(a) && a != ""
    ensures ShellWords(a + (" " + rest)) == Prepend(a, ShellWords(rest))
  {
    hide WordsFrom, ArgsFrom;
    PlainWordIsRead(a, " " + rest, "", false);
    BlankEndsWord(a, rest, false);
    assert "" + a == a;
  }

  lemma QuotedFirst(c: string, rest: string)
    ensures ShellWords(ShellSingleQuote(c)) == Some([c])
    ensures ShellWords(ShellSingleQuote(c) + (" " + rest)) == Prepend(c, ShellWords(rest))
  {
    hide WordsFrom, ArgsFrom, ShellSingleQuote;
    QuoteIsOneWord(c, "", "", false);
    QuoteIsOneWord(c, " " + rest, "", false);
    EndOfText(c, true);
    BlankEndsWord(c, rest, true);
    assert ShellSingleQuote(c) + "" == ShellSingleQuote(c) && "" + c == c;
  }

  lemma LastWord(a: string)
    requires PlainWord(a) && a != ""
    ensures ShellWords(a) == Some([a])
  {
    hide WordsFrom, ArgsFrom;
    PlainWordIsRead(a, "", "", false);
    EndOfText(a, false);
    assert a + "" == a && "" + a == a;
  }

  lemma TwoWordsFirst(a: string, b: string, rest: string)
    requires PlainWord(a) && PlainWord(b) && a != "" && b != ""
    ensures ShellWords(a + " " + b + " " + rest) == Prepend(a, Prepend(b, ShellWords(rest)))
  {
    hide ShellWords, PlainWord;
    WordFirst(b, rest);
    WordFirst(a, b + (" " + rest));
    assert a + " " + b + " " + rest == a + (" " + (b + (" " + rest)));
  }

  /** What `su` and the scripts run reaches `sh` as one argument. */
  lemma RunAsRootArrives(c: string)
    ensures ShellWords(RunAsRootCommand(c)) == Some(["sh", "-lc", c])
  {
    var quoted := ShellSingleQuote(c);
    QuotedFirst(c, "");
    TwoWordsFirst("sh", "-lc", quoted);
    hide ShellWords, ShellSingleQuote, PlainWord;
    assert "sh -lc " == "sh" + " " + "-lc" + " ";
    assert ["sh"] + (["-lc"] + [c]) == ["sh", "-lc", c];
  }

  /** The login shell gives `su` the command `cmd` as one argument. */
  lemma SuCommandArrives(cmd: string)
    ensures ShellWords(SuCommand(cmd)) == Some(["su", "-c", cmd, "root"])
  {
    var quoted := ShellSingleQuote(cmd);
    QuotedFirst(cmd, "root");
    LastWord("root");
    TwoWordsFirst("su", "-c", quoted + (" " + "root"));
    hide ShellWords, ShellSingleQuote, PlainWord;
    assert "su -c " == "su" + " " + "-c" + " " && " root" == " " + "root";
    assert SuCommand(cmd) == "su" + " " + "-c" + " " + (quoted + (" " + "root"));
    assert ["su"] + (["-c"] + ([cmd] + ["root"])) == ["su", "-c", cmd, "root"];
  }

  /** Through two shells: the login shell reads the `su` command line, the shell that `su` starts reads
      its argument, and `sh` is given exactly `c`. */
  lemma {:induction false} RootCommandArrives(c: string)
    ensures ShellWords(SuCommand(RunAsRootCommand(c))) == Some(["su", "-c", RunAsRootCommand(c), "root"])
    ensures ShellWords(ShellWords(SuCommand(RunAsRootCommand(c))).value[2]) == Some(["sh", "-lc", c])
  {
    hide ShellWords, SuCommand, RunAsRootCommand;
    SuCommandArrives(RunAsRootCommand(c));
    RunAsRootArrives(c);
  }

  // ----- where the browser and the shell part

  /** How often the browser reads the text differently: a backslash in double quotes that a shell
      keeps, a line continuation, or a space that is no blank. */
  function Divergences(s: string, q: Mode): nat
    decreases |s|
  {
    if s == "" then 0
    else
      var ch := s[0];
      match q
      case Single => Divergences(s[1..], if ch == '\'' then Bare else q)
      case Double =>
        if ch == '"' then Divergences(s[1..], Bare)
        else if ch == '\\' && |s| > 1 then
          (if s[1] in {'$', '`', '"', '\\'} then 0 else 1) + Divergences(s[2..], q)
        else Divergences(s[1..], q)
      case Bare =>
        if ch == '\'' then Divergences(s[1..], Single)
        else if ch == '"' then Divergences(s[1..], Double)
        else if ch == '\\' && |s| > 1 then (if s[1] == '\n' then 1 else 0) + Divergences(s[2..], Bare)
        else (if OddSpace(ch) then 1 else 0) + Divergences(s[1..], Bare)
  }

  /** Space for the browser, part of a word for the shell. */
  predicate OddSpace(c: char) { IsJsSpace(c) && c !in {' ', '\t', '\n'} }

  function CharWeight(c: char): int {
    if c == '\n' then -1 else if c == '\\' || OddSpace(c) then 1 else 0
  }

  /** Every divergence takes one from the weight of what the browser returns. */
  function Weight(s: string): int {
    if s == "" then 0 else Weight(s[..|s| - 1]) + CharWeight(s[|s| - 1])
  }

  function Total(words: seq<string>): int {
    if words == [] then 0 else Weight(words[0]) + Total(words[1..])
  }

  lemma WeightSnoc(s: string, c: char)
    ensures Weight(s + [c]) == Weight(s) + CharWeight(c)
  {
    assert (s + [c])[..|s|] == s;
  }

  lemma FlushTotal(cur: string, has: bool, rest: seq<string>)
    ensures Total(Flush(cur, has) + rest) == Weight(cur) + Total(rest)
  {
    if cur != "" || has {
      assert (Flush(cur, has) + rest)[1..] == rest;
    } else {
      assert Flush(cur, has) + rest == rest;
    }
  }

  lemma {:induction false} InStep(s: string, q: Mode, cur: string, has: bool, cur': string, has': bool)
    requires WordsFrom(s, cur, q, has).Some?
    ensures Total(WordsFrom(s, cur, q, has).value) - Total(ArgsFrom(s, cur', q, has'))
         == Weight(cur) - Weight(cur') + Divergences(s, q)
    ensures Divergences(s, q) == 0 && cur == cur' && has == has' ==>
      ArgsFrom(s, cur', q, has') == WordsFrom(s, cur, q, has).value
    decreases |s|
  {
    hide Weight, Total, OddSpace, IsJsSpace;
    if s == "" {
      FlushTotal(cur, has, []);
      FlushTotal(cur', has', []);
      assert Flush(cur, has) + [] == Flush(cur, has) && Flush(cur', has') + [] == Flush(cur', has');
    } else {
      match q {
        case Single => InStepSingle(s, cur, has, cur', has');
        case Double => InStepDouble(s, cur, has, cur', has');
        case Bare => InStepBare(s, cur, has, cur', has');
      }
    }
  }

  lemma {:induction false} InStepSingle(s: string, cur: string, has: bool, cur': string, has': bool)
    requires s != "" && WordsFrom(s, cur, Single, has).Some?
    ensures Total(WordsFrom(s, cur, Single, has).value) - Total(ArgsFrom(s, cur', Single, has'))
         == Weight(cur) - Weight(cur') + Divergences(s, Single)
    ensures Divergences(s, Single) == 0 && cur == cur' && has == has' ==>
      ArgsFrom(s, cur', Single, has') == WordsFrom(s, cur, Single, has).value
    decreases |s|, 0
  {
    hide Weight, Total, OddSpace, IsJsSpace;
    if s[0] == '\'' {
      InStep(s[1..], Bare, cur, has, cur', has');
    } else {
      WeightSnoc(cur, s[0]);
      WeightSnoc(cur', s[0]);
      InStep(s[1..], Single, cur + [s[0]], has, cur' + [s[0]], has');
    }
  }

  lemma {:induction false} InStepDouble(s: string, cur: string, has: bool, cur': string, has': bool)
    requires s != "" && WordsFrom(s, cur, Double, has).Some?
    ensures Total(WordsFrom(s, cur, Double, has).value) - Total(ArgsFrom(s, cur', Double, has'))
         == Weight(cur) - Weight(cur') + Divergences(s, Double)
    ensures Divergences(s, Double) == 0 && cur == cur' && has == has' ==>
      ArgsFrom(s, cur', Double, has') == WordsFrom(s, cur, Double, has).value
    decreases |s|, 0
  {
    hide Weight, Total, OddSpace, IsJsSpace;
    if s[0] == '"' {
      InStep(s[1..], Bare, cur, has, cur', has');
    } else if s[0] == '\\' && |s| > 1 {
      WeightSnoc(cur', s[1]);
      if s[1] == '\n' {
        InStep(s[2..], Double, cur, has, cur' + [s[1]], has');
      } else if s[1] in {'$', '`', '"', '\\'} {
        WeightSnoc(cur, s[1]);
        InStep(s[2..], Double, cur + [s[1]], has, cur' + [s[1]], has');
      } else {
        WeightSnoc(cur, '\\');
        WeightSnoc(cur + ['\\'], s[1]);
        InStep(s[2..], Double, cur + ['\\'] + [s[1]], has, cur' + [s[1]], has');
      }
    } else {
      WeightSnoc(cur, s[0]);
      WeightSnoc(cur', s[0]);
      InStep(s[1..], Double, cur + [s[0]], has, cur' + [s[0]], has');
    }
  }

  lemma {:induction false} InStepBare(s: string, cur: string, has: bool, cur': string, has': bool)
    requires s != "" && WordsFrom(s, cur, Bare, has).Some?
    ensures Total(WordsFrom(s, cur, Bare, has).value) - Total(ArgsFrom(s, cur', Bare, has'))
         == Weight(cur) - Weight(cur') + Divergences(s, Bare)
    ensures Divergences(s, Bare) == 0 && cur == cur' && has == has' ==>
      ArgsFrom(s, cur', Bare, has') == WordsFrom(s, cur, Bare, has).value
    decreases |s|, 0
  {
    hide Weight, Total;
    if s[0] == '\'' {
      InStep(s[1..], Single, cur, true, cur', true);
    } else if s[0] == '"' {
      InStep(s[1..], Double, cur, true, cur', true);
    } else if s[0] == '\\' {
      WeightSnoc(cur', s[1]);
      WeightSnoc(cur, s[1]);
      if s[1] == '\n' {
        InStep(s[2..], Bare, cur, has, cur' + [s[1]], true);
      } else {
        InStep(s[2..], Bare, cur + [s[1]], true, cur' + [s[1]], true);
      }
    } else if s[0] == ' ' || s[0] == '\t' {
      InStep(s[1..], Bare, "", false, "", false);
      FlushTotal(cur, has, WordsFrom(s[1..], "", Bare, false).value);
      FlushTotal(cur', has', ArgsFrom(s[1..], "", Bare, false));
    } else if IsJsSpace(s[0]) {
      WeightSnoc(cur, s[0]);
      NoWeight();
      InStep(s[1..], Bare, cur + [s[0]], has, "", false);
      FlushTotal(cur', has', ArgsFrom(s[1..], "", Bare, false));
    } else {
      WeightSnoc(cur, s[0]);
      WeightSnoc(cur', s[0]);
      InStep(s[1..], Bare, cur + [s[0]], has, cur' + [s[0]], has');
    }
  }

  lemma NoWeight()
    ensures Weight("") == 0
  {
  }

  /** On a line that a shell reads as plain words, the browser reads the same words exactly when the
      line has no divergence. */
  lemma {:induction false} BrowserReadsLikeAShell(s: string)
    requires ShellWords(s).Some?
    ensures Args(s) == ShellWords(s).value <==> Divergences(s, Bare) == 0
  {
    InStep(s, Bare, "", false, "", false);
  }

  /** A text on which they part: a backslash before a letter, in double quotes. */
  lemma BackslashInDoubleQuotes()
    ensures Args("\"\\a\"") == ["a"] && ShellWords("\"\\a\"") == Some(["\\a"])
  {
    var s := "\"\\a\"";
    assert s[1..] == "\\a\"" && s[1..][2..] == "\"" && s[1..][2..][1..] == "";
    assert "" + ['\\'] + ['a'] == "\\a" && "" + ['a'] == "a";
    calc {
      ArgsFrom(s, "", Bare, false);
      ArgsFrom(s[1..], "", Double, true);
      ArgsFrom(s[1..][2..], "a", Double, true);
      ArgsFrom("", "a", Bare, true);
    }
    calc {
      WordsFrom(s, "", Bare, false);
      WordsFrom(s[1..], "", Double, true);
      WordsFrom(s[1..][2..], "\\a", Double, true);
      WordsFrom("", "\\a", Bare, true);
    }
  }

  // ----- the browser on every text

  /** A renaming of characters that keeps apart what the splitter keeps apart: quotes and the backslash stay,
      spaces become spaces, and all others stay others. */
  ghost predicate KeepsKinds(f: char -> char) {
    forall c :: if c in {'\'', '"', '\\'} then f(c) == c
                else (IsJsSpace(f(c)) <==> IsJsSpace(c)) && f(c) !in {'\'', '"', '\\'}
  }

  function Renamed(f: char -> char, s: string): (r: string)
    ensures |r| == |s|
  {
    seq(|s|, i requires 0 <= i < |s| => f(s[i]))
  }

  function RenamedAll(f: char -> char, words: seq<string>): (r: seq<string>)
    ensures |r| == |words|
  {
    seq(|words|, i requires 0 <= i < |words| => Renamed(f, words[i]))
  }

  lemma RenamedSnoc(f: char -> char, cur: string, c: char)
    ensures Renamed(f, cur + [c]) == Renamed(f, cur) + [f(c)]
  {
  }

  lemma RenamedFlush(f: char -> char, cur: string, has: bool, rest: seq<string>)
    ensures RenamedAll(f, Flush(cur, has) + rest) == Flush(Renamed(f, cur), has) + RenamedAll(f, rest)
  {
  }

  lemma RenamedRest(f: char -> char, s: string, k: nat)
    requires k <= |s|
    ensures Renamed(f, s)[k..] == Renamed(f, s[k..])
  {
  }

  lemma {:induction false} RenamedArgsFrom(f: char -> char, s: string, cur: string, q: Mode, has: bool)
    requires KeepsKinds(f)
    ensures ArgsFrom(Renamed(f, s), Renamed(f, cur), q, has) == RenamedAll(f, ArgsFrom(s, cur, q, has))
    decreases |s|
  {
    hide IsJsSpace, RenamedAll;
    if s == "" {
      RenamedFlush(f, cur, has, []);
      assert Flush(cur, has) + [] == Flush(cur, has);
      assert RenamedAll(f, []) == [] by { NoneRenamed(f); }
    } else {
      var ch := s[0];
      RenamedRest(f, s, 1);
      RenamedSnoc(f, cur, ch);
      assert Renamed(f, "") == "";
      if |s| > 1 {
        RenamedRest(f, s, 2);
        RenamedSnoc(f, cur, s[1]);
        RenamedArgsFrom(f, s[2..], cur + [s[1]], q, true);
        RenamedArgsFrom(f, s[2..], cur + [s[1]], q, has);
      }
      RenamedArgsFrom(f, s[1..], cur, Bare, has);
      RenamedArgsFrom(f, s[1..], cur, Single, true);
      RenamedArgsFrom(f, s[1..], cur, Double, true);
      RenamedArgsFrom(f, s[1..], cur + [ch], q, has);
      RenamedArgsFrom(f, s[1..], "", Bare, false);
      RenamedFlush(f, cur, has, ArgsFrom(s[1..], "", Bare, false));
    }
  }

  lemma NoneRenamed(f: char -> char)
    ensures RenamedAll(f, []) == []
  {
  }

  /** The splitter knows quotes, the backslash, spaces, and nothing else: operators, dollar signs and
      comment characters are letters to it. */
  lemma ArgsKnowKindsOnly(f: char -> char, s: string)
    requires KeepsKinds(f)
    ensures Args(Renamed(f, s)) == RenamedAll(f, Args(s))
  {
    RenamedArgsFrom(f, s, "", Bare, false);
    assert Renamed(f, "") == "";
  }

  /** What is missing at the end of a text that is read from mode `q` on: the other backslash, and the
      closing quote. */
  function Missing(s: string, q: Mode): string
    decreases |s|
  {
    if s == "" then (if q.Bare? then "" else [Closes(q)])
    else if s == "\\" && !q.Single? then "\\" + Missing("", q)
    else if q.Bare? then
      if s[0] == '\'' then Missing(s[1..], Single)
      else if s[0] == '"' then Missing(s[1..], Double)
      else if s[0] == '\\' then Missing(s[2..], Bare)
      else Missing(s[1..], Bare)
    else if s[0] == Closes(q) then Missing(s[1..], Bare)
    else if s[0] == '\\' && q.Double? then Missing(s[2..], q)
    else Missing(s[1..], q)
  }

  /** A backslash with nothing behind it stands for itself. */
  lemma BackslashAtEnd(cur: string, q: Mode, has: bool)
    requires !q.Single?
    ensures ArgsFrom("\\", cur, q, has) == [cur + "\\"]
    ensures ArgsFrom("\\\\" + Missing("", q), cur, q, has) == [cur + "\\"]
  {
    var one, two := "\\", "\\\\" + Missing("", q);
    assert one[1..] == "" && one[0] == '\\' && cur + [one[0]] == cur + "\\";
    assert two[0] == '\\' && two[1] == '\\' && two[2..] == Missing("", q) && cur + [two[1]] == cur + "\\";
    if q.Double? {
      assert Missing("", q) == "\"" && "\""[1..] == "";
      assert ArgsFrom("\"", cur + "\\", q, has) == ArgsFrom("", cur + "\\", Bare, has);
      assert ArgsFrom(two, cur, q, has) == ArgsFrom("\"", cur + "\\", q, has);
    } else {
      assert Missing("", q) == "";
      assert ArgsFrom(two, cur, q, has) == ArgsFrom("", cur + "\\", q, true);
    }
    assert ArgsFrom(one, cur, q, has) == ArgsFrom("", cur + "\\", q, has);
  }

  lemma {:induction false} CompletedArgsFrom(s: string, cur: string, q: Mode, has: bool)
    ensures ArgsFrom(s + Missing(s, q), cur, q, has) == ArgsFrom(s, cur, q, has)
    decreases |s|
  {
    var all := s + Missing(s, q);
    if s == "" {
      assert all == Missing(s, q);
    } else if s == "\\" && !q.Single? {
      assert all == "\\\\" + Missing("", q);
      BackslashAtEnd(cur, q, has);
    } else {
      assert all[0] == s[0] && all[1..] == s[1..] + Missing(s, q);
      assert |s| > 1 ==> all[1] == s[1] && all[2..] == s[2..] + Missing(s, q);
      hide IsJsSpace;
      if q.Bare? {
        if s[0] == '\'' {
          CompletedArgsFrom(s[1..], cur, Single, true);
        } else if s[0] == '"' {
          CompletedArgsFrom(s[1..], cur, Double, true);
        } else if s[0] == '\\' {
          CompletedArgsFrom(s[2..], cur + [s[1]], Bare, true);
        } else {
          CompletedArgsFrom(s[1..], "", Bare, false);
          CompletedArgsFrom(s[1..], cur + [s[0]], Bare, has);
        }
      } else if s[0] == Closes(q) {
        CompletedArgsFrom(s[1..], cur, Bare, has);
      } else if s[0] == '\\' && q.Double? {
        CompletedArgsFrom(s[2..], cur + [s[1]], q, has);
      } else {
        CompletedArgsFrom(s[1..], cur + [s[0]], q, has);
      }
    }
  }

  /** A text that ends too early, in a quote or behind a backslash, is read as if what is missing were there. */
  lemma ArgsComplete(s: string)
    ensures Args(s + Missing(s, Bare)) == Args(s)
  {
    CompletedArgsFrom(s, "", Bare, false);
  }

  /** Line ends, tabs and the wide spaces separate words as a blank does. */
  lemma {:induction false} AnySpaceSeparates(a: string, c: char, rest: string)
    requires a != "" && forall i :: 0 <= i < |a| ==> 'a' <= a[i] <= 'z'
    requires c in {' ', '\t', '\n', '\r', '\U{0B}', '\U{0C}', '\U{A0}', '\U{2028}', '\U{2029}', '\U{3000}', '\U{FEFF}'}
    ensures Args(a + [c] + rest) == [a] + Args(rest)
  {
    LettersAreRead(a, [c] + rest, "");
    assert a + [c] + rest == a + ([c] + rest) && "" + a == a;
    assert ([c] + rest)[1..] == rest;
  }

  lemma {:induction false} LettersAreRead(a: string, rest: string, cur: string)
    requires forall i :: 0 <= i < |a| ==> 'a' <= a[i] <= 'z'
    ensures ArgsFrom(a + rest, cur, Bare, false) == ArgsFrom(rest, cur + a, Bare, false)
    decreases |a|
  {
    if a == "" {
      assert a + rest == rest && cur + a == cur;
    } else {
      LettersAreRead(a[1..], rest, cur + [a[0]]);
      assert (a + rest)[1..] == a[1..] + rest && cur + [a[0]] + a[1..] == cur + a;
    }
  }
}
