/** The parts of Go's `strings`, `strconv` and `unicode` packages that the modelled code calls,
    with the laws about them that several modules need. */
module Strings {

  datatype Option<+T> = None | Some(value: T)

  /** `unicode.IsSpace`. */
  predicate IsSpace(c: char) {
    c == ' ' || '\t' <= c <= '\r' || c == '\U{85}' || c == '\U{A0}' || c == '\U{1680}' ||
    '\U{2000}' <= c <= '\U{200A}' || c == '\U{2028}' || c == '\U{2029}' || c == '\U{202F}' ||
    c == '\U{205F}' || c == '\U{3000}'
  }

  function TrimLeft(s: string): string {
    if s != "" && IsSpace(s[0]) then TrimLeft(s[1..]) else s
  }

  function TrimRight(s: string): string {
    if s != "" && IsSpace(s[|s| - 1]) then TrimRight(s[..|s| - 1]) else s
  }

  function TrimSpace(s: string): string {
    TrimRight(TrimLeft(s))
  }

  lemma {:induction false} TrimRightHead(s: string)
    requires s != "" && !IsSpace(s[0])
    ensures TrimRight(s) != "" && TrimRight(s)[0] == s[0] && TrimRight(TrimRight(s)) == TrimRight(s)
    decreases |s|
  {
    if IsSpace(s[|s| - 1]) { TrimRightHead(s[..|s| - 1]); }
  }

  lemma {:induction false} TrimLeftHead(s: string)
    ensures TrimLeft(s) != "" ==> !IsSpace(TrimLeft(s)[0])
  {
    if s != "" && IsSpace(s[0]) { TrimLeftHead(s[1..]); }
  }

  lemma TrimTwice(s: string)
    ensures TrimSpace(TrimSpace(s)) == TrimSpace(s)
  {
    TrimLeftHead(s);
    if TrimLeft(s) != "" { TrimRightHead(TrimLeft(s)); }
  }

  function Lower(c: char): char {
    if 'A' <= c <= 'Z' then (c as int + 32) as char else c
  }

  /** `strings.ToLower` on ASCII letters; other characters are left as they are. */
  function ToLower(s: string): (r: string)
    ensures |r| == |s|
  {
    seq(|s|, i requires 0 <= i < |s| => Lower(s[i]))
  }

  /** `strings.Contains`. */
  predicate Contains(s: string, sub: string) {
    sub <= s || (s != "" && Contains(s[1..], sub))
  }

  predicate Free(s: string, c: char) {
    forall i :: 0 <= i < |s| ==> s[i] != c
  }

  /** `strings.Split` with a one-character separator. */
  function Split(s: string, sep: char): (parts: seq<string>)
    ensures |parts| >= 1
    ensures forall i :: 0 <= i < |parts| ==> Free(parts[i], sep)
  {
    if s == "" then [""]
    else
      var rest := Split(s[1..], sep);
      if s[0] == sep then [""] + rest else [[s[0]] + rest[0]] + rest[1..]
  }

  /** `strings.Join`. */
  function Join(parts: seq<string>, sep: string): string {
    if parts == [] then ""
    else if |parts| == 1 then parts[0]
    else parts[0] + sep + Join(parts[1..], sep)
  }

  /** Splitting off one piece that holds no separator. */
  lemma {:induction false} SplitFirst(a: string, b: string, sep: char)
    requires Free(a, sep)
    ensures Split(a + [sep] + b, sep) == [a] + Split(b, sep)
    ensures Split(a, sep) == [a]
  {
    if a == "" {
      assert a + [sep] + b == [sep] + b;
    } else {
      assert forall i :: 0 <= i < |a[1..]| ==> a[1..][i] == a[i + 1];
      SplitFirst(a[1..], b, sep);
      assert (a + [sep] + b)[1..] == a[1..] + [sep] + b;
      assert a == [a[0]] + a[1..];
    }
  }

  /** Cutting a joined text at its separators gives the pieces back. */
  lemma {:induction false} SplitJoin(parts: seq<string>, sep: char)
    requires parts != [] && forall i :: 0 <= i < |parts| ==> Free(parts[i], sep)
    ensures Split(Join(parts, [sep]), sep) == parts
  {
    if |parts| == 1 {
      SplitFirst(parts[0], "", sep);
    } else {
      SplitFirst(parts[0], Join(parts[1..], [sep]), sep);
      SplitJoin(parts[1..], sep);
    }
  }

  /** `strings.Cut` at a one-character separator: the text before it, the text after it, found. */
  function Cut(s: string, sep: char): (r: (string, string, bool))
    ensures r.2 ==> s == r.0 + [sep] + r.1 && Free(r.0, sep)
    ensures !r.2 ==> r.0 == s && r.1 == "" && Free(s, sep)
  {
    if s == "" then ("", "", false)
    else if s[0] == sep then ("", s[1..], true)
    else
      var (a, b, found) := Cut(s[1..], sep);
      ([s[0]] + a, b, found)
  }

  function FlushWord(cur: string, rest: seq<string>): seq<string> {
    if cur == "" then rest else [cur] + rest
  }

  /** `strings.Fields`, with the word being read so far. */
  function FieldsFrom(s: string, cur: string): seq<string> {
    if s == "" then FlushWord(cur, [])
    else if IsSpace(s[0]) then FlushWord(cur, FieldsFrom(s[1..], ""))
    else FieldsFrom(s[1..], cur + [s[0]])
  }

  function Fields(s: string): seq<string> {
    FieldsFrom(s, "")
  }

  // ----- numbers

  predicate IsDigit(c: char) { '0' <= c <= '9' }

  predicate AllDigits(s: string) {
    forall i :: 0 <= i < |s| ==> IsDigit(s[i])
  }

  function DigitsOf(n: nat): (s: string)
    ensures s != "" && AllDigits(s)
  {
    var d := [(n % 10 + '0' as int) as char];
    if n < 10 then d else DigitsOf(n / 10) + d
  }

  function ValueOf(s: string): nat
    requires AllDigits(s)
  {
    if s == "" then 0 else 10 * ValueOf(s[..|s| - 1]) + (s[|s| - 1] as int - '0' as int)
  }

  lemma {:induction false} ValueOfDigits(n: nat)
    ensures ValueOf(DigitsOf(n)) == n
  {
    var s := DigitsOf(n);
    if n >= 10 {
      ValueOfDigits(n / 10);
      assert s[..|s| - 1] == DigitsOf(n / 10);
    } else {
      assert s[..|s| - 1] == "";
    }
  }

  const MaxInt: int := 0x7FFF_FFFF_FFFF_FFFF

  /** `strconv.Itoa`. */
  function Itoa(n: int): (s: string)
    ensures s != "" && forall i :: 0 <= i < |s| ==> s[i] == '-' || IsDigit(s[i])
    ensures s[0] == '-' <==> n < 0
  {
    if n < 0 then "-" + DigitsOf(-n) else DigitsOf(n)
  }

  /** `strconv.Atoi` on a 64-bit machine: an optional sign and digits, in range. */
  function Atoi(s: string): (r: Option<int>) {
    var neg := s != "" && s[0] == '-';
    var body := if s != "" && (s[0] == '-' || s[0] == '+') then s[1..] else s;
    if body == "" || !AllDigits(body) then None
    else
      var v: int := ValueOf(body);
      if neg then (if v <= MaxInt + 1 then Some(0 - v) else None)
      else if v <= MaxInt then Some(v) else None
  }

  lemma AtoiItoa(n: int)
    requires -MaxInt - 1 <= n <= MaxInt
    ensures Atoi(Itoa(n)) == Some(n)
  {
    if n < 0 {
      ValueOfDigits(-n);
      assert Itoa(n)[1..] == DigitsOf(-n);
    } else {
      ValueOfDigits(n);
    }
  }

  lemma ItoaInjective(m: int, n: int)
    requires Itoa(m) == Itoa(n)
    ensures m == n
  {
    if (m < 0) == (n < 0) {
      var a, b := if m < 0 then -m else m, if n < 0 then -n else n;
      ValueOfDigits(a);
      ValueOfDigits(b);
      if m < 0 {
        assert Itoa(m)[1..] == DigitsOf(a) && Itoa(n)[1..] == DigitsOf(b);
      }
    }
  }

  // ----- counting occurrences

  /** `strings.Count` for a non-empty substring: occurrences that do not overlap, from the left. */
  function Count(s: string, sub: string): nat
    requires sub != ""
  {
    if |s| < |sub| then 0
    else if sub <= s then 1 + Count(s[|sub|..], sub)
    else Count(s[1..], sub)
  }

  lemma {:induction false} CountAcrossNewline(a: string, b: string, sub: string)
    requires sub != "" && Free(sub, '\n')
    ensures Count(a + "\n" + b, sub) == Count(a, sub) + Count(b, sub)
    decreases |a|
  {
    var t := a + "\n" + b;
    assert t[|a|] == '\n';
    if |a| < |sub| {
      assert sub[|a|] != '\n';
      assert !(sub <= t);
      if a == "" {
        assert t[1..] == b;
      } else {
        assert t[1..] == a[1..] + "\n" + b;
        CountAcrossNewline(a[1..], b, sub);
      }
    } else {
      assert t[..|sub|] == a[..|sub|];
      if sub <= a {
        assert t[|sub|..] == a[|sub|..] + "\n" + b;
        CountAcrossNewline(a[|sub|..], b, sub);
      } else {
        assert t[1..] == a[1..] + "\n" + b;
        CountAcrossNewline(a[1..], b, sub);
      }
    }
  }
}
