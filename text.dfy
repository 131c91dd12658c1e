/** String operations of the JavaScript runtime and the database that the
    services use: `split(/\s+/)`, `split("\n")`, case-insensitive matching
    (ILIKE), number-to-text and `parseInt`. */
module Text {

  /** The characters matched by `\s` in a JavaScript regular expression. */
  predicate IsWs(c: char) {
    c == ' ' || c == '\t' || c == '\n' || c == '\r' || c == '\U{000B}' || c == '\U{000C}'
    || c == '\U{00A0}' || c == '\U{1680}' || ('\U{2000}' <= c <= '\U{200A}')
    || c == '\U{2028}' || c == '\U{2029}' || c == '\U{202F}' || c == '\U{205F}'
    || c == '\U{3000}' || c == '\U{FEFF}'
  }

  predicate NoWs(s: string) {
    forall i :: 0 <= i < |s| ==> !IsWs(s[i])
  }

  /** Length of the longest prefix without whitespace. */
  function WordEnd(s: string): (k: nat)
    ensures k <= |s| && NoWs(s[..k])
    ensures k < |s| ==> IsWs(s[k])
  {
    if s == [] || IsWs(s[0]) then 0
    else
      var k := 1 + WordEnd(s[1..]);
      assert s[..k] == [s[0]] + s[1..][..k - 1];
      k
  }

  /** Length of the longest prefix made only of whitespace. */
  function RunEnd(s: string): (k: nat)
    ensures k <= |s|
    ensures forall i :: 0 <= i < k ==> IsWs(s[i])
    ensures k < |s| ==> !IsWs(s[k])
  {
    if s == [] || !IsWs(s[0]) then 0 else 1 + RunEnd(s[1..])
  }

  /** `s.split(/\s+/)`: the pieces between maximal whitespace runs. A leading
      or trailing run yields an empty first or last piece, and "" yields
      [""], so there is always at least one piece. */
  function SplitWs(s: string): (r: seq<string>)
    ensures |r| >= 1
    ensures forall i :: 0 <= i < |r| ==> NoWs(r[i])
    decreases |s|
  {
    var k := WordEnd(s);
    if k == |s| then [s]
    else
      var j := k + RunEnd(s[k..]);
      [s[..k]] + SplitWs(s[j..])
  }

  /** Reference count: the number of positions where a whitespace run
      begins, found by a left-to-right scan that remembers whether the
      previous character was whitespace. */
  function RunStarts(s: string, prevWs: bool): nat {
    if s == [] then 0
    else (if IsWs(s[0]) && !prevWs then 1 else 0) + RunStarts(s[1..], IsWs(s[0]))
  }

  function WsRuns(s: string): nat {
    RunStarts(s, false)
  }

  lemma {:induction false} RunStartsSkipWord(s: string, k: nat)
    requires k <= |s| && NoWs(s[..k])
    ensures RunStarts(s, false) == RunStarts(s[k..], false)
  {
    if k > 0 {
      assert !IsWs(s[0]) by { assert s[..k][0] == s[0]; }
      assert s[1..][..k - 1] == s[..k][1..];
      RunStartsSkipWord(s[1..], k - 1);
      assert s[1..][k - 1..] == s[k..];
    }
  }

  lemma {:induction false} RunStartsSkipRun(s: string, m: nat)
    requires 0 < m <= |s|
    requires forall i :: 0 <= i < m ==> IsWs(s[i])
    ensures RunStarts(s, true) == RunStarts(s[m..], true)
  {
    if m > 1 {
      RunStartsSkipRun(s[1..], m - 1);
      assert s[1..][m - 1..] == s[m..];
    }
  }

  lemma PrevIrrelevant(s: string)
    requires s == [] || !IsWs(s[0])
    ensures RunStarts(s, true) == RunStarts(s, false)
  {
  }

  /** The number of pieces is one more than the number of whitespace runs. */
  lemma {:induction false} SplitWsCount(s: string)
    ensures |SplitWs(s)| == 1 + WsRuns(s)
    decreases |s|
  {
    var k := WordEnd(s);
    RunStartsSkipWord(s, k);
    if k == |s| {
      assert s[k..] == [];
    } else {
      var j := SplitWsStep(s);
      var t := s[k..];
      RunStartsAtRun(t, j - k);
      assert t[j - k..] == s[j..];
      SplitWsCount(s[j..]);
    }
  }

  /** After the first word, the split goes on past the run that follows
      it; `j` is where that run ends. */
  lemma SplitWsStep(s: string) returns (j: nat)
    requires WordEnd(s) < |s|
    ensures WordEnd(s) < j <= |s| && j == WordEnd(s) + RunEnd(s[WordEnd(s)..])
    ensures |SplitWs(s)| == 1 + |SplitWs(s[j..])|
  {
    var k := WordEnd(s);
    assert RunEnd(s[k..]) > 0 by {
      assert s[k..][0] == s[k];
    }
    j := k + RunEnd(s[k..]);
    SplitWsUnfold(s, k, j);
  }

  lemma SplitWsUnfold(s: string, k: nat, j: nat)
    requires k == WordEnd(s) < |s| && j == k + RunEnd(s[k..])
    ensures SplitWs(s) == [s[..k]] + SplitWs(s[j..])
  {
  }

  /** A text that opens with a run of `m` whitespace characters starts one
      run more than what follows the run. */
  lemma RunStartsAtRun(t: string, m: nat)
    requires 0 < m <= |t| && m == RunEnd(t)
    ensures RunStarts(t, false) == 1 + RunStarts(t[m..], false)
  {
    assert RunStarts(t, false) == 1 + RunStarts(t, true);
    RunStartsSkipRun(t, m);
    PrevIrrelevant(t[m..]);
  }

  /** Lowercasing as the database's case-insensitive comparison does it for
      ASCII letters. */
  function LowerChar(c: char): char {
    if 'A' <= c <= 'Z' then (c as int + 32) as char else c
  }

  function Lower(s: string): (r: string)
    ensures |r| == |s|
    ensures forall i :: 0 <= i < |s| ==> r[i] == LowerChar(s[i])
  {
    seq(|s|, i requires 0 <= i < |s| => LowerChar(s[i]))
  }

  /** `needle` occurs in `hay` as a contiguous piece. */
  predicate IsSubstring(needle: string, hay: string) {
    exists i :: 0 <= i <= |hay| - |needle| && OccursAt(needle, hay, i)
  }

  predicate OccursAt(needle: string, hay: string, i: int)
    requires 0 <= i <= |hay| - |needle|
  {
    hay[i..i + |needle|] == needle
  }

  /** `column ILIKE '%query%'` without wildcard characters in the query. */
  predicate ContainsIgnoreCase(hay: string, query: string) {
    IsSubstring(Lower(query), Lower(hay))
  }

  lemma EmptyQueryMatches(hay: string)
    ensures ContainsIgnoreCase(hay, "")
  {
    assert OccursAt(Lower(""), Lower(hay), 0);
  }

  predicate IsDigit(c: char) {
    '0' <= c <= '9'
  }

  function DigitChar(d: nat): (c: char)
    requires d < 10
    ensures IsDigit(c)
  {
    ('0' as int + d) as char
  }

  /** Decimal digits of a natural number, most significant first. */
  function Digits(n: nat): (r: string)
    ensures |r| >= 1
    ensures forall i :: 0 <= i < |r| ==> IsDigit(r[i])
  {
    if n < 10 then [DigitChar(n)] else Digits(n / 10) + [DigitChar(n % 10)]
  }

  /** How a JavaScript template literal renders an integer. */
  function DecimalText(n: int): (r: string)
    ensures |r| >= 1
  {
    if n < 0 then "-" + Digits(-n) else Digits(n)
  }

  /** `parseInt(s, 10)` on a string of decimal digits. */
  function ParseDigits(s: string): (n: nat)
    requires forall i :: 0 <= i < |s| ==> IsDigit(s[i])
  {
    if s == [] then 0
    else
      assert IsDigit(s[|s| - 1]);
      ParseDigits(s[..|s| - 1]) * 10 + (s[|s| - 1] as int - '0' as int)
  }

  /** Parsing the decimal text of a count gives the count back. */
  lemma {:induction false} ParseDigitsRoundTrip(n: nat)
    ensures ParseDigits(Digits(n)) == n
  {
    if n >= 10 {
      var d := Digits(n);
      assert d[..|d| - 1] == Digits(n / 10);
      ParseDigitsRoundTrip(n / 10);
    }
  }

  /** Index of the first `c` in `s`, or |s| when there is none. */
  function IndexOf(s: string, c: char): (k: nat)
    ensures k <= |s| && c !in s[..k]
    ensures k < |s| ==> s[k] == c
  {
    if s == [] then 0
    else if s[0] == c then 0
    else
      var k := 1 + IndexOf(s[1..], c);
      assert s[..k] == [s[0]] + s[1..][..k - 1];
      k
  }

  /** `s.split(c)` for a one-character separator. */
  function SplitOn(s: string, c: char): (r: seq<string>)
    ensures |r| >= 1
    ensures forall i :: 0 <= i < |r| ==> c !in r[i]
    decreases |s|
  {
    var k := IndexOf(s, c);
    if k == |s| then [s] else [s[..k]] + SplitOn(s[k + 1..], c)
  }

  /** `pieces.join(c)`. */
  function JoinOn(pieces: seq<string>, c: char): string
    requires |pieces| >= 1
  {
    if |pieces| == 1 then pieces[0] else pieces[0] + [c] + JoinOn(pieces[1..], c)
  }

  /** Splitting loses nothing: joining the pieces gives the text back. */
  lemma {:induction false} SplitOnJoin(s: string, c: char)
    ensures JoinOn(SplitOn(s, c), c) == s
    decreases |s|
  {
    var k := IndexOf(s, c);
    if k < |s| {
      var r := SplitOn(s, c);
      SplitOnJoin(s[k + 1..], c);
      assert r[1..] == SplitOn(s[k + 1..], c);
      assert s == s[..k] + [c] + s[k + 1..];
    }
  }

  /** The first `c` of a text made of two parts is the first `c` of the
      first part when it has one, and otherwise lies in the second. */
  lemma {:induction false} IndexOfAppend(a: string, t: string, c: char)
    ensures IndexOf(a + t, c) == if IndexOf(a, c) < |a| then IndexOf(a, c) else |a| + IndexOf(t, c)
  {
    if a == [] {
      assert a + t == t;
    } else if a[0] == c {
      assert (a + t)[0] == c;
    } else {
      IndexOfAppend(a[1..], t, c);
      assert (a + t)[1..] == a[1..] + t;
    }
  }

  /** A text without `c` is a single piece. */
  lemma SplitOnNone(s: string, c: char)
    requires c !in s
    ensures SplitOn(s, c) == [s]
  {
    assert IndexOf(s, c) == |s| by {
      IndexOfAppend(s, [], c);
    }
  }

  /** Splitting at the first `c`: the piece before it, then the pieces of
      what follows it. */
  lemma SplitOnFirst(s: string, c: char)
    requires c in s
    ensures IndexOf(s, c) < |s|
    ensures SplitOn(s, c) == [s[..IndexOf(s, c)]] + SplitOn(s[IndexOf(s, c) + 1..], c)
  {
    var k := IndexOf(s, c);
    assert s[..|s|] == s;
  }

  /** Splitting two texts joined by `c` gives the pieces of the first and
      then those of the second. */
  lemma {:induction false} SplitOnAppend(a: string, b: string, c: char)
    ensures SplitOn(a + [c] + b, c) == SplitOn(a, c) + SplitOn(b, c)
    decreases |a|, 1
  {
    if c in a {
      SplitOnAppendCut(a, b, c);
    } else {
      SplitOnNone(a, c);
      SplitOnAfterPiece(a, b, c);
    }
  }

  /** The case of `SplitOnAppend` where the first part has a `c`. */
  lemma {:induction false} SplitOnAppendCut(a: string, b: string, c: char)
    requires c in a
    ensures SplitOn(a + [c] + b, c) == SplitOn(a, c) + SplitOn(b, c)
    decreases |a|, 0
  {
    SplitOnFirst(a, c);
    var k := IndexOf(a, c);
    var rest := a[k + 1..];
    var x := SplitOn(rest + [c] + b, c);
    assert SplitOn(a + [c] + b, c) == [a[..k]] + x by {
      SplitOnAfterFirst(a, b, c);
    }
    assert x == SplitOn(rest, c) + SplitOn(b, c) by {
      SplitOnAppend(rest, b, c);
    }
    Regroup(SplitOn(a + [c] + b, c), [a[..k]], x, SplitOn(rest, c), SplitOn(b, c), SplitOn(a, c));
  }

  /** Regrouping `h + (y + z)` as `(h + y) + z`. */
  lemma Regroup<T>(s: seq<T>, h: seq<T>, x: seq<T>, y: seq<T>, z: seq<T>, w: seq<T>)
    requires s == h + x && x == y + z && w == h + y
    ensures s == w + z
  {
  }

  /** When the first part has no `c`, it is the first piece and the
      second part follows. */
  lemma SplitOnAfterPiece(a: string, b: string, c: char)
    requires c !in a
    ensures SplitOn(a + [c] + b, c) == [a] + SplitOn(b, c)
  {
    var s := a + [c] + b;
    assert s == a + ([c] + b);
    IndexOfAppend(a, [c] + b, c);
    assert IndexOf(a, c) == |a|;
    assert s[..|a|] == a && s[|a| + 1..] == b;
  }

  /** When the first part has a `c`, the split starts as the first part's
      does and goes on with what follows that `c`. */
  lemma SplitOnAfterFirst(a: string, b: string, c: char)
    requires c in a
    ensures IndexOf(a, c) < |a|
    ensures SplitOn(a + [c] + b, c) == [a[..IndexOf(a, c)]] + SplitOn(a[IndexOf(a, c) + 1..] + [c] + b, c)
  {
    var s := a + [c] + b;
    var k := IndexOf(a, c);
    SplitOnFirst(a, c);
    assert s == a + ([c] + b);
    IndexOfAppend(a, [c] + b, c);
    assert s[..k] == a[..k];
    assert s[k + 1..] == a[k + 1..] + [c] + b;
  }

  predicate StartsWith(s: string, prefix: string) {
    |prefix| <= |s| && s[..|prefix|] == prefix
  }
}
