/** The public case-study listing (frontend/src/app/case-studies/page.tsx):
    `getCaseStudies` turns the API's rows into display records, filling
    defaults and splitting the results text into lines, and falls back to
    three built-in case studies when the API cannot be used. */
module CaseStudiesPage {
  import opened Common
  import Text

  /** A case study as the listing receives it in JSON. `results` is
      whatever the API sent (`JNull` when missing). */
  datatype ApiCaseStudy = ApiCaseStudy(
    slug: string,
    client: Option<string>,
    industry: Option<string>,
    title: string,
    challenge: Option<string>,
    solution: Option<string>,
    results: Json)

  /** What the fetch of `/case-studies` yields: a failure of any kind
      (network, non-ok status, a body that is not a JSON array), or the
      array. */
  datatype CasesReply = FetchFailed | Items(items: seq<ApiCaseStudy>)

  /** The page's `CaseStudyShape`. */
  datatype CaseStudyShape = CaseStudyShape(
    slug: string,
    client: string,
    industry: string,
    title: string,
    challenge: string,
    solution: string,
    results: seq<Json>,
    metric: string,
    metricLabel: string)

  const DefaultClient := "Enterprise Client"
  const DefaultIndustry := "Technology"

  /** The text of a built-in case study (marketing copy, kept abstract). */
  datatype Copy = Copy(title: string, challenge: string, solution: string, results: seq<string>)

  /** Strings as JSON strings. */
  function Strs(ss: seq<string>): (r: seq<Json>)
    ensures |r| == |ss| && forall i :: 0 <= i < |r| ==> r[i] == JStr(ss[i])
  {
    seq(|ss|, i requires 0 <= i < |ss| => JStr(ss[i]))
  }

  function StaticCase(c: Copy, slug: string, client: string, industry: string,
                      metric: string, metricLabel: string): CaseStudyShape
  {
    CaseStudyShape(slug, client, industry, c.title, c.challenge, c.solution, Strs(c.results), metric, metricLabel)
  }

  /** The built-in case studies shown when the API is unreachable;
      `copy(k)` is the text of the k-th. */
  function StaticCaseStudies(copy: nat -> Copy): (r: seq<CaseStudyShape>)
    ensures |r| == 3
    ensures forall k :: 0 <= k < |r| ==> r[k].title == copy(k).title && r[k].results == Strs(copy(k).results)
    ensures forall k :: 0 <= k < |r| ==> r[k].metric != "" && r[k].metricLabel != ""
  {
    [ StaticCase(copy(0), "fintech-soc2-compliance", "Series B Fintech Startup", "Financial Technology",
        "12 weeks", "To SOC2 Type II"),
      StaticCase(copy(1), "saas-cloud-resilience", "Mid-Stage SaaS Platform", "Enterprise SaaS",
        "99.99%", "Uptime achieved"),
      StaticCase(copy(2), "ai-soc-transformation", "Cybersecurity Vendor", "Cybersecurity",
        "67%", "Alert reduction") ]
  }

  /** `.filter(Boolean)` on strings: the empty ones go. */
  function DropEmpty(ls: seq<string>): (r: seq<string>)
    ensures |r| <= |ls|
    ensures forall i :: 0 <= i < |r| ==> r[i] != ""
    ensures forall x :: x in r <==> x in ls && x != ""
  {
    if ls == [] then [] else (if ls[0] == "" then [] else [ls[0]]) + DropEmpty(ls[1..])
  }

  /** Dropping the empty strings works list by list: what survives keeps
      its order and its multiplicity. */
  lemma {:induction false} DropEmptyAppend(a: seq<string>, b: seq<string>)
    ensures DropEmpty(a + b) == DropEmpty(a) + DropEmpty(b)
  {
    if a == [] {
      assert a + b == b;
    } else {
      var h := if a[0] == "" then [] else [a[0]];
      assert (a + b)[1..] == a[1..] + b;
      assert DropEmpty(a[1..] + b) == DropEmpty(a[1..]) + DropEmpty(b) by {
        DropEmptyAppend(a[1..], b);
      }
      Text.Regroup(DropEmpty(a + b), h, DropEmpty(a[1..] + b), DropEmpty(a[1..]), DropEmpty(b), DropEmpty(a));
    }
  }

  /** The lines of two texts joined by a newline are the lines of the first
      followed by the lines of the second: no line is lost, merged, split
      or reordered at the boundary. */
  lemma ResultLinesAppend(a: string, b: string)
    ensures ResultLines(a + "\n" + b) == ResultLines(a) + ResultLines(b)
  {
    Text.SplitOnAppend(a, b, '\n');
    DropEmptyAppend(Text.SplitOn(a, '\n'), Text.SplitOn(b, '\n'));
  }

  /** The pieces glued together. */
  function Concat(ls: seq<string>): string {
    if ls == [] then "" else ls[0] + Concat(ls[1..])
  }

  /** The text with every `c` deleted. */
  function Without(s: string, c: char): string {
    if s == [] then "" else (if s[0] == c then "" else [s[0]]) + Without(s[1..], c)
  }

  /** `results.split("\n").filter(Boolean)`. */
  function ResultLines(s: string): (lines: seq<string>)
    ensures forall i :: 0 <= i < |lines| ==> lines[i] != "" && '\n' !in lines[i]
    ensures Concat(lines) == Without(s, '\n')
  {
    var pieces := Text.SplitOn(s, '\n');
    ConcatSplit(s, '\n');
    ConcatDropEmpty(pieces);
    var lines := DropEmpty(pieces);
    assert forall i :: 0 <= i < |lines| ==> '\n' !in lines[i] by {
      forall i | 0 <= i < |lines| ensures '\n' !in lines[i] {
        assert lines[i] in pieces;
        var j :| 0 <= j < |pieces| && pieces[j] == lines[i];
      }
    }
    lines
  }

  /** A text with no line break is one line, unless it is empty. */
  lemma SingleLine(s: string)
    requires '\n' !in s
    ensures ResultLines(s) == if s == "" then [] else [s]
  {
    assert Text.IndexOf(s, '\n') == |s|;
    assert s[..|s|] == s;
  }

  /** The results list: a string is split into its non-empty lines, an
      array kept as it is, and anything else dropped. */
  function Results(j: Json): (r: seq<Json>)
    ensures j.JStr? ==> r == Strs(ResultLines(j.s))
    ensures j.JArr? ==> r == j.items
    ensures !j.JStr? && !j.JArr? ==> r == []
  {
    match j
    case JStr(s) => Strs(ResultLines(s))
    case JArr(items) => items
    case _ => []
  }

  /** The mapping applied to one API row. */
  function MapCaseStudy(cs: ApiCaseStudy): (r: CaseStudyShape)
    ensures r.slug == cs.slug && r.title == cs.title
    ensures r.client == OrDefault(cs.client, DefaultClient) && r.client != ""
    ensures r.industry == OrDefault(cs.industry, DefaultIndustry) && r.industry != ""
    ensures r.challenge == cs.challenge.GetOr("") && r.solution == cs.solution.GetOr("")
    ensures r.results == Results(cs.results)
    ensures r.metric == "" && r.metricLabel == ""
  {
    CaseStudyShape(
      cs.slug,
      OrDefault(cs.client, DefaultClient),
      OrDefault(cs.industry, DefaultIndustry),
      cs.title,
      OrDefault(cs.challenge, ""),
      OrDefault(cs.solution, ""),
      Results(cs.results),
      "",
      "")
  }

  /** `getCaseStudies()`: the three built-in case studies on any failure,
      otherwise one mapped record per row, in order. */
  function GetCaseStudies(reply: CasesReply, copy: nat -> Copy): (r: seq<CaseStudyShape>)
    ensures reply.FetchFailed? ==> r == StaticCaseStudies(copy)
    ensures reply.Items? ==> |r| == |reply.items|
    ensures reply.Items? ==> forall i :: 0 <= i < |r| ==> r[i] == MapCaseStudy(reply.items[i])
  {
    match reply
    case FetchFailed => StaticCaseStudies(copy)
    case Items(items) => seq(|items|, i requires 0 <= i < |items| => MapCaseStudy(items[i]))
  }

  /** Records from the API never carry a metric; the built-in ones always
      do, so a metric on the page means the API was not used. */
  lemma MetricMeansFallback(reply: CasesReply, copy: nat -> Copy, i: nat)
    requires i < |GetCaseStudies(reply, copy)|
    ensures GetCaseStudies(reply, copy)[i].metric != "" <==> reply.FetchFailed?
  {
  }

  /** Dropping empty pieces does not change what they spell. */
  lemma {:induction false} ConcatDropEmpty(ls: seq<string>)
    ensures Concat(DropEmpty(ls)) == Concat(ls)
  {
    if ls != [] {
      ConcatDropEmpty(ls[1..]);
      var rest := DropEmpty(ls[1..]);
      if ls[0] != "" {
        var d := [ls[0]] + rest;
        assert d[0] == ls[0] && d[1..] == rest;
      } else {
        assert [] + rest == rest;
      }
    }
  }

  lemma {:induction false} WithoutAppend(a: string, b: string, c: char)
    ensures Without(a + b, c) == Without(a, c) + Without(b, c)
  {
    if a != [] {
      assert (a + b)[0] == a[0] && (a + b)[1..] == a[1..] + b;
      WithoutAppend(a[1..], b, c);
    } else {
      assert a + b == b;
    }
  }

  lemma {:induction false} WithoutAbsent(a: string, c: char)
    requires c !in a
    ensures Without(a, c) == a
  {
    if a != [] {
      WithoutAbsent(a[1..], c);
      assert a == [a[0]] + a[1..];
    }
  }

  /** The pieces of a split spell the text without its separators. */
  lemma {:induction false} ConcatSplit(s: string, c: char)
    ensures Concat(Text.SplitOn(s, c)) == Without(s, c)
    decreases |s|, 1
  {
    if c !in s {
      assert Text.SplitOn(s, c) == [s] by {
        Text.SplitOnNone(s, c);
      }
      assert Concat([s]) == s + Concat([]);
      WithoutAbsent(s, c);
    } else {
      ConcatSplitCut(s, c);
    }
  }

  /** The case of `ConcatSplit` where `s` holds a `c`. */
  lemma {:induction false} ConcatSplitCut(s: string, c: char)
    requires c in s
    ensures Concat(Text.SplitOn(s, c)) == Without(s, c)
    decreases |s|, 0
  {
    Text.SplitOnFirst(s, c);
    var k := Text.IndexOf(s, c);
    var rest := s[k + 1..];
    var tail := Text.SplitOn(rest, c);
    assert Concat(tail) == Without(rest, c) by {
      ConcatSplit(rest, c);
    }
    assert Concat([s[..k]] + tail) == s[..k] + Concat(tail) by {
      var pieces := [s[..k]] + tail;
      assert pieces[0] == s[..k] && pieces[1..] == tail;
    }
    WithoutSeparator(s, k, c);
  }

  /** Deleting the `c`s of a text whose first `c` is at `k`. */
  lemma WithoutSeparator(s: string, k: nat, c: char)
    requires k < |s| && s[k] == c && c !in s[..k]
    ensures Without(s, c) == s[..k] + Without(s[k + 1..], c)
  {
    var rest := s[k + 1..];
    assert s == s[..k] + ([c] + rest);
    WithoutAppend(s[..k], [c] + rest, c);
    WithoutAbsent(s[..k], c);
    assert ([c] + rest)[0] == c && ([c] + rest)[1..] == rest;
  }
}
