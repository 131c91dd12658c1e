/** The sitemap and robots.txt builders
    (backend/src/modules/seo/seo.service.ts). The blog and case-study tables
    are passed in; `iso` stands for `Date.prototype.toISOString`. */
module Seo {
  import opened Common
  import opened BlogEntities
  import opened Query
  import CaseStudies

  /** One `<url>` element; static pages have no `lastmod`. */
  datatype UrlEntry = UrlEntry(loc: string, lastmod: Option<string>, changefreq: string, priority: string)

  datatype StaticPage = StaticPage(url: string, priority: string, changefreq: string)

  /** The nine static pages, in sitemap order. */
  const StaticPages: seq<StaticPage> := [
    StaticPage("/", "1.0", "weekly"),
    StaticPage("/solutions", "0.9", "monthly"),
    StaticPage("/solutions/soc2-failure-prevention", "0.8", "monthly"),
    StaticPage("/solutions/cloud-insurance", "0.8", "monthly"),
    StaticPage("/solutions/ai-soc-analyst", "0.8", "monthly"),
    StaticPage("/blog", "0.9", "daily"),
    StaticPage("/case-studies", "0.7", "monthly"),
    StaticPage("/about", "0.6", "monthly"),
    StaticPage("/contact", "0.7", "monthly")]

  /** The XML declaration and the opening `urlset` in the sitemaps 0.9
      namespace. */
  const XmlDeclaration: string := "<?xml version=\"1.0\" encoding=\"UTF-8\"?>\n"
  const UrlsetOpen: string := "<urlset xmlns=\"http://www.sitemaps.org/schemas/sitemap/0.9\">\n"
  const Header: string := XmlDeclaration + UrlsetOpen

  /** The closing tag, without a newline after it. */
  const Footer: string := "</urlset>"

  function StaticEntry(baseUrl: string, page: StaticPage): (e: UrlEntry)
  {
    UrlEntry(baseUrl + page.url, None, page.changefreq, page.priority)
  }

  function PostEntry(baseUrl: string, p: Post, iso: Timestamp -> string): (e: UrlEntry)
  {
    UrlEntry(baseUrl + "/blog/" + p.slug, Some(iso(p.updatedAt)), "weekly", "0.7")
  }

  function CaseStudyEntry(baseUrl: string, c: CaseStudies.CaseStudy, iso: Timestamp -> string): (e: UrlEntry)
  {
    UrlEntry(baseUrl + "/case-studies/" + c.slug, Some(iso(c.createdAt)), "monthly", "0.6")
  }

  function StaticEntries(baseUrl: string): (r: seq<UrlEntry>)
    ensures |r| == 9
    ensures forall i :: 0 <= i < 9 ==> r[i] == StaticEntry(baseUrl, StaticPages[i])
  {
    seq(|StaticPages|, i requires 0 <= i < 9 => StaticEntry(baseUrl, StaticPages[i]))
  }

  function PostEntries(baseUrl: string, posts: seq<Post>, iso: Timestamp -> string): (r: seq<UrlEntry>)
    ensures |r| == |posts|
    ensures forall i :: 0 <= i < |posts| ==> r[i] == PostEntry(baseUrl, posts[i], iso)
  {
    seq(|posts|, i requires 0 <= i < |posts| => PostEntry(baseUrl, posts[i], iso))
  }

  function CaseStudyEntries(baseUrl: string, rows: seq<CaseStudies.CaseStudy>, iso: Timestamp -> string): (r: seq<UrlEntry>)
    ensures |r| == |rows|
    ensures forall i :: 0 <= i < |rows| ==> r[i] == CaseStudyEntry(baseUrl, rows[i], iso)
  {
    seq(|rows|, i requires 0 <= i < |rows| => CaseStudyEntry(baseUrl, rows[i], iso))
  }

  /** The sitemap's entries: static pages, then published posts in the order
      the table returns them, then every case study. */
  function Entries(baseUrl: string, posts: seq<Post>, rows: seq<CaseStudies.CaseStudy>, iso: Timestamp -> string): (r: seq<UrlEntry>)
    ensures |r| == |StaticPages| + |Filter(posts, IsPublished)| + |rows|
  {
    StaticEntries(baseUrl) + PostEntries(baseUrl, Filter(posts, IsPublished), iso) + CaseStudyEntries(baseUrl, rows, iso)
  }

  /** The text of one `<url>` element, one child per line, indented by two
      and four spaces. */
  function RenderEntry(e: UrlEntry): string {
    Line(2, "<url>") + Line(4, Element("loc", e.loc))
    + (if e.lastmod.Some? then Line(4, Element("lastmod", e.lastmod.value)) else "")
    + Line(4, Element("changefreq", e.changefreq)) + Line(4, Element("priority", e.priority))
    + Line(2, "</url>")
  }

  /** `<name>text</name>`: an opening tag, the text unchanged, and the
      matching closing tag. */
  function Element(name: string, text: string): (r: string)
    ensures |r| == 2 * |name| + |text| + 5
    ensures r[0] == '<' && r[1..|name| + 1] == name && r[|name| + 1] == '>'
    ensures r[|name| + 2..|name| + 2 + |text|] == text
    ensures r[|name| + 2 + |text|..] == "</" + name + ">"
  {
    var open := "<" + name + ">";
    var r := open + text + "</" + name + ">";
    assert r[..|open|] == open;
    assert r[|open|..|open| + |text|] == text;
    r
  }

  /** An element's text can be read back from it: two elements with the
      same tag are equal only when their texts are. */
  lemma ElementInjective(name: string, t1: string, t2: string)
    requires Element(name, t1) == Element(name, t2)
    ensures t1 == t2
  {
    var e := Element(name, t1);
    assert t1 == e[|name| + 2..|name| + 2 + |t1|];
  }

  /** One line of the document: `indent` spaces, the text, a newline. */
  function Line(indent: nat, text: string): (r: string)
    ensures |r| == indent + |text| + 1
    ensures forall i :: 0 <= i < indent ==> r[i] == ' '
    ensures r[indent..indent + |text|] == text
    ensures r[|r| - 1] == '\n'
  {
    var r := seq(indent, _ => ' ') + text + "\n";
    assert r[indent..indent + |text|] == text;
    r
  }

  function RenderAll(es: seq<UrlEntry>): string {
    if es == [] then "" else RenderAll(es[..|es| - 1]) + RenderEntry(es[|es| - 1])
  }

  /** Rendering one more entry of a list appends that entry's text. */
  lemma RenderAllPrefix(es: seq<UrlEntry>, i: nat)
    requires i < |es|
    ensures RenderAll(es[..i + 1]) == RenderAll(es[..i]) + RenderEntry(es[i])
  {
    assert es[..i + 1][..i] == es[..i];
  }

  /** Rendering a list of entries is rendering its parts one after the
      other. */
  lemma {:induction false} RenderAllAppend(a: seq<UrlEntry>, b: seq<UrlEntry>)
    ensures RenderAll(a + b) == RenderAll(a) + RenderAll(b)
    decreases |b|
  {
    if b != [] {
      var b' := b[..|b| - 1];
      assert (a + b)[..|a + b| - 1] == a + b';
      RenderAllAppend(a, b');
      Assoc(RenderAll(a), RenderAll(b'), RenderEntry(b[|b| - 1]));
    } else {
      assert a + b == a;
      AppendEmpty(RenderAll(a));
    }
  }

  /** The sitemap document. */
  function Sitemap(baseUrl: string, posts: seq<Post>, rows: seq<CaseStudies.CaseStudy>, iso: Timestamp -> string): string {
    Header + RenderAll(Entries(baseUrl, posts, rows, iso)) + Footer
  }

  /** Appending the rendering of `es[i]` to a text that holds the rendering
      of the entries before it. */
  lemma StepRender(done: string, es: seq<UrlEntry>, i: nat)
    requires i < |es|
    ensures (done + RenderAll(es[..i])) + RenderEntry(es[i]) == done + RenderAll(es[..i + 1])
  {
    RenderAllPrefix(es, i);
    Assoc(done, RenderAll(es[..i]), RenderEntry(es[i]));
  }

  /** One of the three `for ... of` loops: each entry's element is appended
      to the text in order. */
  method AppendEntries(xml: string, es: seq<UrlEntry>) returns (out: string)
    ensures out == xml + RenderAll(es)
  {
    out := xml;
    AppendEmpty(xml);
    assert es[..0] == [];
    for i := 0 to |es|
      invariant out == xml + RenderAll(es[..i])
    {
      StepRender(xml, es, i);
      out := out + RenderEntry(es[i]);
    }
    assert es[..|es|] == es;
  }

  /** `generateSitemap(baseUrl)`: the text grows by one element per static
      page, published post and case study, in that order. */
  method GenerateSitemap(baseUrl: string, posts: seq<Post>, rows: seq<CaseStudies.CaseStudy>,
                         iso: Timestamp -> string) returns (xml: string)
    ensures xml == Sitemap(baseUrl, posts, rows, iso)
  {
    var published := Filter(posts, IsPublished);
    var statics := StaticEntries(baseUrl);
    var postEntries := PostEntries(baseUrl, published, iso);
    var caseEntries := CaseStudyEntries(baseUrl, rows, iso);
    xml := XmlDeclaration;
    xml := xml + UrlsetOpen;
    xml := AppendEntries(xml, statics);
    xml := AppendEntries(xml, postEntries);
    xml := AppendEntries(xml, caseEntries);
    SitemapParts(baseUrl, posts, rows, iso);
    xml := xml + Footer;
  }

  /** The document is the header, the three groups of entries and the
      footer, one after the other. */
  lemma SitemapParts(baseUrl: string, posts: seq<Post>, rows: seq<CaseStudies.CaseStudy>, iso: Timestamp -> string)
    ensures Sitemap(baseUrl, posts, rows, iso) ==
      Header + RenderAll(StaticEntries(baseUrl))
      + RenderAll(PostEntries(baseUrl, Filter(posts, IsPublished), iso))
      + RenderAll(CaseStudyEntries(baseUrl, rows, iso)) + Footer
  {
    var statics := StaticEntries(baseUrl);
    var postEntries := PostEntries(baseUrl, Filter(posts, IsPublished), iso);
    var caseEntries := CaseStudyEntries(baseUrl, rows, iso);
    RenderAllAppend(statics, postEntries);
    RenderAllAppend(statics + postEntries, caseEntries);
    Assoc(Header, RenderAll(statics), RenderAll(postEntries));
    Assoc(Header, RenderAll(statics + postEntries), RenderAll(caseEntries));
  }

  /** The document opens with the XML declaration and `urlset`, and closes
      with `</urlset>`. */
  lemma SitemapFrame(baseUrl: string, posts: seq<Post>, rows: seq<CaseStudies.CaseStudy>, iso: Timestamp -> string)
    ensures StartsWith(Sitemap(baseUrl, posts, rows, iso), Header)
    ensures EndsWith(Sitemap(baseUrl, posts, rows, iso), Footer)
  {
    var body := RenderAll(Entries(baseUrl, posts, rows, iso));
    Assoc(Header, body, Footer);
    PrefixOfAppend(Header, body + Footer);
    SuffixOfAppend(Header + body, Footer);
  }

  lemma PrefixOfAppend(a: string, b: string)
    ensures StartsWith(a + b, a)
  {
    assert (a + b)[..|a|] == a;
  }

  lemma SuffixOfAppend(a: string, b: string)
    ensures EndsWith(a + b, b)
  {
    assert (a + b)[|a|..] == b;
  }

  /** No static page is at `baseUrl/blog/<slug>`: "/blog" is too short and
      every other path differs from "/blog/" in its second character. */
  lemma StaticPathsNotBlogPost(slug: string)
    ensures forall i :: 0 <= i < |StaticPages| ==> StaticPages[i].url != "/blog/" + slug
  {
    var b := "/blog/" + slug;
    assert |b| >= 6 && b[1] == 'b';
    forall i | 0 <= i < |StaticPages| ensures StaticPages[i].url != b {
      var url := StaticPages[i].url;
      assert |url| < 6 || url[1] != 'b';
    }
  }

  lemma StaticsNotBlogPost(baseUrl: string, slug: string)
    ensures forall e :: e in StaticEntries(baseUrl) ==> e.loc != baseUrl + "/blog/" + slug
  {
    var statics := StaticEntries(baseUrl);
    StaticPathsNotBlogPost(slug);
    Assoc(baseUrl, "/blog/", slug);
    forall e | e in statics ensures e.loc != baseUrl + "/blog/" + slug {
      var i :| 0 <= i < |statics| && statics[i] == e;
      PrefixCancel(baseUrl, StaticPages[i].url, "/blog/" + slug);
    }
  }

  lemma CaseStudiesNotBlogPost(baseUrl: string, rows: seq<CaseStudies.CaseStudy>, iso: Timestamp -> string, slug: string)
    ensures forall e :: e in CaseStudyEntries(baseUrl, rows, iso) ==> e.loc != baseUrl + "/blog/" + slug
  {
    var entries := CaseStudyEntries(baseUrl, rows, iso);
    var b := "/blog/" + slug;
    assert b[1] == 'b';
    Assoc(baseUrl, "/blog/", slug);
    forall e | e in entries ensures e.loc != baseUrl + "/blog/" + slug {
      var i :| 0 <= i < |entries| && entries[i] == e;
      var c := "/case-studies/" + rows[i].slug;
      assert c[1] == 'c';
      Assoc(baseUrl, "/case-studies/", rows[i].slug);
      PrefixCancel(baseUrl, c, b);
    }
  }

  lemma PostEntryAtBlog(baseUrl: string, published: seq<Post>, iso: Timestamp -> string, slug: string)
    ensures (exists e :: e in PostEntries(baseUrl, published, iso) && e.loc == baseUrl + "/blog/" + slug)
      <==> (exists p :: p in published && p.slug == slug)
  {
    var entries := PostEntries(baseUrl, published, iso);
    if e :| e in entries && e.loc == baseUrl + "/blog/" + slug {
      var i :| 0 <= i < |entries| && entries[i] == e;
      PrefixCancel(baseUrl + "/blog/", published[i].slug, slug);
      assert published[i] in published;
    }
    if p :| p in published && p.slug == slug {
      var i :| 0 <= i < |published| && published[i] == p;
      assert entries[i] in entries;
    }
  }

  /** A post has a sitemap entry exactly when it is published: an entry at
      `baseUrl/blog/<slug>` exists if and only if some published post has
      that slug. Drafts and archived posts never appear. */
  lemma BlogEntryIffPublished(baseUrl: string, posts: seq<Post>, rows: seq<CaseStudies.CaseStudy>,
                              iso: Timestamp -> string, slug: string)
    ensures (exists e :: e in Entries(baseUrl, posts, rows, iso) && e.loc == baseUrl + "/blog/" + slug)
      <==> (exists p :: p in posts && IsPublished(p) && p.slug == slug)
  {
    var published := Filter(posts, IsPublished);
    var statics := StaticEntries(baseUrl);
    var postEntries := PostEntries(baseUrl, published, iso);
    var caseEntries := CaseStudyEntries(baseUrl, rows, iso);
    StaticsNotBlogPost(baseUrl, slug);
    CaseStudiesNotBlogPost(baseUrl, rows, iso, slug);
    PostEntryAtBlog(baseUrl, published, iso, slug);
    assert forall e :: e in Entries(baseUrl, posts, rows, iso) <==>
      e in statics || e in postEntries || e in caseEntries;
  }

  /** Static pages carry no `lastmod`: the first nine entries have none. */
  lemma StaticsWithoutLastmod(baseUrl: string, posts: seq<Post>, rows: seq<CaseStudies.CaseStudy>, iso: Timestamp -> string)
    ensures forall i :: 0 <= i < |StaticPages| ==> Entries(baseUrl, posts, rows, iso)[i].lastmod.None?
  {
    var es := Entries(baseUrl, posts, rows, iso);
    var statics := StaticEntries(baseUrl);
    assert es[..|StaticPages|] == statics;
    forall i | 0 <= i < |StaticPages| ensures es[i].lastmod.None? {
      assert es[i] == statics[i];
    }
  }

  /** Every post and case-study entry carries a `lastmod`. */
  lemma DynamicWithLastmod(baseUrl: string, posts: seq<Post>, rows: seq<CaseStudies.CaseStudy>, iso: Timestamp -> string)
    ensures forall i :: |StaticPages| <= i < |Entries(baseUrl, posts, rows, iso)| ==>
      Entries(baseUrl, posts, rows, iso)[i].lastmod.Some?
  {
    var es := Entries(baseUrl, posts, rows, iso);
    var statics := StaticEntries(baseUrl);
    var postEntries := PostEntries(baseUrl, Filter(posts, IsPublished), iso);
    var caseEntries := CaseStudyEntries(baseUrl, rows, iso);
    forall i | |StaticPages| <= i < |es| ensures es[i].lastmod.Some? {
      var k := i - |StaticPages|;
      if k < |postEntries| {
        assert es[i] == (statics + postEntries)[i] == postEntries[k];
      } else {
        assert es[i] == caseEntries[k - |postEntries|];
      }
    }
  }

  const RobotsPrefix: string := "User-agent: *\nAllow: /\n\nSitemap: "
  const RobotsSuffix: string := "/api/v1/seo/sitemap.xml\n"

  /** `getRobotsTxt(baseUrl)`: allow everything and point at the sitemap
      endpoint under the API prefix. */
  function RobotsTxt(baseUrl: string): (r: string)
    ensures StartsWith(r, RobotsPrefix)
    ensures |r| == |RobotsPrefix| + |baseUrl| + |RobotsSuffix|
    ensures r[|RobotsPrefix| + |baseUrl|..] == RobotsSuffix
    ensures r[|RobotsPrefix|..|RobotsPrefix| + |baseUrl|] == baseUrl
  {
    "User-agent: *\nAllow: /\n\nSitemap: " + baseUrl + "/api/v1/seo/sitemap.xml\n"
  }

  /** The base URL can be read back from the robots text, so different
      sites get different robots texts. */
  lemma RobotsTxtInjective(a: string, b: string)
    requires RobotsTxt(a) == RobotsTxt(b)
    ensures a == b
  {
    assert |a| == |b|;
  }

  /** Text after a common prefix decides equality. */
  lemma PrefixCancel(prefix: string, a: string, b: string)
    ensures prefix + a == prefix + b <==> a == b
  {
    if prefix + a == prefix + b {
      assert (prefix + a)[|prefix|..] == a;
      assert (prefix + b)[|prefix|..] == b;
    }
  }

  lemma Assoc(a: string, b: string, c: string)
    ensures (a + b) + c == a + (b + c)
  {
  }

  lemma AppendEmpty(a: string)
    ensures a + "" == a
  {
  }

  predicate StartsWith(s: string, prefix: string) {
    |prefix| <= |s| && s[..|prefix|] == prefix
  }

  predicate EndsWith(s: string, suffix: string) {
    |suffix| <= |s| && s[|s| - |suffix|..] == suffix
  }
}
