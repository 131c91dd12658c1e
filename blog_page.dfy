/** The public blog listing (frontend/src/app/blog/page.tsx): `getPosts`
    turns the API's posts into display records, filling defaults, and falls
    back to five built-in posts when the API cannot be used; the page shows
    the first post as featured and the rest below it. */
module BlogPage {
  import opened Common
  import Text

  /** A post as the listing receives it in JSON; nullable columns and the
      optional `author` relation may be missing. Dates arrive as ISO text. */
  datatype ApiPost = ApiPost(
    slug: string,
    title: string,
    excerpt: Option<string>,
    authorName: Option<Option<string>>,   // `p.author?.name`: no author, or its name
    publishedAt: Option<string>,
    createdAt: string,
    readingTime: Option<int>,
    tagNames: Option<seq<string>>)

  /** What the fetch of `/blog/posts?limit=20` yields: a failure of any
      kind (network, non-ok status, unparsable body), or the decoded body
      with or without its `posts` array. */
  datatype PostsReply = FetchFailed | Posts(posts: Option<seq<ApiPost>>)

  /** The page's `BlogPost`; `featured` is an optional flag. */
  datatype BlogPost = BlogPost(
    slug: string,
    title: string,
    excerpt: string,
    author: string,
    date: string,
    readingTime: string,
    tags: seq<string>,
    featured: Option<bool>)

  const DefaultAuthor := "Defnix Engineering"
  const DefaultMinutes := 5
  const MinRead := " min read"

  /** The title and excerpt of a built-in post (marketing copy, kept
      abstract). */
  datatype Copy = Copy(title: string, excerpt: string)

  /** The built-in posts shown when the API is unreachable; `copy(k)` is
      the text of the k-th. */
  function StaticPosts(copy: nat -> Copy): (r: seq<BlogPost>)
    ensures |r| == 5
    ensures forall k :: 0 <= k < |r| ==> r[k].title == copy(k).title && r[k].excerpt == copy(k).excerpt
  {
    [ StaticPost(copy(0), "why-73-percent-soc2-audits-fail", "2026-02-20", "12 min read",
        ["SOC2", "Compliance", "Engineering"], Some(true)),
      StaticPost(copy(1), "cloud-insurance-engineering-discipline", "2026-02-15", "10 min read",
        ["Cloud Security", "Disaster Recovery"], None),
      StaticPost(copy(2), "ai-augmented-soc-analyst", "2026-02-10", "14 min read",
        ["AI", "SOC Operations", "Automation"], None),
      StaticPost(copy(3), "infrastructure-as-code-security-scanning", "2026-02-05", "8 min read",
        ["IaC", "DevSecOps", "CI/CD"], None),
      StaticPost(copy(4), "zero-trust-architecture-startups", "2026-01-28", "11 min read",
        ["Zero Trust", "Architecture"], None) ]
  }

  function StaticPost(c: Copy, slug: string, date: string, readingTime: string,
                      tags: seq<string>, featured: Option<bool>): BlogPost
  {
    BlogPost(slug, c.title, c.excerpt, DefaultAuthor, date, readingTime, tags, featured)
  }

  /** `` `${p.readingTime || 5} min read` ``. */
  function ReadingLabel(minutes: Option<int>): (text: string)
    ensures |text| > |MinRead|
    ensures text[|text| - |MinRead|..] == MinRead
  {
    var n := if minutes.Some? && minutes.value != 0 then minutes.value else DefaultMinutes;
    var text := Text.DecimalText(n) + MinRead;
    assert text[|text| - |MinRead|..] == MinRead;
    text
  }

  /** A missing or zero reading time reads as five minutes. */
  lemma DefaultReadingLabel()
    ensures ReadingLabel(None) == ReadingLabel(Some(0)) == "5 min read"
  {
    assert Text.DecimalText(5) == "5";
  }

  /** A positive reading time can be read back from its text. */
  lemma ReadingLabelRoundTrip(minutes: int)
    requires minutes > 0
    ensures var text := ReadingLabel(Some(minutes));
      var digits := text[..|text| - |MinRead|];
      (forall i :: 0 <= i < |digits| ==> Text.IsDigit(digits[i])) && Text.ParseDigits(digits) == minutes
  {
    var text := ReadingLabel(Some(minutes));
    assert text[..|text| - |MinRead|] == Text.Digits(minutes);
    Text.ParseDigitsRoundTrip(minutes);
  }

  /** The mapping applied to one API post. */
  function MapPost(p: ApiPost): (b: BlogPost)
    ensures b.slug == p.slug && b.title == p.title
    ensures b.excerpt == p.excerpt.GetOr("")
    ensures b.author == OrDefault(if p.authorName.Some? then p.authorName.value else None, DefaultAuthor)
    ensures b.author != ""
    ensures b.date == OrDefault(p.publishedAt, p.createdAt)
    ensures b.readingTime == ReadingLabel(p.readingTime)
    ensures b.tags == p.tagNames.GetOr([])
    ensures b.featured == Some(false)
  {
    BlogPost(
      p.slug,
      p.title,
      OrDefault(p.excerpt, ""),
      OrDefault(if p.authorName.Some? then p.authorName.value else None, DefaultAuthor),
      OrDefault(p.publishedAt, p.createdAt),
      ReadingLabel(p.readingTime),
      p.tagNames.GetOr([]),
      Some(false))
  }

  /** `getPosts()`: the five built-in posts on any failure, otherwise one
      mapped post per API post (none when `posts` is missing), in order. */
  function GetPosts(reply: PostsReply, copy: nat -> Copy): (r: seq<BlogPost>)
    ensures reply.FetchFailed? ==> r == StaticPosts(copy)
    ensures reply.Posts? ==> |r| == |reply.posts.GetOr([])|
    ensures reply.Posts? ==> forall i :: 0 <= i < |r| ==> r[i] == MapPost(reply.posts.GetOr([])[i])
    ensures reply.Posts? ==> forall i :: 0 <= i < |r| ==> r[i].featured == Some(false)
  {
    match reply
    case FetchFailed => StaticPosts(copy)
    case Posts(posts) =>
      var ps := posts.GetOr([]);
      seq(|ps|, i requires 0 <= i < |ps| => MapPost(ps[i]))
  }

  /** Of the built-in posts only the first is flagged featured, and all are
      credited to the default author. */
  lemma StaticPostsShape(copy: nat -> Copy)
    ensures StaticPosts(copy)[0].featured == Some(true)
    ensures forall i :: 1 <= i < |StaticPosts(copy)| ==> StaticPosts(copy)[i].featured.None?
    ensures forall i :: 0 <= i < |StaticPosts(copy)| ==> StaticPosts(copy)[i].author == DefaultAuthor
  {
  }

  /** The page's split: the first post, flagged featured, and the rest. */
  function Split(posts: seq<BlogPost>): (r: (Option<BlogPost>, seq<BlogPost>))
    ensures r.0.None? <==> posts == []
    ensures r.0.Some? ==> r.0.value.featured == Some(true) && r.0.value.slug == posts[0].slug
    ensures |r.1| == if posts == [] then 0 else |posts| - 1
  {
    if posts == [] then (None, []) else (Some(posts[0].(featured := Some(true))), posts[1..])
  }

  /** Featured and secondary together give back the list; only the
      featured flag of the first post differs. */
  lemma {:induction false} SplitReassembles(posts: seq<BlogPost>)
    requires posts != []
    ensures var (featured, secondary) := Split(posts);
      [featured.value.(featured := posts[0].featured)] + secondary == posts
  {
    var (featured, secondary) := Split(posts);
    assert featured.value.(featured := posts[0].featured) == posts[0];
    assert [posts[0]] + posts[1..] == posts;
  }

  /** From the API, the featured post is the first mapped post and every
      secondary post is marked not featured. */
  lemma ApiFeaturedIsFirst(posts: seq<ApiPost>, copy: nat -> Copy)
    requires posts != []
    ensures var (featured, secondary) := Split(GetPosts(Posts(Some(posts)), copy));
      featured == Some(MapPost(posts[0]).(featured := Some(true))) &&
      |secondary| == |posts| - 1 &&
      forall i :: 0 <= i < |secondary| ==> secondary[i] == MapPost(posts[i + 1]) && secondary[i].featured == Some(false)
  {
  }
}
