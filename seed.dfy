/** The blog seed script (backend/scripts/seed-blog.ts): find-or-create of
    the house author, four tags, three categories and three published
    articles. The article texts are parameters; generated ids are taken
    from `ids`, one reserved for each row the script may insert. */
module Seed {
  import opened Common
  import opened BlogEntities
  import opened Query
  import Text
  import Blog

  /** A tag or category the script wants: its name and slug. */
  datatype Label = Label(name: string, slug: string)

  /** One article of the script: title, body, excerpt and SEO texts. */
  datatype ArticleText = ArticleText(title: string, content: string, excerpt: string,
                                     seoTitle: string, seoDescription: string)

  /** The tables the script touches. */
  datatype Tables = Tables(authors: seq<Author>, tags: seq<Tag>, categories: seq<Category>, posts: seq<Post>)

  const AuthorName: string := "Defnix Engineering"

  /** The four tags, named by their slugs, in definition order. */
  const TagDefs: seq<Label> := [
    Label("soc2", "soc2"),
    Label("cloud-security", "cloud-security"),
    Label("ai-security", "ai-security"),
    Label("compliance", "compliance")]

  const CategoryDefs: seq<Label> := [
    Label("Engineering", "engineering"),
    Label("Security", "security"),
    Label("AI & Automation", "ai-automation")]

  /** How many tags and categories the script defines. */
  const TagCount := 4
  const CategoryCount := 3

  /** Which of the four tags and three categories each article gets:
      soc2 and compliance / Security; cloud-security / Engineering;
      ai-security and cloud-security / AI & Automation. */
  const ArticleTags: seq<seq<nat>> := [[0, 3], [1], [2, 1]]
  const ArticleCategories: seq<seq<nat>> := [[1], [0], [2]]

  /** The script's own `readingTime(content)`. */
  function SeedReadingTime(content: string): (n: int) {
    (|Text.SplitWs(content)| + 199) / 200
  }

  /** The script computes reading time exactly as the blog service does. */
  lemma SeedReadingTimeAgrees(content: string)
    ensures SeedReadingTime(content) == Blog.ReadingTime(content)
    ensures SeedReadingTime(content) >= 1
  {
  }

  /** Index of the first row whose `key` is `k` (`findOne({ where })`). */
  function IndexWhere<T>(table: seq<T>, key: T -> string, k: string): (r: Option<nat>)
    ensures r.Some? ==> r.value < |table| && key(table[r.value]) == k
    ensures r.None? <==> forall i :: 0 <= i < |table| ==> key(table[i]) != k
  {
    if table == [] then None
    else if key(table[0]) == k then Some(0)
    else match IndexWhere(table[1..], key, k)
      case None => None
      case Some(i) => Some(i + 1)
  }

  function TagName(t: Tag): string { t.name }
  function TagSlug(t: Tag): string { t.slug }
  function MakeTag(id: Id, d: Label): Tag { Tag(id, d.name, d.slug) }
  function CategoryName(c: Category): string { c.name }
  function CategorySlug(c: Category): string { c.slug }
  function MakeCategory(id: Id, d: Label): Category { Category(id, d.name, d.slug) }
  function AuthorNameOf(a: Author): string { a.name }

  /** After a find-or-create loop: the table, the rows found or created in
      definition order, and whether an insert was refused because another
      row already has that (unique) name. */
  datatype Ensured<T> = Ensured(table: seq<T>, found: seq<T>, failed: bool)

  /** The find-or-create loop over `defs`: a row with the slug is reused,
      otherwise one is inserted, unless its name is taken, which stops the
      script. */
  function EnsureAll<T>(table: seq<T>, defs: seq<Label>, ids: seq<Id>,
                        name: T -> string, slug: T -> string, make: (Id, Label) -> T): (r: Ensured<T>)
    requires |defs| <= |ids|
    decreases |defs|
  {
    if defs == [] then Ensured(table, [], false)
    else
      EnsureStep(EnsureAll(table, defs[..|defs| - 1], ids, name, slug, make), defs[|defs| - 1], ids[|defs| - 1],
                 name, slug, make)
  }

  /** One turn of the loop, for definition `d` and fresh id `id`. */
  function EnsureStep<T>(prev: Ensured<T>, d: Label, id: Id,
                         name: T -> string, slug: T -> string, make: (Id, Label) -> T): Ensured<T>
  {
    if prev.failed then prev
    else match IndexWhere(prev.table, slug, d.slug)
      case Some(i) => Ensured(prev.table, prev.found + [prev.table[i]], false)
      case None =>
        if IndexWhere(prev.table, name, d.name).Some? then Ensured(prev.table, prev.found, true)
        else
          var row := make(id, d);
          Ensured(prev.table + [row], prev.found + [row], false)
  }

  /** The loop over the first i + 1 definitions is one more turn after the
      loop over the first i. */
  lemma EnsureAllPrefix<T>(table: seq<T>, defs: seq<Label>, i: nat, ids: seq<Id>,
                           name: T -> string, slug: T -> string, make: (Id, Label) -> T)
    requires i < |defs| <= |ids|
    ensures EnsureAll(table, defs[..i + 1], ids, name, slug, make)
      == EnsureStep(EnsureAll(table, defs[..i], ids, name, slug, make), defs[i], ids[i], name, slug, make)
  {
    assert defs[..i + 1][..i] == defs[..i];
  }

  /** The loop only appends to the table. */
  lemma {:induction false} EnsureAllGrows<T>(table: seq<T>, defs: seq<Label>, ids: seq<Id>,
                                              name: T -> string, slug: T -> string, make: (Id, Label) -> T)
    requires |defs| <= |ids|
    ensures var r := EnsureAll(table, defs, ids, name, slug, make);
      |r.table| >= |table| && r.table[..|table|] == table
    decreases |defs|
  {
    if defs != [] {
      var init := defs[..|defs| - 1];
      EnsureAllGrows(table, init, ids, name, slug, make);
      var prev := EnsureAll(table, init, ids, name, slug, make);
      var r := EnsureAll(table, defs, ids, name, slug, make);
      assert r.table[..|prev.table|] == prev.table;
      assert r.table[..|table|] == prev.table[..|table|];
    }
  }

  /** A successful loop found or made one row per definition, in order,
      each in the table and carrying that definition's slug. */
  lemma {:induction false} EnsureAllFound<T>(table: seq<T>, defs: seq<Label>, ids: seq<Id>,
                                              name: T -> string, slug: T -> string, make: (Id, Label) -> T)
    requires |defs| <= |ids|
    requires forall id, d :: slug(make(id, d)) == d.slug
    ensures var r := EnsureAll(table, defs, ids, name, slug, make);
      !r.failed ==> (|r.found| == |defs| &&
                     forall k :: 0 <= k < |defs| ==> r.found[k] in r.table && slug(r.found[k]) == defs[k].slug)
    decreases |defs|
  {
    if defs != [] {
      var n := |defs| - 1;
      var init := defs[..n];
      EnsureAllFound(table, init, ids, name, slug, make);
      var prev := EnsureAll(table, init, ids, name, slug, make);
      var r := EnsureAll(table, defs, ids, name, slug, make);
      EnsureStepFacts(prev, defs[n], ids[n], name, slug, make);
      if !r.failed {
        forall k | 0 <= k < n ensures r.found[k] in r.table && slug(r.found[k]) == defs[k].slug {
          assert r.found[k] == prev.found[k] && init[k] == defs[k];
        }
      }
    }
  }

  /** What one turn of the loop does: a stopped loop stays stopped, the
      table only grows, and a turn that does not stop adds one row with
      the definition's slug to the rows found. */
  lemma EnsureStepFacts<T>(prev: Ensured<T>, d: Label, id: Id,
                           name: T -> string, slug: T -> string, make: (Id, Label) -> T)
    requires forall id, d :: slug(make(id, d)) == d.slug
    ensures var r := EnsureStep(prev, d, id, name, slug, make);
      (prev.failed ==> r == prev) &&
      (forall x :: x in prev.table ==> x in r.table) &&
      (!r.failed ==> |r.found| == |prev.found| + 1 && r.found[..|prev.found|] == prev.found &&
                     r.found[|prev.found|] in r.table && slug(r.found[|prev.found|]) == d.slug)
  {
    var r := EnsureStep(prev, d, id, name, slug, make);
    if !prev.failed && IndexWhere(prev.table, slug, d.slug).None? && IndexWhere(prev.table, name, d.name).None? {
      assert r.table[|prev.table|] == make(id, d);
    }
  }

  /** After a successful loop a lookup by each definition's slug finds a
      row. */
  lemma EnsureAllIndexed<T>(table: seq<T>, defs: seq<Label>, ids: seq<Id>,
                            name: T -> string, slug: T -> string, make: (Id, Label) -> T)
    requires |defs| <= |ids|
    requires forall id, d :: slug(make(id, d)) == d.slug
    requires !EnsureAll(table, defs, ids, name, slug, make).failed
    ensures forall k :: 0 <= k < |defs| ==> IndexWhere(EnsureAll(table, defs, ids, name, slug, make).table, slug, defs[k].slug).Some?
  {
    var r := EnsureAll(table, defs, ids, name, slug, make);
    EnsureAllFound(table, defs, ids, name, slug, make);
    forall k | 0 <= k < |defs| ensures IndexWhere(r.table, slug, defs[k].slug).Some? {
      var j :| 0 <= j < |r.table| && r.table[j] == r.found[k];
    }
  }

  /** When every slug is already present the loop inserts nothing and
      cannot fail. */
  lemma {:induction false} EnsureAllNoop<T>(table: seq<T>, defs: seq<Label>, ids: seq<Id>,
                                             name: T -> string, slug: T -> string, make: (Id, Label) -> T)
    requires |defs| <= |ids|
    requires forall k :: 0 <= k < |defs| ==> IndexWhere(table, slug, defs[k].slug).Some?
    ensures EnsureAll(table, defs, ids, name, slug, make).table == table
    ensures !EnsureAll(table, defs, ids, name, slug, make).failed
    decreases |defs|
  {
    if defs != [] {
      var init := defs[..|defs| - 1];
      forall k | 0 <= k < |init| ensures IndexWhere(table, slug, init[k].slug).Some? {
        assert init[k] == defs[k];
      }
      EnsureAllNoop(table, init, ids, name, slug, make);
    }
  }

  /** The post `save` writes for article `k`: published now, with the
      script's reading time and the article's tags and categories. */
  function ArticlePost(k: nat, a: ArticleText, id: Id, authorId: Id, tags: seq<Tag>, categories: seq<Category>,
                       slugify: string -> string, now: Timestamp): (p: Post)
    requires k < |ArticleTags| && |tags| == TagCount && |categories| == CategoryCount
    ensures p.status == Published && p.publishedAt == Some(now) && p.slug == slugify(a.title)
    ensures p.readingTime == Blog.ReadingTime(a.content) && p.authorId == Some(authorId)
    ensures p.tags == Pick(tags, ArticleTags[k]) && p.categories == Pick(categories, ArticleCategories[k])
  {
    Post(id, a.title, slugify(a.title), a.content, Some(a.excerpt), None, Some(authorId), Published,
         SeedReadingTime(a.content), Some(a.seoTitle), Some(a.seoDescription),
         Pick(tags, ArticleTags[k]), Pick(categories, ArticleCategories[k]),
         Some(now), now, now)
  }

  /** The rows at positions `idx`, in that order. */
  function Pick<T>(rows: seq<T>, idx: seq<nat>): (r: seq<T>)
    requires forall i :: 0 <= i < |idx| ==> idx[i] < |rows|
    ensures |r| == |idx| && forall i :: 0 <= i < |idx| ==> r[i] == rows[idx[i]]
  {
    if idx == [] then [] else [rows[idx[0]]] + Pick(rows, idx[1..])
  }


  function PostSlug(p: Post): string { p.slug }

  /** The article loop: an article whose slug is taken is skipped,
      otherwise its post is appended. */
  function CreateArticles(posts: seq<Post>, articles: seq<ArticleText>, ids: seq<Id>, authorId: Id,
                          tags: seq<Tag>, categories: seq<Category>, slugify: string -> string, now: Timestamp): (r: seq<Post>)
    requires |articles| <= |ArticleTags| && |articles| <= |ids|
    requires |tags| == TagCount && |categories| == CategoryCount
    ensures |r| >= |posts| && r[..|posts|] == posts
    decreases |articles|
  {
    if articles == [] then posts
    else
      var k := |articles| - 1;
      var prev := CreateArticles(posts, articles[..k], ids, authorId, tags, categories, slugify, now);
      var r := CreateStep(prev, k, articles[k], ids[k], authorId, tags, categories, slugify, now);
      assert r[..|posts|] == prev[..|posts|];
      r
  }

  /** One turn of the article loop: article `k` is saved unless its slug
      is taken. */
  function CreateStep(prev: seq<Post>, k: nat, a: ArticleText, id: Id, authorId: Id,
                      tags: seq<Tag>, categories: seq<Category>, slugify: string -> string, now: Timestamp): (r: seq<Post>)
    requires k < |ArticleTags|
    requires |tags| == TagCount && |categories| == CategoryCount
    ensures |r| >= |prev| && r[..|prev|] == prev
    ensures IndexWhere(r, PostSlug, slugify(a.title)).Some?
  {
    match IndexWhere(prev, PostSlug, slugify(a.title))
    case Some(j) => prev
    case None =>
      var p := ArticlePost(k, a, id, authorId, tags, categories, slugify, now);
      assert PostSlug((prev + [p])[|prev|]) == slugify(a.title);
      prev + [p]
  }

  /** A row found by key stays found when rows are appended. */
  lemma IndexWhereGrows<T>(s: seq<T>, t: seq<T>, key: T -> string, k: string)
    requires |t| >= |s| && t[..|s|] == s
    requires IndexWhere(s, key, k).Some?
    ensures IndexWhere(t, key, k).Some?
  {
    var i := IndexWhere(s, key, k).value;
    assert t[i] == t[..|s|][i];
  }

  /** After the article loop every article's slug is taken. */
  lemma {:induction false} CreateArticlesCovers(posts: seq<Post>, articles: seq<ArticleText>, ids: seq<Id>, authorId: Id,
                                                tags: seq<Tag>, categories: seq<Category>, slugify: string -> string,
                                                now: Timestamp)
    requires |articles| <= |ArticleTags| && |articles| <= |ids|
    requires |tags| == TagCount && |categories| == CategoryCount
    ensures var r := CreateArticles(posts, articles, ids, authorId, tags, categories, slugify, now);
      forall j :: 0 <= j < |articles| ==> IndexWhere(r, PostSlug, slugify(articles[j].title)).Some?
    decreases |articles|
  {
    if articles != [] {
      var k := |articles| - 1;
      CreateArticlesCovers(posts, articles[..k], ids, authorId, tags, categories, slugify, now);
      var prev := CreateArticles(posts, articles[..k], ids, authorId, tags, categories, slugify, now);
      var r := CreateArticles(posts, articles, ids, authorId, tags, categories, slugify, now);
      assert r == CreateStep(prev, k, articles[k], ids[k], authorId, tags, categories, slugify, now);
      forall j | 0 <= j < |articles| ensures IndexWhere(r, PostSlug, slugify(articles[j].title)).Some? {
        if j < k {
          assert articles[..k][j] == articles[j];
          IndexWhereGrows(prev, r, PostSlug, slugify(articles[j].title));
        }
      }
    }
  }

  /** The article loop over the first k + 1 articles is one more turn after
      the loop over the first k. */
  lemma CreateArticlesPrefix(posts: seq<Post>, articles: seq<ArticleText>, k: nat, ids: seq<Id>, authorId: Id,
                             tags: seq<Tag>, categories: seq<Category>, slugify: string -> string, now: Timestamp)
    requires k < |articles| <= |ArticleTags| && |articles| <= |ids|
    requires |tags| == TagCount && |categories| == CategoryCount
    ensures CreateArticles(posts, articles[..k + 1], ids, authorId, tags, categories, slugify, now)
      == CreateStep(CreateArticles(posts, articles[..k], ids, authorId, tags, categories, slugify, now),
                    k, articles[k], ids[k], authorId, tags, categories, slugify, now)
  {
    assert articles[..k + 1][..k] == articles[..k];
  }


  /** When every article's slug is already taken no post is created. */
  lemma {:induction false} CreateArticlesNoop(posts: seq<Post>, articles: seq<ArticleText>, ids: seq<Id>, authorId: Id,
                                              tags: seq<Tag>, categories: seq<Category>, slugify: string -> string, now: Timestamp)
    requires |articles| <= |ArticleTags| && |articles| <= |ids|
    requires |tags| == TagCount && |categories| == CategoryCount
    requires forall k :: 0 <= k < |articles| ==> IndexWhere(posts, PostSlug, slugify(articles[k].title)).Some?
    ensures CreateArticles(posts, articles, ids, authorId, tags, categories, slugify, now) == posts
    decreases |articles|
  {
    if articles != [] {
      var k := |articles| - 1;
      forall j | 0 <= j < k ensures IndexWhere(posts, PostSlug, slugify(articles[..k][j].title)).Some? {
        assert articles[..k][j] == articles[j];
      }
      CreateArticlesNoop(posts, articles[..k], ids, authorId, tags, categories, slugify, now);
    }
  }

  /** The author lookup by name: the first author so named, or a new one. */
  function SeedAuthor(authors: seq<Author>, id: Id, bio: string): (r: (seq<Author>, Author))
    ensures r.1.name == AuthorName && r.1 in r.0
    ensures IndexWhere(authors, AuthorNameOf, AuthorName).Some? ==> r.0 == authors
    ensures IndexWhere(authors, AuthorNameOf, AuthorName).None? ==> r.0 == authors + [r.1] && r.1.id == id
  {
    match IndexWhere(authors, AuthorNameOf, AuthorName)
    case Some(i) => (authors, authors[i])
    case None =>
      var a := Author(id, AuthorName, Some(bio), None);
      (authors + [a], a)
  }

  /** The whole script: the tables afterwards and whether it completed. */
  datatype SeedOutcome = SeedOutcome(db: Tables, ok: bool)

  function TagIds(ids: seq<Id>): seq<Id>
    requires |ids| >= 11
  {
    ids[1..5]
  }

  function CategoryIds(ids: seq<Id>): seq<Id>
    requires |ids| >= 11
  {
    ids[5..8]
  }

  function PostIds(ids: seq<Id>): seq<Id>
    requires |ids| >= 11
  {
    ids[8..11]
  }

  function SeedRun(db: Tables, articles: seq<ArticleText>, ids: seq<Id>, bio: string,
                   slugify: string -> string, now: Timestamp): (r: SeedOutcome)
    requires |articles| == 3 && |ids| >= 11
  {
    var (authors, author) := SeedAuthor(db.authors, ids[0], bio);
    var t := EnsureAll(db.tags, TagDefs, TagIds(ids), TagName, TagSlug, MakeTag);
    if t.failed then SeedOutcome(db.(authors := authors, tags := t.table), false)
    else
      var c := EnsureAll(db.categories, CategoryDefs, CategoryIds(ids), CategoryName, CategorySlug, MakeCategory);
      if c.failed then SeedOutcome(Tables(authors, t.table, c.table, db.posts), false)
      else
        EnsureAllFound(db.tags, TagDefs, TagIds(ids), TagName, TagSlug, MakeTag);
        EnsureAllFound(db.categories, CategoryDefs, CategoryIds(ids), CategoryName, CategorySlug, MakeCategory);
        SeedOutcome(Tables(authors, t.table, c.table,
          CreateArticles(db.posts, articles, PostIds(ids), author.id, t.found, c.found, slugify, now)), true)
  }

  /** A completed run: both loops succeeded, one row was found per
      definition, and the tables are the author lookup's, the two loops'
      and the article loop's. */
  lemma RunOk(db: Tables, articles: seq<ArticleText>, ids: seq<Id>, bio: string,
              slugify: string -> string, now: Timestamp)
    requires |articles| == 3 && |ids| >= 11
    requires SeedRun(db, articles, ids, bio, slugify, now).ok
    ensures var t := EnsureAll(db.tags, TagDefs, TagIds(ids), TagName, TagSlug, MakeTag);
      var c := EnsureAll(db.categories, CategoryDefs, CategoryIds(ids), CategoryName, CategorySlug, MakeCategory);
      var (authors, author) := SeedAuthor(db.authors, ids[0], bio);
      !t.failed && !c.failed && |t.found| == |TagDefs| && |c.found| == |CategoryDefs| &&
      SeedRun(db, articles, ids, bio, slugify, now).db ==
        Tables(authors, t.table, c.table,
               CreateArticles(db.posts, articles, PostIds(ids), author.id, t.found, c.found, slugify, now))
  {
    EnsureAllFound(db.tags, TagDefs, TagIds(ids), TagName, TagSlug, MakeTag);
    EnsureAllFound(db.categories, CategoryDefs, CategoryIds(ids), CategoryName, CategorySlug, MakeCategory);
  }

  /** A completed run leaves the author, every tag and category slug and
      every article's slug in the tables. */
  lemma RunLeavesRows(db: Tables, articles: seq<ArticleText>, ids: seq<Id>, bio: string,
                      slugify: string -> string, now: Timestamp)
    requires |articles| == 3 && |ids| >= 11
    requires SeedRun(db, articles, ids, bio, slugify, now).ok
    ensures var db1 := SeedRun(db, articles, ids, bio, slugify, now).db;
      IndexWhere(db1.authors, AuthorNameOf, AuthorName).Some? &&
      (forall k :: 0 <= k < |TagDefs| ==> IndexWhere(db1.tags, TagSlug, TagDefs[k].slug).Some?) &&
      (forall k :: 0 <= k < |CategoryDefs| ==> IndexWhere(db1.categories, CategorySlug, CategoryDefs[k].slug).Some?) &&
      (forall k :: 0 <= k < |articles| ==> IndexWhere(db1.posts, PostSlug, slugify(articles[k].title)).Some?)
  {
    RunOk(db, articles, ids, bio, slugify, now);
    var db1 := SeedRun(db, articles, ids, bio, slugify, now).db;
    var author := SeedAuthor(db.authors, ids[0], bio).1;
    var t := EnsureAll(db.tags, TagDefs, TagIds(ids), TagName, TagSlug, MakeTag);
    var c := EnsureAll(db.categories, CategoryDefs, CategoryIds(ids), CategoryName, CategorySlug, MakeCategory);
    assert IndexWhere(db1.authors, AuthorNameOf, AuthorName).Some? by {
      AuthorIndexed(db.authors, ids[0], bio);
    }
    assert forall k :: 0 <= k < |TagDefs| ==> IndexWhere(db1.tags, TagSlug, TagDefs[k].slug).Some? by {
      EnsureAllIndexed(db.tags, TagDefs, TagIds(ids), TagName, TagSlug, MakeTag);
    }
    assert forall k :: 0 <= k < |CategoryDefs| ==> IndexWhere(db1.categories, CategorySlug, CategoryDefs[k].slug).Some? by {
      EnsureAllIndexed(db.categories, CategoryDefs, CategoryIds(ids), CategoryName, CategorySlug, MakeCategory);
    }
    CreateArticlesCovers(db.posts, articles, PostIds(ids), author.id, t.found, c.found, slugify, now);
  }

  lemma AuthorIndexed(authors: seq<Author>, id: Id, bio: string)
    ensures IndexWhere(SeedAuthor(authors, id, bio).0, AuthorNameOf, AuthorName).Some?
  {
    var r := SeedAuthor(authors, id, bio);
    var j :| 0 <= j < |r.0| && r.0[j] == r.1;
    assert AuthorNameOf(r.0[j]) == AuthorName;
  }

  /** On tables that already hold the author, every tag and category slug
      and every article's slug, the script completes and changes nothing,
      whatever ids and clock it is given. */
  lemma RunNoop(db: Tables, articles: seq<ArticleText>, ids: seq<Id>, bio: string,
                slugify: string -> string, now: Timestamp)
    requires |articles| == 3 && |ids| >= 11
    requires IndexWhere(db.authors, AuthorNameOf, AuthorName).Some?
    requires forall k :: 0 <= k < |TagDefs| ==> IndexWhere(db.tags, TagSlug, TagDefs[k].slug).Some?
    requires forall k :: 0 <= k < |CategoryDefs| ==> IndexWhere(db.categories, CategorySlug, CategoryDefs[k].slug).Some?
    requires forall k :: 0 <= k < |articles| ==> IndexWhere(db.posts, PostSlug, slugify(articles[k].title)).Some?
    ensures SeedRun(db, articles, ids, bio, slugify, now) == SeedOutcome(db, true)
  {
    EnsureAllNoop(db.tags, TagDefs, TagIds(ids), TagName, TagSlug, MakeTag);
    EnsureAllNoop(db.categories, CategoryDefs, CategoryIds(ids), CategoryName, CategorySlug, MakeCategory);
    var t := EnsureAll(db.tags, TagDefs, TagIds(ids), TagName, TagSlug, MakeTag);
    var c := EnsureAll(db.categories, CategoryDefs, CategoryIds(ids), CategoryName, CategorySlug, MakeCategory);
    var author := SeedAuthor(db.authors, ids[0], bio).1;
    assert SeedRun(db, articles, ids, bio, slugify, now).ok;
    RunOk(db, articles, ids, bio, slugify, now);
    CreateArticlesNoop(db.posts, articles, PostIds(ids), author.id, t.found, c.found, slugify, now);
  }

  /** Running the script again after a completed run, with any fresh ids
      and clock, completes and changes nothing: no second author, tag,
      category or post. */
  lemma SeedIdempotent(db: Tables, articles: seq<ArticleText>, ids: seq<Id>, ids2: seq<Id>, bio: string,
                       slugify: string -> string, now: Timestamp, now2: Timestamp)
    requires |articles| == 3 && |ids| >= 11 && |ids2| >= 11
    requires SeedRun(db, articles, ids, bio, slugify, now).ok
    ensures var db1 := SeedRun(db, articles, ids, bio, slugify, now).db;
      SeedRun(db1, articles, ids2, bio, slugify, now2) == SeedOutcome(db1, true)
  {
    RunLeavesRows(db, articles, ids, bio, slugify, now);
    RunNoop(SeedRun(db, articles, ids, bio, slugify, now).db, articles, ids2, bio, slugify, now2);
  }

  /** Once an insert was refused the rest of the definitions change
      nothing: the script has stopped. */
  lemma {:induction false} EnsureAllStopped<T>(table: seq<T>, defs: seq<Label>, m: nat, ids: seq<Id>,
                                                name: T -> string, slug: T -> string, make: (Id, Label) -> T)
    requires m <= |defs| <= |ids|
    requires EnsureAll(table, defs[..m], ids, name, slug, make).failed
    ensures EnsureAll(table, defs, ids, name, slug, make) == EnsureAll(table, defs[..m], ids, name, slug, make)
    decreases |defs| - m
  {
    if m < |defs| {
      var init := defs[..|defs| - 1];
      assert init[..m] == defs[..m];
      EnsureAllStopped(table, init, m, ids, name, slug, make);
    } else {
      assert defs[..m] == defs;
    }
  }

  /** The database as the script sees it. */
  class SeedDatabase {
    var authors: seq<Author>
    var tags: seq<Tag>
    var categories: seq<Category>
    var posts: seq<Post>

    function State(): Tables
      reads this
    {
      Tables(authors, tags, categories, posts)
    }

    constructor(db: Tables)
      ensures State() == db
    {
      authors, tags, categories, posts := db.authors, db.tags, db.categories, db.posts;
    }

    /** The author step: look the author up by name, create it if
        absent. */
    method FindOrCreateAuthor(id: Id, bio: string) returns (author: Author)
      modifies this
      ensures (authors, author) == SeedAuthor(old(authors), id, bio)
      ensures tags == old(tags) && categories == old(categories) && posts == old(posts)
    {
      var a := IndexWhere(authors, AuthorNameOf, AuthorName);
      if a.None? {
        author := Author(id, AuthorName, Some(bio), None);
        authors := authors + [author];
      } else {
        author := authors[a.value];
      }
    }

    /** The tag loop; `ok` is false when an insert was refused. */
    method SeedTags(ids: seq<Id>) returns (seeded: seq<Tag>, ok: bool)
      requires |ids| >= |TagDefs|
      modifies this
      ensures EnsureAll(old(tags), TagDefs, ids, TagName, TagSlug, MakeTag) == Ensured(tags, seeded, !ok)
      ensures authors == old(authors) && categories == old(categories) && posts == old(posts)
    {
      seeded := [];
      for i := 0 to |TagDefs|
        invariant authors == old(authors) && categories == old(categories) && posts == old(posts)
        invariant EnsureAll(old(tags), TagDefs[..i], ids, TagName, TagSlug, MakeTag) == Ensured(tags, seeded, false)
      {
        EnsureAllPrefix(old(tags), TagDefs, i, ids, TagName, TagSlug, MakeTag);
        var d := TagDefs[i];
        var f := IndexWhere(tags, TagSlug, d.slug);
        if f.Some? {
          seeded := seeded + [tags[f.value]];
        } else if IndexWhere(tags, TagName, d.name).Some? {
          EnsureAllStopped(old(tags), TagDefs, i + 1, ids, TagName, TagSlug, MakeTag);
          return seeded, false;
        } else {
          var t := MakeTag(ids[i], d);
          tags := tags + [t];
          seeded := seeded + [t];
        }
      }
      assert TagDefs[..|TagDefs|] == TagDefs;
      ok := true;
    }

    /** The category loop; `ok` is false when an insert was refused. */
    method SeedCategories(ids: seq<Id>) returns (seeded: seq<Category>, ok: bool)
      requires |ids| >= |CategoryDefs|
      modifies this
      ensures EnsureAll(old(categories), CategoryDefs, ids, CategoryName, CategorySlug, MakeCategory)
        == Ensured(categories, seeded, !ok)
      ensures authors == old(authors) && tags == old(tags) && posts == old(posts)
    {
      seeded := [];
      for i := 0 to |CategoryDefs|
        invariant authors == old(authors) && tags == old(tags) && posts == old(posts)
        invariant EnsureAll(old(categories), CategoryDefs[..i], ids, CategoryName, CategorySlug, MakeCategory)
          == Ensured(categories, seeded, false)
      {
        EnsureAllPrefix(old(categories), CategoryDefs, i, ids, CategoryName, CategorySlug, MakeCategory);
        var d := CategoryDefs[i];
        var f := IndexWhere(categories, CategorySlug, d.slug);
        if f.Some? {
          seeded := seeded + [categories[f.value]];
        } else if IndexWhere(categories, CategoryName, d.name).Some? {
          EnsureAllStopped(old(categories), CategoryDefs, i + 1, ids, CategoryName, CategorySlug, MakeCategory);
          return seeded, false;
        } else {
          var c := MakeCategory(ids[i], d);
          categories := categories + [c];
          seeded := seeded + [c];
        }
      }
      assert CategoryDefs[..|CategoryDefs|] == CategoryDefs;
      ok := true;
    }

    /** The article loop: skip an article whose slug is taken, otherwise
        save its post. */
    method SeedArticles(articles: seq<ArticleText>, ids: seq<Id>, authorId: Id, seededTags: seq<Tag>,
                        seededCategories: seq<Category>, slugify: string -> string, now: Timestamp)
      requires |articles| <= |ArticleTags| && |articles| <= |ids|
      requires |seededTags| == TagCount && |seededCategories| == CategoryCount
      modifies this
      ensures posts == CreateArticles(old(posts), articles, ids, authorId, seededTags, seededCategories, slugify, now)
      ensures authors == old(authors) && tags == old(tags) && categories == old(categories)
    {
      for k := 0 to |articles|
        invariant authors == old(authors) && tags == old(tags) && categories == old(categories)
        invariant posts == CreateArticles(old(posts), articles[..k], ids, authorId, seededTags, seededCategories, slugify, now)
      {
        CreateArticlesPrefix(old(posts), articles, k, ids, authorId, seededTags, seededCategories, slugify, now);
        ghost var prev := posts;
        var article := articles[k];
        var existing := IndexWhere(posts, PostSlug, slugify(article.title));
        if existing.None? {
          var post := ArticlePost(k, article, ids[k], authorId, seededTags, seededCategories, slugify, now);
          posts := posts + [post];
        }
        assert posts == CreateStep(prev, k, article, ids[k], authorId, seededTags, seededCategories, slugify, now);
      }
      assert articles[..|articles|] == articles;
    }

    /** `seed()`: the author, then the tag, category and article loops.
        Returns false when an insert was refused and the script stopped. */
    method Seed(articles: seq<ArticleText>, ids: seq<Id>, bio: string, slugify: string -> string, now: Timestamp)
      returns (ok: bool)
      requires |articles| == 3 && |ids| >= 11
      modifies this
      ensures State() == SeedRun(old(State()), articles, ids, bio, slugify, now).db
      ensures ok == SeedRun(old(State()), articles, ids, bio, slugify, now).ok
    {
      ghost var db := State();
      var author := FindOrCreateAuthor(ids[0], bio);
      var seededTags, tagsOk := SeedTags(TagIds(ids));
      if !tagsOk {
        return false;
      }
      var seededCategories, categoriesOk := SeedCategories(CategoryIds(ids));
      if !categoriesOk {
        return false;
      }
      EnsureAllFound(db.tags, TagDefs, TagIds(ids), TagName, TagSlug, MakeTag);
      EnsureAllFound(db.categories, CategoryDefs, CategoryIds(ids), CategoryName, CategorySlug, MakeCategory);
      SeedArticles(articles, PostIds(ids), author.id, seededTags, seededCategories, slugify, now);
      ok := true;
    }
  }
}
