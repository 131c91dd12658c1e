/** The blog service (backend/src/modules/blog/blog.service.ts) over
    in-memory post, tag and category tables. Slugs come from the `slugify`
    library, passed in as an uninterpreted function; `now` is the clock
    reading of the request; `id` is the fresh id the database generates. */
module Blog {
  import opened Common
  import opened BlogEntities
  import opened PostDto
  import opened Query
  import Text

  /** `Math.ceil(content.split(/\s+/).length / 200)`. */
  function ReadingTime(content: string): (n: int)
    ensures n >= 1
    ensures (n - 1) * 200 < |Text.SplitWs(content)| <= n * 200
  {
    (|Text.SplitWs(content)| + 199) / 200
  }

  /** The piece count is one more than the number of whitespace runs, so
      reading time is the ceiling of (runs + 1) / 200. */
  lemma ReadingTimeFromRuns(content: string)
    ensures (ReadingTime(content) - 1) * 200 < 1 + Text.WsRuns(content) <= ReadingTime(content) * 200
  {
    Text.SplitWsCount(content);
  }

  /** JavaScript truthiness of an optional string property. */
  predicate NonEmptyText(f: Field<string>) {
    f.Given? && f.value != []
  }

  /** `findByIds`: the rows whose id is listed, in table order. */
  function TagsByIds(table: seq<Tag>, ids: seq<Id>): (r: seq<Tag>)
    ensures forall t :: t in r <==> t in table && t.id in ids
    ensures |r| <= |table|
    ensures ids == [] ==> r == []
  {
    if ids == [] then FilterNone(table, (t: Tag) => t.id in ids); Filter(table, (t: Tag) => t.id in ids)
    else Filter(table, (t: Tag) => t.id in ids)
  }

  function CategoriesByIds(table: seq<Category>, ids: seq<Id>): (r: seq<Category>)
    ensures forall c :: c in r <==> c in table && c.id in ids
    ensures |r| <= |table|
    ensures ids == [] ==> r == []
  {
    if ids == [] then FilterNone(table, (c: Category) => c.id in ids); Filter(table, (c: Category) => c.id in ids)
    else Filter(table, (c: Category) => c.id in ids)
  }

  /** `dto.tagIds?.length` / `dto.categoryIds?.length`: a non-empty list. */
  predicate NonEmptyList(f: Field<seq<Id>>) {
    f.Given? && |f.value| > 0
  }

  /** The invariant of the post table: ids and slugs are unique (the slug
      column is UNIQUE), a published post carries its publication time, and
      every reading time the service computes is at least 1. */
  ghost predicate TableValid(posts: seq<Post>) {
    (forall i, j :: 0 <= i < j < |posts| ==> posts[i].id != posts[j].id) &&
    (forall i, j :: 0 <= i < j < |posts| ==> posts[i].slug != posts[j].slug) &&
    (forall i :: 0 <= i < |posts| && IsPublished(posts[i]) ==> posts[i].publishedAt.Some?) &&
    (forall i :: 0 <= i < |posts| ==> posts[i].readingTime >= 1)
  }

  /** The row `create` builds from the DTO: slug from the title, reading time
      from the content, `publishedAt` only for a post created as published,
      the entity default `draft` when no status is given, and tags and
      categories only for non-empty id lists. */
  function NewPost(dto: CreatePostDto, id: Id, now: Timestamp, slugify: string -> string,
                   tagTable: seq<Tag>, catTable: seq<Category>): (p: Post)
    requires !dto.status.Null?
    ensures p.id == id && p.title == dto.title && p.content == dto.content
    ensures p.slug == slugify(dto.title)
    ensures p.readingTime == ReadingTime(dto.content) && p.readingTime >= 1
    ensures p.publishedAt.Some? <==> dto.status == Given(Published)
    ensures p.publishedAt.Some? ==> p.publishedAt.value == now
    ensures dto.status.Absent? ==> p.status == Draft
    ensures dto.status.Given? ==> p.status == dto.status.value
    ensures IsPublished(p) ==> p.publishedAt.Some?
    ensures NonEmptyList(dto.tagIds) ==> forall t :: t in p.tags <==> t in tagTable && t.id in dto.tagIds.value
    ensures !NonEmptyList(dto.tagIds) ==> p.tags == []
    ensures NonEmptyList(dto.categoryIds) ==> forall c :: c in p.categories <==> c in catTable && c.id in dto.categoryIds.value
    ensures !NonEmptyList(dto.categoryIds) ==> p.categories == []
    ensures p.createdAt == now && p.updatedAt == now
  {
    Post(id, dto.title, slugify(dto.title), dto.content,
      dto.excerpt.ToOption(), dto.coverImage.ToOption(), dto.authorId.ToOption(),
      MergeRequired(Draft, dto.status), ReadingTime(dto.content),
      dto.seoTitle.ToOption(), dto.seoDescription.ToOption(),
      if NonEmptyList(dto.tagIds) then TagsByIds(tagTable, dto.tagIds.value) else [],
      if NonEmptyList(dto.categoryIds) then CategoriesByIds(catTable, dto.categoryIds.value) else [],
      if dto.status == Given(Published) then Some(now) else None,
      now, now)
  }

  predicate SlugTaken(posts: seq<Post>, slug: string) {
    exists j :: 0 <= j < |posts| && posts[j].slug == slug
  }

  /** The outcome of `create`: a null status reaches the NOT NULL status
      column, and a slug already in use violates the UNIQUE slug column. */
  function CreateResult(posts: seq<Post>, tagTable: seq<Tag>, catTable: seq<Category>,
                        dto: CreatePostDto, id: Id, now: Timestamp, slugify: string -> string): (r: Result<Post>)
    ensures dto.status.Null? ==> r == Err(NotNullViolation("status"))
    ensures r.Ok? ==> !SlugTaken(posts, r.value.slug) && r.value.id == id && r.value.readingTime >= 1
    ensures !dto.status.Null? && SlugTaken(posts, slugify(dto.title)) ==> r == Err(UniqueViolation("slug"))
    ensures !dto.status.Null? && !SlugTaken(posts, slugify(dto.title)) ==>
      r == Ok(NewPost(dto, id, now, slugify, tagTable, catTable))
  {
    if dto.status.Null? then Err(NotNullViolation("status"))
    else
      var p := NewPost(dto, id, now, slugify, tagTable, catTable);
      if SlugTaken(posts, p.slug) then Err(UniqueViolation("slug")) else Ok(p)
  }

  /** Object.assign(post, dto): every property present in the DTO is copied
      onto the row, absent ones leave it as it was. */
  function Assign(p: Post, dto: UpdatePostDto): (q: Post)
    requires !dto.title.Null? && !dto.content.Null? && !dto.status.Null?
    ensures q.id == p.id && q.slug == p.slug && q.readingTime == p.readingTime
    ensures q.publishedAt == p.publishedAt && q.createdAt == p.createdAt && q.updatedAt == p.updatedAt
    ensures q.tags == p.tags && q.categories == p.categories
    ensures q.title == MergeRequired(p.title, dto.title)
    ensures q.content == MergeRequired(p.content, dto.content)
    ensures q.status == MergeRequired(p.status, dto.status)
    ensures q.excerpt == Merge(p.excerpt, dto.excerpt) && q.coverImage == Merge(p.coverImage, dto.coverImage)
    ensures q.authorId == Merge(p.authorId, dto.authorId)
    ensures q.seoTitle == Merge(p.seoTitle, dto.seoTitle)
    ensures q.seoDescription == Merge(p.seoDescription, dto.seoDescription)
  {
    p.(title := MergeRequired(p.title, dto.title),
       content := MergeRequired(p.content, dto.content),
       excerpt := Merge(p.excerpt, dto.excerpt),
       coverImage := Merge(p.coverImage, dto.coverImage),
       authorId := Merge(p.authorId, dto.authorId),
       status := MergeRequired(p.status, dto.status),
       seoTitle := Merge(p.seoTitle, dto.seoTitle),
       seoDescription := Merge(p.seoDescription, dto.seoDescription))
  }

  /** The derived columns `update` sets before the copy: the slug is
      re-derived only for a non-empty title, the reading time only for
      non-empty content, and `publishedAt` is stamped only when publishing a
      post that was never published. */
  function Derive(p: Post, dto: UpdatePostDto, now: Timestamp, slugify: string -> string): (q: Post)
    ensures q == p.(slug := q.slug, readingTime := q.readingTime, publishedAt := q.publishedAt)
    ensures p.publishedAt.Some? ==> q.publishedAt == p.publishedAt
    ensures p.publishedAt.None? ==> (q.publishedAt.Some? <==> dto.status == Given(Published))
    ensures p.publishedAt.None? && q.publishedAt.Some? ==> q.publishedAt.value == now
    ensures NonEmptyText(dto.title) ==> q.slug == slugify(dto.title.value)
    ensures !NonEmptyText(dto.title) ==> q.slug == p.slug
    ensures NonEmptyText(dto.content) ==> q.readingTime == ReadingTime(dto.content.value)
    ensures !NonEmptyText(dto.content) ==> q.readingTime == p.readingTime
  {
    var p1 := if NonEmptyText(dto.title) then p.(slug := slugify(dto.title.value)) else p;
    var p2 := if NonEmptyText(dto.content) then p1.(readingTime := ReadingTime(dto.content.value)) else p1;
    if dto.status == Given(Published) && p2.publishedAt.None? then p2.(publishedAt := Some(now)) else p2
  }

  /** A present tag or category list replaces the old one, so an empty list
      clears it; an absent or null list keeps it. */
  function Relink(p: Post, dto: UpdatePostDto, tagTable: seq<Tag>, catTable: seq<Category>): (q: Post)
    ensures q == p.(tags := q.tags, categories := q.categories)
    ensures dto.tagIds.Given? ==> forall t :: t in q.tags <==> t in tagTable && t.id in dto.tagIds.value
    ensures !dto.tagIds.Given? ==> q.tags == p.tags
    ensures dto.categoryIds.Given? ==> forall c :: c in q.categories <==> c in catTable && c.id in dto.categoryIds.value
    ensures !dto.categoryIds.Given? ==> q.categories == p.categories
  {
    var p1 := if dto.tagIds.Given? then p.(tags := TagsByIds(tagTable, dto.tagIds.value)) else p;
    if dto.categoryIds.Given? then p1.(categories := CategoriesByIds(catTable, dto.categoryIds.value)) else p1
  }

  /** The row `update` builds before saving: derived columns, then the copy
      of the DTO, then the relations. */
  function UpdatedPost(p: Post, dto: UpdatePostDto, now: Timestamp, slugify: string -> string,
                       tagTable: seq<Tag>, catTable: seq<Category>): (q: Post)
    requires !dto.title.Null? && !dto.content.Null? && !dto.status.Null?
    ensures q.id == p.id && q.createdAt == p.createdAt && q.updatedAt == p.updatedAt
    ensures p.publishedAt.Some? ==> q.publishedAt == p.publishedAt
    ensures p.publishedAt.None? ==> (q.publishedAt.Some? <==> dto.status == Given(Published))
    ensures NonEmptyText(dto.title) ==> q.slug == slugify(dto.title.value)
    ensures !NonEmptyText(dto.title) ==> q.slug == p.slug
    ensures NonEmptyText(dto.content) ==> q.readingTime == ReadingTime(dto.content.value)
    ensures !NonEmptyText(dto.content) ==> q.readingTime == p.readingTime
    ensures q.status == MergeRequired(p.status, dto.status)
  {
    Relink(Assign(Derive(p, dto, now, slugify), dto), dto, tagTable, catTable)
  }

  /** The save stamps `updatedAt` when a column of the row changed; a change
      of tags or categories alone only rewrites the join tables. */
  function Stamped(before: Post, after: Post, now: Timestamp): (q: Post)
    ensures q == after || q == after.(updatedAt := now)
    ensures after.(tags := before.tags, categories := before.categories) == before ==> q == after
    ensures after.(tags := before.tags, categories := before.categories) != before ==> q.updatedAt == now
  {
    if after.(tags := before.tags, categories := before.categories) == before then after
    else after.(updatedAt := now)
  }

  /** `findOne({ where: { id } })`. */
  function IndexOfPost(posts: seq<Post>, id: Id): (r: Option<nat>)
    ensures r.Some? ==> r.value < |posts| && posts[r.value].id == id
    ensures r.None? ==> forall i :: 0 <= i < |posts| ==> posts[i].id != id
  {
    FindFirst(posts, (p: Post) => p.id == id)
  }

  predicate SlugTakenByOther(posts: seq<Post>, slug: string, i: nat) {
    exists j :: 0 <= j < |posts| && j != i && posts[j].slug == slug
  }

  /** The first NOT NULL column, in table order, that an update would set
      to null. */
  function NullColumn(dto: UpdatePostDto): (c: Option<string>)
    ensures c.None? <==> !dto.title.Null? && !dto.content.Null? && !dto.status.Null?
  {
    if dto.title.Null? then Some("title")
    else if dto.content.Null? then Some("content")
    else if dto.status.Null? then Some("status")
    else None
  }

  /** The outcome of `update`: an unknown id is NotFound, a null on a NOT
      NULL column or a slug used by another post is refused by the
      database, otherwise the updated row. */
  function UpdateResult(posts: seq<Post>, tagTable: seq<Tag>, catTable: seq<Category>,
                        id: Id, dto: UpdatePostDto, now: Timestamp, slugify: string -> string): (r: Result<Post>)
    ensures IndexOfPost(posts, id).None? ==> r == Err(NotFound("Post not found"))
    ensures IndexOfPost(posts, id).Some? && NullColumn(dto).Some? ==> r == Err(NotNullViolation(NullColumn(dto).value))
    ensures r.Ok? ==> (IndexOfPost(posts, id).Some? && r.value.id == id &&
      !SlugTakenByOther(posts, r.value.slug, IndexOfPost(posts, id).value))
    ensures IndexOfPost(posts, id).Some? && NullColumn(dto).None? ==>
      var i := IndexOfPost(posts, id).value;
      var q := UpdatedPost(posts[i], dto, now, slugify, tagTable, catTable);
      r == if SlugTakenByOther(posts, q.slug, i) then Err(UniqueViolation("slug")) else Ok(Stamped(posts[i], q, now))
  {
    match IndexOfPost(posts, id)
    case None => Err(NotFound("Post not found"))
    case Some(i) =>
      match NullColumn(dto)
      case Some(c) => Err(NotNullViolation(c))
      case None =>
        var q := UpdatedPost(posts[i], dto, now, slugify, tagTable, catTable);
        if SlugTakenByOther(posts, q.slug, i) then Err(UniqueViolation("slug"))
        else Ok(Stamped(posts[i], q, now))
  }

  /** Once a post has a publication time, no update clears or moves it,
      whatever the new status. */
  lemma {:induction false} PublishedAtKept(posts: seq<Post>, tagTable: seq<Tag>, catTable: seq<Category>,
                                           id: Id, dto: UpdatePostDto, now: Timestamp, slugify: string -> string, i: nat)
    requires i < |posts| && posts[i].id == id && TableValid(posts)
    requires posts[i].publishedAt.Some?
    requires UpdateResult(posts, tagTable, catTable, id, dto, now, slugify).Ok?
    ensures UpdateResult(posts, tagTable, catTable, id, dto, now, slugify).value.publishedAt == posts[i].publishedAt
  {
    IdIndexUnique(posts, id, i);
  }

  lemma {:induction false} IdIndexUnique(posts: seq<Post>, id: Id, i: nat)
    requires i < |posts| && posts[i].id == id && TableValid(posts)
    ensures IndexOfPost(posts, id) == Some(i)
  {
  }

  /** An empty tag list behaves differently on the two paths: `create`
      attaches no tags, `update` clears the existing ones. */
  lemma EmptyTagList(p: Post, cdto: CreatePostDto, udto: UpdatePostDto, id: Id, now: Timestamp,
                     slugify: string -> string, tagTable: seq<Tag>, catTable: seq<Category>)
    requires cdto.tagIds == Given([]) && !cdto.status.Null?
    requires udto.tagIds == Given([]) && !udto.title.Null? && !udto.content.Null? && !udto.status.Null?
    ensures NewPost(cdto, id, now, slugify, tagTable, catTable).tags == []
    ensures UpdatedPost(p, udto, now, slugify, tagTable, catTable).tags == []
  {
  }

  /** An update whose content is the empty string replaces the content and
      keeps the old reading time. */
  lemma EmptyContentKeepsReadingTime(p: Post, dto: UpdatePostDto, now: Timestamp, slugify: string -> string,
                                     tagTable: seq<Tag>, catTable: seq<Category>)
    requires dto.content == Given([]) && !dto.title.Null? && !dto.status.Null?
    ensures UpdatedPost(p, dto, now, slugify, tagTable, catTable).content == []
    ensures UpdatedPost(p, dto, now, slugify, tagTable, catTable).readingTime == p.readingTime
  {
  }

  /** The search condition: published, and the title or the content
      contains the query. */
  predicate SearchHit(p: Post, query: string) {
    IsPublished(p) && (Text.ContainsIgnoreCase(p.title, query) || Text.ContainsIgnoreCase(p.content, query))
  }

  /** The posts the search condition selects, in table order. */
  function Hits(posts: seq<Post>, query: string): (r: seq<Post>)
    ensures forall p :: p in r <==> p in posts && SearchHit(p, query)
  {
    Filter(posts, (p: Post) => SearchHit(p, query))
  }

  /** An empty query selects every published post. */
  lemma EmptyQueryHitsPublished(p: Post)
    requires IsPublished(p)
    ensures SearchHit(p, "")
  {
    Text.EmptyQueryMatches(p.title);
  }

  /** The published posts, newest publication first. */
  function PublishedNewestFirst(posts: seq<Post>): (r: seq<Post>)
    ensures forall p :: p in r <==> p in posts && IsPublished(p)
    ensures multiset(r) == multiset(Filter(posts, IsPublished))
    ensures |r| == |Filter(posts, IsPublished)|
    ensures SortedDesc(r, PublishedKey)
  {
    SortDescMembers(Filter(posts, IsPublished), PublishedKey);
    SortDesc(Filter(posts, IsPublished), PublishedKey)
  }

  /** One page of a listing and the number of rows the listing matches. */
  datatype PostPage = PostPage(posts: seq<Post>, total: nat)

  class BlogService {
    var posts: seq<Post>
    var tags: seq<Tag>
    var categories: seq<Category>

    ghost predicate Valid()
      reads this
    {
      TableValid(posts)
    }

    constructor(tags: seq<Tag>, categories: seq<Category>)
      ensures Valid()
      ensures this.posts == [] && this.tags == tags && this.categories == categories
    {
      this.posts := [];
      this.tags := tags;
      this.categories := categories;
    }

    /** `findAll(page, limit)` (defaults 1 and 10): the published posts,
        newest first, from position (page - 1) * limit on, at most `limit`
        of them, and the count of all published posts. */
    function FindAll(page: int, limit: int): (r: Result<PostPage>)
      reads this
      ensures page >= 1 && limit >= 1 ==> r.Ok?
      ensures r.Err? <==> Skipped(page, limit) < 0 || limit < 0
      ensures r.Ok? ==> r.value.total == |Filter(posts, IsPublished)|
      ensures r.Ok? ==> |r.value.posts| == PageLength(r.value.total, Skipped(page, limit), limit)
      ensures r.Ok? ==> forall p :: p in r.value.posts ==> p in posts && IsPublished(p)
      ensures r.Ok? && limit >= 1 ==> |r.value.posts| <= limit
      ensures r.Ok? ==> IsPage(r.value.posts, PublishedNewestFirst(posts), Skipped(page, limit))
    {
      var all := PublishedNewestFirst(posts);
      match Window(all, Skipped(page, limit), limit)
      case Err(e) => Err(e)
      case Ok(w) =>
        assert forall p :: p in w ==> p in all;
        Ok(PostPage(w, |Filter(posts, IsPublished)|))
    }

    /** `findAllAdmin(page, limit)` (defaults 1 and 20): every post, newest
        creation first, and the count of all posts. */
    function FindAllAdmin(page: int, limit: int): (r: Result<PostPage>)
      reads this
      ensures page >= 1 && limit >= 1 ==> r.Ok?
      ensures r.Err? <==> Skipped(page, limit) < 0 || limit < 0
      ensures r.Ok? ==> r.value.total == |posts|
      ensures r.Ok? ==> |r.value.posts| == PageLength(|posts|, Skipped(page, limit), limit)
      ensures r.Ok? ==> forall p :: p in r.value.posts ==> p in posts
      ensures r.Ok? ==> SortedDesc(r.value.posts, CreatedKey)
      ensures r.Ok? ==> IsPage(r.value.posts, SortDesc(posts, CreatedKey), Skipped(page, limit))
    {
      var all := SortDesc(posts, CreatedKey);
      SortDescMembers(posts, CreatedKey);
      match Window(all, Skipped(page, limit), limit)
      case Err(e) => Err(e)
      case Ok(w) =>
        PageOfSorted(w, all, Skipped(page, limit), CreatedKey);
        Ok(PostPage(w, |posts|))
    }

    /** `findBySlug`: any status, drafts included. */
    function FindBySlug(slug: string): (r: Result<Post>)
      reads this
      ensures r.Ok? ==> r.value in posts && r.value.slug == slug
      ensures r.Err? <==> forall i :: 0 <= i < |posts| ==> posts[i].slug != slug
      ensures r.Err? ==> r.error == NotFound("Post not found")
    {
      match FindFirst(posts, (p: Post) => p.slug == slug)
      case None => Err(NotFound("Post not found"))
      case Some(i) => Ok(posts[i])
    }

    /** `search(query)`: at most 20 published posts whose title or content
        contains the query, ignoring case, newest first. */
    function Search(query: string): (r: seq<Post>)
      reads this
      ensures |r| <= 20
      ensures forall p :: p in r ==> p in posts && SearchHit(p, query)
      ensures SortedDesc(r, PublishedKey)
      ensures |Hits(posts, query)| <= 20 ==> forall p :: p in posts && SearchHit(p, query) ==> p in r
      ensures |r| == if |Hits(posts, query)| < 20 then |Hits(posts, query)| else 20
      ensures NewestOf(r, Hits(posts, query), PublishedKey)
    {
      TakeNewest(Hits(posts, query), 20, PublishedKey);
      TakeAtMost(SortDesc(Hits(posts, query), PublishedKey), 20)
    }

    /** `create(dto)`. */
    method Create(dto: CreatePostDto, id: Id, now: Timestamp, slugify: string -> string) returns (r: Result<Post>)
      requires Valid()
      requires forall i :: 0 <= i < |posts| ==> posts[i].id != id
      modifies this
      ensures Valid()
      ensures r == CreateResult(old(posts), tags, categories, dto, id, now, slugify)
      ensures r.Ok? ==> posts == old(posts) + [r.value]
      ensures r.Err? ==> posts == old(posts)
      ensures tags == old(tags) && categories == old(categories)
    {
      if dto.status.Null? {
        return Err(NotNullViolation("status"));
      }
      var slug := slugify(dto.title);
      var readingTime := ReadingTime(dto.content);
      var post := Post(id, dto.title, slug, dto.content,
        dto.excerpt.ToOption(), dto.coverImage.ToOption(), dto.authorId.ToOption(),
        MergeRequired(Draft, dto.status), readingTime,
        dto.seoTitle.ToOption(), dto.seoDescription.ToOption(), [], [],
        if dto.status == Given(Published) then Some(now) else None, now, now);
      if NonEmptyList(dto.tagIds) {
        post := post.(tags := TagsByIds(tags, dto.tagIds.value));
      }
      if NonEmptyList(dto.categoryIds) {
        post := post.(categories := CategoriesByIds(categories, dto.categoryIds.value));
      }
      if SlugTaken(posts, slug) {
        return Err(UniqueViolation("slug"));
      }
      AppendKeepsValid(posts, post);
      posts := posts + [post];
      r := Ok(post);
    }

    /** `update(id, dto)`. */
    method Update(id: Id, dto: UpdatePostDto, now: Timestamp, slugify: string -> string) returns (r: Result<Post>)
      requires Valid()
      modifies this
      ensures Valid()
      ensures r == UpdateResult(old(posts), tags, categories, id, dto, now, slugify)
      ensures r.Ok? ==> posts == old(posts)[IndexOfPost(old(posts), id).value := r.value]
      ensures r.Err? ==> posts == old(posts)
      ensures tags == old(tags) && categories == old(categories)
    {
      var found := IndexOfPost(posts, id);
      if found.None? {
        return Err(NotFound("Post not found"));
      }
      var i := found.value;
      var before := posts[i];
      var nullColumn := NullColumn(dto);
      if nullColumn.Some? {
        return Err(NotNullViolation(nullColumn.value));
      }
      var post := Derive(before, dto, now, slugify);
      post := Assign(post, dto);
      post := Relink(post, dto, tags, categories);
      if SlugTakenByOther(posts, post.slug, i) {
        return Err(UniqueViolation("slug"));
      }
      post := Stamped(before, post, now);
      assert UpdateResult(posts, tags, categories, id, dto, now, slugify) == Ok(post);
      UpdateKeepsValid(posts, i, post);
      posts := posts[i := post];
      r := Ok(post);
    }

    /** `remove(id)`: deletes exactly the post with that id. */
    method Remove(id: Id) returns (r: Result<()>)
      requires Valid()
      modifies this
      ensures Valid()
      ensures r.Err? <==> forall i :: 0 <= i < |old(posts)| ==> old(posts)[i].id != id
      ensures r.Err? ==> r.error == NotFound("Post not found") && posts == old(posts)
      ensures r.Ok? ==> |posts| == |old(posts)| - 1
      ensures r.Ok? ==> forall p :: p in posts <==> p in old(posts) && p.id != id
      ensures tags == old(tags) && categories == old(categories)
    {
      var found := IndexOfPost(posts, id);
      if found.None? {
        return Err(NotFound("Post not found"));
      }
      var i := found.value;
      RemoveKeepsValid(posts, i);
      RemoveMembers(posts, i);
      posts := posts[..i] + posts[i + 1..];
      r := Ok(());
    }
  }

  /** Replacing row `i` by a row with the same id, a slug no other row uses,
      and the published/reading-time guarantees keeps the table valid. */
  lemma UpdateKeepsValid(posts: seq<Post>, i: nat, q: Post)
    requires TableValid(posts) && i < |posts|
    requires q.id == posts[i].id && !SlugTakenByOther(posts, q.slug, i)
    requires IsPublished(q) ==> q.publishedAt.Some?
    requires q.readingTime >= 1
    ensures TableValid(posts[i := q])
  {
  }

  /** Appending a row with a fresh id, an unused slug and the
      published/reading-time guarantees keeps the table valid. */
  lemma AppendKeepsValid(posts: seq<Post>, p: Post)
    requires TableValid(posts)
    requires forall i :: 0 <= i < |posts| ==> posts[i].id != p.id
    requires !SlugTaken(posts, p.slug)
    requires IsPublished(p) ==> p.publishedAt.Some?
    requires p.readingTime >= 1
    ensures TableValid(posts + [p])
  {
  }

  /** Deleting row `i` keeps the table valid. */
  lemma RemoveKeepsValid(posts: seq<Post>, i: nat)
    requires TableValid(posts) && i < |posts|
    ensures TableValid(posts[..i] + posts[i + 1..])
  {
    var rest := posts[..i] + posts[i + 1..];
    assert forall k :: 0 <= k < |rest| ==> rest[k] == posts[if k < i then k else k + 1];
  }

  /** Deleting row `i` removes exactly the rows with its id. */
  lemma RemoveMembers(posts: seq<Post>, i: nat)
    requires TableValid(posts) && i < |posts|
    ensures |posts[..i] + posts[i + 1..]| == |posts| - 1
    ensures forall p :: p in posts[..i] + posts[i + 1..] <==> p in posts && p.id != posts[i].id
  {
    var rest := posts[..i] + posts[i + 1..];
    RemoveKeepsOthers(posts, i);
    forall p | p in rest ensures p in posts && p.id != posts[i].id {
      var k :| 0 <= k < |rest| && rest[k] == p;
      if k < i { assert posts[k] == p; } else { assert posts[k + 1] == p; }
    }
  }

  lemma RemoveKeepsOthers(posts: seq<Post>, i: nat)
    requires i < |posts|
    ensures forall p :: p in posts && p.id != posts[i].id ==> p in posts[..i] + posts[i + 1..]
  {
    var rest := posts[..i] + posts[i + 1..];
    forall p | p in posts && p.id != posts[i].id ensures p in rest {
      var k :| 0 <= k < |posts| && posts[k] == p;
      if k < i { assert rest[k] == p; } else { assert rest[k - 1] == p; }
    }
  }
}
