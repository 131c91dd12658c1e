/** The rows of the blog tables: posts, authors, tags and categories. */
module BlogEntities {
  import opened Common

  datatype PostStatus = Draft | Published | Archived

  /** The enum's string values. */
  function StatusText(s: PostStatus): string {
    match s
    case Draft => "draft"
    case Published => "published"
    case Archived => "archived"
  }

  const StatusValues: set<string> := {"draft", "published", "archived"}

  function ParseStatus(t: string): (r: Option<PostStatus>)
    ensures r.Some? <==> t in StatusValues
    ensures r.Some? ==> StatusText(r.value) == t
  {
    if t == "draft" then Some(Draft)
    else if t == "published" then Some(Published)
    else if t == "archived" then Some(Archived)
    else None
  }

  datatype Author = Author(id: Id, name: string, bio: Option<string>, avatarUrl: Option<string>)

  datatype Tag = Tag(id: Id, name: string, slug: string)

  /** Categories have the same shape as tags (id, unique name, unique slug). */
  datatype Category = Category(id: Id, name: string, slug: string)

  datatype Post = Post(
    id: Id,
    title: string,
    slug: string,
    content: string,
    excerpt: Option<string>,
    coverImage: Option<string>,
    authorId: Option<string>,
    status: PostStatus,
    readingTime: int,
    seoTitle: Option<string>,
    seoDescription: Option<string>,
    tags: seq<Tag>,
    categories: seq<Category>,
    publishedAt: Option<Timestamp>,
    createdAt: Timestamp,
    updatedAt: Timestamp)

  predicate IsPublished(p: Post) {
    p.status == Published
  }

  /** Sort keys. A published post always carries `publishedAt` (see
      `Blog.BlogService.Valid`), so the 0 for a missing one never orders a
      published post. */
  function PublishedKey(p: Post): int {
    p.publishedAt.GetOr(0)
  }

  function CreatedKey(p: Post): int {
    p.createdAt
  }
}
