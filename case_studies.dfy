/** The case-study service
    (backend/src/modules/case-studies/case-studies.service.ts) over an
    in-memory table. The request body is typed `Partial` of the entity, a
    type the validation pipe does not check, so every property arrives as
    the client sent it. The model takes the body's properties for the
    columns a client fills in, each a tri-state field holding a value of
    the column's type; a body that sets `id` or `createdAt`, or a title
    that is not a string, is not part of this model. */
module CaseStudies {
  import opened Common
  import opened Query

  datatype CaseStudy = CaseStudy(
    id: Id,
    title: string,
    slug: string,
    client: Option<string>,
    industry: Option<string>,
    challenge: string,
    solution: string,
    results: string,
    coverImage: Option<string>,
    publishedAt: Option<Timestamp>,
    createdAt: Timestamp)

  /** The properties of a request body for the columns a client fills in
      (all but `id` and `createdAt`), each absent, null or a value of the
      column's type. */
  datatype CaseStudyInput = CaseStudyInput(
    title: Field<string>,
    slug: Field<string>,
    client: Field<string>,
    industry: Field<string>,
    challenge: Field<string>,
    solution: Field<string>,
    results: Field<string>,
    coverImage: Field<string>,
    publishedAt: Field<Timestamp>)

  function CreatedKey(c: CaseStudy): int {
    c.createdAt
  }

  /** Ids and slugs are unique (the slug column is UNIQUE). */
  ghost predicate TableValid(rows: seq<CaseStudy>) {
    (forall i, j :: 0 <= i < j < |rows| ==> rows[i].id != rows[j].id) &&
    (forall i, j :: 0 <= i < j < |rows| ==> rows[i].slug != rows[j].slug)
  }

  /** `data.title || ''`: the title when it is a non-empty string. */
  function TitleText(f: Field<string>): (t: string)
    ensures f.Given? && f.value != [] ==> t == f.value
    ensures !(f.Given? && f.value != []) ==> t == []
  {
    if f.Given? then f.value else []
  }

  /** A NOT NULL column receives null when its property is null, or absent
      on insert; the first such column in table order is reported. */
  function NullOnInsert(data: CaseStudyInput): (c: Option<string>)
    ensures c.None? <==> data.title.Given? && data.challenge.Given? && data.solution.Given? && data.results.Given?
  {
    if !data.title.Given? then Some("title")
    else if !data.challenge.Given? then Some("challenge")
    else if !data.solution.Given? then Some("solution")
    else if !data.results.Given? then Some("results")
    else None
  }

  function NullOnUpdate(data: CaseStudyInput): (c: Option<string>)
    ensures c.None? <==> !data.title.Null? && !data.slug.Null? && !data.challenge.Null? &&
                         !data.solution.Null? && !data.results.Null?
  {
    if data.title.Null? then Some("title")
    else if data.slug.Null? then Some("slug")
    else if data.challenge.Null? then Some("challenge")
    else if data.solution.Null? then Some("solution")
    else if data.results.Null? then Some("results")
    else None
  }

  predicate SlugTaken(rows: seq<CaseStudy>, slug: string, except: int) {
    exists j :: 0 <= j < |rows| && j != except && rows[j].slug == slug
  }

  /** The row `create` inserts: the slug is always derived from the title
      (from "" without one), whatever slug the body carries. */
  function NewCaseStudy(data: CaseStudyInput, id: Id, now: Timestamp, slugify: string -> string): (c: CaseStudy)
    requires NullOnInsert(data).None?
    ensures c.slug == slugify(TitleText(data.title))
    ensures c.id == id && c.createdAt == now
    ensures c.title == data.title.value && c.challenge == data.challenge.value
    ensures c.solution == data.solution.value && c.results == data.results.value
    ensures c.client == data.client.ToOption() && c.industry == data.industry.ToOption()
    ensures c.coverImage == data.coverImage.ToOption() && c.publishedAt == data.publishedAt.ToOption()
  {
    CaseStudy(id, data.title.value, slugify(TitleText(data.title)), data.client.ToOption(),
      data.industry.ToOption(), data.challenge.value, data.solution.value, data.results.value,
      data.coverImage.ToOption(), data.publishedAt.ToOption(), now)
  }

  /** `update` first overwrites `data.slug` with the derived slug when the
      title is a non-empty string; a body without such a title keeps its own
      slug property. */
  function WithDerivedSlug(data: CaseStudyInput, slugify: string -> string): (d: CaseStudyInput)
    ensures data.title.Given? && data.title.value != [] ==> d.slug == Given(slugify(data.title.value))
    ensures !(data.title.Given? && data.title.value != []) ==> d.slug == data.slug
    ensures d == data.(slug := d.slug)
  {
    if data.title.Given? && data.title.value != [] then data.(slug := Given(slugify(data.title.value))) else data
  }

  /** Object.assign(cs, data): the present properties are copied, the absent
      ones leave the row as it was. */
  function Assign(c: CaseStudy, data: CaseStudyInput): (r: CaseStudy)
    requires NullOnUpdate(data).None?
    ensures r.id == c.id && r.createdAt == c.createdAt
    ensures r.title == MergeRequired(c.title, data.title) && r.slug == MergeRequired(c.slug, data.slug)
    ensures r.challenge == MergeRequired(c.challenge, data.challenge)
    ensures r.solution == MergeRequired(c.solution, data.solution)
    ensures r.results == MergeRequired(c.results, data.results)
    ensures r.client == Merge(c.client, data.client) && r.industry == Merge(c.industry, data.industry)
    ensures r.coverImage == Merge(c.coverImage, data.coverImage)
    ensures r.publishedAt == Merge(c.publishedAt, data.publishedAt)
  {
    c.(title := MergeRequired(c.title, data.title),
       slug := MergeRequired(c.slug, data.slug),
       client := Merge(c.client, data.client),
       industry := Merge(c.industry, data.industry),
       challenge := MergeRequired(c.challenge, data.challenge),
       solution := MergeRequired(c.solution, data.solution),
       results := MergeRequired(c.results, data.results),
       coverImage := Merge(c.coverImage, data.coverImage),
       publishedAt := Merge(c.publishedAt, data.publishedAt))
  }

  /** `findOne({ where: { id } })`. */
  function IndexOfId(rows: seq<CaseStudy>, id: Id): (r: Option<nat>)
    ensures r.Some? ==> r.value < |rows| && rows[r.value].id == id
    ensures r.None? ==> forall i :: 0 <= i < |rows| ==> rows[i].id != id
  {
    FindFirst(rows, (c: CaseStudy) => c.id == id)
  }

  /** The slug an update leaves on the row: derived from a non-empty title,
      otherwise a supplied slug, otherwise the old one. */
  lemma UpdatedSlug(c: CaseStudy, data: CaseStudyInput, slugify: string -> string)
    requires NullOnUpdate(data).None?
    ensures var r := Assign(c, WithDerivedSlug(data, slugify));
      (data.title.Given? && data.title.value != [] ==> r.slug == slugify(data.title.value)) &&
      (!(data.title.Given? && data.title.value != []) && data.slug.Given? ==> r.slug == data.slug.value) &&
      (!(data.title.Given? && data.title.value != []) && data.slug.Absent? ==> r.slug == c.slug)
  {
    assert NullOnUpdate(WithDerivedSlug(data, slugify)).None?;
  }

  class CaseStudiesService {
    var rows: seq<CaseStudy>

    ghost predicate Valid()
      reads this
    {
      TableValid(rows)
    }

    constructor()
      ensures Valid() && rows == []
    {
      rows := [];
    }

    /** `findAll()`: every case study, published or not, newest first. */
    function FindAll(): (r: seq<CaseStudy>)
      reads this
      ensures multiset(r) == multiset(rows)
      ensures SortedDesc(r, CreatedKey)
    {
      SortDesc(rows, CreatedKey)
    }

    /** `findBySlug(slug)`. */
    function FindBySlug(slug: string): (r: Result<CaseStudy>)
      reads this
      ensures r.Ok? ==> r.value in rows && r.value.slug == slug
      ensures r.Err? <==> forall i :: 0 <= i < |rows| ==> rows[i].slug != slug
      ensures r.Err? ==> r.error == NotFound("Case study not found")
    {
      match FindFirst(rows, (c: CaseStudy) => c.slug == slug)
      case None => Err(NotFound("Case study not found"))
      case Some(i) => Ok(rows[i])
    }

    /** `create(data)`: `id` is the generated key and `now` the creation
        time. */
    method Create(data: CaseStudyInput, id: Id, now: Timestamp, slugify: string -> string) returns (r: Result<CaseStudy>)
      requires Valid()
      requires forall i :: 0 <= i < |rows| ==> rows[i].id != id
      modifies this
      ensures Valid()
      ensures NullOnInsert(data).Some? ==> r == Err(NotNullViolation(NullOnInsert(data).value))
      ensures NullOnInsert(data).None? && SlugTaken(old(rows), slugify(TitleText(data.title)), -1) ==>
        r == Err(UniqueViolation("slug"))
      ensures r.Err? ==> rows == old(rows)
      ensures NullOnInsert(data).None? && !SlugTaken(old(rows), slugify(TitleText(data.title)), -1) ==>
        r == Ok(NewCaseStudy(data, id, now, slugify))
      ensures r.Ok? ==> NullOnInsert(data).None? && r.value == NewCaseStudy(data, id, now, slugify)
      ensures r.Ok? ==> rows == old(rows) + [r.value]
    {
      var slug := slugify(TitleText(data.title));
      var nullColumn := NullOnInsert(data);
      if nullColumn.Some? {
        return Err(NotNullViolation(nullColumn.value));
      }
      var cs := NewCaseStudy(data, id, now, slugify);
      if SlugTaken(rows, slug, -1) {
        return Err(UniqueViolation("slug"));
      }
      rows := rows + [cs];
      r := Ok(cs);
    }

    /** `update(id, data)`. */
    method Update(id: Id, data: CaseStudyInput, slugify: string -> string) returns (r: Result<CaseStudy>)
      requires Valid()
      modifies this
      ensures Valid()
      ensures IndexOfId(old(rows), id).None? ==> r == Err(NotFound("Case study not found"))
      ensures var k := IndexOfId(old(rows), id); var input := WithDerivedSlug(data, slugify);
        k.Some? && NullOnUpdate(input).Some? ==> r == Err(NotNullViolation(NullOnUpdate(input).value))
      ensures var k := IndexOfId(old(rows), id); var input := WithDerivedSlug(data, slugify);
        k.Some? && NullOnUpdate(input).None? ==>
          var cs := Assign(old(rows)[k.value], input);
          r == if SlugTaken(old(rows), cs.slug, k.value) then Err(UniqueViolation("slug")) else Ok(cs)
      ensures r.Err? ==> rows == old(rows)
      ensures r.Ok? ==> IndexOfId(old(rows), id).Some? && NullOnUpdate(WithDerivedSlug(data, slugify)).None?
      ensures r.Ok? ==> var i := IndexOfId(old(rows), id).value;
        r.value == Assign(old(rows)[i], WithDerivedSlug(data, slugify)) &&
        rows == old(rows)[i := r.value]
    {
      var found := IndexOfId(rows, id);
      if found.None? {
        return Err(NotFound("Case study not found"));
      }
      var i := found.value;
      var input := WithDerivedSlug(data, slugify);
      var nullColumn := NullOnUpdate(input);
      if nullColumn.Some? {
        return Err(NotNullViolation(nullColumn.value));
      }
      var cs := Assign(rows[i], input);
      if SlugTaken(rows, cs.slug, i) {
        return Err(UniqueViolation("slug"));
      }
      rows := rows[i := cs];
      r := Ok(cs);
    }

    /** `remove(id)`: deletes exactly the addressed row. */
    method Remove(id: Id) returns (r: Result<()>)
      requires Valid()
      modifies this
      ensures Valid()
      ensures r.Err? <==> forall i :: 0 <= i < |old(rows)| ==> old(rows)[i].id != id
      ensures r.Err? ==> r.error == NotFound("Case study not found") && rows == old(rows)
      ensures r.Ok? ==> var i := IndexOfId(old(rows), id).value;
        rows == old(rows)[..i] + old(rows)[i + 1..]
      ensures r.Ok? ==> forall c :: c in rows <==> c in old(rows) && c.id != id
    {
      var found := IndexOfId(rows, id);
      if found.None? {
        return Err(NotFound("Case study not found"));
      }
      var i := found.value;
      RemoveKeepsValid(rows, i);
      rows := rows[..i] + rows[i + 1..];
      r := Ok(());
    }
  }

  /** Deleting row `i` keeps ids and slugs unique and removes exactly the
      rows with its id. */
  lemma RemoveKeepsValid(rows: seq<CaseStudy>, i: nat)
    requires TableValid(rows) && i < |rows|
    ensures TableValid(rows[..i] + rows[i + 1..])
    ensures forall c :: c in rows[..i] + rows[i + 1..] <==> c in rows && c.id != rows[i].id
  {
    var rest := rows[..i] + rows[i + 1..];
    assert forall k :: 0 <= k < |rest| ==> rest[k] == rows[if k < i then k else k + 1];
    forall c | c in rows && c.id != rows[i].id ensures c in rest {
      var k :| 0 <= k < |rows| && rows[k] == c;
      if k < i { assert rest[k] == c; } else { assert rest[k - 1] == c; }
    }
  }
}
