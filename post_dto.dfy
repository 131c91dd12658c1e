/** `CreatePostDto` and `UpdatePostDto`
    (backend/src/modules/blog/dto/post.dto.ts) as validators from a JSON
    body to the DTO the blog service receives. */
module PostDto {
  import opened Common
  import opened BlogEntities
  import opened Validation

  datatype CreatePostDto = CreatePostDto(
    title: string,
    content: string,
    excerpt: Field<string>,
    coverImage: Field<string>,
    authorId: Field<string>,
    status: Field<PostStatus>,
    seoTitle: Field<string>,
    seoDescription: Field<string>,
    tagIds: Field<seq<string>>,
    categoryIds: Field<seq<string>>)

  datatype UpdatePostDto = UpdatePostDto(
    title: Field<string>,
    content: Field<string>,
    excerpt: Field<string>,
    coverImage: Field<string>,
    authorId: Field<string>,
    status: Field<PostStatus>,
    seoTitle: Field<string>,
    seoDescription: Field<string>,
    tagIds: Field<seq<string>>,
    categoryIds: Field<seq<string>>)

  /** No post property is checked with @IsEmail(). */
  const NoEmail: string -> bool := (s: string) => false

  /** The ten declared properties of `CreatePostDto`; `title` and `content`
      are the only required ones. */
  const CreateRules: seq<Rule> := [
    Rule("title", IsString(1), false),
    Rule("content", IsString(0), false),
    Rule("excerpt", IsString(0), true),
    Rule("coverImage", IsString(0), true),
    Rule("authorId", IsString(0), true),
    Rule("status", IsEnum(StatusValues), true),
    Rule("seoTitle", IsString(0), true),
    Rule("seoDescription", IsString(0), true),
    Rule("tagIds", IsStringArray, true),
    Rule("categoryIds", IsStringArray, true)]

  /** `UpdatePostDto` declares the same properties, all optional. */
  const UpdateRules: seq<Rule> := [
    Rule("title", IsString(1), true),
    Rule("content", IsString(0), true),
    Rule("excerpt", IsString(0), true),
    Rule("coverImage", IsString(0), true),
    Rule("authorId", IsString(0), true),
    Rule("status", IsEnum(StatusValues), true),
    Rule("seoTitle", IsString(0), true),
    Rule("seoDescription", IsString(0), true),
    Rule("tagIds", IsStringArray, true),
    Rule("categoryIds", IsStringArray, true)]

  function StatusField(body: map<string, Json>): Field<PostStatus> {
    match StringField(body, "status", IsEnum(StatusValues))
    case Absent => Absent
    case Null => Null
    case Given(t) =>
      match ParseStatus(t)
      case Some(st) => Given(st)
      case None => Absent
  }

  /** The status field holds what the body sent; a given status is the
      enum value whose string the body carried. */
  ghost predicate CarriesStatus(body: map<string, Json>, f: Field<PostStatus>) {
    (f.Absent? <==> "status" !in body) &&
    (f.Null? <==> "status" in body && body["status"].JNull?) &&
    (f.Given? ==> "status" in body && Convert(IsEnum(StatusValues), body["status"]) == JStr(StatusText(f.value)))
  }

  lemma StatusFieldCarries(body: map<string, Json>, rule: Rule)
    requires rule.name == "status" && rule.check == IsEnum(StatusValues) && RuleHolds(rule, body, NoEmail)
    ensures CarriesStatus(body, StatusField(body))
  {
    StringFieldCarries(body, rule, NoEmail);
  }

  /** Every field of a create DTO holds what the body sent. */
  ghost predicate CreateFromBody(body: map<string, Json>, d: CreatePostDto) {
    Carries(body, "title", IsString(1), Given(d.title)) &&
    Carries(body, "content", IsString(0), Given(d.content)) &&
    Carries(body, "excerpt", IsString(0), d.excerpt) &&
    Carries(body, "coverImage", IsString(0), d.coverImage) &&
    Carries(body, "authorId", IsString(0), d.authorId) &&
    CarriesStatus(body, d.status) &&
    Carries(body, "seoTitle", IsString(0), d.seoTitle) &&
    Carries(body, "seoDescription", IsString(0), d.seoDescription) &&
    CarriesStrings(body, "tagIds", d.tagIds) &&
    CarriesStrings(body, "categoryIds", d.categoryIds)
  }

  /** Every field of an update DTO holds what the body sent. */
  ghost predicate UpdateFromBody(body: map<string, Json>, d: UpdatePostDto) {
    Carries(body, "title", IsString(1), d.title) &&
    Carries(body, "content", IsString(0), d.content) &&
    Carries(body, "excerpt", IsString(0), d.excerpt) &&
    Carries(body, "coverImage", IsString(0), d.coverImage) &&
    Carries(body, "authorId", IsString(0), d.authorId) &&
    CarriesStatus(body, d.status) &&
    Carries(body, "seoTitle", IsString(0), d.seoTitle) &&
    Carries(body, "seoDescription", IsString(0), d.seoDescription) &&
    CarriesStrings(body, "tagIds", d.tagIds) &&
    CarriesStrings(body, "categoryIds", d.categoryIds)
  }

  /** The pipe on a `POST /blog/posts` body. */
  function ValidateCreatePost(body: map<string, Json>): (r: Result<CreatePostDto>)
    ensures r.Ok? <==> Offending(CreateRules, body, NoEmail) == {}
    ensures r.Err? ==> r.error == BadRequest(Offending(CreateRules, body, NoEmail))
    ensures r.Ok? ==> |r.value.title| >= 1
    ensures r.Ok? ==> forall k :: k in body ==> Declares(CreateRules, k)
    ensures r.Ok? ==> CreateFromBody(body, r.value)
  {
    var bad := Offending(CreateRules, body, NoEmail);
    if bad != {} then Err(BadRequest(bad))
    else
      assert RuleHolds(CreateRules[0], body, NoEmail) && RuleHolds(CreateRules[1], body, NoEmail);
      StringPropertiesCarried(CreateRules, body);
      StatusAndIdsCarried(CreateRules, body);
      Ok(CreatePostDto(
        TextOf(IsString(1), body["title"]),
        TextOf(IsString(0), body["content"]),
        StringField(body, "excerpt", IsString(0)),
        StringField(body, "coverImage", IsString(0)),
        StringField(body, "authorId", IsString(0)),
        StatusField(body),
        StringField(body, "seoTitle", IsString(0)),
        StringField(body, "seoDescription", IsString(0)),
        ArrayField(body, "tagIds"),
        ArrayField(body, "categoryIds")))
  }

  /** The pipe on a `PUT /blog/posts/:id` body. */
  function ValidateUpdatePost(body: map<string, Json>): (r: Result<UpdatePostDto>)
    ensures r.Ok? <==> Offending(UpdateRules, body, NoEmail) == {}
    ensures r.Err? ==> r.error == BadRequest(Offending(UpdateRules, body, NoEmail))
    ensures r.Ok? && r.value.title.Given? ==> |r.value.title.value| >= 1
    ensures r.Ok? ==> forall k :: k in body ==> Declares(UpdateRules, k)
    ensures r.Ok? ==> UpdateFromBody(body, r.value)
  {
    var bad := Offending(UpdateRules, body, NoEmail);
    if bad != {} then Err(BadRequest(bad))
    else
      StringPropertiesCarried(UpdateRules, body);
      StatusAndIdsCarried(UpdateRules, body);
      Ok(UpdatePostDto(
        StringField(body, "title", IsString(1)),
        StringField(body, "content", IsString(0)),
        StringField(body, "excerpt", IsString(0)),
        StringField(body, "coverImage", IsString(0)),
        StringField(body, "authorId", IsString(0)),
        StatusField(body),
        StringField(body, "seoTitle", IsString(0)),
        StringField(body, "seoDescription", IsString(0)),
        ArrayField(body, "tagIds"),
        ArrayField(body, "categoryIds")))
  }

  /** The declared properties of either DTO: those of `CreatePostDto`, each
      optional or not. */
  ghost predicate PostRules(rules: seq<Rule>) {
    |rules| == |CreateRules| &&
    forall i :: 0 <= i < |rules| ==> rules[i] == CreateRules[i].(optional := rules[i].optional)
  }

  /** With nothing to report, each declared string property reaches the DTO
      as the body sent it. */
  lemma StringPropertiesCarried(rules: seq<Rule>, body: map<string, Json>)
    requires PostRules(rules) && Offending(rules, body, NoEmail) == {}
    ensures Carries(body, "title", IsString(1), StringField(body, "title", IsString(1)))
    ensures Carries(body, "content", IsString(0), StringField(body, "content", IsString(0)))
    ensures Carries(body, "excerpt", IsString(0), StringField(body, "excerpt", IsString(0)))
    ensures Carries(body, "coverImage", IsString(0), StringField(body, "coverImage", IsString(0)))
    ensures Carries(body, "authorId", IsString(0), StringField(body, "authorId", IsString(0)))
    ensures Carries(body, "seoTitle", IsString(0), StringField(body, "seoTitle", IsString(0)))
    ensures Carries(body, "seoDescription", IsString(0), StringField(body, "seoDescription", IsString(0)))
  {
    assert forall i :: 0 <= i < |rules| ==> RuleHolds(rules[i], body, NoEmail);
    StringFieldCarries(body, rules[0], NoEmail);
    StringFieldCarries(body, rules[1], NoEmail);
    StringFieldCarries(body, rules[2], NoEmail);
    StringFieldCarries(body, rules[3], NoEmail);
    StringFieldCarries(body, rules[4], NoEmail);
    StringFieldCarries(body, rules[6], NoEmail);
    StringFieldCarries(body, rules[7], NoEmail);
  }

  /** With nothing to report, the status and the id lists reach the DTO as
      the body sent them. */
  lemma StatusAndIdsCarried(rules: seq<Rule>, body: map<string, Json>)
    requires PostRules(rules) && Offending(rules, body, NoEmail) == {}
    ensures CarriesStatus(body, StatusField(body))
    ensures CarriesStrings(body, "tagIds", ArrayField(body, "tagIds"))
    ensures CarriesStrings(body, "categoryIds", ArrayField(body, "categoryIds"))
  {
    assert forall i :: 0 <= i < |rules| ==> RuleHolds(rules[i], body, NoEmail);
    StatusFieldCarries(body, rules[5]);
    ArrayFieldCarries(body, rules[8], NoEmail);
    ArrayFieldCarries(body, rules[9], NoEmail);
  }

  /** `slug`, `readingTime` and `publishedAt` are not declared, so a body
      that carries any of them is refused on create and on update and the
      offending property is named. */
  lemma ServerControlledFieldsRejected(body: map<string, Json>, k: string)
    requires k in {"slug", "readingTime", "publishedAt"} && k in body
    ensures ValidateCreatePost(body).Err? && k in ValidateCreatePost(body).error.properties
    ensures ValidateUpdatePost(body).Err? && k in ValidateUpdatePost(body).error.properties
  {
    ServerControlledUndeclared(k);
  }

  lemma ServerControlledUndeclared(k: string)
    requires k in {"slug", "readingTime", "publishedAt"}
    ensures !Declares(CreateRules, k) && !Declares(UpdateRules, k)
  {
    forall i | 0 <= i < |CreateRules| ensures CreateRules[i].name != k && UpdateRules[i].name != k {
    }
  }

  /** A create body must carry a title and content. */
  lemma CreateRequiresTitleAndContent(body: map<string, Json>)
    requires "title" !in body || "content" !in body
    ensures ValidateCreatePost(body).Err?
  {
    if "title" !in body {
      assert !RuleHolds(CreateRules[0], body, NoEmail);
    } else {
      assert !RuleHolds(CreateRules[1], body, NoEmail);
    }
  }

  /** An empty update body is accepted and changes nothing it names. */
  lemma EmptyUpdateAccepted()
    ensures ValidateUpdatePost(map[]) ==
      Ok(UpdatePostDto(Absent, Absent, Absent, Absent, Absent, Absent, Absent, Absent, Absent, Absent))
  {
    var body: map<string, Json> := map[];
    forall i | 0 <= i < |UpdateRules| ensures RuleHolds(UpdateRules[i], body, NoEmail) {
    }
    assert Offending(UpdateRules, body, NoEmail) == {};
  }

  /** A status outside the three enum values is refused. */
  lemma UnknownStatusRejected(body: map<string, Json>, t: string)
    requires "status" in body && body["status"] == JStr(t) && t !in StatusValues
    ensures ValidateCreatePost(body).Err? && ValidateUpdatePost(body).Err?
  {
    assert !RuleHolds(CreateRules[5], body, NoEmail);
    assert !RuleHolds(UpdateRules[5], body, NoEmail);
  }

  /** Tag and category ids must be an array of strings when present. */
  lemma TagIdsMustBeStrings(body: map<string, Json>, items: seq<Json>, i: nat)
    requires "tagIds" in body && body["tagIds"] == JArr(items)
    requires i < |items| && !items[i].JStr?
    ensures ValidateCreatePost(body).Err? && ValidateUpdatePost(body).Err?
  {
    assert !RuleHolds(CreateRules[8], body, NoEmail);
    assert !RuleHolds(UpdateRules[8], body, NoEmail);
  }
}
