/** `CreateLeadDto` (backend/src/modules/leads/dto/create-lead.dto.ts) as a
    validator from a JSON body to the DTO the leads service receives. The
    email-format check of the validation library is the parameter `isEmail`. */
module LeadDto {
  import opened Common
  import opened Validation

  datatype CreateLeadDto = CreateLeadDto(
    name: string,
    email: string,
    company: Field<string>,
    message: string,
    source: Field<string>)

  /** The five declared properties; `company` and `source` are optional. */
  const LeadRules: seq<Rule> := [
    Rule("name", IsString(1), false),
    Rule("email", IsEmail, false),
    Rule("company", IsString(0), true),
    Rule("message", IsString(10), false),
    Rule("source", IsString(0), true)]

  /** The pipe on a `POST /leads` body. */
  function ValidateLead(body: map<string, Json>, isEmail: string -> bool): (r: Result<CreateLeadDto>)
    ensures r.Ok? <==> Offending(LeadRules, body, isEmail) == {}
    ensures r.Err? ==> r.error == BadRequest(Offending(LeadRules, body, isEmail))
    ensures r.Ok? ==> |r.value.name| >= 1 && isEmail(r.value.email) && |r.value.message| >= 10
    ensures r.Ok? ==> forall k :: k in body ==> Declares(LeadRules, k)
    ensures r.Ok? ==> Carries(body, "name", IsString(1), Given(r.value.name))
    ensures r.Ok? ==> Carries(body, "email", IsEmail, Given(r.value.email))
    ensures r.Ok? ==> Carries(body, "company", IsString(0), r.value.company)
    ensures r.Ok? ==> Carries(body, "message", IsString(10), Given(r.value.message))
    ensures r.Ok? ==> Carries(body, "source", IsString(0), r.value.source)
  {
    var bad := Offending(LeadRules, body, isEmail);
    if bad != {} then Err(BadRequest(bad))
    else
      assert forall i :: 0 <= i < |LeadRules| ==> RuleHolds(LeadRules[i], body, isEmail);
      StringFieldCarries(body, LeadRules[0], isEmail);
      StringFieldCarries(body, LeadRules[1], isEmail);
      StringFieldCarries(body, LeadRules[2], isEmail);
      StringFieldCarries(body, LeadRules[3], isEmail);
      StringFieldCarries(body, LeadRules[4], isEmail);
      Ok(CreateLeadDto(
        TextOf(IsString(1), body["name"]),
        TextOf(IsEmail, body["email"]),
        StringField(body, "company", IsString(0)),
        TextOf(IsString(10), body["message"]),
        StringField(body, "source", IsString(0))))
  }

  /** A client cannot choose the initial status of a lead: `status` is not
      declared, so a body carrying it is refused and `status` is named. */
  lemma StatusRejected(body: map<string, Json>, isEmail: string -> bool)
    requires "status" in body
    ensures ValidateLead(body, isEmail).Err?
    ensures "status" in ValidateLead(body, isEmail).error.properties
  {
    forall i | 0 <= i < |LeadRules| ensures LeadRules[i].name != "status" {
    }
  }

  /** A message of fewer than ten characters is refused. */
  lemma ShortMessageRejected(body: map<string, Json>, isEmail: string -> bool, m: string)
    requires "message" in body && body["message"] == JStr(m) && |m| < 10
    ensures ValidateLead(body, isEmail).Err?
    ensures "message" in ValidateLead(body, isEmail).error.properties
  {
    assert !RuleHolds(LeadRules[3], body, isEmail);
  }

  /** The smallest accepted body: the three required properties alone, each
      valid, give a lead without company or source. */
  lemma RequiredOnlyAccepted(name: string, email: string, message: string, isEmail: string -> bool)
    requires |name| >= 1 && isEmail(email) && |message| >= 10
    ensures ValidateLead(map["name" := JStr(name), "email" := JStr(email), "message" := JStr(message)], isEmail)
      == Ok(CreateLeadDto(name, email, Absent, message, Absent))
  {
    var body := map["name" := JStr(name), "email" := JStr(email), "message" := JStr(message)];
    RequiredOnlyDeclared(body);
    RequiredOnlyHold(name, email, message, isEmail);
    assert Offending(LeadRules, body, isEmail) == {};
    assert body["name"] == JStr(name) && body["email"] == JStr(email) && body["message"] == JStr(message);
    assert StringField(body, "company", IsString(0)) == Absent && StringField(body, "source", IsString(0)) == Absent;
  }

  lemma RequiredOnlyDeclared(body: map<string, Json>)
    requires body.Keys == {"name", "email", "message"}
    ensures forall k :: k in body ==> Declares(LeadRules, k)
  {
    forall k | k in body ensures Declares(LeadRules, k) {
      if k == "name" { assert LeadRules[0].name == k; }
      else if k == "email" { assert LeadRules[1].name == k; }
      else { assert LeadRules[3].name == k; }
    }
  }

  lemma RequiredOnlyHold(name: string, email: string, message: string, isEmail: string -> bool)
    requires |name| >= 1 && isEmail(email) && |message| >= 10
    ensures var body := map["name" := JStr(name), "email" := JStr(email), "message" := JStr(message)];
      forall i :: 0 <= i < |LeadRules| ==> RuleHolds(LeadRules[i], body, isEmail)
  {
    var body := map["name" := JStr(name), "email" := JStr(email), "message" := JStr(message)];
    assert body["name"] == JStr(name) && body["email"] == JStr(email) && body["message"] == JStr(message);
    assert "company" !in body && "source" !in body;
  }
}
