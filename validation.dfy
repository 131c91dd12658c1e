/** The global validation pipe (backend/src/main.ts) applied to a JSON
    request body and a DTO class: `whitelist` with `forbidNonWhitelisted`
    refuses any property the class does not declare, `transform` with
    `enableImplicitConversion` first converts each property to its declared
    type, and then each property's decorators are checked. */
module Validation {
  import opened Common
  import Text

  /** What the decorators of one declared property demand. */
  datatype Check =
    | IsString(minLength: nat)   // @IsString() and @MinLength(n) (n = 0: none)
    | IsEnum(values: set<string>) // @IsEnum(E) of a string enum
    | IsStringArray               // @IsArray() @IsString({ each: true })
    | IsEmail                     // @IsEmail()

  /** A declared property: its name, its check and whether it carries
      @IsOptional(). */
  datatype Rule = Rule(name: string, check: Check, optional: bool)

  /** Implicit conversion: a property declared as a string receives
      `String(value)` for a number, boolean or object; null and arrays pass
      through. Array properties are not converted. */
  function Convert(check: Check, v: Json): (r: Json)
    ensures check.IsStringArray? ==> r == v
    ensures v.JStr? || v.JNull? || v.JArr? ==> r == v
    ensures !check.IsStringArray? && (v.JNum? || v.JBool? || v.JObj?) ==> r.JStr?
  {
    if check.IsStringArray? then v
    else match v
      case JNum(n) => JStr(Text.DecimalText(n))
      case JBool(b) => JStr(if b then "true" else "false")
      case JObj(_) => JStr("[object Object]")
      case _ => v
  }

  predicate AllStrings(items: seq<Json>) {
    forall i :: 0 <= i < |items| ==> items[i].JStr?
  }

  /** The decorators' verdict on a converted, present, non-null value. */
  predicate Satisfies(check: Check, v: Json, isEmail: string -> bool) {
    match check
    case IsString(m) => v.JStr? && |v.s| >= m
    case IsEnum(values) => v.JStr? && v.s in values
    case IsStringArray => v.JArr? && AllStrings(v.items)
    case IsEmail => v.JStr? && isEmail(v.s)
  }

  /** One property passes: @IsOptional() skips every check for a missing or
      null value; otherwise the converted value must satisfy the check. */
  predicate RuleHolds(rule: Rule, body: map<string, Json>, isEmail: string -> bool) {
    if rule.name !in body then rule.optional
    else
      var v := Convert(rule.check, body[rule.name]);
      (v.JNull? && rule.optional) || Satisfies(rule.check, v, isEmail)
  }

  /** Some rule declares the property `k`. */
  predicate Declares(rules: seq<Rule>, k: string)
    ensures Declares(rules, k) <==> exists i :: 0 <= i < |rules| && rules[i].name == k
  {
    if rules == [] then false else rules[0].name == k || Declares(rules[1..], k)
  }

  /** The properties the pipe reports: undeclared ones and declared ones
      that fail their check. */
  function Offending(rules: seq<Rule>, body: map<string, Json>, isEmail: string -> bool): (bad: set<string>)
    ensures forall k :: k in body && !Declares(rules, k) ==> k in bad
    ensures forall i :: 0 <= i < |rules| && !RuleHolds(rules[i], body, isEmail) ==> rules[i].name in bad
    ensures forall k :: k in bad ==>
      (k in body && !Declares(rules, k)) ||
      exists i :: 0 <= i < |rules| && rules[i].name == k && !RuleHolds(rules[i], body, isEmail)
  {
    (set k | k in body && !Declares(rules, k))
    + (set i | 0 <= i < |rules| && !RuleHolds(rules[i], body, isEmail) :: rules[i].name)
  }

  /** The value a validated string property contributes to the DTO. */
  function TextOf(check: Check, v: Json): string {
    match Convert(check, v)
    case JStr(s) => s
    case _ => ""
  }

  function StringsOf(items: seq<Json>): (r: seq<string>)
    ensures |r| == |items|
    ensures forall i :: 0 <= i < |items| && items[i].JStr? ==> r[i] == items[i].s
  {
    seq(|items|, i requires 0 <= i < |items| =>
      match items[i] case JStr(s) => s case _ => "")
  }

  /** An optional string property as a tri-state field. */
  function StringField(body: map<string, Json>, name: string, check: Check): Field<string> {
    if name !in body then Absent
    else if body[name].JNull? then Null
    else Given(TextOf(check, body[name]))
  }

  function ArrayField(body: map<string, Json>, name: string): Field<seq<string>> {
    if name !in body then Absent
    else match body[name]
      case JNull => Null
      case JArr(items) => Given(StringsOf(items))
      case _ => Given([])
  }

  /** A string field of a DTO holds what the body sent: absent when the body
      lacks the property, null when it is null, and otherwise the converted
      value, which is a string. */
  ghost predicate Carries(body: map<string, Json>, name: string, check: Check, f: Field<string>) {
    (f.Absent? <==> name !in body) &&
    (f.Null? <==> name in body && body[name].JNull?) &&
    (f.Given? ==> name in body && Convert(check, body[name]) == JStr(f.value))
  }

  /** An array field of a DTO holds what the body sent: absent, null, or
      the strings of the body's array, one for one and in order. */
  ghost predicate CarriesStrings(body: map<string, Json>, name: string, f: Field<seq<string>>) {
    (f.Absent? <==> name !in body) &&
    (f.Null? <==> name in body && body[name].JNull?) &&
    (f.Given? ==> name in body && body[name].JArr? && |body[name].items| == |f.value| &&
                  (forall i :: 0 <= i < |f.value| ==> body[name].items[i] == JStr(f.value[i])))
  }

  /** A string property that passed its check reaches the DTO as the body
      sent it. */
  lemma StringFieldCarries(body: map<string, Json>, rule: Rule, isEmail: string -> bool)
    requires !rule.check.IsStringArray? && RuleHolds(rule, body, isEmail)
    ensures Carries(body, rule.name, rule.check, StringField(body, rule.name, rule.check))
  {
  }

  /** An array property that passed its check reaches the DTO as the body
      sent it. */
  lemma ArrayFieldCarries(body: map<string, Json>, rule: Rule, isEmail: string -> bool)
    requires rule.check.IsStringArray? && RuleHolds(rule, body, isEmail)
    ensures CarriesStrings(body, rule.name, ArrayField(body, rule.name))
  {
  }
}
