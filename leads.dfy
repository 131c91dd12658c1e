/** The leads service (backend/src/modules/leads/leads.service.ts) over an
    in-memory lead table. */
module Leads {
  import opened Common
  import opened Query
  import LeadDto

  /** The five values of the `status` enum column. */
  datatype LeadStatus = New | Contacted | Qualified | Converted | Closed

  function StatusText(s: LeadStatus): string {
    match s
    case New => "new"
    case Contacted => "contacted"
    case Qualified => "qualified"
    case Converted => "converted"
    case Closed => "closed"
  }

  /** What the database accepts for the enum column. */
  function ParseLeadStatus(t: string): (r: Option<LeadStatus>)
    ensures r.Some? ==> StatusText(r.value) == t
    ensures r.None? ==> forall s: LeadStatus :: StatusText(s) != t
  {
    if t == "new" then Some(New)
    else if t == "contacted" then Some(Contacted)
    else if t == "qualified" then Some(Qualified)
    else if t == "converted" then Some(Converted)
    else if t == "closed" then Some(Closed)
    else None
  }

  datatype Lead = Lead(
    id: Id,
    name: string,
    email: string,
    company: Option<string>,
    message: string,
    source: Option<string>,
    status: LeadStatus,
    createdAt: Timestamp)

  function CreatedKey(l: Lead): int {
    l.createdAt
  }

  ghost predicate TableValid(leads: seq<Lead>) {
    forall i, j :: 0 <= i < j < |leads| ==> leads[i].id != leads[j].id
  }

  /** The row `create` saves: the DTO's fields, the entity default status
      `new`, the generated id and the creation time. */
  function NewLead(dto: LeadDto.CreateLeadDto, id: Id, now: Timestamp): (l: Lead)
    ensures l.status == New && l.id == id && l.createdAt == now
    ensures l.name == dto.name && l.email == dto.email && l.message == dto.message
    ensures l.company == dto.company.ToOption() && l.source == dto.source.ToOption()
  {
    Lead(id, dto.name, dto.email, dto.company.ToOption(), dto.message, dto.source.ToOption(), New, now)
  }

  /** One page of leads and the number of all leads. */
  datatype LeadPage = LeadPage(leads: seq<Lead>, total: nat)

  /** The outcome of `updateStatus(id, status)`. The body's `status` is
      taken unchecked, so it may be missing; the ORM then writes NULL, which
      the NOT NULL column refuses on a row that exists. A text outside the
      five is refused by the enum column before any row is looked at. An
      id with no row updates nothing and ends in a plain error, not a
      NotFound. */
  function UpdateStatusResult(leads: seq<Lead>, id: Id, status: Option<string>): (r: Result<Lead>)
    ensures status.Some? && ParseLeadStatus(status.value).None? ==> r == Err(InvalidEnum("status"))
    ensures status.None? || ParseLeadStatus(status.value).Some? ==>
      (forall i :: 0 <= i < |leads| ==> leads[i].id != id) ==> r == Err(Failure("Lead not found"))
    ensures status.None? && (exists i :: 0 <= i < |leads| && leads[i].id == id) ==>
      r == Err(NotNullViolation("status"))
    ensures r.Ok? ==> status.Some? && r.value.id == id && StatusText(r.value.status) == status.value
    ensures r.Ok? ==> exists i :: 0 <= i < |leads| && leads[i].id == id && r.value == leads[i].(status := r.value.status)
    ensures status.Some? && ParseLeadStatus(status.value).Some? && (exists i :: 0 <= i < |leads| && leads[i].id == id) ==>
      r.Ok?
  {
    var found := FindFirst(leads, (l: Lead) => l.id == id);
    match status
    case None =>
      if found.None? then Err(Failure("Lead not found")) else Err(NotNullViolation("status"))
    case Some(text) =>
      match ParseLeadStatus(text)
      case None => Err(InvalidEnum("status"))
      case Some(st) =>
        match found
        case None => Err(Failure("Lead not found"))
        case Some(i) => Ok(leads[i].(status := st))
  }

  class LeadsService {
    var leads: seq<Lead>

    ghost predicate Valid()
      reads this
    {
      TableValid(leads)
    }

    constructor()
      ensures Valid() && leads == []
    {
      leads := [];
    }

    /** `create(dto)`: appends one lead. */
    method Create(dto: LeadDto.CreateLeadDto, id: Id, now: Timestamp) returns (l: Lead)
      requires Valid()
      requires forall i :: 0 <= i < |leads| ==> leads[i].id != id
      modifies this
      ensures Valid()
      ensures l == NewLead(dto, id, now) && l.status == New
      ensures leads == old(leads) + [l]
    {
      l := NewLead(dto, id, now);
      leads := leads + [l];
    }

    /** `findAll(page, limit)` (defaults 1 and 20): leads newest first, the
        page's window of them, and the count of all leads. */
    function FindAll(page: int, limit: int): (r: Result<LeadPage>)
      reads this
      ensures page >= 1 && limit >= 1 ==> r.Ok?
      ensures r.Err? <==> Skipped(page, limit) < 0 || limit < 0
      ensures r.Ok? ==> r.value.total == |leads|
      ensures r.Ok? ==> |r.value.leads| == PageLength(|leads|, Skipped(page, limit), limit)
      ensures r.Ok? && limit >= 1 ==> |r.value.leads| <= limit
      ensures r.Ok? ==> SortedDesc(r.value.leads, CreatedKey)
      ensures r.Ok? ==> IsPage(r.value.leads, SortDesc(leads, CreatedKey), Skipped(page, limit))
    {
      var all := SortDesc(leads, CreatedKey);
      match Window(all, Skipped(page, limit), limit)
      case Err(e) => Err(e)
      case Ok(w) => Ok(LeadPage(w, |leads|))
    }

    /** `updateStatus(id, status)`: the status of the addressed lead changes
        and nothing else does. */
    method UpdateStatus(id: Id, status: Option<string>) returns (r: Result<Lead>)
      requires Valid()
      modifies this
      ensures Valid()
      ensures r == UpdateStatusResult(old(leads), id, status)
      ensures r.Err? ==> leads == old(leads)
      ensures |leads| == |old(leads)|
      ensures forall i :: 0 <= i < |leads| && old(leads)[i].id != id ==> leads[i] == old(leads)[i]
      ensures forall i :: 0 <= i < |leads| && old(leads)[i].id == id && status.Some? && ParseLeadStatus(status.value).Some? ==>
        r.Ok? && leads[i] == r.value
    {
      var found := FindFirst(leads, (l: Lead) => l.id == id);
      if status.None? {
        return if found.None? then Err(Failure("Lead not found")) else Err(NotNullViolation("status"));
      }
      var st := ParseLeadStatus(status.value);
      if st.None? {
        return Err(InvalidEnum("status"));
      }
      if found.None? {
        return Err(Failure("Lead not found"));
      }
      var i := found.value;
      assert forall j :: 0 <= j < |leads| && leads[j].id == id ==> j == i;
      var lead := leads[i].(status := st.value);
      leads := leads[i := lead];
      r := Ok(lead);
    }
  }
}
