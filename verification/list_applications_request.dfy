/** The listing request: authorization, which always passes, and the single
    rule `plan_type => nullable|in:null,nbn,opticomm,mobile`, whose failure
    ends the request with status 422. Followed by the action that hands an
    accepted request to the lister. */
module ListApplicationsRequest {
  import opened Wrappers
  import opened Records
  import ApplicationService

  const AllowedPlanTypes: seq<string> := ["null", "nbn", "opticomm", "mobile"]

  const ValidationFailedMessage := "Validation failed"

  /** One entry of the error bag: the attribute and the rule it broke. */
  datatype BagEntry = BagEntry(attribute: string, rule: string)

  /** The 422 answer to a request that fails validation. */
  datatype Rejection = Rejection(statusCode: int, message: string, errors: seq<BagEntry>)

  /** The outcome of a listing request. */
  datatype ListResponse = Forbidden | Rejected(rejection: Rejection) | Listed(page: ApplicationService.Page)

  /** Every caller may list applications. */
  function Authorize(): (allowed: bool)
    ensures allowed
  {
    true
  }

  /** Validates the `plan_type` query value (`None` when absent or null). A
      null value is allowed; a value that is empty once trimmed is treated as
      absent, so the `in` rule does not apply to it; any other value must be
      one of the four listed strings, compared exactly. */
  function Validate(planType: Option<string>): (r: Result<Option<string>, Rejection>)
    ensures r.Success? ==> r.value == planType
    ensures r.Success? <==> planType.None? || Blank(planType.value) || planType.value in AllowedPlanTypes
    ensures r.Failure? ==>
      r.error == Rejection(422, "Validation failed", [BagEntry("plan_type", "in")])
  {
    match planType
    case None => Success(planType)
    case Some(t) =>
      if Blank(t) || t in AllowedPlanTypes then Success(planType)
      else Failure(Rejection(422, ValidationFailedMessage, [BagEntry("plan_type", "in")]))
  }

  /** Handles `GET /api/applications`: authorize, validate, then list the
      requested page with the validated plan type. Validation is the only
      gate: a request is never refused for authorization, it is rejected
      exactly when its plan type is not allowed, and an accepted request
      lists with the plan type as given. */
  function Handle(db: seq<Application>, planType: Option<string>, page: Option<int>): (r: ListResponse)
    ensures !r.Forbidden?
    ensures r.Rejected? <==>
      planType.Some? && !Blank(planType.value) && planType.value !in ["null", "nbn", "opticomm", "mobile"]
    ensures r.Rejected? ==> r.rejection == Rejection(422, "Validation failed", [BagEntry("plan_type", "in")])
    ensures r.Listed? ==> r.page == ApplicationService.ListApplications(db, planType, page)
  {
    if !Authorize() then Forbidden
    else match Validate(planType)
      case Failure(e) => Rejected(e)
      case Success(t) => Listed(ApplicationService.ListApplications(db, t, page))
  }

  /** Of the accepted values, an absent or empty plan type lists every
      application, while a listed one (including the literal string "null",
      which is distinct from absence) lists only applications of that exact
      plan type. */
  lemma AcceptedPlanTypeFilters(db: seq<Application>, planType: Option<string>)
    requires Validate(planType).Success?
    ensures planType.None? || planType.value == "" ==> ApplicationService.Candidates(db, planType) == db
    ensures planType.Some? && planType.value in AllowedPlanTypes ==>
      forall a :: a in ApplicationService.Candidates(db, planType) <==>
        a in db && a.plan.planType == planType.value
  {
  }

  /** The literal "null" filters for plan type "null"; it does not mean "no
      filter". */
  lemma LiteralNullIsAFilter(db: seq<Application>)
    ensures Validate(Some("null")).Success?
    ensures forall a :: a in ApplicationService.Candidates(db, Some("null")) <==>
      a in db && a.plan.planType == "null"
  {
  }
}
