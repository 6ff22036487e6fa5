/** The NBN order service: which applications are eligible for ordering, the
    validation of the six order fields, and the status transition driven by
    the provider's response.

    Placing an order is a pure function here. The environment switches
    (`USE_REAL_REQUEST`, `NBN_RESPONSE_FILE`), the fixture file and the HTTP
    POST are parameters: the already-decoded fixture response and a function
    from the request payload to the provider's decoded reply. */
module NbnOrderService {
  import opened Wrappers
  import opened Records
  import Seqs

  const NbnPlanType := "nbn"
  const SuccessfulStatus := "Successful"

  // ---------------------------------------------------------------------
  // Selection
  // ---------------------------------------------------------------------

  /** An application awaits ordering when its status is "order" and its plan
      is an NBN plan. */
  predicate EligibleForOrder(a: Application)
  {
    a.status == Order && a.plan.planType == NbnPlanType
  }

  /** The applications eligible for ordering, in storage order. */
  function SelectForOrder(db: seq<Application>): (r: seq<Application>)
    ensures forall a :: a in r <==> a in db && a.status == Order && a.plan.planType == "nbn"
  {
    Seqs.Filter(db, EligibleForOrder)
  }

  /** Every eligible application is selected as many times as it is stored,
      and no other application is selected. */
  lemma SelectForOrderCounts(db: seq<Application>)
    ensures forall a :: multiset(SelectForOrder(db))[a] == if EligibleForOrder(a) then multiset(db)[a] else 0
  {
    Seqs.FilterCount(db, EligibleForOrder);
  }

  /** A table whose every row is eligible is selected whole, in order. */
  lemma SelectAllEligible(db: seq<Application>)
    requires forall i :: 0 <= i < |db| ==> db[i].status == Order && db[i].plan.planType == "nbn"
    ensures SelectForOrder(db) == db
  {
    Seqs.FilterKeepsAll(db, EligibleForOrder);
  }

  /** Selection over a table split in two is the selection of each part, in
      order: the relative order of the selected rows is the table's. */
  lemma SelectForOrderPreservesOrder(a: seq<Application>, b: seq<Application>)
    ensures SelectForOrder(a + b) == SelectForOrder(a) + SelectForOrder(b)
  {
    Seqs.FilterAppend(a, b, EligibleForOrder);
  }

  // ---------------------------------------------------------------------
  // Validation of the request data
  // ---------------------------------------------------------------------

  /** The six validated fields, in the validator's rule order. */
  datatype Field = Address1 | Address2 | City | State | Postcode | PlanName

  /** The two rules every field carries: `required|string`. */
  datatype Rule = Required | IsString

  /** The first validation error: which field, and which of its rules. */
  datatype FieldError = FieldError(field: Field, rule: Rule)

  /** The validated request data sent to the provider. */
  datatype Payload = Payload(
    address1: string,
    address2: string,
    city: string,
    state: string,
    postcode: string,
    planName: string)

  const FieldOrder: seq<Field> := [Address1, Address2, City, State, Postcode, PlanName]

  /** Position of a field in the rule order. */
  function Rank(f: Field): (k: nat)
    ensures k < |FieldOrder| && FieldOrder[k] == f
  {
    match f
    case Address1 => 0
    case Address2 => 1
    case City => 2
    case State => 3
    case Postcode => 4
    case PlanName => 5
  }

  /** The value the validator sees for a field. */
  function FieldValue(app: Application, f: Field): Scalar
  {
    match f
    case Address1 => app.address1
    case Address2 => app.address2
    case City => app.city
    case State => app.state
    case Postcode => app.postcode
    case PlanName => app.plan.name
  }

  /** The value a payload carries for a field. */
  function PayloadValue(p: Payload, f: Field): string
  {
    match f
    case Address1 => p.address1
    case Address2 => p.address2
    case City => p.city
    case State => p.state
    case Postcode => p.postcode
    case PlanName => p.planName
  }

  /** A value passes `required|string` when it is a string that is not blank. */
  predicate Passes(v: Scalar)
  {
    v.Str? && !Blank(v.s)
  }

  /** The first rule of `required|string` that `v` breaks, if any: null and
      blank strings are missing; any other non-string is not a string. */
  function BrokenRule(v: Scalar): (r: Option<Rule>)
    ensures r.None? <==> Passes(v)
    ensures r == Some(Required) <==> v.Null? || (v.Str? && Blank(v.s))
  {
    match v
    case Null => Some(Required)
    case Str(s) => if Blank(s) then Some(Required) else None
    case Int(_) => Some(IsString)
  }

  /** The first error among `fields`, checked in order. */
  function FirstError(app: Application, fields: seq<Field>): (r: Option<FieldError>)
    ensures r.None? <==> forall i :: 0 <= i < |fields| ==> Passes(FieldValue(app, fields[i]))
    ensures r.Some? ==>
      exists k :: 0 <= k < |fields| && fields[k] == r.value.field
        && BrokenRule(FieldValue(app, fields[k])) == Some(r.value.rule)
        && forall j :: 0 <= j < k ==> Passes(FieldValue(app, fields[j]))
  {
    if |fields| == 0 then None
    else match BrokenRule(FieldValue(app, fields[0]))
      case Some(rule) => Some(FieldError(fields[0], rule))
      case None =>
        var r := FirstError(app, fields[1..]);
        if r.Some? then
          ghost var k :| 0 <= k < |fields[1..]| && fields[1..][k] == r.value.field
            && BrokenRule(FieldValue(app, fields[1..][k])) == Some(r.value.rule)
            && forall j :: 0 <= j < k ==> Passes(FieldValue(app, fields[1..][j]));
          assert fields[k + 1] == r.value.field;
          r
        else r
  }

  /** Validates the application's six order fields. On success the payload is
      exactly those fields with the application's own values; on failure the
      error names the first failing field in rule order, and the rule it
      broke. */
  function Validate(app: Application): (r: Result<Payload, FieldError>)
    ensures r.Success? <==> forall f :: Passes(FieldValue(app, f))
    ensures r.Success? ==> forall f :: FieldValue(app, f) == Str(PayloadValue(r.value, f))
    ensures r.Failure? ==>
      && BrokenRule(FieldValue(app, r.error.field)) == Some(r.error.rule)
      && forall f :: Rank(f) < Rank(r.error.field) ==> Passes(FieldValue(app, f))
  {
    match FirstError(app, FieldOrder)
    case Some(e) =>
      ghost var k :| 0 <= k < |FieldOrder| && FieldOrder[k] == e.field
        && BrokenRule(FieldValue(app, FieldOrder[k])) == Some(e.rule)
        && forall j :: 0 <= j < k ==> Passes(FieldValue(app, FieldOrder[j]));
      assert Rank(e.field) == k;
      assert !Passes(FieldValue(app, e.field));
      Failure(e)
    case None =>
      assert forall f :: Passes(FieldValue(app, f)) by {
        forall f ensures Passes(FieldValue(app, f)) {
          assert FieldOrder[Rank(f)] == f;
        }
      }
      assert Passes(FieldValue(app, Address1)) && Passes(FieldValue(app, Address2))
        && Passes(FieldValue(app, City)) && Passes(FieldValue(app, State))
        && Passes(FieldValue(app, Postcode)) && Passes(FieldValue(app, PlanName));
      Success(Payload(
        app.address1.s, app.address2.s, app.city.s, app.state.s, app.postcode.s, app.plan.name.s))
  }

  // ---------------------------------------------------------------------
  // Placing an order
  // ---------------------------------------------------------------------

  /** The decoded provider response. A body that does not decode to a JSON
      object or array is `NotAnArray`; otherwise each of the two keys the
      order placer reads is either absent (`None`) or holds a value. */
  datatype ProviderResponse =
    | NotAnArray
    | Decoded(status: Option<Scalar>, id: Option<Scalar>)

  /** The two environment settings the order placer reads: whether to call the
      provider, and the decoded fixture response used when it does not. */
  datatype Env = Env(useRealRequest: bool, fixture: ProviderResponse)

  /** Why reading the response threw: it was not an array, or a key the
      code reads is missing. Either way the framework turns the warning into
      an exception before anything is saved. */
  datatype ResponseFault = NotArray | MissingKey(key: string)

  /** The exceptions placing an order can raise. */
  datatype Thrown = Invalid(error: FieldError) | BadResponse(fault: ResponseFault)

  /** What placing an order leaves behind: the stored application row, the
      exception thrown, if any, and the request body POSTed to the provider,
      if any. */
  datatype Placement = Placement(row: Application, thrown: Option<Thrown>, sent: Option<Payload>)

  /** The provider accepted the order: its status is exactly the string
      "Successful" (strict comparison, so case and type matter). */
  predicate Accepted(resp: ProviderResponse)
  {
    resp.Decoded? && resp.status == Some(Str(SuccessfulStatus))
  }

  /** The status transition applied to an application once a response is in
      hand: the status key is read first, and the id key only on success. */
  function ApplyResponse(app: Application, resp: ProviderResponse): (r: Result<Application, ResponseFault>)
    ensures resp.NotAnArray? ==> r == Failure(NotArray)
    ensures resp.Decoded? && resp.status.None? ==> r == Failure(MissingKey("status"))
    ensures resp.Decoded? && resp.status == Some(Str("Successful")) ==>
      if resp.id.None? then r == Failure(MissingKey("id"))
      else r.Success? && r.value.status == Complete && r.value.orderId == resp.id.value
    ensures resp.Decoded? && resp.status.Some? && resp.status != Some(Str("Successful")) ==>
      r.Success? && r.value.status == OrderFailed && r.value.orderId == app.orderId
    ensures r.Success? ==> r.value == app.(status := r.value.status, orderId := r.value.orderId)
  {
    match resp
    case NotAnArray => Failure(NotArray)
    case Decoded(status, id) =>
      if status.None? then Failure(MissingKey("status"))
      else if Accepted(resp) then
        if id.None? then Failure(MissingKey("id"))
        else Success(app.(orderId := id.value, status := Complete))
      else Success(app.(status := OrderFailed))
  }

  /** The response the order placer acts on: the provider's reply to the
      payload when real requests are enabled, the fixture otherwise. */
  function ChosenResponse(env: Env, post: Payload -> ProviderResponse, payload: Payload): (r: ProviderResponse)
    ensures env.useRealRequest ==> r == post(payload)
    ensures !env.useRealRequest ==> r == env.fixture
  {
    if env.useRealRequest then post(payload) else env.fixture
  }

  /** Places the order for one application. A validation failure throws before
      anything is sent; otherwise the payload is POSTed when real requests are
      enabled, and the application moves to Complete (storing the order id)
      or to OrderFailed depending only on the response status. A response
      that cannot be read throws, and then nothing is saved. */
  function PlaceOrder(app: Application, env: Env, post: Payload -> ProviderResponse): (r: Placement)
    ensures (r.thrown.Some? && r.thrown.value.Invalid?) <==> exists f :: !Passes(FieldValue(app, f))
    ensures r.thrown.Some? ==> r.row == app
    ensures r.thrown.Some? && r.thrown.value.Invalid? ==>
      r.thrown.value.error == Validate(app).error && r.sent.None?
    ensures r.thrown.None? ==>
      && r.row.status in {Complete, OrderFailed}
      && r.row == app.(status := r.row.status, orderId := r.row.orderId)
    ensures Validate(app).Success? ==>
      && (r.sent.Some? <==> env.useRealRequest)
      && (r.sent.Some? ==> forall f :: FieldValue(app, f) == Str(PayloadValue(r.sent.value, f)))
    ensures Validate(app).Success? ==>
      var resp := ChosenResponse(env, post, Validate(app).value);
      && (resp.NotAnArray? ==> r.thrown == Some(BadResponse(NotArray)))
      && (resp.Decoded? && resp.status.None? ==> r.thrown == Some(BadResponse(MissingKey("status"))))
      && (Accepted(resp) && resp.id.None? ==> r.thrown == Some(BadResponse(MissingKey("id"))))
      && (Accepted(resp) && resp.id.Some? ==>
            r.thrown.None? && r.row.status == Complete && r.row.orderId == resp.id.value)
      && (resp.Decoded? && resp.status.Some? && !Accepted(resp) ==>
            r.thrown.None? && r.row.status == OrderFailed && r.row.orderId == app.orderId)
  {
    match Validate(app)
    case Failure(e) => Placement(app, Some(Invalid(e)), None)
    case Success(payload) =>
      var resp := ChosenResponse(env, post, payload);
      var sent := if env.useRealRequest then Some(payload) else None;
      match ApplyResponse(app, resp)
      case Failure(fault) => Placement(app, Some(BadResponse(fault)), sent)
      case Success(row) => Placement(row, None, sent)
  }

  /** The outcome depends on the environment and the provider only through the
      chosen response: a real call and a fixture holding the same reply lead
      to the same stored row. */
  lemma OutcomeDependsOnlyOnResponse(
    app: Application,
    env1: Env, post1: Payload -> ProviderResponse,
    env2: Env, post2: Payload -> ProviderResponse)
    requires Validate(app).Success? ==>
      ChosenResponse(env1, post1, Validate(app).value) == ChosenResponse(env2, post2, Validate(app).value)
    ensures PlaceOrder(app, env1, post1).row == PlaceOrder(app, env2, post2).row
    ensures PlaceOrder(app, env1, post1).thrown == PlaceOrder(app, env2, post2).thrown
  {
  }

  /** The stored invariant "order id set exactly when Complete". */
  predicate OrderIdInvariant(a: Application)
  {
    a.orderId != Null <==> a.status == Complete
  }

  /** An application freshly picked for ordering (status "order", no order
      id) keeps the invariant after a placement, whether it throws or not,
      exactly when the provider does not report success with an id that is
      explicitly null. */
  lemma PlaceOrderKeepsOrderIdInvariant(app: Application, env: Env, post: Payload -> ProviderResponse)
    requires app.status == Order && app.orderId == Null
    ensures Validate(app).Failure? ==> OrderIdInvariant(PlaceOrder(app, env, post).row)
    ensures Validate(app).Success? ==>
      var resp := ChosenResponse(env, post, Validate(app).value);
      OrderIdInvariant(PlaceOrder(app, env, post).row) <==> !(Accepted(resp) && resp.id == Some(Null))
  {
  }
}
