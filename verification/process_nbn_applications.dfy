/** The order dispatcher: selects the applications eligible for ordering and
    queues one order job per application, answering with a fixed success
    message or with the message of the exception that interrupted it.

    A queued job is represented by the id of its application. The two places
    an `\Exception` can come from are parameters: the database lookup (`Some`
    message when it throws) and the queue push for a given application. Only
    `\Exception` is caught; an `\Error` escapes the action and has no
    counterpart here. */
module ProcessNbnApplications {
  import opened Wrappers
  import opened Records
  import NbnOrderService

  const SuccessMessage := "NBN applications processed successfully"

  /** The JSON body of the acknowledgement: `{"message": ...}` or `{"error": ...}`. */
  datatype Body = Message(message: string) | Error(error: string)

  datatype JsonResponse = JsonResponse(statusCode: int, body: Body)

  /** The ids of the queued jobs and the acknowledgement returned. */
  datatype Dispatch = Dispatch(jobs: seq<nat>, response: JsonResponse)

  function SuccessResponse(): JsonResponse
  {
    JsonResponse(200, Message(SuccessMessage))
  }

  function ErrorResponse(message: string): JsonResponse
  {
    JsonResponse(500, Error(message))
  }

  /** The application ids of a sequence of applications, position by position. */
  function Ids(apps: seq<Application>): (r: seq<nat>)
    ensures |r| == |apps|
    ensures forall i :: 0 <= i < |apps| ==> r[i] == apps[i].id
  {
    seq(|apps|, i requires 0 <= i < |apps| => apps[i].id)
  }

  /** The position of the first application whose push throws, or the length
      of the sequence when none does. */
  function FirstRefusal(apps: seq<Application>, push: Application -> Option<string>): (k: nat)
    ensures k <= |apps|
    ensures forall j :: 0 <= j < k ==> push(apps[j]).None?
    ensures k < |apps| ==> push(apps[k]).Some?
  {
    if |apps| == 0 then 0
    else if push(apps[0]).Some? then 0
    else 1 + FirstRefusal(apps[1..], push)
  }

  /** The first refusal is at `k` when every push before `k` succeeds and the
      push at `k`, if there is one, throws. */
  lemma {:induction false} FirstRefusalAt(apps: seq<Application>, push: Application -> Option<string>, k: nat)
    requires k <= |apps|
    requires forall j :: 0 <= j < k ==> push(apps[j]).None?
    requires k < |apps| ==> push(apps[k]).Some?
    ensures FirstRefusal(apps, push) == k
  {
    if k > 0 {
      FirstRefusalAt(apps[1..], push, k - 1);
    }
  }

  /** What the dispatcher does, stated declaratively: a failed lookup queues
      nothing; otherwise every selected application before the first failing
      push is queued, in selection order, and the answer is success exactly
      when no push failed. */
  function Expected(db: seq<Application>, lookupError: Option<string>, push: Application -> Option<string>): Dispatch
  {
    match lookupError
    case Some(m) => Dispatch([], ErrorResponse(m))
    case None =>
      var apps := NbnOrderService.SelectForOrder(db);
      var k := FirstRefusal(apps, push);
      Dispatch(Ids(apps[..k]), if k == |apps| then SuccessResponse() else ErrorResponse(push(apps[k]).value))
  }

  /** The dispatcher as the action runs it: look up, then push one job per
      application in order; an `\Exception` from either step becomes the error
      acknowledgement, and jobs already pushed stay queued. */
  method Process(db: seq<Application>, lookupError: Option<string>, push: Application -> Option<string>)
    returns (jobs: seq<nat>, response: JsonResponse)
    ensures Dispatch(jobs, response) == Expected(db, lookupError, push)
    ensures lookupError.Some? ==> jobs == [] && response == ErrorResponse(lookupError.value)
    ensures lookupError.None? && (forall a :: a in NbnOrderService.SelectForOrder(db) ==> push(a).None?) ==>
      jobs == Ids(NbnOrderService.SelectForOrder(db)) && response == SuccessResponse()
  {
    if lookupError.Some? {
      return [], ErrorResponse(lookupError.value);
    }
    var apps := NbnOrderService.SelectForOrder(db);
    jobs, response := PushAll(apps, push);
    if forall a :: a in apps ==> push(a).None? {
      FirstRefusalAt(apps, push, |apps|);
      assert apps[..|apps|] == apps;
    }
  }

  /** The push loop: one job per application in order, stopping at the first
      push that throws, whose message becomes the error acknowledgement. */
  method PushAll(apps: seq<Application>, push: Application -> Option<string>)
    returns (jobs: seq<nat>, response: JsonResponse)
    ensures var k := FirstRefusal(apps, push);
      && jobs == Ids(apps[..k])
      && response == if k == |apps| then SuccessResponse() else ErrorResponse(push(apps[k]).value)
  {
    jobs := [];
    var i := 0;
    while i < |apps|
      invariant 0 <= i <= |apps|
      invariant forall j :: 0 <= j < i ==> push(apps[j]).None?
      invariant jobs == Ids(apps[..i])
    {
      var outcome := push(apps[i]);
      if outcome.Some? {
        FirstRefusalAt(apps, push, i);
        return jobs, ErrorResponse(outcome.value);
      }
      jobs := jobs + [apps[i].id];
      i := i + 1;
    }
    FirstRefusalAt(apps, push, i);
    response := SuccessResponse();
  }

  /** Whatever happens, the queued jobs are a prefix of the selection's ids,
      kept even when an error follows; the answer is the success message or
      a 500 error whose message is exactly the one thrown by the lookup or by
      the push of a selected application. */
  /** When every stored application is eligible and no push throws, every
      application gets a job, in storage order, and the answer is success. */
  lemma AllEligibleAllQueued(db: seq<Application>, push: Application -> Option<string>)
    requires forall i :: 0 <= i < |db| ==> db[i].status == Order && db[i].plan.planType == "nbn"
    requires forall i :: 0 <= i < |db| ==> push(db[i]).None?
    ensures Expected(db, None, push) == Dispatch(Ids(db), SuccessResponse())
  {
    NbnOrderService.SelectAllEligible(db);
    FirstRefusalAt(db, push, |db|);
    assert db[..|db|] == db;
  }

  lemma DispatchIsPartialOnError(db: seq<Application>, lookupError: Option<string>, push: Application -> Option<string>)
    ensures Expected(db, lookupError, push).jobs <= Ids(NbnOrderService.SelectForOrder(db))
    ensures var r := Expected(db, lookupError, push).response;
      r == SuccessResponse() || (r.statusCode == 500 && r.body.Error?)
    ensures var r := Expected(db, lookupError, push).response;
      r.body.Error? ==>
        lookupError == Some(r.body.error)
        || (lookupError.None? && exists a :: a in NbnOrderService.SelectForOrder(db) && push(a) == Some(r.body.error))
  {
    if lookupError.None? {
      var apps := NbnOrderService.SelectForOrder(db);
      var k := FirstRefusal(apps, push);
      assert Ids(apps[..k]) <= Ids(apps);
      if k < |apps| {
        assert apps[k] in apps;
      }
    }
  }
}
