/** Concrete cases of the model: the order feature tests against the
    success and failure fixtures, the dispatch feature test, the cost the
    listing test displays, and further cases the model decides (responses
    that cannot be read, a refused application, a cost with a thousands
    separator). */
module Scenarios {
  import opened Wrappers
  import opened Records
  import NbnOrderService
  import ProcessNbnApplications
  import MoneyFormat

  /** The application the order tests create: every field filled in, a fresh
      row with no order id. */
  function SampleApplication(id: nat, status: Status): Application
  {
    Application(
      id,
      Customer("John", "Doe"),
      Plan("nbn", Str("Sample Plan"), 4999),
      Str("123 Main St"), Str("Apt 4"), Str("New York"), Str("NY"), Str("10001"),
      status, Null, 0)
  }

  /** Every field of the sample application passes `required|string`. */
  lemma SampleIsValid(id: nat, status: Status)
    ensures forall f :: NbnOrderService.Passes(NbnOrderService.FieldValue(SampleApplication(id, status), f))
  {
    assert !IsTrimmed("123 Main St"[0]) && !IsTrimmed("Apt 4"[0]) && !IsTrimmed("New York"[0]);
    assert !IsTrimmed("NY"[0]) && !IsTrimmed("10001"[0]) && !IsTrimmed("Sample Plan"[0]);
  }

  /** Ordering against the success fixture completes the application and
      stores the fixture's order id. */
  lemma SuccessfulFixtureCompletes(post: NbnOrderService.Payload -> NbnOrderService.ProviderResponse)
    ensures
      var fixture := NbnOrderService.Decoded(Some(Str("Successful")), Some(Str("ORD000000000000")));
      var r := NbnOrderService.PlaceOrder(SampleApplication(1, Other), NbnOrderService.Env(false, fixture), post);
      r.thrown.None? && r.sent.None? && r.row.status == Complete && r.row.orderId == Str("ORD000000000000")
  {
    SampleIsValid(1, Other);
  }

  /** Ordering against a fixture with any other status fails the application
      and leaves its order id null, whether or not the fixture has an id. */
  lemma FailedFixtureLeavesOrderIdNull(status: Scalar, id: Option<Scalar>, post: NbnOrderService.Payload -> NbnOrderService.ProviderResponse)
    requires status != Str("Successful")
    ensures
      var fixture := NbnOrderService.Decoded(Some(status), id);
      var r := NbnOrderService.PlaceOrder(SampleApplication(1, Other), NbnOrderService.Env(false, fixture), post);
      r.thrown.None? && r.row.status == OrderFailed && r.row.orderId == Null
  {
    SampleIsValid(1, Other);
  }

  /** A success response without an `id` key throws when the id is read,
      before the application is saved. */
  lemma SuccessWithoutIdThrows(post: NbnOrderService.Payload -> NbnOrderService.ProviderResponse)
    ensures
      var app := SampleApplication(1, Order);
      var fixture := NbnOrderService.Decoded(Some(Str("Successful")), None);
      var r := NbnOrderService.PlaceOrder(app, NbnOrderService.Env(false, fixture), post);
      r.thrown == Some(NbnOrderService.BadResponse(NbnOrderService.MissingKey("id"))) && r.row == app
  {
    SampleIsValid(1, Order);
  }

  /** A provider reply that is not JSON throws after the request was sent,
      and the application stays as it was. */
  lemma UnreadableReplyThrows(env: NbnOrderService.Env, post: NbnOrderService.Payload -> NbnOrderService.ProviderResponse)
    requires env.useRealRequest
    requires forall p :: post(p) == NbnOrderService.NotAnArray
    ensures
      var app := SampleApplication(1, Order);
      var r := NbnOrderService.PlaceOrder(app, env, post);
      r.thrown == Some(NbnOrderService.BadResponse(NbnOrderService.NotArray)) && r.row == app && r.sent.Some?
  {
    SampleIsValid(1, Order);
  }

  /** An application missing its second address line is refused before
      anything is sent or saved, naming that field. */
  lemma MissingAddressLineThrows(env: NbnOrderService.Env, post: NbnOrderService.Payload -> NbnOrderService.ProviderResponse)
    ensures
      var app := SampleApplication(1, Order).(address2 := Null);
      var r := NbnOrderService.PlaceOrder(app, env, post);
      r.thrown == Some(NbnOrderService.Invalid(NbnOrderService.FieldError(NbnOrderService.Address2, NbnOrderService.Required)))
      && r.row == app && r.sent.None?
  {
    var app := SampleApplication(1, Order).(address2 := Null);
    SampleIsValid(1, Order);
    assert !IsTrimmed("123 Main St"[0]);
    assert !NbnOrderService.Passes(NbnOrderService.FieldValue(app, NbnOrderService.Address2));
    var e := NbnOrderService.Validate(app).error;
    assert NbnOrderService.Rank(e.field) <= NbnOrderService.Rank(NbnOrderService.Address2);
    assert e.field == NbnOrderService.Address2;
  }

  /** Five eligible applications and a queue that accepts every push: five
      jobs are queued, one per application in storage order, and the answer
      is 200. */
  lemma DispatchFiveEligible(db: seq<Application>, push: Application -> Option<string>)
    requires |db| == 5
    requires forall i :: 0 <= i < |db| ==> db[i].status == Order && db[i].plan.planType == "nbn"
    requires forall a :: push(a).None?
    ensures var d := ProcessNbnApplications.Expected(db, None, push);
      |d.jobs| == 5 && d.response.statusCode == 200
      && forall i :: 0 <= i < 5 ==> d.jobs[i] == db[i].id
  {
    ProcessNbnApplications.AllEligibleAllQueued(db, push);
  }

  /** The cost shown by the listing fixtures. */
  lemma CostDisplaySmall()
    ensures MoneyFormat.FormatCost(4999) == "49.99"
  {
    assert MoneyFormat.Digits(49) == "49" by {
      assert MoneyFormat.Digits(4) == "4";
    }
    assert MoneyFormat.TwoDigits(99) == "99";
  }

  /** A cost of a thousand dollars or more gets a thousands separator. */
  lemma CostDisplayThousands()
    ensures MoneyFormat.FormatCost(123456) == "1,234.56"
  {
    assert 123456 / 100 == 1234 && 123456 % 100 == 56;
    DigitsOf1234();
    GroupOf1234();
    assert MoneyFormat.TwoDigits(56) == "56";
    assert MoneyFormat.FormatCost(123456) == "1,234" + "." + "56";
  }

  lemma DigitsOf1234()
    ensures MoneyFormat.Digits(1234) == "1234"
  {
    assert MoneyFormat.Digits(1) == "1";
    assert MoneyFormat.Digits(12) == "12";
    assert MoneyFormat.Digits(123) == "123";
  }

  lemma GroupOf1234()
    ensures MoneyFormat.Group("1234") == "1,234"
  {
    assert "1234"[..1] == "1";
    assert "1234"[1..] == "234";
  }
}
