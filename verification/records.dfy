/** The records the order and listing services read: applications joined with
    their plan and customer, as immutable values. */
module Records {

  /** A PHP value read from a column or from a decoded JSON document. `Null`
      stands for SQL NULL and JSON null; an absent JSON key is not a value
      (see NbnOrderService.ProviderResponse, where reading it throws). */
  datatype Scalar = Null | Str(s: string) | Int(i: int)

  /** The application status. `Order` is the case stored as the raw string
      "order"; every status the order workflow does not name is `Other`. */
  datatype Status = Order | Complete | OrderFailed | Other

  /** A telecom plan: its type ("nbn", "opticomm", "mobile", ...), its name
      and its monthly cost in integer cents. */
  datatype Plan = Plan(planType: string, name: Scalar, monthlyCost: nat)

  datatype Customer = Customer(firstName: string, lastName: string)

  /** An application row together with the plan and customer it refers to. */
  datatype Application = Application(
    id: nat,
    customer: Customer,
    plan: Plan,
    address1: Scalar,
    address2: Scalar,
    city: Scalar,
    state: Scalar,
    postcode: Scalar,
    status: Status,
    orderId: Scalar,
    createdAt: int)

  /** The characters PHP's `trim` strips by default. */
  predicate IsTrimmed(c: char)
  {
    c == ' ' || c == '\t' || c == '\n' || c == '\r' || c == '\0' || c == '\U{0B}'
  }

  /** A string that is empty once trimmed; the framework validator treats it
      as not present. */
  predicate Blank(s: string)
  {
    forall i :: 0 <= i < |s| ==> IsTrimmed(s[i])
  }

  /** PHP truthiness of a string: only "" and "0" are falsy. */
  predicate Truthy(s: string)
  {
    s != "" && s != "0"
  }
}
