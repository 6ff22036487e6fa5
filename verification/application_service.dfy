/** The application lister: keeps the applications of the requested plan
    type, orders them oldest first, cuts out one page of ten and projects
    each row of that page to its display shape. */
module ApplicationService {
  import opened Wrappers
  import opened Records
  import Seqs
  import CreatedAtOrder
  import MoneyFormat

  const PerPage: nat := 10

  // ---------------------------------------------------------------------
  // Filter
  // ---------------------------------------------------------------------

  /** The filter's condition: the application's plan has type `t`. */
  function PlanTypeIs(t: string): Application -> bool
  {
    (a: Application) => a.plan.planType == t
  }

  /** The applications the query considers. The plan-type condition is only
      added when the requested type is truthy, so an absent, empty or "0"
      type keeps every application. */
  function Candidates(db: seq<Application>, planType: Option<string>): (r: seq<Application>)
    ensures planType.None? || !Truthy(planType.value) ==> r == db
    ensures planType.Some? && Truthy(planType.value) ==>
      forall a :: a in r <==> a in db && a.plan.planType == planType.value
  {
    if planType.Some? && Truthy(planType.value) then
      Seqs.Filter(db, PlanTypeIs(planType.value))
    else db
  }

  /** Under a truthy plan type each application of that type is kept as
      many times as it is stored, others not at all, and the kept rows stay
      in storage order. */
  lemma CandidatesCounts(db: seq<Application>, planType: Option<string>)
    requires planType.Some? && Truthy(planType.value)
    ensures forall a ::
      multiset(Candidates(db, planType))[a] == (if a.plan.planType == planType.value then multiset(db)[a] else 0)
    ensures forall d1, d2 :: db == d1 + d2 ==>
      Candidates(db, planType) == Candidates(d1, planType) + Candidates(d2, planType)
  {
    var keep := PlanTypeIs(planType.value);
    Seqs.FilterCount(db, keep);
    forall d1, d2 | db == d1 + d2
      ensures Candidates(db, planType) == Candidates(d1, planType) + Candidates(d2, planType)
    {
      Seqs.FilterAppend(d1, d2, keep);
    }
  }

  // ---------------------------------------------------------------------
  // Pagination
  // ---------------------------------------------------------------------

  /** The page the paginator serves: the requested page when it is an integer
      of at least one, the first page otherwise. */
  function CurrentPage(requested: Option<int>): (p: nat)
    ensures p >= 1
    ensures requested.Some? && requested.value >= 1 ==> p == requested.value
    ensures requested.None? || requested.value < 1 ==> p == 1
  {
    if requested.Some? && requested.value >= 1 then requested.value else 1
  }

  /** The number of the last page: at least one, even for an empty result. */
  function LastPage(total: nat): (n: nat)
    ensures n >= 1
    ensures (n - 1) * PerPage <= total
    ensures total <= n * PerPage
    ensures total > 0 ==> (n - 1) * PerPage < total
  {
    if total == 0 then 1 else (total + PerPage - 1) / PerPage
  }

  /** Page `page` of `s`: the rows at positions `(page-1)*10` up to, not
      including, `page*10`. */
  function PageSlice<T>(s: seq<T>, page: nat): (r: seq<T>)
    requires page >= 1
    ensures |r| <= PerPage
    ensures forall i :: 0 <= i < |r| ==> (page - 1) * PerPage + i < |s| && r[i] == s[(page - 1) * PerPage + i]
    ensures |r| == if (page - 1) * PerPage >= |s| then 0
                   else if page * PerPage <= |s| then PerPage
                   else |s| - (page - 1) * PerPage
  {
    var lo := (page - 1) * PerPage;
    if lo >= |s| then []
    else if lo + PerPage <= |s| then s[lo..lo + PerPage]
    else s[lo..]
  }

  /** The pages from `page` on, joined back together. */
  function PagesFrom<T>(s: seq<T>, page: nat): seq<T>
    requires page >= 1
    decreases |s| - (page - 1) * PerPage
  {
    if (page - 1) * PerPage >= |s| then [] else PageSlice(s, page) + PagesFrom(s, page + 1)
  }

  /** The pages partition the sequence: pages one to the last, in order, give
      back every row exactly once, and every page past the last is empty. */
  lemma PagesPartition<T>(s: seq<T>)
    ensures PagesFrom(s, 1) == s
    ensures forall k :: k > LastPage(|s|) ==> PageSlice(s, k) == []
  {
    PagesFromSuffix(s, 1);
  }

  lemma {:induction false} PagesFromSuffix<T>(s: seq<T>, page: nat)
    requires page >= 1
    ensures (page - 1) * PerPage <= |s| ==> PagesFrom(s, page) == s[(page - 1) * PerPage..]
    ensures (page - 1) * PerPage > |s| ==> PagesFrom(s, page) == []
    decreases |s| - (page - 1) * PerPage
  {
    var lo := (page - 1) * PerPage;
    if lo < |s| {
      PagesFromSuffix(s, page + 1);
      if lo + PerPage <= |s| {
        assert s[lo..] == s[lo..lo + PerPage] + s[lo + PerPage..];
      } else {
        assert PagesFrom(s, page + 1) == [];
      }
    }
  }

  // ---------------------------------------------------------------------
  // Projection
  // ---------------------------------------------------------------------

  /** The display shape of one application. `orderId` is `None` when the key
      is left out of the row. */
  datatype Row = Row(
    id: nat,
    customerFullName: string,
    address: Scalar,
    planType: string,
    planName: Scalar,
    state: Scalar,
    planMonthlyCost: string,
    orderId: Option<Scalar>)

  /** Projects one application to its row. The order id is shown only for a
      completed application that has one. */
  function ProjectRow(a: Application): (r: Row)
    ensures r.id == a.id && r.address == a.address1 && r.state == a.state
    ensures r.planType == a.plan.planType && r.planName == a.plan.name
    ensures r.customerFullName == a.customer.firstName + " " + a.customer.lastName
    ensures r.orderId.Some? <==> a.status == Complete && a.orderId != Null
    ensures r.orderId.Some? ==> r.orderId.value == a.orderId
    ensures r.planMonthlyCost == MoneyFormat.FormatCost(a.plan.monthlyCost)
    ensures MoneyFormat.ParseCost(r.planMonthlyCost) == Some(a.plan.monthlyCost)
  {
    MoneyFormat.FormatCostRoundTrip(a.plan.monthlyCost);
    Row(
      a.id,
      a.customer.firstName + " " + a.customer.lastName,
      a.address1,
      a.plan.planType,
      a.plan.name,
      a.state,
      MoneyFormat.FormatCost(a.plan.monthlyCost),
      if a.status == Complete && a.orderId != Null then Some(a.orderId) else None)
  }

  /** Projects every row, keeping count and order. */
  function ProjectRows(s: seq<Application>): (r: seq<Row>)
    ensures |r| == |s|
    ensures forall i :: 0 <= i < |s| ==> r[i] == ProjectRow(s[i])
  {
    seq(|s|, i requires 0 <= i < |s| => ProjectRow(s[i]))
  }

  // ---------------------------------------------------------------------
  // Listing
  // ---------------------------------------------------------------------

  /** One page of the listing, with the paginator's counters. */
  datatype Page = Page(rows: seq<Row>, total: nat, perPage: nat, currentPage: nat, lastPage: nat)

  /** The rows of the listing before pagination: candidates, oldest first. */
  function Ordered(db: seq<Application>, planType: Option<string>): (r: seq<Application>)
    ensures CreatedAtOrder.Sorted(r)
    ensures multiset(r) == multiset(Candidates(db, planType))
  {
    CreatedAtOrder.SortByCreatedAt(Candidates(db, planType))
  }

  /** Lists the applications: filter, order by creation time, take the
      requested page of ten and project each of its rows. */
  function ListApplications(db: seq<Application>, planType: Option<string>, page: Option<int>): (r: Page)
    ensures |r.rows| <= PerPage && r.perPage == PerPage
    ensures r.total == |Candidates(db, planType)|
    ensures r.currentPage == CurrentPage(page) && r.lastPage == LastPage(r.total)
    ensures r.rows == ProjectRows(PageSlice(Ordered(db, planType), r.currentPage))
    ensures planType.Some? && Truthy(planType.value) ==>
      forall i :: 0 <= i < |r.rows| ==> r.rows[i].planType == planType.value
  {
    var ordered := Ordered(db, planType);
    var current := CurrentPage(page);
    assert |ordered| == |multiset(ordered)|;
    var slice := PageSlice(ordered, current);
    assert forall i :: 0 <= i < |slice| ==> slice[i] in multiset(Candidates(db, planType));
    Page(ProjectRows(slice), |ordered|, PerPage, current, LastPage(|ordered|))
  }

  /** Projecting before or after cutting the page gives the same rows: the
      projection is element-wise. */
  lemma ProjectionCommutesWithPaging(s: seq<Application>, page: nat)
    requires page >= 1
    ensures ProjectRows(PageSlice(s, page)) == PageSlice(ProjectRows(s), page)
  {
  }

  /** The pages of a listing, read one after the other from the first to the
      last, show every candidate exactly once, oldest first. */
  lemma ListingCoversCandidates(db: seq<Application>, planType: Option<string>)
    ensures PagesFrom(ProjectRows(Ordered(db, planType)), 1) == ProjectRows(Ordered(db, planType))
    ensures forall k :: k >= 1 ==>
      ListApplications(db, planType, Some(k)).rows == PageSlice(ProjectRows(Ordered(db, planType)), k)
  {
    PagesPartition(ProjectRows(Ordered(db, planType)));
    forall k | k >= 1
      ensures ListApplications(db, planType, Some(k)).rows == PageSlice(ProjectRows(Ordered(db, planType)), k)
    {
      ProjectionCommutesWithPaging(Ordered(db, planType), k);
    }
  }
}
