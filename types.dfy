/** Domain records and the static plan ceiling table of the label service
    (types/index.ts). Everything here is immutable data. */
module Types {
  import opened Wrappers

  /** Subscription tiers, in the order the price list presents them. */
  datatype Plan = Free | Starter | Pro | Enterprise

  /** Storefront platforms an integration or an order comes from. */
  datatype Platform = MercadoLivre | Shopee | TikTok

  /** The three-valued order lifecycle. */
  datatype Status = Pending | Printed | Shipped

  datatype ShippingMethod = Correios | Loggi | Jadlog | Azul | Other

  datatype LabelFormat = TenByFifteen | A4

  datatype User = User(id: string, email: string, name: string, plan: Plan, createdAt: int)

  /** A line of an order. JavaScript numbers are modelled as `int` for the
      quantity and `real` for the optional unit price. */
  datatype Product = Product(name: string, quantity: int, price: Option<real>)

  /** One row of the `orders` table. Optional columns are `Option`s;
      ISO timestamps are integer instants. */
  datatype Order = Order(
    id: string,
    userId: string,
    platform: Platform,
    platformOrderId: string,
    status: Status,
    customerName: string,
    customerPhone: Option<string>,
    customerEmail: Option<string>,
    addressStreet: string,
    addressNumber: Option<string>,
    addressComplement: Option<string>,
    addressNeighborhood: string,
    addressCity: string,
    addressState: string,
    addressZipcode: string,
    shippingMethod: ShippingMethod,
    trackingCode: Option<string>,
    products: seq<Product>,
    createdAt: int,
    updatedAt: int,
    printedAt: Option<int>)

  /** One row of the `labels` table. The statistics query filters this table
      on a `user_id` column, so the row carries one. */
  datatype Label = Label(
    id: string, orderId: string, userId: string, pdfUrl: string,
    format: LabelFormat, createdAt: int)

  /** The string stored in the `status` column for each lifecycle state. */
  function StatusName(s: Status): (name: string)
    ensures name != ""
  {
    match s
    case Pending => "pending"
    case Printed => "printed"
    case Shipped => "shipped"
  }

  /** The lifecycle state a `status` column string denotes, if any. */
  function ParseStatus(name: string): (r: Option<Status>)
    ensures r.Some? ==> StatusName(r.value) == name
    ensures r.None? ==> forall s: Status :: StatusName(s) != name
  {
    if name == "pending" then Some(Pending)
    else if name == "printed" then Some(Printed)
    else if name == "shipped" then Some(Shipped)
    else None
  }

  /** Parsing a stored status name gives back the status. */
  lemma ParseStatusName(s: Status)
    ensures ParseStatus(StatusName(s)) == Some(s)
  {
  }

  /** Distinct states are stored as distinct strings, so filtering the
      `status` column by one name selects exactly one state. */
  lemma StatusNameInjective(s: Status, t: Status)
    ensures StatusName(s) == StatusName(t) <==> s == t
  {
    ParseStatusName(s);
    ParseStatusName(t);
  }

  /** The ceilings of one tier; `maxLabels == None` means unbounded. */
  datatype PlanLimit = PlanLimit(maxLabels: Option<nat>, maxIntegrations: nat, batchSize: nat)

  /** Position of a tier in the order free < starter < pro < enterprise. */
  function Rank(p: Plan): (r: nat)
    ensures r < 4
  {
    match p
    case Free => 0
    case Starter => 1
    case Pro => 2
    case Enterprise => 3
  }

  /** The PLAN_LIMITS table. Only the two lower tiers have a label quota. */
  function Limits(p: Plan): (r: PlanLimit)
    ensures r.maxLabels.None? <==> (p == Pro || p == Enterprise)
    ensures 0 < r.maxIntegrations < r.batchSize
  {
    match p
    case Free => PlanLimit(Some(10), 1, 5)
    case Starter => PlanLimit(Some(100), 10, 50)
    case Pro => PlanLimit(None, 100, 500)
    case Enterprise => PlanLimit(None, 1000, 10000)
  }

  lemma FreeLimits()
    ensures Limits(Free) == PlanLimit(Some(10), 1, 5)
  {
  }

  lemma StarterLimits()
    ensures Limits(Starter) == PlanLimit(Some(100), 10, 50)
  {
  }

  lemma UpperTierLimits()
    ensures Limits(Pro) == PlanLimit(None, 100, 500)
    ensures Limits(Enterprise) == PlanLimit(None, 1000, 10000)
  {
  }

  /** Label quota `a` is no larger than `b`; `None` is unbounded. */
  predicate QuotaAtMost(a: Option<nat>, b: Option<nat>) {
    b.None? || (a.Some? && a.value <= b.value)
  }

  /** Moving to a higher tier strictly raises the integration ceiling and
      the batch size and never lowers the label quota. */
  lemma LimitsMonotone(p: Plan, q: Plan)
    requires Rank(p) < Rank(q)
    ensures Limits(p).maxIntegrations < Limits(q).maxIntegrations
    ensures Limits(p).batchSize < Limits(q).batchSize
    ensures QuotaAtMost(Limits(p).maxLabels, Limits(q).maxLabels)
  {
  }
}
