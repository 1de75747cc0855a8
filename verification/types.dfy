/**
 * The records both storage backends keep: brands, device models, spare parts,
 * repair tickets, the part-usage rows that link them, and the workshop
 * settings. Timestamps are milliseconds since the epoch; money is a whole
 * number (the source uses JavaScript numbers).
 */
module Types {
  import opened Wrappers

  type Id = string
  type Time = int

  /** The four ticket states, in the order the repairs page moves them forward. */
  datatype Status = Pending | InProgress | Completed | Archived

  /** The string each state is stored and compared as. */
  function StatusCode(s: Status): string {
    match s
    case Pending => "pending"
    case InProgress => "in_progress"
    case Completed => "completed"
    case Archived => "archived"
  }

  /** Reading a stored state back; any other string is not a state. */
  function ParseStatus(code: string): (r: Option<Status>)
    ensures forall s :: r == Some(s) <==> StatusCode(s) == code
  {
    if code == "pending" then Some(Pending)
    else if code == "in_progress" then Some(InProgress)
    else if code == "completed" then Some(Completed)
    else if code == "archived" then Some(Archived)
    else None
  }

  datatype Brand = Brand(id: Id, name: string, createdAt: Time)

  /** A device model; `brand` is the brand record the hooks attach for display. */
  datatype Model = Model(id: Id, name: string, brandId: Id, createdAt: Time, brand: Option<Brand>)

  datatype SparePart = SparePart(
    id: Id,
    name: string,
    partType: string,
    screenQuality: Option<string>,
    brandId: Id,
    modelId: Id,
    quantity: int,
    purchasePrice: int,
    sellingPrice: int,
    lowStockAlert: int,
    createdAt: Time,
    updatedAt: Time)

  /** One part consumed by a repair, with the price it was charged at. */
  datatype RepairPart = RepairPart(
    id: Id,
    repairId: Id,
    sparePartId: Id,
    quantityUsed: int,
    priceAtTime: int,
    createdAt: Time)

  /** An entry of the `usedParts` argument of `addRepair`. */
  datatype UsedPart = UsedPart(sparePartId: Id, quantityUsed: int, priceAtTime: int)

  /** The fields a caller supplies when opening a ticket (a repair without id and timestamps). */
  datatype Ticket = Ticket(
    customerName: string,
    customerPhone: string,
    deviceBrandId: Id,
    deviceModelId: Id,
    issueType: string,
    description: string,
    laborCost: int,
    totalCost: int,
    profit: int,
    status: Status)

  /**
   * A repair ticket as the hooks hold it: the ticket fields, id, timestamps,
   * and the brand, model and part-usage rows attached for display.
   */
  datatype Repair = Repair(
    id: Id,
    ticket: Ticket,
    createdAt: Time,
    updatedAt: Time,
    completedAt: Option<Time>,
    brand: Option<Brand>,
    model: Option<Model>,
    parts: seq<RepairPart>)

  datatype WorkshopSettings = WorkshopSettings(
    id: Id,
    name: string,
    address: string,
    phone: string,
    thankYouMessage: string,
    createdAt: Time,
    updatedAt: Time)

  /** The part-usage row written for one `usedParts` entry. */
  function UsageRow(rowId: Id, repairId: Id, u: UsedPart, now: Time): (row: RepairPart)
    ensures row.id == rowId && row.repairId == repairId
    ensures row.sparePartId == u.sparePartId && row.quantityUsed == u.quantityUsed
    ensures row.priceAtTime == u.priceAtTime && row.createdAt == now
  {
    RepairPart(rowId, repairId, u.sparePartId, u.quantityUsed, u.priceAtTime, now)
  }

  /** The repair record built from a ticket: no completion time and nothing attached. */
  function NewRepair(id: Id, t: Ticket, now: Time): Repair {
    Repair(id, t, now, now, None, None, None, [])
  }

  /** `updateRepairStatus`' field updates: completion is stamped only when the new state is completed. */
  function WithStatus(r: Repair, s: Status, now: Time): (r': Repair)
    ensures r'.ticket.status == s && r'.updatedAt == now
    ensures s == Completed ==> r'.completedAt == Some(now)
    ensures s != Completed ==> r'.completedAt == r.completedAt
    ensures r'.id == r.id && r'.createdAt == r.createdAt && r'.parts == r.parts
    ensures r'.ticket.(status := r.ticket.status) == r.ticket
  {
    r.(ticket := r.ticket.(status := s), updatedAt := now,
       completedAt := if s == Completed then Some(now) else r.completedAt)
  }

  // ----- Partial updates (`Partial<T>` arguments of the update operations) -----

  datatype BrandPatch = BrandPatch(name: Option<string>)

  datatype ModelPatch = ModelPatch(name: Option<string>, brandId: Option<Id>)

  datatype SparePartPatch = SparePartPatch(
    name: Option<string>,
    partType: Option<string>,
    screenQuality: Option<string>,
    brandId: Option<Id>,
    modelId: Option<Id>,
    quantity: Option<int>,
    purchasePrice: Option<int>,
    sellingPrice: Option<int>,
    lowStockAlert: Option<int>)

  datatype TicketPatch = TicketPatch(
    customerName: Option<string>,
    customerPhone: Option<string>,
    deviceBrandId: Option<Id>,
    deviceModelId: Option<Id>,
    issueType: Option<string>,
    description: Option<string>,
    laborCost: Option<int>,
    totalCost: Option<int>,
    profit: Option<int>,
    status: Option<Status>)

  datatype SettingsPatch = SettingsPatch(
    name: Option<string>,
    address: Option<string>,
    phone: Option<string>,
    thankYouMessage: Option<string>)

  /** `{ ...b, ...patch }`: present patch fields win, the rest are kept. */
  function MergeBrand(b: Brand, patch: BrandPatch): (r: Brand)
    ensures r.id == b.id && r.createdAt == b.createdAt
    ensures r.name == (if patch.name.Some? then patch.name.value else b.name)
  {
    b.(name := patch.name.GetOr(b.name))
  }

  function MergeModel(m: Model, patch: ModelPatch): (r: Model)
    ensures r.id == m.id && r.createdAt == m.createdAt && r.brand == m.brand
    ensures r.name == (if patch.name.Some? then patch.name.value else m.name)
    ensures r.brandId == (if patch.brandId.Some? then patch.brandId.value else m.brandId)
  {
    m.(name := patch.name.GetOr(m.name), brandId := patch.brandId.GetOr(m.brandId))
  }

  function MergeSparePart(p: SparePart, patch: SparePartPatch): (r: SparePart)
    ensures r.id == p.id && r.createdAt == p.createdAt && r.updatedAt == p.updatedAt
    ensures r.quantity == (if patch.quantity.Some? then patch.quantity.value else p.quantity)
    ensures patch == SparePartPatch(None, None, None, None, None, None, None, None, None) ==> r == p
  {
    p.(name := patch.name.GetOr(p.name),
       partType := patch.partType.GetOr(p.partType),
       screenQuality := if patch.screenQuality.Some? then patch.screenQuality else p.screenQuality,
       brandId := patch.brandId.GetOr(p.brandId),
       modelId := patch.modelId.GetOr(p.modelId),
       quantity := patch.quantity.GetOr(p.quantity),
       purchasePrice := patch.purchasePrice.GetOr(p.purchasePrice),
       sellingPrice := patch.sellingPrice.GetOr(p.sellingPrice),
       lowStockAlert := patch.lowStockAlert.GetOr(p.lowStockAlert))
  }

  function MergeTicket(t: Ticket, patch: TicketPatch): (r: Ticket)
    ensures r.status == (if patch.status.Some? then patch.status.value else t.status)
    ensures r.totalCost == (if patch.totalCost.Some? then patch.totalCost.value else t.totalCost)
    ensures patch == TicketPatch(None, None, None, None, None, None, None, None, None, None) ==> r == t
  {
    t.(customerName := patch.customerName.GetOr(t.customerName),
       customerPhone := patch.customerPhone.GetOr(t.customerPhone),
       deviceBrandId := patch.deviceBrandId.GetOr(t.deviceBrandId),
       deviceModelId := patch.deviceModelId.GetOr(t.deviceModelId),
       issueType := patch.issueType.GetOr(t.issueType),
       description := patch.description.GetOr(t.description),
       laborCost := patch.laborCost.GetOr(t.laborCost),
       totalCost := patch.totalCost.GetOr(t.totalCost),
       profit := patch.profit.GetOr(t.profit),
       status := patch.status.GetOr(t.status))
  }

  function MergeSettings(s: WorkshopSettings, patch: SettingsPatch): (r: WorkshopSettings)
    ensures r.id == s.id && r.createdAt == s.createdAt && r.updatedAt == s.updatedAt
    ensures r.name == (if patch.name.Some? then patch.name.value else s.name)
    ensures r.address == (if patch.address.Some? then patch.address.value else s.address)
    ensures r.phone == (if patch.phone.Some? then patch.phone.value else s.phone)
    ensures r.thankYouMessage == (if patch.thankYouMessage.Some? then patch.thankYouMessage.value else s.thankYouMessage)
  {
    s.(name := patch.name.GetOr(s.name),
       address := patch.address.GetOr(s.address),
       phone := patch.phone.GetOr(s.phone),
       thankYouMessage := patch.thankYouMessage.GetOr(s.thankYouMessage))
  }
}
