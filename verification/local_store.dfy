/**
 * The local-storage backend: every record kind is an ordered list kept in
 * the browser's storage. Adding appends (a ticket is put in front), updating
 * maps a merge over the records with the given id and returns the first of
 * them, deleting filters the id out. Unlike the Firestore backend, creating
 * or deleting a ticket never touches stock, and deleting a ticket leaves its
 * usage rows behind.
 */
module LocalStore {
  import opened Wrappers
  import opened Types
  import opened Seqs

  /**
   * Everything the hooks keep: the stored lists, the model list of one
   * `useModels` hook (its brand filter applied when it was loaded), and the
   * workshop settings.
   */
  datatype LocalState = LocalState(
    brands: seq<Brand>,
    models: seq<Model>,
    modelView: seq<Model>,
    spareParts: seq<SparePart>,
    repairs: seq<Repair>,
    repairParts: seq<RepairPart>,
    settings: WorkshopSettings)

  // ----- the predicates and merges the list operations are called with -----

  function BrandIs(id: Id): Brand -> bool { (b: Brand) => b.id == id }
  function BrandIsNot(id: Id): Brand -> bool { (b: Brand) => b.id != id }
  function ModelIs(id: Id): Model -> bool { (m: Model) => m.id == id }
  function ModelIsNot(id: Id): Model -> bool { (m: Model) => m.id != id }
  function PartIs(id: Id): SparePart -> bool { (p: SparePart) => p.id == id }
  function PartIsNot(id: Id): SparePart -> bool { (p: SparePart) => p.id != id }
  function RepairIs(id: Id): Repair -> bool { (r: Repair) => r.id == id }
  function RepairIsNot(id: Id): Repair -> bool { (r: Repair) => r.id != id }
  function OfBrand(brandId: Id): Model -> bool { (m: Model) => m.brandId == brandId }

  function BrandMerge(patch: BrandPatch): Brand -> Brand { (b: Brand) => MergeBrand(b, patch) }
  function ModelMerge(patch: ModelPatch): Model -> Model { (m: Model) => MergeModel(m, patch) }
  function PartMerge(patch: SparePartPatch, now: Time): SparePart -> SparePart {
    (p: SparePart) => Touched(p, patch, now)
  }

  /** A part merged with a patch and stamped with `updated_at = now`. */
  function Touched(p: SparePart, patch: SparePartPatch, now: Time): (r: SparePart)
    ensures r.id == p.id && r.updatedAt == now
  {
    MergeSparePart(p, patch).(updatedAt := now)
  }
  function StatusMerge(status: Status, now: Time): Repair -> Repair { (r: Repair) => WithStatus(r, status, now) }
  function TicketMerge(patch: TicketPatch, now: Time): Repair -> Repair {
    (r: Repair) => r.(ticket := MergeTicket(r.ticket, patch), updatedAt := now)
  }

  // ===================== brands =====================

  /** `addBrand(name)`: the new brand goes at the end; `id` and `now` are the generated id and the clock. */
  function AddBrand(s: LocalState, name: string, id: Id, now: Time): (r: (LocalState, Brand))
    ensures r.1.id == id && r.1.name == name && r.1.createdAt == now
    ensures |r.0.brands| == |s.brands| + 1
    ensures r.0.brands[..|s.brands|] == s.brands && r.0.brands[|s.brands|] == r.1
    ensures r.0 == s.(brands := r.0.brands)
  {
    var b := Brand(id, name, now);
    (s.(brands := s.brands + [b]), b)
  }

  /**
   * `updateBrand(id, updates)`: every brand with that id is merged with the
   * patch, all others stay as they were; the first merged brand is returned,
   * or nothing when no brand has that id.
   */
  function UpdateBrand(s: LocalState, id: Id, patch: BrandPatch): (r: (LocalState, Option<Brand>))
    ensures |r.0.brands| == |s.brands|
    ensures forall i :: 0 <= i < |s.brands| ==>
      r.0.brands[i] == if s.brands[i].id == id then MergeBrand(s.brands[i], patch) else s.brands[i]
    ensures r.1.None? <==> forall i :: 0 <= i < |s.brands| ==> s.brands[i].id != id
    ensures r.1.Some? ==> exists i :: FirstHitAt(s.brands, BrandIs(id), i) && r.1.value == MergeBrand(s.brands[i], patch)
    ensures r.0 == s.(brands := r.0.brands)
  {
    var u := UpdateAll(s.brands, BrandIs(id), BrandMerge(patch));
    (s.(brands := u.0), u.1)
  }

  /** `deleteBrand(id)`: exactly the brands with another id remain, in their order. */
  function DeleteBrand(s: LocalState, id: Id): (r: LocalState)
    ensures Keeps(s.brands, r.brands, BrandIsNot(id))
    ensures forall b :: b in r.brands <==> b in s.brands && b.id != id
    ensures r == s.(brands := r.brands)
  {
    FilterKeeps(s.brands, BrandIsNot(id));
    s.(brands := Filter(s.brands, BrandIsNot(id)))
  }

  /** Deleting a brand just added under a new id gives back the brand list it was added to. */
  lemma {:induction false} AddThenDeleteBrand(s: LocalState, name: string, id: Id, now: Time)
    requires forall i :: 0 <= i < |s.brands| ==> s.brands[i].id != id
    ensures DeleteBrand(AddBrand(s, name, id, now).0, id) == s
  {
    FilterSnoc(s.brands, Brand(id, name, now), BrandIsNot(id));
    FilterAll(s.brands, BrandIsNot(id));
  }

  // ===================== models =====================

  /** A model with the brand of that id from `brands` attached, as the hook loads it. */
  function WithBrand(m: Model, brands: seq<Brand>): (r: Model)
    ensures r.(brand := m.brand) == m
    ensures r.brand.None? <==> forall i :: 0 <= i < |brands| ==> brands[i].id != m.brandId
    ensures r.brand.Some? ==> r.brand.value in brands && r.brand.value.id == m.brandId
  {
    m.(brand := Find(brands, BrandIs(m.brandId)))
  }

  function AllWithBrands(all: seq<Model>, brands: seq<Brand>): (r: seq<Model>)
    ensures |r| == |all| && forall i :: 0 <= i < |all| ==> r[i] == WithBrand(all[i], brands)
  {
    seq(|all|, i requires 0 <= i < |all| => WithBrand(all[i], brands))
  }

  /**
   * The list a `useModels(brandId)` hook loads: every stored model with its
   * brand attached, narrowed to that brand when a non-empty brand id is given
   * (an empty id is falsy and narrows nothing).
   */
  function ModelsView(all: seq<Model>, brands: seq<Brand>, brandId: Option<Id>): (r: seq<Model>)
    ensures brandId.None? || brandId == Some("") ==> r == AllWithBrands(all, brands)
    ensures brandId.Some? && brandId.value != "" ==>
      && Keeps(AllWithBrands(all, brands), r, OfBrand(brandId.value))
      && forall m :: m in r <==> m in AllWithBrands(all, brands) && m.brandId == brandId.value
  {
    var attached := AllWithBrands(all, brands);
    if brandId.Some? && brandId.value != "" then
      FilterKeeps(attached, OfBrand(brandId.value));
      Filter(attached, OfBrand(brandId.value))
    else attached
  }

  /** A brand-filtered model list is an ordered part of the unfiltered one. */
  lemma ViewNarrows(all: seq<Model>, brands: seq<Brand>, brandId: Id)
    ensures Subsequence(ModelsView(all, brands, Some(brandId)), ModelsView(all, brands, None))
  {
    var whole := AllWithBrands(all, brands);
    if brandId != "" {
      FilterKeeps(whole, OfBrand(brandId));
    } else {
      var idx: seq<nat> := seq(|whole|, i requires 0 <= i < |whole| => i);
      assert EmbedsAt(whole, whole, idx);
    }
  }

  /**
   * `addModel(name, brandId)`: the new model is appended to the stored list,
   * and appended with its brand attached to this hook's list whatever brand
   * filter that list was loaded with.
   */
  function AddModel(s: LocalState, name: string, brandId: Id, id: Id, now: Time): (r: (LocalState, Model))
    ensures r.1.id == id && r.1.name == name && r.1.brandId == brandId && r.1.createdAt == now
    ensures r.1 == WithBrand(r.1, s.brands)
    ensures r.0.models == s.models + [r.1.(brand := None)]
    ensures r.0.modelView == s.modelView + [r.1]
    ensures r.0 == s.(models := r.0.models, modelView := r.0.modelView)
  {
    var m := Model(id, name, brandId, now, None);
    var shown := WithBrand(m, s.brands);
    (s.(models := s.models + [m], modelView := s.modelView + [shown]), shown)
  }

  /**
   * After adding a model of another brand to a list loaded for one brand,
   * the list no longer matches what loading it again would give: the new
   * model shows up although the filter excludes it.
   */
  lemma AddModelBypassesFilter(s: LocalState, name: string, brandId: Id, id: Id, now: Time, shown: Id)
    requires shown != "" && brandId != shown
    requires s.modelView == ModelsView(s.models, s.brands, Some(shown))
    ensures var r := AddModel(s, name, brandId, id, now).0;
      r.modelView != ModelsView(r.models, r.brands, Some(shown))
  {
    var r := AddModel(s, name, brandId, id, now).0;
    var last := r.modelView[|r.modelView| - 1];
    assert last.brandId == brandId;
  }

  /**
   * `updateModel(id, updates)`: the stored list and this hook's list are both
   * merged by id; the result is the first merged model of the hook's list.
   */
  function UpdateModel(s: LocalState, id: Id, patch: ModelPatch): (r: (LocalState, Option<Model>))
    ensures |r.0.models| == |s.models| && |r.0.modelView| == |s.modelView|
    ensures forall i :: 0 <= i < |s.models| ==>
      r.0.models[i] == if s.models[i].id == id then MergeModel(s.models[i], patch) else s.models[i]
    ensures forall i :: 0 <= i < |s.modelView| ==>
      r.0.modelView[i] == if s.modelView[i].id == id then MergeModel(s.modelView[i], patch) else s.modelView[i]
    ensures r.1.None? <==> forall i :: 0 <= i < |s.modelView| ==> s.modelView[i].id != id
    ensures r.1.Some? ==> exists i :: FirstHitAt(s.modelView, ModelIs(id), i) && r.1.value == MergeModel(s.modelView[i], patch)
    ensures r.0 == s.(models := r.0.models, modelView := r.0.modelView)
  {
    var stored := UpdateAll(s.models, ModelIs(id), ModelMerge(patch));
    var shown := UpdateAll(s.modelView, ModelIs(id), ModelMerge(patch));
    (s.(models := stored.0, modelView := shown.0), shown.1)
  }

  /** `deleteModel(id)`: the id is filtered out of the stored list and of this hook's list. */
  function DeleteModel(s: LocalState, id: Id): (r: LocalState)
    ensures Keeps(s.models, r.models, ModelIsNot(id))
    ensures Keeps(s.modelView, r.modelView, ModelIsNot(id))
    ensures forall m :: m in r.models <==> m in s.models && m.id != id
    ensures forall m :: m in r.modelView <==> m in s.modelView && m.id != id
    ensures r == s.(models := r.models, modelView := r.modelView)
  {
    FilterKeeps(s.models, ModelIsNot(id));
    FilterKeeps(s.modelView, ModelIsNot(id));
    s.(models := Filter(s.models, ModelIsNot(id)), modelView := Filter(s.modelView, ModelIsNot(id)))
  }

  /** Deleting a model just added under a new id gives back both lists it was added to. */
  lemma {:induction false} AddThenDeleteModel(s: LocalState, name: string, brandId: Id, id: Id, now: Time)
    requires forall i :: 0 <= i < |s.models| ==> s.models[i].id != id
    requires forall i :: 0 <= i < |s.modelView| ==> s.modelView[i].id != id
    ensures DeleteModel(AddModel(s, name, brandId, id, now).0, id) == s
  {
    var m := Model(id, name, brandId, now, None);
    FilterSnoc(s.models, m, ModelIsNot(id));
    FilterSnoc(s.modelView, WithBrand(m, s.brands), ModelIsNot(id));
    FilterAll(s.models, ModelIsNot(id));
    FilterAll(s.modelView, ModelIsNot(id));
  }

  // ===================== spare parts =====================

  /**
   * `addSparePart(fields)`: the caller's record with the generated id and
   * both timestamps set to `now` goes at the end.
   */
  function AddSparePart(s: LocalState, fields: SparePart, id: Id, now: Time): (r: (LocalState, SparePart))
    ensures r.1 == fields.(id := id, createdAt := now, updatedAt := now)
    ensures |r.0.spareParts| == |s.spareParts| + 1
    ensures r.0.spareParts[..|s.spareParts|] == s.spareParts && r.0.spareParts[|s.spareParts|] == r.1
    ensures r.0 == s.(spareParts := r.0.spareParts)
  {
    var p := fields.(id := id, createdAt := now, updatedAt := now);
    (s.(spareParts := s.spareParts + [p]), p)
  }

  /**
   * `updateSparePart(id, updates)`: every part with that id is merged and
   * gets `updated_at = now`; the first of them is returned.
   */
  function UpdateSparePart(s: LocalState, id: Id, patch: SparePartPatch, now: Time): (r: (LocalState, Option<SparePart>))
    ensures |r.0.spareParts| == |s.spareParts|
    ensures forall i :: 0 <= i < |s.spareParts| ==>
      r.0.spareParts[i] == if s.spareParts[i].id == id then Touched(s.spareParts[i], patch, now) else s.spareParts[i]
    ensures r.1.None? <==> forall i :: 0 <= i < |s.spareParts| ==> s.spareParts[i].id != id
    ensures r.1.Some? ==> r.1.value.updatedAt == now && exists i ::
      FirstHitAt(s.spareParts, PartIs(id), i) && r.1.value == Touched(s.spareParts[i], patch, now)
    ensures r.0 == s.(spareParts := r.0.spareParts)
  {
    var u := UpdateAll(s.spareParts, PartIs(id), PartMerge(patch, now));
    (s.(spareParts := u.0), u.1)
  }

  /** `deleteSparePart(id)`: exactly the parts with another id remain, in their order. */
  function DeleteSparePart(s: LocalState, id: Id): (r: LocalState)
    ensures Keeps(s.spareParts, r.spareParts, PartIsNot(id))
    ensures forall p :: p in r.spareParts <==> p in s.spareParts && p.id != id
    ensures r == s.(spareParts := r.spareParts)
  {
    FilterKeeps(s.spareParts, PartIsNot(id));
    s.(spareParts := Filter(s.spareParts, PartIsNot(id)))
  }

  /** Deleting a part just added under a new id gives back the part list it was added to. */
  lemma {:induction false} AddThenDeleteSparePart(s: LocalState, fields: SparePart, id: Id, now: Time)
    requires forall i :: 0 <= i < |s.spareParts| ==> s.spareParts[i].id != id
    ensures DeleteSparePart(AddSparePart(s, fields, id, now).0, id) == s
  {
    FilterSnoc(s.spareParts, fields.(id := id, createdAt := now, updatedAt := now), PartIsNot(id));
    FilterAll(s.spareParts, PartIsNot(id));
  }

  // ===================== repairs =====================

  /** The usage rows of a new ticket, one per entry, in entry order. */
  function NewRows(repairId: Id, used: seq<UsedPart>, rowIds: seq<Id>, now: Time): (rows: seq<RepairPart>)
    requires |rowIds| == |used|
    ensures |rows| == |used|
    ensures forall i :: 0 <= i < |used| ==> rows[i] == UsageRow(rowIds[i], repairId, used[i], now)
  {
    seq(|used|, i requires 0 <= i < |used| => UsageRow(rowIds[i], repairId, used[i], now))
  }

  /**
   * `addRepair(repair, usedParts)`: the new ticket goes in front of the list
   * and carries its usage rows, which are also appended to the stored rows.
   * Stock is not touched.
   */
  function AddRepair(s: LocalState, t: Ticket, used: seq<UsedPart>, id: Id, rowIds: seq<Id>, now: Time): (r: (LocalState, Repair))
    requires |rowIds| == |used|
    ensures r.1.id == id && r.1.ticket == t && r.1.createdAt == now && r.1.updatedAt == now
    ensures r.1.completedAt.None?
    ensures |r.1.parts| == |used|
    ensures forall i :: 0 <= i < |used| ==>
      && r.1.parts[i].id == rowIds[i] && r.1.parts[i].repairId == id
      && r.1.parts[i].sparePartId == used[i].sparePartId && r.1.parts[i].quantityUsed == used[i].quantityUsed
      && r.1.parts[i].priceAtTime == used[i].priceAtTime && r.1.parts[i].createdAt == now
    ensures r.0.repairs == [r.1] + s.repairs
    ensures r.0.repairParts == s.repairParts + r.1.parts
    ensures r.0 == s.(repairs := r.0.repairs, repairParts := r.0.repairParts)
  {
    var rows := NewRows(id, used, rowIds, now);
    var repair := NewRepair(id, t, now).(parts := rows);
    (s.(repairs := [repair] + s.repairs, repairParts := s.repairParts + rows), repair)
  }

  /**
   * `updateRepairStatus(id, status)`: every ticket with that id gets the
   * status and `updated_at`, and `completed_at` when the status is completed;
   * the first of them is returned.
   */
  function UpdateRepairStatus(s: LocalState, id: Id, status: Status, now: Time): (r: (LocalState, Option<Repair>))
    ensures |r.0.repairs| == |s.repairs|
    ensures forall i :: 0 <= i < |s.repairs| ==>
      r.0.repairs[i] == if s.repairs[i].id == id then WithStatus(s.repairs[i], status, now) else s.repairs[i]
    ensures r.1.None? <==> forall i :: 0 <= i < |s.repairs| ==> s.repairs[i].id != id
    ensures r.1.Some? ==> r.1.value.ticket.status == status && r.1.value.updatedAt == now
    ensures r.1.Some? ==> exists i :: FirstHitAt(s.repairs, RepairIs(id), i) && r.1.value == WithStatus(s.repairs[i], status, now)
    ensures r.0 == s.(repairs := r.0.repairs)
  {
    var u := UpdateAll(s.repairs, RepairIs(id), StatusMerge(status, now));
    (s.(repairs := u.0), u.1)
  }

  /**
   * `updateRepair(id, updates)`: every ticket with that id is merged with the
   * patch and gets `updated_at = now`; the first of them is returned.
   */
  function UpdateRepair(s: LocalState, id: Id, patch: TicketPatch, now: Time): (r: (LocalState, Option<Repair>))
    ensures |r.0.repairs| == |s.repairs|
    ensures forall i :: 0 <= i < |s.repairs| ==>
      r.0.repairs[i] == if s.repairs[i].id == id
        then s.repairs[i].(ticket := MergeTicket(s.repairs[i].ticket, patch), updatedAt := now)
        else s.repairs[i]
    ensures r.1.None? <==> forall i :: 0 <= i < |s.repairs| ==> s.repairs[i].id != id
    ensures r.1.Some? ==> r.1.value.updatedAt == now && exists i ::
      FirstHitAt(s.repairs, RepairIs(id), i) && r.1.value == s.repairs[i].(ticket := MergeTicket(s.repairs[i].ticket, patch), updatedAt := now)
    ensures r.0 == s.(repairs := r.0.repairs)
  {
    var u := UpdateAll(s.repairs, RepairIs(id), TicketMerge(patch, now));
    (s.(repairs := u.0), u.1)
  }

  /** `deleteRepair(id)`: only the ticket list is filtered; its usage rows and all stock stay. */
  function DeleteRepair(s: LocalState, id: Id): (r: LocalState)
    ensures Keeps(s.repairs, r.repairs, RepairIsNot(id))
    ensures forall x :: x in r.repairs <==> x in s.repairs && x.id != id
    ensures r == s.(repairs := r.repairs)
  {
    FilterKeeps(s.repairs, RepairIsNot(id));
    s.(repairs := Filter(s.repairs, RepairIsNot(id)))
  }

  /**
   * Deleting a ticket just created under a new id gives back the ticket list
   * and the stock, but its usage rows stay behind in storage.
   */
  lemma {:induction false} AddThenDeleteRepair(s: LocalState, t: Ticket, used: seq<UsedPart>, id: Id, rowIds: seq<Id>, now: Time)
    requires |rowIds| == |used|
    requires forall i :: 0 <= i < |s.repairs| ==> s.repairs[i].id != id
    ensures var r := DeleteRepair(AddRepair(s, t, used, id, rowIds, now).0, id);
      && r.repairs == s.repairs
      && r.spareParts == s.spareParts
      && r.repairParts == s.repairParts + NewRows(id, used, rowIds, now)
      && (forall i :: |s.repairParts| <= i < |r.repairParts| ==> r.repairParts[i].repairId == id)
  {
    var added := AddRepair(s, t, used, id, rowIds, now);
    FilterCons(added.1, s.repairs, RepairIsNot(id));
    FilterAll(s.repairs, RepairIsNot(id));
  }

  // ===================== settings =====================

  /** `updateSettings(updates)`: the settings are merged and get `updated_at = now`; the result is returned. */
  function UpdateSettings(s: LocalState, patch: SettingsPatch, now: Time): (r: (LocalState, WorkshopSettings))
    ensures r.1.updatedAt == now && r.1.id == s.settings.id && r.1.createdAt == s.settings.createdAt
    ensures r.1.name == (if patch.name.Some? then patch.name.value else s.settings.name)
    ensures r.1.address == (if patch.address.Some? then patch.address.value else s.settings.address)
    ensures r.1.phone == (if patch.phone.Some? then patch.phone.value else s.settings.phone)
    ensures r.1.thankYouMessage == (if patch.thankYouMessage.Some? then patch.thankYouMessage.value else s.settings.thankYouMessage)
    ensures r.0 == s.(settings := r.1)
  {
    var merged := MergeSettings(s.settings, patch).(updatedAt := now);
    (s.(settings := merged), merged)
  }

  /**
   * Saving the same form twice is saving it once, up to the clock, and
   * saving an empty patch only moves `updated_at`.
   */
  lemma UpdateSettingsIdempotent(s: LocalState, patch: SettingsPatch, t1: Time, t2: Time)
    ensures UpdateSettings(UpdateSettings(s, patch, t1).0, patch, t2) == UpdateSettings(s, patch, t2)
    ensures UpdateSettings(s, SettingsPatch(None, None, None, None), t1).1 == s.settings.(updatedAt := t1)
  {
  }
}
