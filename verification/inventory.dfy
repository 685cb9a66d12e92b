/** A merchant's inventory (backend inventory/inventory.service.ts): single
    item creation with its uniqueness rule, owner-scoped reads, updates and
    deletes, the DRAFT -> PRICED -> LISTED status machine, and the bulk CSV
    upload. The database is a map from item id to item; every operation is a
    function from the store before to its answer and the store after. */
module Inventory {
  import opened Wrappers
  import opened Text
  import Pricing
  import opened InventorySchema
  import opened CsvValidation

  type Id = string

  datatype Status = Draft | Priced | Listed

  datatype Item = Item(
    userId: string,
    merchantId: string,
    sku: string,
    title: string,
    brand: Option<string>,
    category: string,
    condition: string,
    originalPrice: real,
    resalePrice: Option<real>,
    currency: string,
    quantity: int,
    status: Status)

  type Store = map<Id, Item>

  datatype InventoryError =
    | NotFound
    | AlreadyExists(merchantId: string, sku: string)
    | MustBePriced
    | UniqueViolation(merchantId: string, sku: string)   // the database refuses a write

  /** The database's unique constraint: one user never holds two items with
      the same merchant id and SKU. */
  predicate UniqueKeys(store: Store) {
    forall i, j :: i in store && j in store && i != j && store[i].userId == store[j].userId ==>
      store[i].merchantId != store[j].merchantId || store[i].sku != store[j].sku
  }

  /** Some item of `userId` has this merchant id and SKU. */
  predicate Holds(store: Store, userId: string, merchantId: string, sku: string) {
    exists id :: id in store && store[id].userId == userId
                 && store[id].merchantId == merchantId && store[id].sku == sku
  }

  /** The resale price the pricing rules give an item. */
  function AutoResalePrice(originalPrice: real, condition: string, category: string): real {
    Pricing.CalculateResalePrice(originalPrice, condition, category) as real
  }

  /** Validated input of a single-item creation. */
  datatype CreateInput = CreateInput(
    merchantId: string,
    sku: string,
    title: string,
    brand: Option<string>,
    category: string,
    condition: string,
    originalPrice: real,
    currency: string,
    quantity: int)

  /** `create`: refused when the user already holds the merchant id and SKU;
      otherwise a DRAFT item under the fresh id `newId`, its condition
      upper-cased and its resale price computed from the lower-case condition. */
  function Create(store: Store, userId: string, newId: Id, data: CreateInput): (r: (Result<Item, InventoryError>, Store))
    requires newId !in store
    ensures r.0.Failure? <==> Holds(store, userId, data.merchantId, data.sku)
    ensures r.0.Failure? ==> r.0.error == AlreadyExists(data.merchantId, data.sku) && r.1 == store
    ensures r.0.Success? ==>
              && r.1 == store[newId := r.0.value]
              && r.0.value.userId == userId && r.0.value.status == Draft
              && r.0.value.merchantId == data.merchantId && r.0.value.sku == data.sku
              && r.0.value.condition == ToUpper(data.condition)
              && r.0.value.resalePrice == Some(AutoResalePrice(data.originalPrice, data.condition, data.category))
  {
    if Holds(store, userId, data.merchantId, data.sku) then
      (Failure(AlreadyExists(data.merchantId, data.sku)), store)
    else
      var item := Item(userId, data.merchantId, data.sku, data.title, data.brand, data.category,
                       ToUpper(data.condition), data.originalPrice,
                       Some(AutoResalePrice(data.originalPrice, data.condition, data.category)),
                       data.currency, data.quantity, Draft);
      (Success(item), store[newId := item])
  }

  /** A successful creation keeps the unique constraint. */
  lemma CreateKeepsUniqueKeys(store: Store, userId: string, newId: Id, data: CreateInput)
    requires newId !in store
    requires UniqueKeys(store)
    ensures UniqueKeys(Create(store, userId, newId, data).1)
  {
    var s := Create(store, userId, newId, data).1;
    forall i, j | i in s && j in s && i != j && s[i].userId == s[j].userId
      ensures s[i].merchantId != s[j].merchantId || s[i].sku != s[j].sku
    {
      if i == newId && s != store {
        assert !(j in store && store[j].userId == userId && store[j].merchantId == data.merchantId && store[j].sku == data.sku);
      } else if j == newId && s != store {
        assert !(i in store && store[i].userId == userId && store[i].merchantId == data.merchantId && store[i].sku == data.sku);
      }
    }
  }

  /** Creating the same merchant id and SKU twice for one user fails the
      second time, and the failure changes nothing. */
  lemma SecondCreateConflicts(store: Store, userId: string, id1: Id, id2: Id, data: CreateInput)
    requires id1 !in store && id2 !in store && id1 != id2
    requires Create(store, userId, id1, data).0.Success?
    ensures var s := Create(store, userId, id1, data).1;
            Create(s, userId, id2, data).0 == Failure(AlreadyExists(data.merchantId, data.sku))
            && Create(s, userId, id2, data).1 == s
  {
    var s := Create(store, userId, id1, data).1;
    assert id1 in s && s[id1].userId == userId;
    assert Holds(s, userId, data.merchantId, data.sku);
  }

  /** `findOne`: the item, if it exists and belongs to `userId`. */
  function FindOne(store: Store, userId: string, id: Id): (r: Result<Item, InventoryError>)
    ensures r.Success? <==> id in store && store[id].userId == userId
    ensures r.Success? ==> r.value == store[id]
    ensures r.Failure? ==> r.error == NotFound
  {
    if id in store && store[id].userId == userId then Success(store[id]) else Failure(NotFound)
  }

  /** `findAll`: the ids of the user's items, restricted to the given
      statuses when a non-empty list is given. */
  function FindAll(store: Store, userId: string, statuses: seq<Status>): (ids: set<Id>)
    ensures forall id :: id in ids <==>
              id in store && store[id].userId == userId && (statuses == [] || store[id].status in statuses)
  {
    set id | id in store && store[id].userId == userId && (statuses == [] || store[id].status in statuses)
  }

  /** Validated input of a partial update: `None` is an absent field; for
      `brand` and `resalePrice`, `Some(None)` is an explicit null. */
  datatype UpdateInput = UpdateInput(
    merchantId: Option<string>,
    sku: Option<string>,
    title: Option<string>,
    brand: Option<Option<string>>,
    category: Option<string>,
    condition: Option<string>,
    originalPrice: Option<real>,
    resalePrice: Option<Option<real>>,
    currency: Option<string>,
    quantity: Option<int>)

  /** The columns an update writes; `None` leaves a column alone. */
  datatype Patch = Patch(
    merchantId: Option<string>,
    sku: Option<string>,
    title: Option<string>,
    brand: Option<Option<string>>,
    category: Option<string>,
    condition: Option<string>,
    originalPrice: Option<real>,
    resalePrice: Option<Option<real>>,
    currency: Option<string>,
    quantity: Option<int>)

  /** A JavaScript-truthy string: present and non-empty. */
  function Truthy(s: Option<string>): Option<string> {
    if s.Some? && s.value != [] then s else None
  }

  /** A JavaScript-truthy number: present and non-zero. */
  function TruthyReal(x: Option<real>): Option<real> {
    if x.Some? && x.value != 0.0 then x else None
  }

  function TruthyInt(x: Option<int>): Option<int> {
    if x.Some? && x.value != 0 then x else None
  }

  /** `mapUpdateData`: truthy fields are copied (the condition upper-cased);
      brand and resale price are copied whenever given, null included. */
  function MapUpdateData(data: UpdateInput): (p: Patch)
    ensures p.brand == data.brand && p.resalePrice == data.resalePrice
    ensures p.merchantId.Some? <==> data.merchantId.Some? && data.merchantId.value != []
    ensures p.condition.Some? <==> data.condition.Some? && data.condition.value != []
    ensures p.condition.Some? ==> p.condition.value == ToUpper(data.condition.value)
    ensures p.quantity.Some? <==> data.quantity.Some? && data.quantity.value != 0
    ensures p.originalPrice.Some? <==> data.originalPrice.Some? && data.originalPrice.value != 0.0
  {
    var condition := Truthy(data.condition);
    Patch(
      Truthy(data.merchantId), Truthy(data.sku), Truthy(data.title), data.brand,
      Truthy(data.category), if condition.Some? then Some(ToUpper(condition.value)) else None,
      TruthyReal(data.originalPrice), data.resalePrice, Truthy(data.currency), TruthyInt(data.quantity))
  }

  function Pick<T>(change: Option<T>, current: T): T {
    if change.Some? then change.value else current
  }

  /** The item after the database writes the patch's columns. */
  function ApplyPatch(item: Item, p: Patch): (r: Item)
    ensures r.userId == item.userId && r.status == item.status
  {
    Item(item.userId, Pick(p.merchantId, item.merchantId), Pick(p.sku, item.sku),
         Pick(p.title, item.title), Pick(p.brand, item.brand), Pick(p.category, item.category),
         Pick(p.condition, item.condition), Pick(p.originalPrice, item.originalPrice),
         Pick(p.resalePrice, item.resalePrice), Pick(p.currency, item.currency),
         Pick(p.quantity, item.quantity), item.status)
  }

  /** Writing the same update twice is the same as writing it once. */
  lemma ApplyPatchIdempotent(item: Item, data: UpdateInput)
    ensures var p := MapUpdateData(data); ApplyPatch(ApplyPatch(item, p), p) == ApplyPatch(item, p)
  {
  }

  /** Falsy fields change nothing: an empty string or a zero quantity or
      price leaves that column as it was. */
  lemma FalsyFieldsAreIgnored(item: Item, data: UpdateInput)
    requires data.merchantId == Some([]) && data.quantity == Some(0) && data.originalPrice == Some(0.0)
    ensures var r := ApplyPatch(item, MapUpdateData(data));
            r.merchantId == item.merchantId && r.quantity == item.quantity && r.originalPrice == item.originalPrice
  {
  }

  /** An explicit null clears the brand and the resale price, even of a
      LISTED item, which keeps its status. */
  lemma NullClearsBrandAndPrice(item: Item, data: UpdateInput)
    requires data.brand == Some(None) && data.resalePrice == Some(None)
    ensures var r := ApplyPatch(item, MapUpdateData(data));
            r.brand == None && r.resalePrice == None && r.status == item.status
  {
  }

  /** Some item of `userId` other than `id` has this merchant id and SKU. */
  predicate HeldByOther(store: Store, userId: string, id: Id, merchantId: string, sku: string) {
    exists other :: other in store && other != id && store[other].userId == userId
                    && store[other].merchantId == merchantId && store[other].sku == sku
  }

  /** `update`: NotFound unless the user owns the item, changing nothing.
      Otherwise the mapped columns are written, unless the patched merchant
      id and SKU are those of another of the user's items: then the
      database's unique constraint on (user, merchant id, SKU) refuses the
      write and nothing changes. */
  function Update(store: Store, userId: string, id: Id, data: UpdateInput): (r: (Result<Item, InventoryError>, Store))
    ensures FindOne(store, userId, id).Failure? ==> r == (Failure(NotFound), store)
    ensures FindOne(store, userId, id).Success? ==>
              var u := ApplyPatch(store[id], MapUpdateData(data));
              && (r.0.Failure? <==> HeldByOther(store, userId, id, u.merchantId, u.sku))
              && (r.0.Failure? ==> r.0.error == UniqueViolation(u.merchantId, u.sku) && r.1 == store)
              && (r.0.Success? ==> r.0.value == u && r.1 == store[id := u])
  {
    match FindOne(store, userId, id)
    case Failure(e) => (Failure(e), store)
    case Success(item) =>
      var updated := ApplyPatch(item, MapUpdateData(data));
      if HeldByOther(store, userId, id, updated.merchantId, updated.sku) then
        (Failure(UniqueViolation(updated.merchantId, updated.sku)), store)
      else (Success(updated), store[id := updated])
  }

  /** An update keeps the unique constraint. */
  lemma UpdateKeepsUniqueKeys(store: Store, userId: string, id: Id, data: UpdateInput)
    requires UniqueKeys(store)
    ensures UniqueKeys(Update(store, userId, id, data).1)
  {
    var s := Update(store, userId, id, data).1;
    if s != store {
      var u := s[id];
      forall i, j | i in s && j in s && i != j && s[i].userId == s[j].userId
        ensures s[i].merchantId != s[j].merchantId || s[i].sku != s[j].sku
      {
        if i == id {
          assert !(j in store && j != id && store[j].userId == userId
                   && store[j].merchantId == u.merchantId && store[j].sku == u.sku);
        } else if j == id {
          assert !(i in store && i != id && store[i].userId == userId
                   && store[i].merchantId == u.merchantId && store[i].sku == u.sku);
        }
      }
    }
  }

  /** Moving an item onto the merchant id and SKU of another of the user's
      items is refused, and nothing changes. */
  lemma UpdateOntoHeldKeyRefused(store: Store, userId: string, a: Id, b: Id, sku: string)
    requires a in store && b in store && a != b
    requires store[a].userId == userId && store[b].userId == userId
    requires store[a].merchantId == store[b].merchantId && store[b].sku == sku && sku != []
    ensures var data := UpdateInput(None, Some(sku), None, None, None, None, None, None, None, None);
            Update(store, userId, a, data) == (Failure(UniqueViolation(store[b].merchantId, sku)), store)
  {
    var data := UpdateInput(None, Some(sku), None, None, None, None, None, None, None, None);
    var u := ApplyPatch(store[a], MapUpdateData(data));
    assert u.merchantId == store[b].merchantId && u.sku == sku;
    assert HeldByOther(store, userId, a, u.merchantId, u.sku);
  }

  /** `remove`: NotFound unless the user owns the item, changing nothing;
      otherwise the item is deleted and nothing else changes. */
  function Remove(store: Store, userId: string, id: Id): (r: (Result<Item, InventoryError>, Store))
    ensures r.0.Failure? <==> FindOne(store, userId, id).Failure?
    ensures r.0.Failure? ==> r.0.error == NotFound && r.1 == store
    ensures r.0.Success? ==> id !in r.1 && r.1.Keys == store.Keys - {id}
    ensures forall other :: other in r.1 ==> other in store && r.1[other] == store[other]
  {
    match FindOne(store, userId, id)
    case Failure(e) => (Failure(e), store)
    case Success(item) => (Success(item), map k | k in store && k != id :: store[k])
  }

  /** The item repriced by the pricing rules: status PRICED, whatever it was. */
  function Reprice(item: Item): (r: Item)
    ensures r.status == Priced
    ensures r.resalePrice == Some(AutoResalePrice(item.originalPrice, ToLower(item.condition), item.category))
    ensures r == item.(resalePrice := r.resalePrice, status := Priced)
  {
    item.(resalePrice := Some(AutoResalePrice(item.originalPrice, ToLower(item.condition), item.category)),
          status := Priced)
  }

  /** `autoPrice`. */
  function AutoPrice(store: Store, userId: string, id: Id): (r: (Result<Item, InventoryError>, Store))
    ensures r.0.Failure? <==> FindOne(store, userId, id).Failure?
    ensures r.0.Failure? ==> r.0.error == NotFound && r.1 == store
    ensures r.0.Success? ==> r.1 == store[id := r.0.value] && r.0.value == Reprice(store[id])
  {
    match FindOne(store, userId, id)
    case Failure(e) => (Failure(e), store)
    case Success(item) => (Success(Reprice(item)), store[id := Reprice(item)])
  }

  /** The ids among `ids` that name an item of `userId`. */
  function OwnedAmong(store: Store, userId: string, ids: seq<Id>): (owned: set<Id>)
    ensures forall id :: id in owned <==> id in ids && id in store && store[id].userId == userId
  {
    set id | id in ids && id in store && store[id].userId == userId
  }

  /** `autoPriceBulk`: every requested item of the user is repriced; other
      ids, requested or not, are ignored. */
  function AutoPriceBulk(store: Store, userId: string, ids: seq<Id>): (r: (nat, Store))
    ensures r.0 == |OwnedAmong(store, userId, ids)|
    ensures r.1.Keys == store.Keys
    ensures forall id :: id in store ==>
              r.1[id] == if id in OwnedAmong(store, userId, ids) then Reprice(store[id]) else store[id]
  {
    var owned := OwnedAmong(store, userId, ids);
    (|owned|, map id | id in store :: if id in owned then Reprice(store[id]) else store[id])
  }

  /** `setPrice`: the given resale price, and status PRICED whatever it was. */
  function SetPrice(store: Store, userId: string, id: Id, resalePrice: real): (r: (Result<Item, InventoryError>, Store))
    ensures r.0.Failure? <==> FindOne(store, userId, id).Failure?
    ensures r.0.Failure? ==> r.0.error == NotFound && r.1 == store
    ensures r.0.Success? ==>
              && r.1 == store[id := r.0.value]
              && r.0.value == store[id].(resalePrice := Some(resalePrice), status := Priced)
  {
    match FindOne(store, userId, id)
    case Failure(e) => (Failure(e), store)
    case Success(item) =>
      var priced := item.(resalePrice := Some(resalePrice), status := Priced);
      (Success(priced), store[id := priced])
  }

  /** `listItem`: a DRAFT item must be priced first; a PRICED or LISTED
      item becomes LISTED. */
  function ListItem(store: Store, userId: string, id: Id): (r: (Result<Item, InventoryError>, Store))
    ensures r.0.Success? <==> FindOne(store, userId, id).Success? && store[id].status != Draft
    ensures r.0.Failure? ==> r.1 == store
    ensures r.0.Failure? ==> r.0.error == (if FindOne(store, userId, id).Failure? then NotFound else MustBePriced)
    ensures r.0.Success? ==> r.1 == store[id := store[id].(status := Listed)] && r.0.value == r.1[id]
  {
    match FindOne(store, userId, id)
    case Failure(e) => (Failure(e), store)
    case Success(item) =>
      if item.status == Draft then (Failure(MustBePriced), store)
      else (Success(item.(status := Listed)), store[id := item.(status := Listed)])
  }

  datatype ListBulkOutcome = NotPriced(ids: set<Id>) | ListedCount(processed: nat)

  /** `listBulk`: all or nothing over the user's requested items. When any
      is DRAFT, nothing changes and their ids are reported; otherwise every
      one becomes LISTED. */
  function ListBulk(store: Store, userId: string, ids: seq<Id>): (r: (ListBulkOutcome, Store))
    ensures r.0.NotPriced? <==> exists id :: id in OwnedAmong(store, userId, ids) && store[id].status == Draft
    ensures r.0.NotPriced? ==> r.1 == store
    ensures r.0.NotPriced? ==>
              forall id :: id in r.0.ids <==> id in OwnedAmong(store, userId, ids) && store[id].status == Draft
    ensures r.0.ListedCount? ==> r.0.processed == |OwnedAmong(store, userId, ids)| && r.1.Keys == store.Keys
    ensures r.0.ListedCount? ==>
              forall id :: id in store ==>
                r.1[id] == if id in OwnedAmong(store, userId, ids) then store[id].(status := Listed) else store[id]
  {
    var owned := OwnedAmong(store, userId, ids);
    if exists id :: id in owned && store[id].status == Draft then
      (NotPriced(set id | id in owned && store[id].status == Draft), store)
    else
      (ListedCount(|owned|), map id | id in store :: if id in owned then store[id].(status := Listed) else store[id])
  }

  /** The status moves an operation may make: stay, become PRICED, or become
      LISTED from PRICED or LISTED. A DRAFT item never jumps to LISTED. */
  predicate StatusStep(before: Status, after: Status) {
    before == after || after == Priced || (after == Listed && before != Draft)
  }

  predicate StatusesStep(before: Store, after: Store) {
    forall id :: id in before && id in after ==> StatusStep(before[id].status, after[id].status)
  }

  /** Every pricing and listing operation moves statuses only along the
      machine. */
  lemma SingleItemOperationsFollowTheMachine(store: Store, userId: string, id: Id, price: real)
    ensures StatusesStep(store, AutoPrice(store, userId, id).1)
    ensures StatusesStep(store, SetPrice(store, userId, id, price).1)
    ensures StatusesStep(store, ListItem(store, userId, id).1)
  {
  }

  lemma BulkOperationsFollowTheMachine(store: Store, userId: string, ids: seq<Id>)
    ensures StatusesStep(store, AutoPriceBulk(store, userId, ids).1)
    ensures StatusesStep(store, ListBulk(store, userId, ids).1)
  {
  }

  /** Pricing wins over listing: `autoPrice` and `setPrice` take a LISTED
      item back to PRICED. */
  lemma RepricingUnlists(store: Store, userId: string, id: Id, price: real)
    requires id in store && store[id].userId == userId && store[id].status == Listed
    ensures AutoPrice(store, userId, id).1[id].status == Priced
    ensures SetPrice(store, userId, id, price).1[id].status == Priced
  {
  }

  /** The condition values are lower case. */
  lemma ValidConditionsAreLowerCase(c: string)
    requires c in Pricing.ValidConditions
    ensures NoUpperAscii(c)
  {
  }

  /** For a valid condition, re-pricing a freshly created item gives the
      price it was created with: storing the condition upper-cased and
      lower-casing it again loses nothing. */
  lemma AutoPriceAgreesWithCreate(store: Store, userId: string, newId: Id, data: CreateInput)
    requires newId !in store
    requires data.condition in Pricing.ValidConditions
    requires Create(store, userId, newId, data).0.Success?
    ensures var s := Create(store, userId, newId, data).1;
            AutoPrice(s, userId, newId).0.Success?
            && AutoPrice(s, userId, newId).0.value.resalePrice == s[newId].resalePrice
  {
    ValidConditionsAreLowerCase(data.condition);
    LowerUpperRoundTrip(data.condition);
  }

  // ---------------------------------------------------------------------
  // Bulk upload

  /** A parsed CSV file: the header line and the records keyed by it. */
  datatype Csv = Csv(columns: seq<string>, records: seq<Row>)

  /** A valid row whose key the user already holds. */
  datatype DbDuplicate = DbDuplicate(rowNumber: int, key: string)

  datatype UploadSummary = UploadSummary(total: nat, inserted: nat, invalid: nat, duplicatesInFile: nat, duplicatesInDb: nat)

  datatype UploadReport = UploadReport(
    summary: UploadSummary,
    invalid: seq<RejectedRow>,
    duplicatesInFile: seq<RejectedRow>,
    duplicatesInDb: seq<DbDuplicate>)

  datatype UploadError = EmptyFile | MissingHeaders(missing: seq<string>)

  /** `merchantId:sku` of a stored item, as the upload compares keys. */
  function ItemKey(item: Item): string {
    item.merchantId + ":" + item.sku
  }

  /** The keys the user already holds. */
  function ExistingKeys(store: Store, userId: string): (keys: set<string>)
    ensures forall k :: k in keys <==> exists id :: id in store && store[id].userId == userId && ItemKey(store[id]) == k
  {
    set id | id in store && store[id].userId == userId :: ItemKey(store[id])
  }

  /** The non-blank records, in order. */
  function NonEmptyRows(records: seq<Row>): (rows: seq<Row>)
    ensures |rows| <= |records|
    ensures forall r :: r in rows <==> r in records && !IsEmptyRow(r)
    ensures forall r :: multiset(rows)[r] == if IsEmptyRow(r) then 0 else multiset(records)[r]
  {
    if records == [] then []
    else
      var rest := NonEmptyRows(records[1..]);
      assert records == [records[0]] + records[1..];
      assert multiset(records) == multiset([records[0]]) + multiset(records[1..]);
      if IsEmptyRow(records[0]) then rest
      else
        assert multiset([records[0]] + rest) == multiset([records[0]]) + multiset(rest);
        [records[0]] + rest
  }

  /** Filtering keeps file order: the kept records of a concatenation are
      those of each part, one after the other. */
  lemma {:induction false} NonEmptyRowsConcat(a: seq<Row>, b: seq<Row>)
    ensures NonEmptyRows(a + b) == NonEmptyRows(a) + NonEmptyRows(b)
  {
    if a == [] {
      assert a + b == b;
    } else {
      assert (a + b)[0] == a[0];
      assert (a + b)[1..] == a[1..] + b;
      NonEmptyRowsConcat(a[1..], b);
    }
  }

  datatype Split = Split(toInsert: seq<AcceptedRow>, inDatabase: seq<DbDuplicate>)

  /** The valid rows divided into those to insert and those whose key the
      user already holds, each in file order. */
  function SplitByExisting(valid: seq<AcceptedRow>, existing: set<string>): (s: Split)
    ensures |s.toInsert| + |s.inDatabase| == |valid|
    ensures forall a :: a in s.toInsert <==> a in valid && Key(a.data) !in existing
    ensures forall a :: a in valid && Key(a.data) in existing ==> DbDuplicate(a.rowNumber, Key(a.data)) in s.inDatabase
    ensures forall d :: d in s.inDatabase ==> d.key in existing
  {
    if valid == [] then Split([], [])
    else
      var rest := SplitByExisting(valid[1..], existing);
      var a := valid[0];
      assert forall b :: b in valid[1..] ==> b in valid;
      if Key(a.data) in existing then Split(rest.toInsert, [DbDuplicate(a.rowNumber, Key(a.data))] + rest.inDatabase)
      else Split([a] + rest.toInsert, rest.inDatabase)
  }

  /** The rows to insert have pairwise distinct keys. */
  lemma {:induction false} SplitKeepsDistinctKeys(valid: seq<AcceptedRow>, existing: set<string>)
    requires DistinctKeys(valid)
    ensures DistinctKeys(SplitByExisting(valid, existing).toInsert)
  {
    if valid != [] {
      var rest := SplitByExisting(valid[1..], existing).toInsert;
      DistinctKeysTail(valid);
      SplitKeepsDistinctKeys(valid[1..], existing);
      if Key(valid[0].data) !in existing {
        FirstKeyFresh(valid);
        DistinctKeysCons(valid[0], rest);
      }
    }
  }

  lemma DistinctKeysTail(vs: seq<AcceptedRow>)
    requires vs != [] && DistinctKeys(vs)
    ensures DistinctKeys(vs[1..])
  {
    forall i, j | 0 <= i < j < |vs[1..]|
      ensures Key(vs[1..][i].data) != Key(vs[1..][j].data)
    {
      assert vs[1..][i] == vs[i + 1] && vs[1..][j] == vs[j + 1];
    }
  }

  /** The first row's key is not the key of any later row. */
  lemma FirstKeyFresh(vs: seq<AcceptedRow>)
    requires vs != [] && DistinctKeys(vs)
    ensures forall b :: b in vs[1..] ==> Key(b.data) != Key(vs[0].data)
  {
    forall b | b in vs[1..]
      ensures Key(b.data) != Key(vs[0].data)
    {
      var j :| 0 <= j < |vs[1..]| && vs[1..][j] == b;
      assert vs[j + 1] == b;
    }
  }

  /** Prepending a row whose key no other row has keeps the keys distinct. */
  lemma DistinctKeysCons(a: AcceptedRow, rest: seq<AcceptedRow>)
    requires DistinctKeys(rest)
    requires forall b :: b in rest ==> Key(b.data) != Key(a.data)
    ensures DistinctKeys([a] + rest)
  {
    var t := [a] + rest;
    forall i, j | 0 <= i < j < |t|
      ensures Key(t[i].data) != Key(t[j].data)
    {
      assert t[j] == rest[j - 1];
      if i > 0 {
        assert t[i] == rest[i - 1];
      } else {
        assert rest[j - 1] in rest;
      }
    }
  }

  /** The item a CSV row becomes: DRAFT, condition upper-cased, resale price
      from the pricing rules. */
  function ItemFromRow(userId: string, p: ParsedRow): Item {
    Item(userId, p.merchantId, p.sku, p.title, p.brand, p.category, ToUpper(p.condition), p.originalPrice,
         Some(AutoResalePrice(p.originalPrice, p.condition, p.category)), p.currency, p.quantity, Draft)
  }

  /** A row's item belongs to the uploader, starts as DRAFT, and keeps the
      row's key. */
  lemma ItemFromRowKeepsKey(userId: string, p: ParsedRow)
    ensures ItemFromRow(userId, p).userId == userId && ItemFromRow(userId, p).status == Draft
    ensures ItemKey(ItemFromRow(userId, p)) == Key(p)
  {
  }

  predicate FreshIds(store: Store, ids: seq<Id>) {
    && (forall i :: 0 <= i < |ids| ==> ids[i] !in store)
    && (forall i, j :: 0 <= i < j < |ids| ==> ids[i] != ids[j])
  }

  /** `createMany`: the rows stored under the fresh ids, nothing else touched. */
  function InsertRows(store: Store, userId: string, rows: seq<AcceptedRow>, ids: seq<Id>): (s: Store)
    requires |ids| == |rows| && FreshIds(store, ids)
    ensures forall id :: id in s <==> id in store || id in ids
    ensures forall id :: id in store ==> s[id] == store[id]
    decreases |ids|
  {
    if ids == [] then store
    else
      var n := |ids| - 1;
      var prev := InsertRows(store, userId, rows[..n], ids[..n]);
      assert ids == ids[..n] + [ids[n]];
      prev[ids[n] := ItemFromRow(userId, rows[n].data)]
  }

  /** The `i`-th fresh id holds the item of the `i`-th row. */
  lemma {:induction false} InsertedAt(store: Store, userId: string, rows: seq<AcceptedRow>, ids: seq<Id>, i: nat)
    requires |ids| == |rows| && FreshIds(store, ids) && i < |ids|
    ensures InsertRows(store, userId, rows, ids)[ids[i]] == ItemFromRow(userId, rows[i].data)
    decreases |ids|
  {
    var n := |ids| - 1;
    if i < n {
      InsertedAt(store, userId, rows[..n], ids[..n], i);
      assert ids[..n][i] == ids[i] && rows[..n][i] == rows[i];
      assert ids[i] != ids[n];
    }
  }

  /** Inserted items belong to the uploader and start as DRAFT. */
  lemma InsertedAreDrafts(store: Store, userId: string, ins: seq<AcceptedRow>, ids: seq<Id>)
    requires |ids| == |ins| && FreshIds(store, ids)
    ensures var s := InsertRows(store, userId, ins, ids);
            forall id :: id in s && id !in store ==> s[id].userId == userId && s[id].status == Draft
  {
    var s := InsertRows(store, userId, ins, ids);
    forall id | id in s && id !in store
      ensures s[id].userId == userId && s[id].status == Draft
    {
      var i :| 0 <= i < |ids| && ids[i] == id;
      InsertedAt(store, userId, ins, ids, i);
      ItemFromRowKeepsKey(userId, ins[i].data);
    }
  }

  /** How the valid rows of an upload divide between insertion and the
      rows the user already holds. */
  function Plan(store: Store, userId: string, rows: seq<Row>, validate: Validator): (s: Split)
    ensures |s.toInsert| <= |rows|
  {
    SplitByExisting(ValidateRows(rows, validate).validRows, ExistingKeys(store, userId))
  }

  /** The upload of the non-blank rows once the file has passed the header
      check: the report counts every row once, the invalid and in-file
      duplicate rows are the validation's, existing items are untouched and
      every new item is a DRAFT of the uploader under a fresh id. */
  function Upload(store: Store, userId: string, rows: seq<Row>, validate: Validator, newIds: seq<Id>)
    : (r: (UploadReport, Store))
    requires |newIds| >= |rows| && FreshIds(store, newIds)
    ensures r.0.summary.total == |rows|
    ensures var s := r.0.summary;
            s.inserted + s.duplicatesInDb + s.invalid + s.duplicatesInFile == s.total
    ensures var v := ValidateRows(rows, validate);
            r.0.invalid == v.invalidRows && r.0.duplicatesInFile == v.duplicateRows
    ensures forall id :: id in store ==> id in r.1 && r.1[id] == store[id]
    ensures forall id :: id in r.1 && id !in store ==> id in newIds && r.1[id].userId == userId && r.1[id].status == Draft
  {
    var v := ValidateRows(rows, validate);
    var split := Plan(store, userId, rows, validate);
    var ids := newIds[..|split.toInsert|];
    assert FreshIds(store, ids);
    InsertedAreDrafts(store, userId, split.toInsert, ids);
    var summary := UploadSummary(|rows|, |split.toInsert|, |v.invalidRows|, |v.duplicateRows|, |split.inDatabase|);
    (UploadReport(summary, v.invalidRows, v.duplicateRows, split.inDatabase),
     InsertRows(store, userId, split.toInsert, ids))
  }

  /** `bulkUpload`: an empty file or missing columns fail and change
      nothing. Otherwise blank records are dropped, the rest validated, the
      valid rows whose key the user already holds are reported, and the
      others inserted as the user's DRAFT items under fresh ids, leaving
      every existing item as it was. */
  function BulkUpload(store: Store, userId: string, csv: Csv, parsers: NumberParsers, newIds: seq<Id>)
    : (r: (Result<UploadReport, UploadError>, Store))
    requires |newIds| >= |csv.records| && FreshIds(store, newIds)
    ensures csv.records == [] ==> r.0 == Failure(EmptyFile)
    ensures csv.records != [] && !ValidateHeaders(csv.columns).isValid ==>
              r.0 == Failure(MissingHeaders(ValidateHeaders(csv.columns).missing))
    ensures r.0.Failure? ==> r.1 == store
    ensures r.0.Success? <==> csv.records != [] && ValidateHeaders(csv.columns).isValid
    ensures r.0.Success? ==> r.0.value.summary.total == |NonEmptyRows(csv.records)|
    ensures r.0.Success? ==>
              var s := r.0.value.summary;
              s.inserted + s.duplicatesInDb + s.invalid + s.duplicatesInFile == s.total
    ensures r.0.Success? ==>
              var v := ValidateRows(NonEmptyRows(csv.records), Schema(parsers));
              r.0.value.invalid == v.invalidRows && r.0.value.duplicatesInFile == v.duplicateRows
    ensures forall id :: id in store ==> id in r.1 && r.1[id] == store[id]
    ensures forall id :: id in r.1 && id !in store ==> id in newIds && r.1[id].userId == userId && r.1[id].status == Draft
  {
    if csv.records == [] then (Failure(EmptyFile), store)
    else
      var headers := ValidateHeaders(csv.columns);
      if !headers.isValid then (Failure(MissingHeaders(headers.missing)), store)
      else
        var u := Upload(store, userId, NonEmptyRows(csv.records), Schema(parsers), newIds);
        (Success(u.0), u.1)
  }

  /** A valid row whose key the user does not hold is stored under one of
      the fresh ids. */
  lemma InsertPlacesRows(store: Store, userId: string, valid: seq<AcceptedRow>, existing: set<string>, ids: seq<Id>)
    requires |ids| == |SplitByExisting(valid, existing).toInsert|
    requires FreshIds(store, ids)
    ensures var s := InsertRows(store, userId, SplitByExisting(valid, existing).toInsert, ids);
            forall a :: a in valid && Key(a.data) !in existing ==>
              exists id :: id in s && id !in store && s[id] == ItemFromRow(userId, a.data)
  {
    var ins := SplitByExisting(valid, existing).toInsert;
    var s := InsertRows(store, userId, ins, ids);
    forall a | a in valid && Key(a.data) !in existing
      ensures exists id :: id in s && id !in store && s[id] == ItemFromRow(userId, a.data)
    {
      assert a in ins;
      var i :| 0 <= i < |ins| && ins[i] == a;
      InsertedAt(store, userId, ins, ids, i);
      assert ids[i] in s && ids[i] !in store;
    }
  }

  /** Every valid row of an upload is either reported as already held, with
      its row number and key, or stored as a new item of the user. */
  lemma UploadPlacesRows(store: Store, userId: string, rows: seq<Row>, validate: Validator, newIds: seq<Id>)
    requires |newIds| >= |rows| && FreshIds(store, newIds)
    ensures var r := Upload(store, userId, rows, validate, newIds);
            forall a :: a in ValidateRows(rows, validate).validRows ==>
              if Key(a.data) in ExistingKeys(store, userId) then
                DbDuplicate(a.rowNumber, Key(a.data)) in r.0.duplicatesInDb
              else
                exists id :: id in r.1 && id !in store && r.1[id] == ItemFromRow(userId, a.data)
  {
    var valid := ValidateRows(rows, validate).validRows;
    var existing := ExistingKeys(store, userId);
    var split := SplitByExisting(valid, existing);
    var ids := newIds[..|split.toInsert|];
    assert FreshIds(store, ids);
    InsertPlacesRows(store, userId, valid, existing, ids);
  }

  /** Every valid row of the file is either reported as already held, with
      its row number and key, or stored as a new item of the user. */
  lemma UploadPlacesEveryValidRow(store: Store, userId: string, csv: Csv, parsers: NumberParsers, newIds: seq<Id>)
    requires |newIds| >= |csv.records| && FreshIds(store, newIds)
    requires BulkUpload(store, userId, csv, parsers, newIds).0.Success?
    ensures var r := BulkUpload(store, userId, csv, parsers, newIds);
            forall a :: a in ValidateRows(NonEmptyRows(csv.records), Schema(parsers)).validRows ==>
              if Key(a.data) in ExistingKeys(store, userId) then
                DbDuplicate(a.rowNumber, Key(a.data)) in r.0.value.duplicatesInDb
              else
                exists id :: id in r.1 && id !in store && r.1[id] == ItemFromRow(userId, a.data)
  {
    var rows := NonEmptyRows(csv.records);
    var u := Upload(store, userId, rows, Schema(parsers), newIds);
    assert BulkUpload(store, userId, csv, parsers, newIds) == (Success(u.0), u.1);
    UploadPlacesRows(store, userId, rows, Schema(parsers), newIds);
  }

  /** Inserted rows carry keys the user did not hold, pairwise distinct, so
      an upload into a store that keeps the unique constraint keeps it. */
  lemma UploadKeepsUniqueKeys(store: Store, userId: string, csv: Csv, parsers: NumberParsers, newIds: seq<Id>)
    requires |newIds| >= |csv.records| && FreshIds(store, newIds)
    requires UniqueKeys(store)
    ensures UniqueKeys(BulkUpload(store, userId, csv, parsers, newIds).1)
  {
    var r := BulkUpload(store, userId, csv, parsers, newIds);
    if r.0.Success? {
      var rows := NonEmptyRows(csv.records);
      assert r.1 == Upload(store, userId, rows, Schema(parsers), newIds).1;
      UploadRowsKeepUniqueKeys(store, userId, rows, Schema(parsers), newIds);
    }
  }

  lemma UploadRowsKeepUniqueKeys(store: Store, userId: string, rows: seq<Row>, validate: Validator, newIds: seq<Id>)
    requires |newIds| >= |rows| && FreshIds(store, newIds)
    requires UniqueKeys(store)
    ensures UniqueKeys(Upload(store, userId, rows, validate, newIds).1)
  {
    var valid := ValidateRows(rows, validate).validRows;
    var existing := ExistingKeys(store, userId);
    var split := SplitByExisting(valid, existing);
    var ids := newIds[..|split.toInsert|];
    assert FreshIds(store, ids);
    ValidateRowsOrdered(rows, validate);
    SplitKeepsDistinctKeys(valid, existing);
    InsertKeepsUniqueKeys(store, userId, split.toInsert, ids);
  }

  lemma InsertKeepsUniqueKeys(store: Store, userId: string, ins: seq<AcceptedRow>, ids: seq<Id>)
    requires |ids| == |ins| && FreshIds(store, ids)
    requires UniqueKeys(store)
    requires DistinctKeys(ins)
    requires forall a :: a in ins ==> Key(a.data) !in ExistingKeys(store, userId)
    ensures UniqueKeys(InsertRows(store, userId, ins, ids))
  {
    var s := InsertRows(store, userId, ins, ids);
    forall i, j | i in s && j in s && i != j && s[i].userId == s[j].userId
      ensures s[i].merchantId != s[j].merchantId || s[i].sku != s[j].sku
    {
      if i !in store || j !in store {
        assert ItemKey(s[i]) != ItemKey(s[j]) by {
          NewKeyDiffers(store, userId, ins, ids, i, j);
        }
      }
    }
  }

  lemma NewKeyDiffers(store: Store, userId: string, ins: seq<AcceptedRow>, ids: seq<Id>, i: Id, j: Id)
    requires |ids| == |ins| && FreshIds(store, ids)
    requires DistinctKeys(ins)
    requires forall a :: a in ins ==> Key(a.data) !in ExistingKeys(store, userId)
    requires var s := InsertRows(store, userId, ins, ids);
             i in s && j in s && i != j && s[i].userId == s[j].userId && (i !in store || j !in store)
    ensures var s := InsertRows(store, userId, ins, ids); ItemKey(s[i]) != ItemKey(s[j])
  {
    var s := InsertRows(store, userId, ins, ids);
    if i !in store && j !in store {
      var a :| 0 <= a < |ids| && ids[a] == i;
      var b :| 0 <= b < |ids| && ids[b] == j;
      assert a != b;
      InsertedAt(store, userId, ins, ids, a);
      InsertedAt(store, userId, ins, ids, b);
      ItemFromRowKeepsKey(userId, ins[a].data);
      ItemFromRowKeepsKey(userId, ins[b].data);
      if a < b {
        assert Key(ins[a].data) != Key(ins[b].data);
      } else {
        assert Key(ins[b].data) != Key(ins[a].data);
      }
    } else if i !in store {
      var a :| 0 <= a < |ids| && ids[a] == i;
      assert ins[a] in ins;
      InsertedAt(store, userId, ins, ids, a);
      ItemFromRowKeepsKey(userId, ins[a].data);
      assert s[i].userId == userId;
      assert ItemKey(store[j]) in ExistingKeys(store, userId);
    } else {
      var b :| 0 <= b < |ids| && ids[b] == j;
      assert ins[b] in ins;
      InsertedAt(store, userId, ins, ids, b);
      ItemFromRowKeepsKey(userId, ins[b].data);
      assert s[j].userId == userId;
      assert ItemKey(store[i]) in ExistingKeys(store, userId);
    }
  }
}
