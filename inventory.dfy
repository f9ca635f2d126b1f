/**
 * The inventory page: the stock-status badge of a medicine, the search filter,
 * the add/edit form and how it is written back, and the page's local list of
 * medicines as deletes, updates and inserts succeed.
 */
module Inventory {
  import opened Wrappers
  import opened Strings
  import opened Sequences
  import opened Database

  const MsPerDay: int := 24 * 60 * 60 * 1000
  const ExpiryWindowDays: int := 30
  const DefaultLowStockThreshold: int := 10

  // ---------------------------------------------------------------------------
  // getStatusBadge
  // ---------------------------------------------------------------------------

  datatype StockStatus = Expired | ExpiringSoon | LowStock | InStock

  /** `thirtyDaysFromNow`: thirty days after `now`, at the same time of day. */
  function ThirtyDaysFrom(now: Instant): Instant {
    now + ExpiryWindowDays * MsPerDay
  }

  /**
   * `getStatusBadge(medicine)` at the instant `now`: expiry is checked before
   * stock level, and each test is `<`, `>=`/`<=` or `<=` exactly as written.
   */
  function StatusOf(m: Medicine, now: Instant): (r: StockStatus)
    ensures r == Expired <==> ExpiredAt(m, now)
    ensures r == ExpiringSoon <==> ExpiresWithinWindow(m, now)
  {
    if m.expiryDate.Some? && m.expiryDate.value < now then Expired
    else if m.expiryDate.Some? && m.expiryDate.value >= now && m.expiryDate.value <= ThirtyDaysFrom(now) then ExpiringSoon
    else if m.quantity <= m.lowStockThreshold then LowStock
    else InStock
  }

  /** The text of each badge. */
  function BadgeText(s: StockStatus): (r: string)
    ensures s == Expired ==> r == "Expired"
    ensures s == ExpiringSoon ==> r == "Expiring Soon"
    ensures s == LowStock ==> r == "Low Stock"
    ensures s == InStock ==> r == "In Stock"
  {
    match s
    case Expired => "Expired"
    case ExpiringSoon => "Expiring Soon"
    case LowStock => "Low Stock"
    case InStock => "In Stock"
  }

  /** The badges can be told apart by their text. */
  lemma BadgeTextInjective(s: StockStatus, t: StockStatus)
    ensures BadgeText(s) == BadgeText(t) ==> s == t
  {
  }

  /** The expiry date has passed. */
  predicate ExpiredAt(m: Medicine, now: Instant) {
    m.expiryDate.Some? && m.expiryDate.value < now
  }

  /** The expiry date falls within the next thirty days, both ends included. */
  predicate ExpiresWithinWindow(m: Medicine, now: Instant) {
    m.expiryDate.Some? && now <= m.expiryDate.value <= now + 30 * MsPerDay
  }

  /** Stock at or below the threshold. */
  predicate StockIsLow(m: Medicine) {
    m.quantity <= m.lowStockThreshold
  }

  /**
   * The badge against the three conditions taken one at a time: expiry dominates
   * stock level, and any medicine with neither condition is in stock.
   */
  lemma StatusPrecedence(m: Medicine, now: Instant)
    ensures StatusOf(m, now) == Expired <==> ExpiredAt(m, now)
    ensures StatusOf(m, now) == ExpiringSoon <==> ExpiresWithinWindow(m, now)
    ensures StatusOf(m, now) == LowStock <==> !ExpiredAt(m, now) && !ExpiresWithinWindow(m, now) && StockIsLow(m)
    ensures StatusOf(m, now) == InStock <==> !ExpiredAt(m, now) && !ExpiresWithinWindow(m, now) && !StockIsLow(m)
  {
  }

  /** Both ends of the window count as expiring soon; the next day no longer does. */
  lemma WindowBoundaries(m: Medicine, now: Instant)
    ensures m.expiryDate == Some(now) ==> StatusOf(m, now) == ExpiringSoon
    ensures m.expiryDate == Some(now + 30 * MsPerDay) ==> StatusOf(m, now) == ExpiringSoon
    ensures m.expiryDate == Some(now + 31 * MsPerDay) ==>
      StatusOf(m, now) == if m.quantity <= m.lowStockThreshold then LowStock else InStock
    ensures m.expiryDate == Some(now - 1) ==> StatusOf(m, now) == Expired
  {
  }

  /**
   * `new Date(expiry_date)` is midnight of that day, so a medicine whose expiry
   * day is today already shows Expired once the day has begun.
   */
  lemma ExpiryDayCountsAsExpired(m: Medicine, day: int, msIntoDay: int)
    requires m.expiryDate == Some(day * MsPerDay)
    requires 0 < msIntoDay < MsPerDay
    ensures StatusOf(m, day * MsPerDay + msIntoDay) == Expired
  {
  }

  // ---------------------------------------------------------------------------
  // filteredMedicines
  // ---------------------------------------------------------------------------

  /** The name, category or description includes the query, ignoring case; a null column never matches. */
  predicate MatchesQuery(m: Medicine, query: string)
    ensures query == "" ==> MatchesQuery(m, query)
  {
    ContainsEmpty(ToLower(m.name));
    var q := ToLower(query);
    || Contains(ToLower(m.name), q)
    || (m.category.Some? && Contains(ToLower(m.category.value), q))
    || (m.description.Some? && Contains(ToLower(m.description.value), q))
  }

  function Matcher(query: string): Medicine -> bool {
    (m: Medicine) => MatchesQuery(m, query)
  }

  /**
   * `filteredMedicines`: the medicines matching the search query, in list order.
   * A medicine is kept exactly when it matches, and the result reads off the list left to right.
   */
  function Search(ms: seq<Medicine>, query: string): (r: seq<Medicine>)
    ensures IsSubsequence(r, ms)
    ensures forall k :: 0 <= k < |r| ==> r[k] in ms && MatchesQuery(r[k], query)
    ensures forall k :: 0 <= k < |ms| && MatchesQuery(ms[k], query) ==> ms[k] in r
    ensures forall x :: multiset(r)[x] == if MatchesQuery(x, query) then multiset(ms)[x] else 0
  {
    Filter(ms, Matcher(query))
  }

  /** An empty query shows every medicine. */
  lemma EmptyQueryShowsAll(ms: seq<Medicine>)
    ensures Search(ms, "") == ms
  {
    forall k | 0 <= k < |ms| ensures Matcher("")(ms[k]) {
      ContainsEmpty(ToLower(ms[k].name));
    }
    FilterAll(ms, Matcher(""));
  }

  /** Typing the query in capitals finds the same medicines. */
  lemma SearchIgnoresCase(ms: seq<Medicine>, query: string)
    ensures Search(ms, ToUpper(query)) == Search(ms, query)
  {
    LowerOfUpper(query);
    FilterCongruent(ms, Matcher(ToUpper(query)), Matcher(query));
  }

  // ---------------------------------------------------------------------------
  // the add/edit form
  // ---------------------------------------------------------------------------

  /** The form state `formData` (a `MedicineFormData`); an empty date input is `None`. */
  datatype MedicineForm = MedicineForm(
    name: string,
    description: string,
    category: string,
    quantity: int,
    unit: string,
    expiryDate: Option<Instant>,
    supplier: string,
    batchNumber: string,
    price: real,
    lowStockThreshold: int)

  /** The form `openAddModal` starts from. */
  const EmptyForm := MedicineForm("", "", "", 0, "pieces", None, "", "", 0.0, DefaultLowStockThreshold)

  /** `openEditModal(medicine)`: the form filled from a stored medicine, null columns shown empty. */
  function EditForm(m: Medicine): (f: MedicineForm)
    ensures f.name == m.name && f.quantity == m.quantity && f.unit == m.unit
    ensures f.description == OrEmpty(m.description) && f.category == OrEmpty(m.category)
    ensures f.expiryDate == m.expiryDate && f.lowStockThreshold == m.lowStockThreshold
    ensures f.supplier == OrEmpty(m.supplier) && f.batchNumber == OrEmpty(m.batchNumber)
    ensures f.price == if m.price.Some? then m.price.value else 0.0
  {
    MedicineForm(
      m.name, OrEmpty(m.description), OrEmpty(m.category), m.quantity, m.unit, m.expiryDate,
      OrEmpty(m.supplier), OrEmpty(m.batchNumber),
      if m.price.Some? && m.price.value != 0.0 then m.price.value else 0.0,
      m.lowStockThreshold)
  }

  /** The quantity input: `parseInt(value) || 0`, where `None` is a value that does not parse. */
  function QuantityFromInput(parsed: Option<int>): (r: int)
    ensures parsed.Some? ==> r == parsed.value
    ensures parsed.None? ==> r == 0
  {
    if parsed.Some? && parsed.value != 0 then parsed.value else 0
  }

  /** The threshold input: `parseInt(value) || 10`. Never 0; 10 for a value that does not parse or is 0. */
  function ThresholdFromInput(parsed: Option<int>): (r: int)
    ensures r != 0
    ensures parsed.Some? && parsed.value != 0 ==> r == parsed.value
    ensures parsed.None? || parsed == Some(0) ==> r == DefaultLowStockThreshold
  {
    if parsed.Some? && parsed.value != 0 then parsed.value else DefaultLowStockThreshold
  }

  /** The price input: `parseFloat(value) || 0`, where `None` is a value that does not parse. */
  function PriceFromInput(parsed: Option<real>): (r: real)
    ensures parsed.Some? ==> r == parsed.value
    ensures parsed.None? ==> r == 0.0
  {
    if parsed.Some? && parsed.value != 0.0 then parsed.value else 0.0
  }

  /** `low_stock_threshold || 10` when writing: a threshold of 0 is stored as 10, any other is kept. */
  function StoredThreshold(t: int): (r: int)
    ensures r != 0
    ensures t != 0 ==> r == t
    ensures t == 0 ==> r == DefaultLowStockThreshold
  {
    if t != 0 then t else DefaultLowStockThreshold
  }

  /** `price || null` when writing: a price of 0 is stored as null. */
  function StoredPrice(p: real): (r: Option<real>)
    ensures r.None? <==> p == 0.0
    ensures r.Some? ==> r.value == p
  {
    if p != 0.0 then Some(p) else None
  }

  /** The columns a submit writes, shared by the update and the insert. */
  datatype MedicineFields = MedicineFields(
    name: string,
    description: Option<string>,
    category: Option<string>,
    quantity: int,
    unit: string,
    expiryDate: Option<Instant>,
    supplier: Option<string>,
    batchNumber: Option<string>,
    price: Option<real>,
    lowStockThreshold: int)

  /** Empty strings become null, a zero price becomes null, a zero threshold becomes 10. */
  function ToFields(f: MedicineForm): (r: MedicineFields)
    ensures r.name == f.name && r.quantity == f.quantity && r.unit == f.unit && r.expiryDate == f.expiryDate
    ensures r.description == EmptyToNull(f.description) && r.category == EmptyToNull(f.category)
    ensures r.supplier == EmptyToNull(f.supplier) && r.batchNumber == EmptyToNull(f.batchNumber)
    ensures r.price == StoredPrice(f.price) && r.lowStockThreshold == StoredThreshold(f.lowStockThreshold)
    ensures r.lowStockThreshold != 0
  {
    MedicineFields(
      f.name, EmptyToNull(f.description), EmptyToNull(f.category), f.quantity, f.unit, f.expiryDate,
      EmptyToNull(f.supplier), EmptyToNull(f.batchNumber), StoredPrice(f.price),
      StoredThreshold(f.lowStockThreshold))
  }

  /** Those columns as a stored row has them. */
  function FieldsOf(m: Medicine): MedicineFields {
    MedicineFields(
      m.name, m.description, m.category, m.quantity, m.unit, m.expiryDate,
      m.supplier, m.batchNumber, m.price, m.lowStockThreshold)
  }

  /** A row no submit could have changed: no empty string, zero price or zero threshold stored. */
  predicate Normalized(m: Medicine) {
    && m.description != Some("") && m.category != Some("")
    && m.supplier != Some("") && m.batchNumber != Some("")
    && m.price != Some(0.0) && m.lowStockThreshold != 0
  }

  /**
   * Opening a medicine for editing and saving it unchanged writes back exactly
   * its stored columns if and only if the row is normalized.
   */
  lemma EditRoundTrip(m: Medicine)
    ensures ToFields(EditForm(m)) == FieldsOf(m) <==> Normalized(m)
  {
    if ToFields(EditForm(m)) == FieldsOf(m) {
      assert ToFields(EditForm(m)).description == m.description;
      assert ToFields(EditForm(m)).category == m.category;
      assert ToFields(EditForm(m)).supplier == m.supplier;
      assert ToFields(EditForm(m)).batchNumber == m.batchNumber;
      assert ToFields(EditForm(m)).price == m.price;
      assert ToFields(EditForm(m)).lowStockThreshold == m.lowStockThreshold;
    }
  }

  /** Saving normalizes once and for all: editing the saved columns and saving again changes nothing. */
  lemma ToFieldsIdempotent(f: MedicineForm, m: Medicine)
    requires FieldsOf(m) == ToFields(f)
    ensures ToFields(EditForm(m)) == FieldsOf(m)
  {
    EditRoundTrip(m);
  }

  /** What a submit sends: an update of the medicine being edited, or an insert with its author. */
  datatype SubmitRequest =
    | UpdateRow(id: string, fields: MedicineFields, updatedAt: string)
    | InsertRow(fields: MedicineFields, createdBy: string)

  /** `handleSubmit`'s request for a signed-in user `userId`, at the time `updatedAt` renders. */
  function RequestFor(editing: Option<Medicine>, form: MedicineForm, userId: string, updatedAt: string): (r: SubmitRequest)
    ensures r.fields == ToFields(form)
    ensures r.UpdateRow? <==> editing.Some?
    ensures r.UpdateRow? ==> r.id == editing.value.id && r.updatedAt == updatedAt
    ensures r.InsertRow? ==> r.createdBy == userId
  {
    match editing
    case Some(m) => UpdateRow(m.id, ToFields(form), updatedAt)
    case None => InsertRow(ToFields(form), userId)
  }

  // ---------------------------------------------------------------------------
  // the local list after a successful delete, update or insert
  // ---------------------------------------------------------------------------

  function OtherId(id: string): Medicine -> bool {
    (m: Medicine) => m.id != id
  }

  function SameId(id: string): Medicine -> bool {
    (m: Medicine) => m.id == id
  }

  /** `medicines.filter((m) => m.id !== id)`. */
  function WithoutId(ms: seq<Medicine>, id: string): (r: seq<Medicine>)
    ensures IsSubsequence(r, ms)
    ensures forall k :: 0 <= k < |r| ==> r[k].id != id
    ensures forall k :: 0 <= k < |ms| && ms[k].id != id ==> ms[k] in r
    ensures forall x :: multiset(r)[x] == if x.id != id then multiset(ms)[x] else 0
  {
    Filter(ms, OtherId(id))
  }

  /** A delete removes exactly the medicines with that id: as many rows go as carried it. */
  lemma DeleteRemovesOnlyThatId(ms: seq<Medicine>, id: string)
    ensures |WithoutId(ms, id)| == |ms| - |Filter(ms, SameId(id))|
    ensures multiset(WithoutId(ms, id)) == multiset(ms) - multiset(Filter(ms, SameId(id)))
  {
    FilterPartition(ms, OtherId(id), SameId(id));
  }

  /** `medicines.map((m) => (m.id === id ? row : m))`. */
  function ReplaceById(ms: seq<Medicine>, id: string, row: Medicine): (r: seq<Medicine>)
    ensures |r| == |ms|
    ensures forall k :: 0 <= k < |ms| ==> r[k] == if ms[k].id == id then row else ms[k]
  {
    seq(|ms|, k requires 0 <= k < |ms| => if ms[k].id == id then row else ms[k])
  }

  /** When the saved row keeps its id, an update changes no position's id and touches no other medicine. */
  lemma UpdateKeepsIds(ms: seq<Medicine>, row: Medicine)
    ensures var r := ReplaceById(ms, row.id, row);
      && (forall k :: 0 <= k < |ms| ==> r[k].id == ms[k].id)
      && WithoutId(r, row.id) == WithoutId(ms, row.id)
  {
    var r := ReplaceById(ms, row.id, row);
    UpdateKeepsOthers(ms, r, row.id, row);
  }

  lemma {:induction false} UpdateKeepsOthers(ms: seq<Medicine>, r: seq<Medicine>, id: string, row: Medicine)
    requires row.id == id && |r| == |ms|
    requires forall k :: 0 <= k < |ms| ==> r[k] == if ms[k].id == id then row else ms[k]
    ensures WithoutId(r, id) == WithoutId(ms, id)
    decreases |ms|
  {
    if ms != [] {
      UpdateKeepsOthers(ms[1..], r[1..], id, row);
    }
  }

  /** Deleting the id of a just-inserted medicine removes it again, with any older row of that id. */
  lemma InsertThenDelete(ms: seq<Medicine>, row: Medicine)
    ensures WithoutId([row] + ms, row.id) == WithoutId(ms, row.id)
  {
    assert ([row] + ms)[1..] == ms;
  }

  /** The activity-log row `createActivityLog` inserts for a signed-in user. */
  datatype LogEntry = LogEntry(userId: string, action: string, entityType: string, entityId: string, description: string)

  /** The log entry of a change to a medicine; `verb` is "Deleted", "Updated" or "Added". */
  function MedicineLog(userId: string, action: string, verb: string, m: Medicine): (r: LogEntry)
    ensures r.entityType == "medicine" && r.entityId == m.id && r.userId == userId && r.action == action
    ensures r.description == verb + " " + m.name
  {
    LogEntry(userId, action, "medicine", m.id, verb + " " + m.name)
  }

  /** The backend's answer to a write: the stored row, or an error with its message. */
  datatype Reply = Saved(row: Medicine) | Failed(message: string)

  /** The inventory page's state: its list of medicines, the search box and the error banner. */
  class InventoryPage {
    var medicines: seq<Medicine>
    var searchQuery: string
    var error: Option<string>

    /** `useState(initialMedicines)`, an empty search and no error. */
    constructor (initial: seq<Medicine>)
      ensures medicines == initial && searchQuery == "" && error == None
    {
      medicines := initial;
      searchQuery := "";
      error := None;
    }

    /** The rows the table shows. */
    function Visible(): (r: seq<Medicine>)
      reads this
      ensures r == Search(medicines, searchQuery)
      ensures IsSubsequence(r, medicines)
    {
      Search(medicines, searchQuery)
    }

    /** The search box's `onChange`. */
    method SetSearchQuery(query: string)
      modifies this
      ensures searchQuery == query
      ensures medicines == old(medicines) && error == old(error)
    {
      searchQuery := query;
    }

    /**
     * `handleDeleteConfirm`: nothing without a medicine to delete; after the
     * backend deletes it, every row with its id leaves the list; after an error
     * the list stays and the error is shown.
     */
    method ConfirmDelete(target: Option<Medicine>, failure: Option<string>, userId: Option<string>)
      returns (log: Option<LogEntry>)
      modifies this
      ensures searchQuery == old(searchQuery)
      ensures target.None? ==> medicines == old(medicines) && error == old(error)
      ensures target.Some? && failure.None? ==>
        medicines == WithoutId(old(medicines), target.value.id) && error == old(error)
      ensures target.Some? && failure.Some? ==>
        medicines == old(medicines) && error == Some(OrElse(failure.value, "An error occurred"))
      ensures log.Some? <==> target.Some? && failure.None? && userId.Some?
      ensures log.Some? ==> log.value == MedicineLog(userId.value, "delete", "Deleted", target.value)
    {
      log := None;
      if target.None? {
        return;
      }
      if failure.Some? {
        error := Some(OrElse(failure.value, "An error occurred"));
      } else {
        medicines := WithoutId(medicines, target.value.id);
        if userId.Some? {
          log := Some(MedicineLog(userId.value, "delete", "Deleted", target.value));
        }
      }
    }

    /**
     * `handleSubmit` once the backend has answered: the error is cleared first;
     * without a signed-in user the submit fails; a saved row replaces the
     * edited medicine, or goes to the front of the list when it is new.
     */
    method Submit(editing: Option<Medicine>, userId: Option<string>, reply: Reply)
      returns (log: Option<LogEntry>)
      modifies this
      ensures searchQuery == old(searchQuery)
      ensures userId.None? ==> medicines == old(medicines) && error == Some("User not authenticated")
      ensures userId.Some? && reply.Failed? ==>
        medicines == old(medicines) && error == Some(OrElse(reply.message, "An error occurred"))
      ensures userId.Some? && reply.Saved? ==> error == None
      ensures userId.Some? && reply.Saved? && editing.Some? ==>
        medicines == ReplaceById(old(medicines), editing.value.id, reply.row)
      ensures userId.Some? && reply.Saved? && editing.None? ==>
        medicines == [reply.row] + old(medicines)
      ensures log.Some? <==> userId.Some? && reply.Saved?
      ensures log.Some? && editing.Some? ==> log.value == MedicineLog(userId.value, "update", "Updated", reply.row)
      ensures log.Some? && editing.None? ==> log.value == MedicineLog(userId.value, "create", "Added", reply.row)
    {
      log := None;
      error := None;
      if userId.None? {
        error := Some("User not authenticated");
        return;
      }
      match reply
      case Failed(message) =>
        error := Some(OrElse(message, "An error occurred"));
      case Saved(row) =>
        if editing.Some? {
          medicines := ReplaceById(medicines, editing.value.id, row);
          log := Some(MedicineLog(userId.value, "update", "Updated", row));
        } else {
          medicines := [row] + medicines;
          log := Some(MedicineLog(userId.value, "create", "Added", row));
        }
    }
  }

  /** The example of four records: no expiry and low stock, expiring in 20 days, in 40 days, and yesterday. */
  lemma FourRecordScenario(now: Instant, base: Medicine)
    ensures StatusOf(base.(quantity := 5, lowStockThreshold := 10, expiryDate := None), now) == LowStock
    ensures StatusOf(base.(quantity := 50, lowStockThreshold := 10, expiryDate := Some(now + 20 * MsPerDay)), now) == ExpiringSoon
    ensures StatusOf(base.(quantity := 50, lowStockThreshold := 10, expiryDate := Some(now + 40 * MsPerDay)), now) == InStock
    ensures StatusOf(base.(quantity := 50, lowStockThreshold := 10, expiryDate := Some(now - MsPerDay)), now) == Expired
  {
  }
}
