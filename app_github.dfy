/**
 * The inventory form's load, save, backup and export routines: loading the
 * published snapshot into the form, the legacy local save under
 * `inventoryData`, the full backup under `inventory-backup` with its restore,
 * and the records of the JSON export.
 */
module GitHubApp {
  import opened Js
  import opened Strings
  import opened Storage
  import opened Form

  /** The window hooks the routines call when they are defined; each call is counted. */
  class Hooks {
    const hasCalculateTotals: bool
    const hasLoadSavedImages: bool
    var totalsCalls: nat
    var imageReloads: nat

    constructor (hasCalculateTotals: bool, hasLoadSavedImages: bool)
      ensures this.hasCalculateTotals == hasCalculateTotals && this.hasLoadSavedImages == hasLoadSavedImages
      ensures totalsCalls == 0 && imageReloads == 0
    {
      this.hasCalculateTotals := hasCalculateTotals;
      this.hasLoadSavedImages := hasLoadSavedImages;
      totalsCalls := 0;
      imageReloads := 0;
    }

    /** `if (window.calculateTotals) window.calculateTotals()` */
    method CalculateTotals()
      modifies this
      ensures totalsCalls == old(totalsCalls) + (if hasCalculateTotals then 1 else 0)
      ensures imageReloads == old(imageReloads)
    {
      if hasCalculateTotals {
        totalsCalls := totalsCalls + 1;
      }
    }

    /** `if (window.loadSavedImages) window.loadSavedImages()` */
    method LoadSavedImages()
      modifies this
      ensures imageReloads == old(imageReloads) + (if hasLoadSavedImages then 1 else 0)
      ensures totalsCalls == old(totalsCalls)
    {
      if hasLoadSavedImages {
        imageReloads := imageReloads + 1;
      }
    }
  }

  /** The text a form field holds after `field.value = v`: null clears it, anything else is String(v). */
  function DomText(v: Value, host: Host): string {
    if v == Null then "" else ToText(v, host)
  }

  /** The outcome of reading a JSON text from the store. */
  datatype Stored<T> = NothingStored | Unreadable | Decoded(value: T)

  /** `getItem(key)`, the falsy test, then `JSON.parse`. */
  function Decode<T>(stored: Option<string>, codec: Codec<T>): (r: Stored<T>)
    ensures r.NothingStored? <==> Present(stored).None?
    ensures r.Decoded? ==> Present(stored).Some? && codec.decode(Present(stored).value) == Some(r.value)
  {
    match Present(stored)
    case None => NothingStored
    case Some(s) =>
      match codec.decode(s)
      case None => Unreadable
      case Some(v) => Decoded(v)
  }

  /** Every price input holding String(parseFloat(value) || 0), every other field as it was. */
  function Coerced(rows: seq<Row>, host: Host): (r: seq<Row>)
    ensures |r| == |rows|
  {
    seq(|rows|, k requires 0 <= k < |rows| =>
      WithPrice(rows[k], host.numberText(NumberOrZero(FieldValue(rows[k].priceInput), host))))
  }

  // ---------------------------------------------------------------------------
  // applyLoadedData and the remote load

  /** An element of a loaded `inventory` array: its `ref`, `price` and `note` properties. */
  datatype Item = Item(ref: Value, price: Value, note: Value)

  /** What one item writes: `price || 0` into the price input, `note || ''` into the textarea. */
  function ItemUpdate(item: Item, host: Host): (u: Update)
    ensures u.ref == ToText(item.ref, host)
    ensures u.price == if Falsy(item.price) then NumberText(Finite(0.0), host) else ToText(item.price, host)
    ensures u.note == if Falsy(item.note) then "" else ToText(item.note, host)
  {
    Update(ToText(item.ref, host), DomText(Or(item.price, Zero), host), DomText(Or(item.note, Empty), host))
  }

  function ItemUpdates(items: seq<Item>, host: Host): (us: seq<Update>)
    ensures |us| == |items|
  {
    seq(|items|, k requires 0 <= k < |items| => ItemUpdate(items[k], host))
  }

  /** How many of the updates find a price input (and so call the totals hook). */
  function PricedCount(rows: seq<Row>, us: seq<Update>): (n: nat)
    ensures n <= |us|
  {
    if |us| == 0 then 0
    else PricedCount(rows, us[..|us| - 1]) + (if PriceIndex(rows, us[|us| - 1].ref).Some? then 1 else 0)
  }

  lemma PricedCountStep(rows: seq<Row>, us: seq<Update>, i: nat)
    requires i < |us|
    ensures PricedCount(rows, us[..i + 1]) == PricedCount(rows, us[..i]) + (if PriceIndex(rows, us[i].ref).Some? then 1 else 0)
  {
    PrefixOfPrefix(us, i + 1, i);
  }

  /** Every update finds a price input exactly when the count is the number of updates. */
  lemma {:induction false} PricedCountAll(rows: seq<Row>, us: seq<Update>)
    ensures PricedCount(rows, us) == |us| <==> forall k :: 0 <= k < |us| ==> PriceIndex(rows, us[k].ref).Some?
  {
    if |us| > 0 {
      var init := us[..|us| - 1];
      PricedCountAll(rows, init);
      assert forall k :: 0 <= k < |init| ==> init[k] == us[k];
    }
  }

  /** The body of applyLoadedData's loop: both fields of one item, the totals hook after a price. */
  method ApplyItem(page: Page, hooks: Hooks, u: Update)
    modifies page, hooks
    ensures page.rows == ApplyUpdate(old(page.rows), u)
    ensures hooks.totalsCalls == old(hooks.totalsCalls) +
      (if hooks.hasCalculateTotals && PriceIndex(old(page.rows), u.ref).Some? then 1 else 0)
    ensures hooks.imageReloads == old(hooks.imageReloads)
  {
    var found := AssignPrice(page, u.ref, u.price);
    if found {
      hooks.CalculateTotals();
    }
    AssignNote(page, u.ref, u.note);
  }

  /**
   * applyLoadedData(inventory): nothing happens unless `inventory` is an array;
   * otherwise each item's price and note go into the fields of its `ref`, the
   * totals hook runs after every price that found an input and once at the end.
   */
  method ApplyLoadedData(page: Page, hooks: Hooks, inventory: Option<seq<Item>>, host: Host)
    modifies page, hooks
    ensures inventory.None? ==> page.rows == old(page.rows) && hooks.totalsCalls == old(hooks.totalsCalls)
    ensures inventory.Some? ==> page.rows == ApplyUpdates(old(page.rows), ItemUpdates(inventory.value, host))
    ensures inventory.Some? ==>
      hooks.totalsCalls == old(hooks.totalsCalls) +
        (if hooks.hasCalculateTotals then PricedCount(old(page.rows), ItemUpdates(inventory.value, host)) + 1 else 0)
    ensures hooks.imageReloads == old(hooks.imageReloads)
  {
    if inventory.None? {
      return;
    }
    ApplyItems(page, hooks, ItemUpdates(inventory.value, host));
    hooks.CalculateTotals();
  }

  /** A `forEach` that writes each update's price and note into the form, calling no hook. */
  method AssignAll(page: Page, us: seq<Update>)
    modifies page
    ensures page.rows == ApplyUpdates(old(page.rows), us)
  {
    var i := 0;
    while i < |us|
      invariant 0 <= i <= |us|
      invariant page.rows == ApplyUpdates(old(page.rows), us[..i])
    {
      ApplyUpdatesStep(old(page.rows), us, i);
      var _ := AssignPrice(page, us[i].ref, us[i].price);
      AssignNote(page, us[i].ref, us[i].note);
      i := i + 1;
    }
    assert us[..i] == us;
  }

  /** The `forEach` of applyLoadedData. */
  method ApplyItems(page: Page, hooks: Hooks, us: seq<Update>)
    modifies page, hooks
    ensures page.rows == ApplyUpdates(old(page.rows), us)
    ensures hooks.totalsCalls == old(hooks.totalsCalls) + (if hooks.hasCalculateTotals then PricedCount(old(page.rows), us) else 0)
    ensures hooks.imageReloads == old(hooks.imageReloads)
  {
    var i := 0;
    while i < |us|
      invariant 0 <= i <= |us|
      invariant page.rows == ApplyUpdates(old(page.rows), us[..i])
      invariant hooks.totalsCalls == old(hooks.totalsCalls) + (if hooks.hasCalculateTotals then PricedCount(old(page.rows), us[..i]) else 0)
      invariant hooks.imageReloads == old(hooks.imageReloads)
    {
      ApplyUpdatesStep(old(page.rows), us, i);
      PricedCountStep(old(page.rows), us, i);
      SameLookups(page.rows, old(page.rows), us[i].ref);
      ApplyItem(page, hooks, us[i]);
      i := i + 1;
    }
    assert us[..i] == us;
  }

  /**
   * The fetch response: its status and what reading `.inventory` off the
   * result of `json()` gives. `body` is None when `json()` rejected or resolved
   * to null, where reading the property throws. Otherwise it is Some of the
   * `inventory` array, or Some(None) when that property is missing or not an
   * array, as it is for every primitive or array body.
   */
  datatype Response = Response(ok: bool, status: int, body: Option<Option<seq<Item>>>)

  datatype RemoteOutcome = Loaded | HttpError(status: int) | Failed

  /**
   * loadInventoryFromGitHub once the fetch has settled. A non-ok status, or a
   * body whose `json()` rejects or resolves to null, changes nothing. Otherwise
   * the body's `inventory` is applied, and reported as loaded even when it is
   * not an array.
   */
  method LoadInventoryFromRemote(page: Page, hooks: Hooks, response: Response, host: Host)
    returns (outcome: RemoteOutcome)
    modifies page, hooks
    ensures !response.ok ==> outcome == HttpError(response.status)
    ensures response.ok && response.body.None? ==> outcome == Failed
    ensures outcome != Loaded ==> page.rows == old(page.rows)
    ensures response.ok && response.body.Some? ==> outcome == Loaded
    ensures outcome == Loaded && response.body.value.Some? ==>
      page.rows == ApplyUpdates(old(page.rows), ItemUpdates(response.body.value.value, host))
    ensures outcome == Loaded && response.body.value.None? ==> page.rows == old(page.rows)
    ensures hooks.totalsCalls == old(hooks.totalsCalls) +
      (if outcome == Loaded && response.body.value.Some? && hooks.hasCalculateTotals
       then PricedCount(old(page.rows), ItemUpdates(response.body.value.value, host)) + 1 else 0)
    ensures hooks.imageReloads == old(hooks.imageReloads)
  {
    if !response.ok {
      return HttpError(response.status);
    }
    if response.body.None? {
      return Failed;
    }
    ApplyLoadedData(page, hooks, response.body.value, host);
    outcome := Loaded;
  }

  // ---------------------------------------------------------------------------
  // saveToLocalStorage / loadFromLocalStorage: the `inventoryData` object

  /** One entry of the `inventoryData` object. */
  datatype Saved = Saved(price: Value, note: Value)

  /** What saveToLocalStorage records of a row. */
  function SavedOf(row: Row, host: Host): Saved {
    Saved(Num(Finite(NumberOrZero(FieldValue(row.priceInput), host))), Str(FieldValue(row.noteArea).GetOr("")))
  }

  /** Does the row have a reference cell whose trimmed text is `key`? */
  predicate KeyedBy(row: Row, key: string) {
    row.refCell.Some? && RowKey(row) == key
  }

  /** The object saveToLocalStorage builds: trimmed reference to saved entry, for every row with a reference cell. */
  function LegacySnapshot(rows: seq<Row>, host: Host): Obj<Saved> {
    if |rows| == 0 then []
    else
      var o := LegacySnapshot(rows[..|rows| - 1], host);
      var row := rows[|rows| - 1];
      if row.refCell.Some? then Put(o, RowKey(row), SavedOf(row, host)) else o
  }

  /** The last row keyed by `key`. */
  function LastKeyed(rows: seq<Row>, key: string): (k: Option<nat>)
    ensures k.Some? ==> k.value < |rows| && KeyedBy(rows[k.value], key)
    ensures k.Some? ==> forall j :: k.value < j < |rows| ==> !KeyedBy(rows[j], key)
    ensures k.None? ==> forall j :: 0 <= j < |rows| ==> !KeyedBy(rows[j], key)
  {
    if |rows| == 0 then None
    else if KeyedBy(rows[|rows| - 1], key) then Some(|rows| - 1)
    else LastKeyed(rows[..|rows| - 1], key)
  }

  /** Each reference is saved with the entry of the last row that carries it; others are not saved. */
  lemma {:induction false} LegacySnapshotGet(rows: seq<Row>, host: Host, key: string)
    ensures Get(LegacySnapshot(rows, host), key) ==
      match LastKeyed(rows, key)
      case None => None
      case Some(k) => Some(SavedOf(rows[k], host))
  {
    if |rows| > 0 {
      var init := rows[..|rows| - 1];
      LegacySnapshotGet(init, host, key);
      assert forall j :: 0 <= j < |init| ==> init[j] == rows[j];
      var row := rows[|rows| - 1];
      if row.refCell.Some? {
        PutGet(LegacySnapshot(init, host), RowKey(row), SavedOf(row, host), key);
      }
    }
  }

  /** Builds the `inventoryData` object row by row. */
  method CollectLegacySnapshot(page: Page, host: Host) returns (localData: Obj<Saved>)
    ensures localData == LegacySnapshot(page.rows, host)
  {
    localData := [];
    var i := 0;
    while i < |page.rows|
      invariant 0 <= i <= |page.rows|
      invariant localData == LegacySnapshot(page.rows[..i], host)
    {
      PrefixOfPrefix(page.rows, i + 1, i);
      var row := page.rows[i];
      if row.refCell.Some? {
        localData := Put(localData, RowKey(row), SavedOf(row, host));
      }
      i := i + 1;
    }
    assert page.rows[..i] == page.rows;
  }

  /** saveToLocalStorage: the snapshot's JSON under `inventoryData`; a failed write changes nothing. */
  method SaveToLocalStorage(page: Page, storage: LocalStorage, codec: Codec<Obj<Saved>>, host: Host)
    returns (ok: bool)
    modifies storage
    ensures ok == !old(storage.rejectsWrites) && storage.rejectsWrites == old(storage.rejectsWrites)
    ensures storage.items ==
      if ok then old(storage.items)[LegacyKey := codec.encode(LegacySnapshot(page.rows, host))]
      else old(storage.items)
  {
    var localData := CollectLegacySnapshot(page, host);
    ok := storage.SetItem(LegacyKey, codec.encode(localData));
  }

  /** What loadFromLocalStorage writes for each saved reference, with no defaults. */
  function LegacyUpdates(o: Obj<Saved>, host: Host): (us: seq<Update>)
    ensures |us| == |o|
  {
    seq(|o|, k requires 0 <= k < |o| => Update(o[k].0, DomText(o[k].1.price, host), DomText(o[k].1.note, host)))
  }

  /**
   * loadFromLocalStorage: nothing changes when `inventoryData` is absent or does
   * not parse; otherwise each saved reference's price and note go into its
   * fields, and the totals hook runs once.
   */
  method LoadFromLocalStorage(page: Page, hooks: Hooks, storage: LocalStorage, codec: Codec<Obj<Saved>>, host: Host)
    returns (outcome: Stored<Obj<Saved>>)
    modifies page, hooks
    ensures outcome == Decode(storage.GetItem(LegacyKey), codec)
    ensures !outcome.Decoded? ==> page.rows == old(page.rows) && hooks.totalsCalls == old(hooks.totalsCalls)
    ensures outcome.Decoded? ==> page.rows == ApplyUpdates(old(page.rows), LegacyUpdates(outcome.value, host))
    ensures outcome.Decoded? ==> hooks.totalsCalls == old(hooks.totalsCalls) + (if hooks.hasCalculateTotals then 1 else 0)
    ensures hooks.imageReloads == old(hooks.imageReloads)
  {
    outcome := Decode(storage.GetItem(LegacyKey), codec);
    if !outcome.Decoded? {
      return;
    }
    AssignAll(page, LegacyUpdates(outcome.value, host));
    hooks.CalculateTotals();
  }

  /** Every row's reference paired with what is saved of it, in row order. */
  function KeyedEntries(rows: seq<Row>, host: Host): (o: Obj<Saved>)
    ensures |o| == |rows|
  {
    seq(|rows|, k requires 0 <= k < |rows| => (RowKey(rows[k]), SavedOf(rows[k], host)))
  }

  /** In a well-formed form the snapshot lists every row once, in row order. */
  lemma {:induction false} LegacySnapshotRows(rows: seq<Row>, host: Host)
    requires WellFormed(rows)
    ensures LegacySnapshot(rows, host) == KeyedEntries(rows, host)
  {
    if |rows| > 0 {
      var init := rows[..|rows| - 1];
      WellFormedInit(rows);
      LegacySnapshotRows(init, host);
      FreshLegacyKey(rows, host);
      LegacySnapshotSnoc(rows, host);
      KeyedEntriesSnoc(rows, host);
    }
  }

  /** Dropping the last row of a well-formed form leaves a well-formed form. */
  lemma WellFormedInit(rows: seq<Row>)
    requires WellFormed(rows) && |rows| > 0
    ensures WellFormed(rows[..|rows| - 1])
  {
    var init := rows[..|rows| - 1];
    assert forall k :: 0 <= k < |init| ==> init[k] == rows[k];
  }

  /** In a well-formed form the last row's reference is not among the earlier rows' keys. */
  lemma FreshLegacyKey(rows: seq<Row>, host: Host)
    requires WellFormed(rows) && |rows| > 0
    ensures rows[|rows| - 1].refCell.Some?
    ensures RowKey(rows[|rows| - 1]) !in Keys(KeyedEntries(rows[..|rows| - 1], host))
  {
    var init := rows[..|rows| - 1];
    var o := KeyedEntries(init, host);
    var key := RowKey(rows[|rows| - 1]);
    forall j | 0 <= j < |o| ensures Keys(o)[j] != key {
      assert init[j] == rows[j];
    }
  }

  /** A last row with a fresh reference adds its entry at the end of the snapshot. */
  lemma LegacySnapshotSnoc(rows: seq<Row>, host: Host)
    requires |rows| > 0 && rows[|rows| - 1].refCell.Some?
    requires RowKey(rows[|rows| - 1]) !in Keys(LegacySnapshot(rows[..|rows| - 1], host))
    ensures LegacySnapshot(rows, host)
            == LegacySnapshot(rows[..|rows| - 1], host) + [(RowKey(rows[|rows| - 1]), SavedOf(rows[|rows| - 1], host))]
  {
  }

  lemma KeyedEntriesSnoc(rows: seq<Row>, host: Host)
    requires |rows| > 0
    ensures KeyedEntries(rows, host)
            == KeyedEntries(rows[..|rows| - 1], host) + [(RowKey(rows[|rows| - 1]), SavedOf(rows[|rows| - 1], host))]
  {
  }

  /**
   * Saving then loading the legacy snapshot leaves every note as it was and
   * every price as the text of its coerced number.
   */
  lemma SaveThenLoadLegacy(rows: seq<Row>, codec: Codec<Obj<Saved>>, host: Host)
    requires WellFormed(rows) && RoundTrips(codec, LegacySnapshot(rows, host))
    ensures Decode(Some(codec.encode(LegacySnapshot(rows, host))), codec) == Decoded(LegacySnapshot(rows, host))
    ensures ApplyUpdates(rows, LegacyUpdates(LegacySnapshot(rows, host), host)) == Coerced(rows, host)
  {
    LegacySnapshotRows(rows, host);
    var us := LegacyUpdates(KeyedEntries(rows, host), host);
    forall k | 0 <= k < |rows|
      ensures us[k].ref == RowKey(rows[k]) && Some(us[k].note) == FieldValue(rows[k].noteArea)
      ensures us[k].price == host.numberText(NumberOrZero(FieldValue(rows[k].priceInput), host))
    {
      LegacyUpdateAt(rows, host, k);
    }
    ApplyOwnUpdates(rows, us);
  }

  /** What the load writes for row `k` of a saved well-formed form: its reference, coerced price and note. */
  lemma LegacyUpdateAt(rows: seq<Row>, host: Host, k: nat)
    requires WellFormed(rows) && k < |rows|
    ensures var u := LegacyUpdates(KeyedEntries(rows, host), host)[k];
      && u.ref == RowKey(rows[k]) && Some(u.note) == FieldValue(rows[k].noteArea)
      && u.price == host.numberText(NumberOrZero(FieldValue(rows[k].priceInput), host))
  {
  }

  // ---------------------------------------------------------------------------
  // saveInventoryToLocalStorage / restoreInventoryFromLocalStorage: `inventory-backup`

  /** One entry of the `inventory-backup` object. */
  datatype BackupItem = BackupItem(price: Value, note: Value, image: Value, timestamp: Value)

  /** The image stored for `ref`, or null. */
  function StoredImage(items: map<string, string>, ref: string): Value {
    match Present(if ImageKey(ref) in items then Some(items[ImageKey(ref)]) else None)
    case None => Null
    case Some(s) => Str(s)
  }

  /** What the backup records for the price input of row `k`, read at time `clock(k)`. */
  function BackupOf(rows: seq<Row>, k: nat, items: map<string, string>, clock: nat -> string, host: Host): BackupItem
    requires k < |rows| && rows[k].priceInput.Some?
  {
    var ref := rows[k].priceInput.value.dataRef;
    BackupItem(Num(Finite(NumberOrZero(FieldValue(rows[k].priceInput), host))),
               Str(NoteOf(rows, ref).GetOr("")),
               StoredImage(items, ref),
               Str(clock(k)))
  }

  /** The backup object after the first `n` rows: one entry per `data-ref` input, keyed by that attribute. */
  function BackupPrefix(rows: seq<Row>, n: nat, items: map<string, string>, clock: nat -> string, host: Host): Obj<BackupItem>
    requires n <= |rows|
  {
    if n == 0 then []
    else
      var o := BackupPrefix(rows, n - 1, items, clock, host);
      match rows[n - 1].priceInput
      case None => o
      case Some(input) => Put(o, input.dataRef, BackupOf(rows, n - 1, items, clock, host))
  }

  function BackupSnapshot(rows: seq<Row>, items: map<string, string>, clock: nat -> string, host: Host): Obj<BackupItem> {
    BackupPrefix(rows, |rows|, items, clock, host)
  }

  /** Builds the `inventory-backup` object input by input. */
  method CollectBackup(page: Page, storage: LocalStorage, clock: nat -> string, host: Host)
    returns (inventory: Obj<BackupItem>)
    ensures inventory == BackupSnapshot(page.rows, storage.items, clock, host)
  {
    inventory := [];
    var i := 0;
    while i < |page.rows|
      invariant 0 <= i <= |page.rows|
      invariant inventory == BackupPrefix(page.rows, i, storage.items, clock, host)
    {
      if page.rows[i].priceInput.Some? {
        var ref := page.rows[i].priceInput.value.dataRef;
        var noteValue := NoteOf(page.rows, ref).GetOr("");
        var imageSrc := Present(storage.GetItem(ImageKey(ref)));
        var image := if imageSrc.Some? then Str(imageSrc.value) else Null;
        var item := BackupItem(Num(Finite(NumberOrZero(FieldValue(page.rows[i].priceInput), host))),
                               Str(noteValue), image, Str(clock(i)));
        BackupPrefixPut(page.rows, i, storage.items, clock, host, item);
        inventory := Put(inventory, ref, item);
      }
      i := i + 1;
    }
  }

  /** Row `n`'s input, read as `item`, goes into the backup under its `data-ref`. */
  lemma BackupPrefixPut(rows: seq<Row>, n: nat, items: map<string, string>, clock: nat -> string, host: Host, item: BackupItem)
    requires n < |rows| && rows[n].priceInput.Some?
    requires var ref := rows[n].priceInput.value.dataRef;
      var imageSrc := Present(if ImageKey(ref) in items then Some(items[ImageKey(ref)]) else None);
      item == BackupItem(Num(Finite(NumberOrZero(FieldValue(rows[n].priceInput), host))),
                         Str(NoteOf(rows, ref).GetOr("")), if imageSrc.Some? then Str(imageSrc.value) else Null, Str(clock(n)))
    ensures BackupPrefix(rows, n + 1, items, clock, host)
            == Put(BackupPrefix(rows, n, items, clock, host), rows[n].priceInput.value.dataRef, item)
  {
  }

  /** saveInventoryToLocalStorage: the backup's JSON under `inventory-backup`; a failed write changes nothing. */
  method SaveInventoryToLocalStorage(page: Page, storage: LocalStorage, codec: Codec<Obj<BackupItem>>,
                                     clock: nat -> string, host: Host)
    returns (ok: bool)
    modifies storage
    ensures ok == !old(storage.rejectsWrites) && storage.rejectsWrites == old(storage.rejectsWrites)
    ensures storage.items ==
      if ok then old(storage.items)[BackupKey := codec.encode(BackupSnapshot(page.rows, old(storage.items), clock, host))]
      else old(storage.items)
  {
    var inventory := CollectBackup(page, storage, clock, host);
    ok := storage.SetItem(BackupKey, codec.encode(inventory));
  }

  /** The price and note of each backed-up reference, as the legacy object would hold them. */
  function SavedParts(o: Obj<BackupItem>): (p: Obj<Saved>)
    ensures |p| == |o|
  {
    seq(|o|, k requires 0 <= k < |o| => (o[k].0, Saved(o[k].1.price, o[k].1.note)))
  }

  /** What the restore writes into the form for each backed-up reference: the same writes as loadFromLocalStorage. */
  function BackupUpdates(o: Obj<BackupItem>, host: Host): (us: seq<Update>)
    ensures |us| == |o|
  {
    LegacyUpdates(SavedParts(o), host)
  }

  function ImageFlags(o: Obj<BackupItem>): seq<bool> {
    seq(|o|, k requires 0 <= k < |o| => !Falsy(o[k].1.image))
  }

  /** The first entry with a truthy image: the first image write. */
  function FirstImage(o: Obj<BackupItem>): Option<nat> {
    FindFirst(ImageFlags(o), true)
  }

  /** The store after the restore's image writes: `image-<ref>` for every truthy image, in order. */
  function WithImages(m: map<string, string>, o: Obj<BackupItem>, host: Host): map<string, string> {
    if |o| == 0 then m
    else
      var m' := WithImages(m, o[..|o| - 1], host);
      var (ref, item) := o[|o| - 1];
      if Falsy(item.image) then m' else m'[ImageKey(ref) := ToText(item.image, host)]
  }

  /**
   * The number of entries whose fields the restore writes: all of them, unless a
   * rejected image write stops it after the first entry with an image.
   */
  function Processed(o: Obj<BackupItem>, rejects: bool): (n: nat)
    ensures n <= |o|
  {
    if rejects && FirstImage(o).Some? then FirstImage(o).value + 1 else |o|
  }

  /** The body of the restore's `forEach`: price, note, then the image when it is truthy. */
  method RestoreEntry(page: Page, storage: LocalStorage, ref: string, item: BackupItem, host: Host)
    returns (ok: bool)
    modifies page, storage
    ensures page.rows == ApplyUpdate(old(page.rows), Update(ref, DomText(item.price, host), DomText(item.note, host)))
    ensures storage.rejectsWrites == old(storage.rejectsWrites)
    ensures ok == (Falsy(item.image) || !storage.rejectsWrites)
    ensures storage.items ==
      if !Falsy(item.image) && ok then old(storage.items)[ImageKey(ref) := ToText(item.image, host)]
      else old(storage.items)
  {
    var _ := AssignPrice(page, ref, DomText(item.price, host));
    AssignNote(page, ref, DomText(item.note, host));
    ok := true;
    if !Falsy(item.image) {
      ok := storage.SetItem(ImageKey(ref), ToText(item.image, host));
    }
  }

  /**
   * The state after the restore has handled the first `i` entries without a
   * rejected write: their fields written, their truthy images stored (and, when
   * writes are rejected, none of them had one).
   */
  predicate RestoredUpTo(rows0: seq<Row>, rows: seq<Row>, items0: map<string, string>, items: map<string, string>,
                         rejects: bool, o: Obj<BackupItem>, host: Host, i: nat)
    requires i <= |o|
  {
    && rows == ApplyUpdates(rows0, BackupUpdates(o, host)[..i])
    && items == (if rejects then items0 else WithImages(items0, o[..i], host))
    && (rejects ==> forall j :: 0 <= j < i ==> !ImageFlags(o)[j])
  }

  /** What the restore writes into the form for entry `i`, as `RestoreEntry` states it. */
  lemma RestoreUpdateAt(o: Obj<BackupItem>, host: Host, i: nat)
    requires i < |o|
    ensures BackupUpdates(o, host)[i] == Update(o[i].0, DomText(o[i].1.price, host), DomText(o[i].1.note, host))
  {
  }

  /** A rejected write of entry `i`'s image ends the restore: it is the first image, and the last entry processed. */
  lemma RestoreStepStops(rows0: seq<Row>, rows: seq<Row>, items0: map<string, string>, items: map<string, string>,
                         rejects: bool, o: Obj<BackupItem>, host: Host, i: nat)
    requires i < |o| && RestoredUpTo(rows0, rows, items0, items, rejects, o, host, i)
    requires rejects && !Falsy(o[i].1.image)
    ensures FirstImage(o) == Some(i) && Processed(o, rejects) == i + 1
    ensures ApplyUpdate(rows, Update(o[i].0, DomText(o[i].1.price, host), DomText(o[i].1.note, host)))
            == ApplyUpdates(rows0, BackupUpdates(o, host)[..i + 1])
  {
    ApplyUpdatesStep(rows0, BackupUpdates(o, host), i);
    RestoreUpdateAt(o, host, i);
    FindFirstIs(ImageFlags(o), true, i);
  }

  /** Otherwise handling entry `i` extends the restored prefix by that entry. */
  lemma RestoreStepContinues(rows0: seq<Row>, rows: seq<Row>, items0: map<string, string>, items: map<string, string>,
                             rejects: bool, o: Obj<BackupItem>, host: Host, i: nat)
    requires i < |o| && RestoredUpTo(rows0, rows, items0, items, rejects, o, host, i)
    requires !(rejects && !Falsy(o[i].1.image))
    ensures RestoredUpTo(rows0, ApplyUpdate(rows, Update(o[i].0, DomText(o[i].1.price, host), DomText(o[i].1.note, host))),
                         items0,
                         if !rejects && !Falsy(o[i].1.image) then items[ImageKey(o[i].0) := ToText(o[i].1.image, host)] else items,
                         rejects, o, host, i + 1)
  {
    ApplyUpdatesStep(rows0, BackupUpdates(o, host), i);
    RestoreUpdateAt(o, host, i);
    ContinuesImages(items0, items, rejects, o, host, i);
  }

  /** The image part of `RestoreStepContinues`. */
  lemma ContinuesImages(items0: map<string, string>, items: map<string, string>,
                        rejects: bool, o: Obj<BackupItem>, host: Host, i: nat)
    requires i < |o| && items == (if rejects then items0 else WithImages(items0, o[..i], host))
    requires rejects ==> forall j :: 0 <= j < i ==> !ImageFlags(o)[j]
    requires !(rejects && !Falsy(o[i].1.image))
    ensures (if !rejects && !Falsy(o[i].1.image) then items[ImageKey(o[i].0) := ToText(o[i].1.image, host)] else items)
            == (if rejects then items0 else WithImages(items0, o[..i + 1], host))
    ensures rejects ==> forall j :: 0 <= j < i + 1 ==> !ImageFlags(o)[j]
  {
    PrefixOfPrefix(o, i + 1, i);
  }

  /** Once every entry is handled, the whole backup has been restored. */
  lemma RestoreDone(rows0: seq<Row>, rows: seq<Row>, items0: map<string, string>, items: map<string, string>,
                    rejects: bool, o: Obj<BackupItem>, host: Host)
    requires RestoredUpTo(rows0, rows, items0, items, rejects, o, host, |o|)
    ensures !(rejects && FirstImage(o).Some?)
    ensures rows == ApplyUpdates(rows0, BackupUpdates(o, host)[..Processed(o, rejects)])
    ensures items == if rejects then items0 else WithImages(items0, o, host)
  {
    assert o[..|o|] == o;
    assert rejects ==> true !in ImageFlags(o);
  }

  /**
   * One turn of the restore's `forEach`: entry `i` restored on top of the first
   * `i`; false when its image write was rejected, which ends the restore.
   */
  method RestoreAt(page: Page, storage: LocalStorage, o: Obj<BackupItem>, host: Host, i: nat,
                   ghost rows0: seq<Row>, ghost items0: map<string, string>)
    returns (ok: bool)
    requires i < |o| && RestoredUpTo(rows0, page.rows, items0, storage.items, storage.rejectsWrites, o, host, i)
    modifies page, storage
    ensures storage.rejectsWrites == old(storage.rejectsWrites)
    ensures ok ==> RestoredUpTo(rows0, page.rows, items0, storage.items, storage.rejectsWrites, o, host, i + 1)
    ensures !ok ==> && storage.rejectsWrites && FirstImage(o).Some?
                    && page.rows == ApplyUpdates(rows0, BackupUpdates(o, host)[..Processed(o, storage.rejectsWrites)])
                    && storage.items == items0
  {
    if storage.rejectsWrites && !Falsy(o[i].1.image) {
      RestoreStepStops(rows0, page.rows, items0, storage.items, storage.rejectsWrites, o, host, i);
    } else {
      RestoreStepContinues(rows0, page.rows, items0, storage.items, storage.rejectsWrites, o, host, i);
    }
    ok := RestoreEntry(page, storage, o[i].0, o[i].1, host);
  }

  /**
   * The restore's `forEach` over the backup entries in order; a rejected image
   * write throws out of it, after that entry's fields were written.
   */
  method RestoreEntries(page: Page, storage: LocalStorage, o: Obj<BackupItem>, host: Host)
    returns (ok: bool)
    modifies page, storage
    ensures storage.rejectsWrites == old(storage.rejectsWrites)
    ensures ok == !(storage.rejectsWrites && FirstImage(o).Some?)
    ensures page.rows == ApplyUpdates(old(page.rows), BackupUpdates(o, host)[..Processed(o, storage.rejectsWrites)])
    ensures storage.items == if storage.rejectsWrites then old(storage.items) else WithImages(old(storage.items), o, host)
  {
    var i := 0;
    while i < |o|
      invariant 0 <= i <= |o|
      invariant storage.rejectsWrites == old(storage.rejectsWrites)
      invariant RestoredUpTo(old(page.rows), page.rows, old(storage.items), storage.items, storage.rejectsWrites, o, host, i)
    {
      ok := RestoreAt(page, storage, o, host, i, old(page.rows), old(storage.items));
      if !ok {
        return;
      }
      i := i + 1;
    }
    RestoreDone(old(page.rows), page.rows, old(storage.items), storage.items, storage.rejectsWrites, o, host);
    ok := true;
  }

  /**
   * restoreInventoryFromLocalStorage: false, with nothing changed, when the
   * backup is absent or does not parse; otherwise each entry's price and note go
   * into its fields and each truthy image is written back under `image-<ref>`.
   * A rejected image write stops it there and it answers false; else the totals
   * and image hooks run and it answers true.
   */
  method RestoreInventoryFromLocalStorage(page: Page, hooks: Hooks, storage: LocalStorage,
                                          codec: Codec<Obj<BackupItem>>, host: Host)
    returns (restored: bool)
    modifies page, hooks, storage
    ensures storage.rejectsWrites == old(storage.rejectsWrites)
    ensures !Decode(old(storage.GetItem(BackupKey)), codec).Decoded? ==>
      !restored && page.rows == old(page.rows) && storage.items == old(storage.items)
    ensures Decode(old(storage.GetItem(BackupKey)), codec).Decoded? ==>
      var o := Decode(old(storage.GetItem(BackupKey)), codec).value;
      && restored == !(storage.rejectsWrites && FirstImage(o).Some?)
      && page.rows == ApplyUpdates(old(page.rows), BackupUpdates(o, host)[..Processed(o, storage.rejectsWrites)])
      && storage.items == if storage.rejectsWrites then old(storage.items) else WithImages(old(storage.items), o, host)
    ensures hooks.totalsCalls == old(hooks.totalsCalls) + (if restored && hooks.hasCalculateTotals then 1 else 0)
    ensures hooks.imageReloads == old(hooks.imageReloads) + (if restored && hooks.hasLoadSavedImages then 1 else 0)
  {
    var outcome := Decode(storage.GetItem(BackupKey), codec);
    if !outcome.Decoded? {
      return false;
    }
    restored := RestoreEntries(page, storage, outcome.value, host);
    if restored {
      hooks.CalculateTotals();
      hooks.LoadSavedImages();
    }
  }

  /** One entry per row of a well-formed form, keyed by its reference, holding what was read from it. */
  function RowEntries(rows: seq<Row>, n: nat, items: map<string, string>, clock: nat -> string, host: Host): (o: Obj<BackupItem>)
    requires WellFormed(rows) && n <= |rows|
    ensures |o| == n
  {
    seq(n, k requires 0 <= k < n => (RowKey(rows[k]), BackupOf(rows, k, items, clock, host)))
  }

  /** In a well-formed form the backup after `n` rows is their entries, in row order. */
  lemma {:induction false} BackupPrefixEntries(rows: seq<Row>, n: nat, items: map<string, string>, clock: nat -> string, host: Host)
    requires WellFormed(rows) && n <= |rows|
    ensures BackupPrefix(rows, n, items, clock, host) == RowEntries(rows, n, items, clock, host)
  {
    if n > 0 {
      BackupPrefixEntries(rows, n - 1, items, clock, host);
      FreshKey(rows, n - 1, RowEntries(rows, n - 1, items, clock, host));
      BackupPrefixSnoc(rows, n - 1, items, clock, host);
      RowEntriesSnoc(rows, n - 1, items, clock, host);
    }
  }

  /** An input whose reference is not yet a key adds its entry at the end of the backup. */
  lemma BackupPrefixSnoc(rows: seq<Row>, n: nat, items: map<string, string>, clock: nat -> string, host: Host)
    requires n < |rows| && rows[n].priceInput.Some?
    requires rows[n].priceInput.value.dataRef !in Keys(BackupPrefix(rows, n, items, clock, host))
    ensures BackupPrefix(rows, n + 1, items, clock, host)
            == BackupPrefix(rows, n, items, clock, host) + [(rows[n].priceInput.value.dataRef, BackupOf(rows, n, items, clock, host))]
  {
  }

  lemma RowEntriesSnoc(rows: seq<Row>, n: nat, items: map<string, string>, clock: nat -> string, host: Host)
    requires WellFormed(rows) && n < |rows|
    ensures RowEntries(rows, n + 1, items, clock, host)
            == RowEntries(rows, n, items, clock, host) + [(RowKey(rows[n]), BackupOf(rows, n, items, clock, host))]
  {
  }

  /** In a well-formed form, the reference of row `n` is not among the keys of the earlier rows. */
  lemma FreshKey<T>(rows: seq<Row>, n: nat, o: Obj<T>)
    requires WellFormed(rows) && n < |rows|
    requires |o| == n && forall k :: 0 <= k < n ==> o[k].0 == RowKey(rows[k])
    ensures RowKey(rows[n]) !in Keys(o)
    ensures rows[n].priceInput.Some? && rows[n].priceInput.value.dataRef == RowKey(rows[n])
  {
    var key := RowKey(rows[n]);
    forall j | 0 <= j < |o| ensures Keys(o)[j] != key {
      assert o[j].0 == RowKey(rows[j]);
    }
  }

  /** In a well-formed form the backup lists every row's input once, in row order. */
  lemma BackupPrefixRows(rows: seq<Row>, items: map<string, string>, clock: nat -> string, host: Host)
    requires WellFormed(rows)
    ensures var o := BackupSnapshot(rows, items, clock, host);
      |o| == |rows| && forall k :: 0 <= k < |rows| ==> o[k] == (RowKey(rows[k]), BackupOf(rows, k, items, clock, host))
  {
    BackupPrefixEntries(rows, |rows|, items, clock, host);
  }

  /** No image key is the backup key: "image-…" and "inventory-backup" differ at their second character. */
  lemma ImageKeyIsNotBackupKey(ref: string)
    ensures ImageKey(ref) != BackupKey
  {
    assert ImageKey(ref)[1] == 'm' && BackupKey[1] == 'n';
  }

  /** Every entry's image is the one the store holds for its reference, or null. */
  predicate ImagesFrom(o: Obj<BackupItem>, items: map<string, string>) {
    forall k :: 0 <= k < |o| ==> o[k].1.image == StoredImage(items, o[k].0)
  }

  /** Writing back images read from `items` into a store that agrees with `items` on them changes nothing. */
  lemma {:induction false} RestoredImagesUnchanged(o: Obj<BackupItem>, items: map<string, string>, host: Host,
                                                   m: map<string, string>)
    requires ImagesFrom(o, items)
    requires forall ref :: ImageKey(ref) in items ==> ImageKey(ref) in m && m[ImageKey(ref)] == items[ImageKey(ref)]
    ensures WithImages(m, o, host) == m
  {
    if |o| > 0 {
      var init := o[..|o| - 1];
      assert ImagesFrom(init, items) by {
        forall k | 0 <= k < |init| ensures init[k] == o[k] { }
      }
      RestoredImagesUnchanged(init, items, host, m);
      var (ref, item) := o[|o| - 1];
      assert item.image == StoredImage(items, ref);
    }
  }

  /** Restoring a backup of a well-formed form changes only the prices, to their coerced text. */
  lemma BackupUpdatesCoerce(rows: seq<Row>, items: map<string, string>, clock: nat -> string, host: Host)
    requires WellFormed(rows)
    ensures ApplyUpdates(rows, BackupUpdates(BackupSnapshot(rows, items, clock, host), host)) == Coerced(rows, host)
  {
    var us := BackupUpdates(BackupSnapshot(rows, items, clock, host), host);
    BackupPrefixRows(rows, items, clock, host);
    forall k | 0 <= k < |rows|
      ensures us[k].ref == RowKey(rows[k]) && Some(us[k].note) == FieldValue(rows[k].noteArea)
      ensures us[k].price == host.numberText(NumberOrZero(FieldValue(rows[k].priceInput), host))
    {
      BackupUpdateAt(rows, k, items, clock, host);
    }
    ApplyOwnUpdates(rows, us);
  }

  /** The restore's update for row `k` of a well-formed form aims at its reference and carries its note. */
  lemma BackupUpdateAt(rows: seq<Row>, k: nat, items: map<string, string>, clock: nat -> string, host: Host)
    requires WellFormed(rows) && k < |rows|
    ensures var us := BackupUpdates(BackupSnapshot(rows, items, clock, host), host);
      && |us| == |rows| && us[k].ref == RowKey(rows[k]) && Some(us[k].note) == FieldValue(rows[k].noteArea)
      && us[k].price == host.numberText(NumberOrZero(FieldValue(rows[k].priceInput), host))
  {
    BackupPrefixEntries(rows, |rows|, items, clock, host);
    var o := RowEntries(rows, |rows|, items, clock, host);
    RestoreUpdateAt(o, host, k);
    BackupOfRow(rows, k, items, clock, host);
  }

  /** In a well-formed form the backup of a row holds its coerced price and its note. */
  lemma BackupOfRow(rows: seq<Row>, k: nat, items: map<string, string>, clock: nat -> string, host: Host)
    requires WellFormed(rows) && k < |rows|
    ensures rows[k].priceInput.Some? && rows[k].noteArea.Some?
    ensures BackupOf(rows, k, items, clock, host).price == Num(Finite(NumberOrZero(FieldValue(rows[k].priceInput), host)))
    ensures BackupOf(rows, k, items, clock, host).note == Str(rows[k].noteArea.value.value)
  {
    WellFormedLookups(rows, k);
    assert rows[k].priceInput.value.dataRef == RowKey(rows[k]);
  }

  /** Restoring the images of a backup into a store that still holds them changes nothing. */
  lemma BackupImagesUnchanged(rows: seq<Row>, items: map<string, string>, clock: nat -> string, host: Host,
                              m: map<string, string>)
    requires WellFormed(rows)
    requires forall ref :: ImageKey(ref) in items ==> ImageKey(ref) in m && m[ImageKey(ref)] == items[ImageKey(ref)]
    ensures WithImages(m, BackupSnapshot(rows, items, clock, host), host) == m
  {
    BackupPrefixRows(rows, items, clock, host);
    RestoredImagesUnchanged(BackupSnapshot(rows, items, clock, host), items, host, m);
  }

  /**
   * Backing up then restoring leaves every note as it was, every price as the
   * text of its coerced number, and writes back only the images already stored.
   */
  lemma SaveThenRestore(rows: seq<Row>, items: map<string, string>, clock: nat -> string, host: Host,
                        codec: Codec<Obj<BackupItem>>)
    requires WellFormed(rows) && RoundTrips(codec, BackupSnapshot(rows, items, clock, host))
    ensures var saved := items[BackupKey := codec.encode(BackupSnapshot(rows, items, clock, host))];
      && Decode(Some(saved[BackupKey]), codec) == Decoded(BackupSnapshot(rows, items, clock, host))
      && ApplyUpdates(rows, BackupUpdates(BackupSnapshot(rows, items, clock, host), host)) == Coerced(rows, host)
      && WithImages(saved, BackupSnapshot(rows, items, clock, host), host) == saved
  {
    var saved := items[BackupKey := codec.encode(BackupSnapshot(rows, items, clock, host))];
    forall ref | ImageKey(ref) in items ensures ImageKey(ref) in saved && saved[ImageKey(ref)] == items[ImageKey(ref)] {
      ImageKeyIsNotBackupKey(ref);
    }
    BackupImagesUnchanged(rows, items, clock, host, saved);
    BackupUpdatesCoerce(rows, items, clock, host);
  }

  // ---------------------------------------------------------------------------
  // exportInventoryToJSON

  /** One exported record. */
  datatype Record = Record(ref: string, designation: string, qty: int, price: real, note: string)

  datatype ExportData = ExportData(lastUpdated: string, version: string, company: string, inventory: seq<Record>)

  const Version := "1.0.0"
  const Company := "Solo Electronique"

  /** The record of a row: trimmed cells, `parseInt(qty) || 0`, `parseFloat(price) || 0`, `note || ''`. */
  function RecordOf(row: Row, host: Host): Record {
    Record(RowKey(row), Trim(row.designationCell.GetOr("")), IntOrZero(row.qtyCell, host),
           NumberOrZero(FieldValue(row.priceInput), host), FieldValue(row.noteArea).GetOr(""))
  }

  /** The records of the rows that have a reference cell, in row order. */
  function Records(rows: seq<Row>, host: Host): (r: seq<Record>)
    ensures |r| <= |rows|
  {
    if |rows| == 0 then []
    else
      var r := Records(rows[..|rows| - 1], host);
      var row := rows[|rows| - 1];
      if row.refCell.Some? then r + [RecordOf(row, host)] else r
  }

  /** When every row has a reference cell, the export holds one record per row, in order. */
  lemma {:induction false} RecordsOfKeyedRows(rows: seq<Row>, host: Host)
    requires forall k :: 0 <= k < |rows| ==> rows[k].refCell.Some?
    ensures Records(rows, host) == seq(|rows|, k requires 0 <= k < |rows| => RecordOf(rows[k], host))
  {
    if |rows| > 0 {
      RecordsOfKeyedRows(rows[..|rows| - 1], host);
    }
  }

  /** Builds the exported records row by row. */
  method CollectRecords(page: Page, host: Host) returns (formData: seq<Record>)
    ensures formData == Records(page.rows, host)
  {
    formData := [];
    var i := 0;
    while i < |page.rows|
      invariant 0 <= i <= |page.rows|
      invariant formData == Records(page.rows[..i], host)
    {
      PrefixOfPrefix(page.rows, i + 1, i);
      var row := page.rows[i];
      if row.refCell.Some? {
        formData := formData + [RecordOf(row, host)];
      }
      i := i + 1;
    }
    assert page.rows[..i] == page.rows;
  }

  /**
   * exportInventoryToJSON: the records wrapped with the update time, version
   * and company, handed over as `inventory-data-<date>.json`.
   */
  method ExportInventoryToJson(page: Page, sink: DownloadSink, encode: ExportData -> string,
                               lastUpdated: string, today: string, host: Host)
    modifies sink
    ensures sink.received == old(sink.received) +
      [Download(encode(ExportData(lastUpdated, Version, Company, Records(page.rows, host))),
                "inventory-data-" + BeforeChar(today, 'T') + ".json", "application/json")]
  {
    var formData := CollectRecords(page, host);
    var exportData := ExportData(lastUpdated, Version, Company, formData);
    sink.Save(encode(exportData), "inventory-data-" + BeforeChar(today, 'T') + ".json", "application/json");
  }

  /** An exported record as applyLoadedData reads it back. */
  function AsItem(rec: Record): Item {
    Item(Str(rec.ref), Num(Finite(rec.price)), Str(rec.note))
  }

  function AsItems(recs: seq<Record>): seq<Item> {
    seq(|recs|, k requires 0 <= k < |recs| => AsItem(recs[k]))
  }

  /**
   * Loading an export of a well-formed form back into it leaves every note as
   * it was and every price as the text of its coerced number.
   */
  lemma ExportThenApply(rows: seq<Row>, host: Host)
    requires WellFormed(rows)
    ensures ApplyUpdates(rows, ItemUpdates(AsItems(Records(rows, host)), host)) == Coerced(rows, host)
  {
    ExportedUpdates(rows, host);
    ApplyOwnUpdates(rows, ItemUpdates(AsItems(Records(rows, host)), host));
  }

  /** Read back, the export of a well-formed form writes each row's reference, coerced price and note. */
  lemma ExportedUpdates(rows: seq<Row>, host: Host)
    requires WellFormed(rows)
    ensures var us := ItemUpdates(AsItems(Records(rows, host)), host);
      && |us| == |rows|
      && forall k :: 0 <= k < |rows| ==>
           && us[k].ref == RowKey(rows[k]) && Some(us[k].note) == FieldValue(rows[k].noteArea)
           && us[k].price == host.numberText(NumberOrZero(FieldValue(rows[k].priceInput), host))
  {
    RecordsOfKeyedRows(rows, host);
    var recs := Records(rows, host);
    forall k | 0 <= k < |rows|
      ensures var u := ItemUpdates(AsItems(recs), host)[k];
        && u.ref == RowKey(rows[k]) && Some(u.note) == FieldValue(rows[k].noteArea)
        && u.price == host.numberText(NumberOrZero(FieldValue(rows[k].priceInput), host))
    {
      ExportedUpdateAt(rows, recs, host, k);
    }
  }

  /** Row `k`'s exported record, read back, writes its reference, its coerced price and its note. */
  lemma ExportedUpdateAt(rows: seq<Row>, recs: seq<Record>, host: Host, k: nat)
    requires WellFormed(rows) && k < |rows| && k < |recs| && recs[k] == RecordOf(rows[k], host)
    ensures var u := ItemUpdates(AsItems(recs), host)[k];
      && u.ref == RowKey(rows[k]) && Some(u.note) == FieldValue(rows[k].noteArea)
      && u.price == host.numberText(NumberOrZero(FieldValue(rows[k].priceInput), host))
  {
  }
}
