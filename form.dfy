/**
 * The inventory form as the scripts reach it: the `#dataBody` table rows, each
 * with its reference, designation and quantity cells, a number input for the
 * price and a textarea for the note. Inputs carry `data-ref="<ref>"`, textareas
 * `data-ref="<ref>-notes"`; a selector lookup finds the first element in
 * document order.
 */
module Form {
  import opened Js
  import opened Strings

  /** A form element with a `data-ref` attribute and its current value. */
  datatype Field = Field(dataRef: string, value: string)

  /** One `#dataBody tr`: the text of its first three cells, its input and its textarea. */
  datatype Row = Row(refCell: Option<string>, designationCell: Option<string>, qtyCell: Option<string>,
                     priceInput: Option<Field>, noteArea: Option<Field>)

  /** The document; its rows are updated in place by the form operations. */
  class Page {
    var rows: seq<Row>

    constructor (rows: seq<Row>)
      ensures this.rows == rows
    {
      this.rows := rows;
    }
  }

  const NotesSuffix := "-notes"

  /** The `data-ref` of the note textarea of reference `ref`. */
  function NoteRef(ref: string): string {
    ref + NotesSuffix
  }

  lemma NoteRefInjective(a: string, b: string)
    requires NoteRef(a) == NoteRef(b)
    ensures a == b
  {
    assert |a| == |b|;
    assert a == NoteRef(a)[..|a|];
    assert b == NoteRef(b)[..|b|];
  }

  function DataRef(f: Option<Field>): Option<string> {
    match f
    case None => None
    case Some(x) => Some(x.dataRef)
  }

  function FieldValue(f: Option<Field>): Option<string> {
    match f
    case None => None
    case Some(x) => Some(x.value)
  }

  function PriceRefs(rows: seq<Row>): seq<Option<string>> {
    seq(|rows|, k requires 0 <= k < |rows| => DataRef(rows[k].priceInput))
  }

  function NoteRefs(rows: seq<Row>): seq<Option<string>> {
    seq(|rows|, k requires 0 <= k < |rows| => DataRef(rows[k].noteArea))
  }

  /** The row of `querySelector('input[data-ref="<ref>"]')`. */
  function PriceIndex(rows: seq<Row>, ref: string): Option<nat> {
    FindFirst(PriceRefs(rows), Some(ref))
  }

  /** The row of `querySelector('textarea[data-ref="<ref>-notes"]')`. */
  function NoteIndex(rows: seq<Row>, ref: string): Option<nat> {
    FindFirst(NoteRefs(rows), Some(NoteRef(ref)))
  }

  /** The value of the price input of `ref`, if there is one. */
  function PriceOf(rows: seq<Row>, ref: string): Option<string> {
    match PriceIndex(rows, ref)
    case None => None
    case Some(k) => FieldValue(rows[k].priceInput)
  }

  /** The value of the note textarea of `ref`, if there is one. */
  function NoteOf(rows: seq<Row>, ref: string): Option<string> {
    match NoteIndex(rows, ref)
    case None => None
    case Some(k) => FieldValue(rows[k].noteArea)
  }

  function Blank(f: Option<Field>): Option<Field> {
    match f
    case None => None
    case Some(x) => Some(Field(x.dataRef, ""))
  }

  /** The page with every field value blanked: its cells, elements and attributes. */
  function Shape(rows: seq<Row>): seq<Row> {
    seq(|rows|, k requires 0 <= k < |rows| =>
      rows[k].(priceInput := Blank(rows[k].priceInput), noteArea := Blank(rows[k].noteArea)))
  }

  /** Pages of the same shape have the same elements, so every lookup lands on the same row. */
  lemma SameShape(a: seq<Row>, b: seq<Row>)
    requires Shape(a) == Shape(b)
    ensures |a| == |b| && PriceRefs(a) == PriceRefs(b) && NoteRefs(a) == NoteRefs(b)
    ensures forall ref :: PriceIndex(a, ref) == PriceIndex(b, ref) && NoteIndex(a, ref) == NoteIndex(b, ref)
  {
    assert |Shape(a)| == |Shape(b)|;
    forall k | 0 <= k < |a|
      ensures PriceRefs(a)[k] == PriceRefs(b)[k] && NoteRefs(a)[k] == NoteRefs(b)[k]
    {
      assert Shape(a)[k] == Shape(b)[k];
    }
  }

  lemma SameLookups(a: seq<Row>, b: seq<Row>, ref: string)
    requires Shape(a) == Shape(b)
    ensures PriceIndex(a, ref) == PriceIndex(b, ref) && NoteIndex(a, ref) == NoteIndex(b, ref)
  {
    SameShape(a, b);
  }

  /**
   * `priceInput.value = v` on the input found for `ref`: that input reads `v`,
   * every other lookup reads what it read before, no other row changes.
   */
  function SetPrice(rows: seq<Row>, ref: string, v: string): (r: seq<Row>)
    ensures Shape(r) == Shape(rows)
    ensures PriceOf(r, ref) == if PriceOf(rows, ref).Some? then Some(v) else None
    ensures forall ref' :: ref' != ref ==> PriceOf(r, ref') == PriceOf(rows, ref')
    ensures forall ref' :: NoteOf(r, ref') == NoteOf(rows, ref')
    ensures forall k :: 0 <= k < |rows| && PriceIndex(rows, ref) != Some(k) ==> r[k] == rows[k]
  {
    match PriceIndex(rows, ref)
    case None => rows
    case Some(k) =>
      var r := rows[k := rows[k].(priceInput := Some(Field(ref, v)))];
      assert Shape(r) == Shape(rows) by {
        assert forall j :: 0 <= j < |rows| ==> Shape(r)[j] == Shape(rows)[j];
      }
      SameShape(r, rows);
      r
  }

  /**
   * `noteTextarea.value = v` on the textarea found for `ref`: that textarea reads
   * `v`, every other lookup reads what it read before, no other row changes.
   */
  function SetNote(rows: seq<Row>, ref: string, v: string): (r: seq<Row>)
    ensures Shape(r) == Shape(rows)
    ensures NoteOf(r, ref) == if NoteOf(rows, ref).Some? then Some(v) else None
    ensures forall ref' :: ref' != ref ==> NoteOf(r, ref') == NoteOf(rows, ref')
    ensures forall ref' :: PriceOf(r, ref') == PriceOf(rows, ref')
    ensures forall k :: 0 <= k < |rows| && NoteIndex(rows, ref) != Some(k) ==> r[k] == rows[k]
  {
    match NoteIndex(rows, ref)
    case None => rows
    case Some(k) =>
      var r := rows[k := rows[k].(noteArea := Some(Field(NoteRef(ref), v)))];
      assert Shape(r) == Shape(rows) by {
        assert forall j :: 0 <= j < |rows| ==> Shape(r)[j] == Shape(rows)[j];
      }
      SameShape(r, rows);
      forall ref' | ref' != ref ensures NoteOf(r, ref') == NoteOf(rows, ref') {
        if NoteIndex(rows, ref') == Some(k) {
          NoteRefInjective(ref, ref');
        }
      }
      r
  }

  /**
   * Looks up the price input of `ref` and, when there is one, sets its value in
   * place; `found` tells whether there was one.
   */
  method AssignPrice(page: Page, ref: string, v: string) returns (found: bool)
    modifies page
    ensures found == PriceIndex(old(page.rows), ref).Some?
    ensures page.rows == SetPrice(old(page.rows), ref, v)
  {
    var at := PriceIndex(page.rows, ref);
    found := at.Some?;
    if at.Some? {
      var k := at.value;
      page.rows := page.rows[k := page.rows[k].(priceInput := Some(Field(ref, v)))];
    }
  }

  /** Looks up the note textarea of `ref` and, when there is one, sets its value in place. */
  method AssignNote(page: Page, ref: string, v: string)
    modifies page
    ensures page.rows == SetNote(old(page.rows), ref, v)
  {
    var at := NoteIndex(page.rows, ref);
    if at.Some? {
      var k := at.value;
      page.rows := page.rows[k := page.rows[k].(noteArea := Some(Field(NoteRef(ref), v)))];
    }
  }

  /** One loaded record's effect: its price and its note, aimed at reference `ref`. */
  datatype Update = Update(ref: string, price: string, note: string)

  function ApplyUpdate(rows: seq<Row>, u: Update): seq<Row> {
    SetNote(SetPrice(rows, u.ref, u.price), u.ref, u.note)
  }

  /** The updates applied one after another, in order. */
  function ApplyUpdates(rows: seq<Row>, us: seq<Update>): (r: seq<Row>)
    ensures Shape(r) == Shape(rows)
  {
    if |us| == 0 then rows else ApplyUpdate(ApplyUpdates(rows, us[..|us| - 1]), us[|us| - 1])
  }

  /** Applying one more update of a list applies it to the state the earlier ones left. */
  lemma ApplyUpdatesStep(rows: seq<Row>, us: seq<Update>, i: nat)
    requires i < |us|
    ensures ApplyUpdates(rows, us[..i + 1]) == ApplyUpdate(ApplyUpdates(rows, us[..i]), us[i])
  {
    PrefixOfPrefix(us, i + 1, i);
  }

  /** The last update aimed at `ref`. */
  function LastFor(us: seq<Update>, ref: string): Option<Update> {
    if |us| == 0 then None
    else if us[|us| - 1].ref == ref then Some(us[|us| - 1])
    else LastFor(us[..|us| - 1], ref)
  }

  /**
   * After a sequence of updates, the field of each reference holds the value of the
   * last update aimed at it; a reference no update names, or one without a field,
   * reads as before.
   */
  lemma {:induction false} LastUpdateWins(rows: seq<Row>, us: seq<Update>, ref: string)
    ensures PriceOf(ApplyUpdates(rows, us), ref) ==
      if PriceOf(rows, ref).Some? && LastFor(us, ref).Some? then Some(LastFor(us, ref).value.price)
      else PriceOf(rows, ref)
    ensures NoteOf(ApplyUpdates(rows, us), ref) ==
      if NoteOf(rows, ref).Some? && LastFor(us, ref).Some? then Some(LastFor(us, ref).value.note)
      else NoteOf(rows, ref)
  {
    if |us| > 0 {
      LastUpdateWins(rows, us[..|us| - 1], ref);
      ApplyUpdateReads(ApplyUpdates(rows, us[..|us| - 1]), us[|us| - 1], ref);
    }
  }

  /** One update sets the fields of its own reference, when they exist, and no others. */
  lemma ApplyUpdateReads(rows: seq<Row>, u: Update, ref: string)
    ensures PriceOf(ApplyUpdate(rows, u), ref) == if u.ref == ref && PriceOf(rows, ref).Some? then Some(u.price) else PriceOf(rows, ref)
    ensures NoteOf(ApplyUpdate(rows, u), ref) == if u.ref == ref && NoteOf(rows, ref).Some? then Some(u.note) else NoteOf(rows, ref)
  {
  }

  /** The reference of a row: its trimmed first cell. */
  function RowKey(row: Row): string {
    Trim(row.refCell.GetOr(""))
  }

  /**
   * A form as the page builds it: every row has a reference cell, a price input
   * tagged with the trimmed reference, a note textarea tagged with it plus
   * "-notes", and no reference occurs twice.
   */
  predicate WellFormed(rows: seq<Row>) {
    && (forall k :: 0 <= k < |rows| ==>
         && rows[k].refCell.Some?
         && DataRef(rows[k].priceInput) == Some(RowKey(rows[k]))
         && DataRef(rows[k].noteArea) == Some(NoteRef(RowKey(rows[k]))))
    && (forall j, k :: 0 <= j < k < |rows| ==> RowKey(rows[j]) != RowKey(rows[k]))
  }

  /** In a well-formed form the lookups for a row's reference land on that row. */
  lemma WellFormedLookups(rows: seq<Row>, k: nat)
    requires WellFormed(rows) && k < |rows|
    ensures PriceIndex(rows, RowKey(rows[k])) == Some(k)
    ensures NoteIndex(rows, RowKey(rows[k])) == Some(k)
  {
    var key := RowKey(rows[k]);
    FindFirstIs(PriceRefs(rows), Some(key), k);
    forall j | 0 <= j < k ensures NoteRefs(rows)[j] != Some(NoteRef(key)) {
      if NoteRefs(rows)[j] == Some(NoteRef(key)) {
        NoteRefInjective(RowKey(rows[j]), key);
      }
    }
    FindFirstIs(NoteRefs(rows), Some(NoteRef(key)), k);
  }

  /** Row `k` with its price input holding `price`. */
  function WithPrice(row: Row, price: string): Row {
    row.(priceInput := Some(Field(RowKey(row), price)))
  }

  /** The first `i` rows with their prices from `us`, the rest as they were. */
  function PricedPrefix(rows: seq<Row>, us: seq<Update>, i: nat): seq<Row>
    requires |us| == |rows|
  {
    seq(|rows|, k requires 0 <= k < |rows| => if k < i then WithPrice(rows[k], us[k].price) else rows[k])
  }

  lemma PricedPrefixShape(rows: seq<Row>, us: seq<Update>, i: nat)
    requires WellFormed(rows) && |us| == |rows|
    ensures Shape(PricedPrefix(rows, us, i)) == Shape(rows)
  {
    var p := PricedPrefix(rows, us, i);
    forall k | 0 <= k < |rows| ensures Shape(p)[k] == Shape(rows)[k] {
      assert DataRef(p[k].priceInput) == DataRef(rows[k].priceInput);
    }
  }

  lemma ApplyOwnUpdateStep(rows: seq<Row>, us: seq<Update>, i: nat)
    requires WellFormed(rows) && |us| == |rows| && i < |rows|
    requires us[i].ref == RowKey(rows[i]) && Some(us[i].note) == FieldValue(rows[i].noteArea)
    ensures ApplyUpdate(PricedPrefix(rows, us, i), us[i]) == PricedPrefix(rows, us, i + 1)
  {
    var p := PricedPrefix(rows, us, i);
    var key := us[i].ref;
    PricedPrefixShape(rows, us, i);
    PricedPrefixShape(rows, us, i + 1);
    var q := PricedPrefix(rows, us, i + 1);
    SameShape(p, rows);
    SameShape(q, rows);
    WellFormedLookups(rows, i);
    assert q == p[i := p[i].(priceInput := Some(Field(key, us[i].price)))];
    assert SetPrice(p, key, us[i].price) == q;
    assert q[i].noteArea == Some(Field(NoteRef(key), us[i].note));
    assert q[i := q[i].(noteArea := Some(Field(NoteRef(key), us[i].note)))] == q;
  }

  lemma {:induction false} ApplyOwnUpdatesUpTo(rows: seq<Row>, us: seq<Update>, i: nat)
    requires WellFormed(rows) && |us| == |rows| && i <= |rows|
    requires forall k :: 0 <= k < |rows| ==> us[k].ref == RowKey(rows[k]) && Some(us[k].note) == FieldValue(rows[k].noteArea)
    ensures ApplyUpdates(rows, us[..i]) == PricedPrefix(rows, us, i)
  {
    if i == 0 {
      assert PricedPrefix(rows, us, 0) == rows;
    } else {
      ApplyOwnUpdatesUpTo(rows, us, i - 1);
      ApplyUpdatesStep(rows, us, i - 1);
      ApplyOwnUpdateStep(rows, us, i - 1);
    }
  }

  /**
   * In a well-formed form, one update per row, aimed at that row's reference and
   * carrying its current note, changes exactly the prices.
   */
  lemma ApplyOwnUpdates(rows: seq<Row>, us: seq<Update>)
    requires WellFormed(rows) && |us| == |rows|
    requires forall k :: 0 <= k < |rows| ==> us[k].ref == RowKey(rows[k]) && Some(us[k].note) == FieldValue(rows[k].noteArea)
    ensures ApplyUpdates(rows, us) == seq(|rows|, k requires 0 <= k < |rows| => WithPrice(rows[k], us[k].price))
  {
    ApplyOwnUpdatesUpTo(rows, us, |rows|);
    PrefixAll(us);
    PricedPrefixAll(rows, us);
  }

  lemma PricedPrefixAll(rows: seq<Row>, us: seq<Update>)
    requires |us| == |rows|
    ensures PricedPrefix(rows, us, |rows|) == seq(|rows|, k requires 0 <= k < |rows| => WithPrice(rows[k], us[k].price))
  {
  }
}
