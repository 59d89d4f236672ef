/** The product collection and the operations that change it: adding a
    product from the form, deleting one, starting an edit, and importing a
    parsed JSON payload. Identifiers and "today" come from the clock in the
    original program; here they are parameters. */
module Inventory {
  import opened Optional
  import opened JsText
  import opened JsNumber
  import opened Sorting

  /** One stored product. `expiry` is the `YYYY-MM-DD` text of the form's
      date field. */
  datatype Product = Product(id: string, name: string, category: string, quantity: int, expiry: string)

  /** The raw text of the four form fields. */
  datatype Form = Form(name: string, category: string, quantity: string, expiry: string)

  /** Why an operation was refused; a refused operation leaves the
      collection as it was. */
  datatype Problem =
    | IncompleteForm    // name or expiry missing on submission
    | NotAnArray        // imported JSON is not an array
    | UnreadableEntry   // an imported entry is null, so reading its fields throws

  /** The collection after an operation, with the problem that stopped it,
      if any. */
  datatype Step = Step(products: seq<Product>, problem: Option<Problem>)

  /** The submit handler: trims name and category, reads the quantity with
      `parseInt(v) || 1`, refuses a blank name or an empty expiry, and
      otherwise appends one product under the fresh identifier. */
  function Submit(products: seq<Product>, form: Form, freshId: string): (r: Step)
    ensures r.problem.Some? <==>
              (forall i :: 0 <= i < |form.name| ==> IsJsSpace(form.name[i])) || form.expiry == []
    ensures r.problem.Some? ==> r.problem == Some(IncompleteForm) && r.products == products
    ensures r.problem.None? ==>
              && |r.products| == |products| + 1
              && r.products[..|products|] == products
              && var p := r.products[|products|];
              && p.id == freshId
              && p.name != [] && IsTrimOf(p.name, form.name)
              && IsTrimOf(p.category, form.category)
              && p.quantity == QuantityOrOne(form.quantity) && p.quantity != 0
              && p.expiry == form.expiry
  {
    var name := Trim(form.name);
    TrimEmptyIffAllSpace(form.name);
    if name == [] || form.expiry == [] then
      Step(products, Some(IncompleteForm))
    else
      var p := Product(freshId, name, Trim(form.category), QuantityOrOne(form.quantity), form.expiry);
      assert (products + [p])[..|products|] == products;
      Step(products + [p], None)
  }

  /** The test `p => p.id !== id` used by delete and edit. */
  function IdIsNot(id: string): Product -> bool {
    (p: Product) => p.id != id
  }

  /** `products.filter(p => p.id !== id)`: every record with that identifier
      goes, every other record stays, as often as it was there. */
  function Delete(products: seq<Product>, id: string): (r: seq<Product>)
    ensures forall i :: 0 <= i < |r| ==> r[i].id != id
    ensures forall p: Product :: p.id != id ==> multiset(r)[p] == multiset(products)[p]
    ensures (forall i :: 0 <= i < |products| ==> products[i].id != id) ==> r == products
  {
    FilterMultiplicity(products, IdIsNot(id));
    assert (forall i :: 0 <= i < |products| ==> products[i].id != id) ==> Filter(products, IdIsNot(id)) == products by {
      if forall i :: 0 <= i < |products| ==> products[i].id != id {
        FilterAll(products, IdIsNot(id));
      }
    }
    Filter(products, IdIsNot(id))
  }

  /** Deleting works element by element, so the survivors keep their
      relative order. */
  lemma DeleteConcat(a: seq<Product>, b: seq<Product>, id: string)
    ensures Delete(a + b, id) == Delete(a, id) + Delete(b, id)
  {
    FilterConcat(a, b, IdIsNot(id));
  }

  /** Deleting the same identifier twice is deleting it once. */
  lemma DeleteIdempotent(products: seq<Product>, id: string)
    ensures Delete(Delete(products, id), id) == Delete(products, id)
  {
  }

  /** `products.find(x => x.id === id)`: the first record with that
      identifier. */
  function FindById(products: seq<Product>, id: string): (r: Option<Product>)
    ensures r.None? <==> forall i :: 0 <= i < |products| ==> products[i].id != id
    ensures r.Some? ==> exists i :: 0 <= i < |products| && products[i] == r.value
                          && r.value.id == id
                          && forall j :: 0 <= j < i ==> products[j].id != id
  {
    if |products| == 0 then None
    else if products[0].id == id then Some(products[0])
    else
      var r := FindById(products[1..], id);
      assert forall i :: 1 <= i < |products| ==> products[i] == products[1..][i - 1];
      if r.Some? then
        var i :| 0 <= i < |products[1..]| && products[1..][i] == r.value
                 && forall j :: 0 <= j < i ==> products[1..][j].id != id;
        assert products[i + 1] == r.value;
        r
      else
        r
  }

  /** What starting an edit produces: the form filled in from the record,
      and the collection without it. */
  datatype Edit = Edit(form: Form, remaining: seq<Product>)

  /** The edit action: when a record has the identifier, its fields go into
      the form (the quantity as its decimal text) and every record with that
      identifier is removed; saving the form then creates a new entry. When
      no record has it, nothing happens. */
  function BeginEdit(products: seq<Product>, id: string): (r: Option<Edit>)
    ensures r.None? <==> forall i :: 0 <= i < |products| ==> products[i].id != id
    ensures r.Some? ==>
              && FindById(products, id).Some?
              && var p := FindById(products, id).value;
              && r.value.form == Form(p.name, p.category, IntToDecimal(p.quantity), p.expiry)
              && r.value.remaining == Delete(products, id)
              && |r.value.remaining| < |products|
  {
    match FindById(products, id)
    case None => None
    case Some(p) =>
      var remaining := Delete(products, id);
      var i :| 0 <= i < |products| && products[i] == p;
      FilterDrops(products, IdIsNot(id), i);
      Some(Edit(Form(p.name, p.category, IntToDecimal(p.quantity), p.expiry), remaining))
  }

  /** A record the submit handler could have produced: a non-blank trimmed
      name, a trimmed category, a non-zero quantity and an expiry. */
  predicate Submittable(p: Product) {
    && p.name != [] && !IsJsSpace(p.name[0]) && !IsJsSpace(p.name[|p.name| - 1])
    && (|p.category| > 0 ==> !IsJsSpace(p.category[0]) && !IsJsSpace(p.category[|p.category| - 1]))
    && p.quantity != 0
    && p.expiry != []
  }

  /** Editing a record and saving the form unchanged replaces the record
      by an identical one under the new identifier at the end of the list:
      identity is not kept across an edit. */
  lemma EditThenSave(products: seq<Product>, id: string, freshId: string)
    requires FindById(products, id).Some?
    requires Submittable(FindById(products, id).value)
    ensures var p := FindById(products, id).value;
            Submit(BeginEdit(products, id).value.remaining, BeginEdit(products, id).value.form, freshId)
              == Step(Delete(products, id) + [p.(id := freshId)], None)
  {
    var p := FindById(products, id).value;
    var e := BeginEdit(products, id).value;
    assert e.remaining == Delete(products, id);
    assert e.form == Form(p.name, p.category, IntToDecimal(p.quantity), p.expiry);
    SaveUnchanged(e.remaining, p, freshId);
  }

  /** Submitting the form filled from a submittable record appends that
      record under the fresh identifier. */
  lemma SaveUnchanged(products: seq<Product>, p: Product, freshId: string)
    requires Submittable(p)
    ensures Submit(products, Form(p.name, p.category, IntToDecimal(p.quantity), p.expiry), freshId)
              == Step(products + [p.(id := freshId)], None)
  {
    TrimOfTrimmed(p.name);
    TrimOfTrimmed(p.category);
    ParseIntOfDecimal(p.quantity);
  }

  /** One element of an imported JSON array. Any value that is not `null`
      or `undefined` reads as a record: a field it lacks is `None`. */
  datatype RawRecord = RawRecord(
    id: Option<string>, name: Option<string>, category: Option<string>,
    quantity: Option<int>, expiry: Option<string>)

  datatype RawEntry = Nullish | Entry(fields: RawRecord)

  /** The result of `JSON.parse` on the imported file. */
  datatype Payload = NotArray | Array(entries: seq<RawEntry>)

  /** A text field JavaScript treats as true: present and non-empty. */
  predicate GivenText(x: Option<string>) {
    x.Some? && x.value != []
  }

  /** A number field JavaScript treats as true: present and non-zero. */
  predicate GivenNumber(x: Option<int>) {
    x.Some? && x.value != 0
  }

  /** `x || fallback` for a text field. */
  function TextOr(x: Option<string>, fallback: string): string {
    if GivenText(x) then x.value else fallback
  }

  /** `x || fallback` for a number field. */
  function NumberOr(x: Option<int>, fallback: int): int {
    if GivenNumber(x) then x.value else fallback
  }

  /** The name an imported record without one receives. */
  const NoName: string := "Sin nombre"

  /** One imported record with defaults for falsy fields: a fresh
      identifier, "Sin nombre", an empty category, quantity one, and today
      as expiry. */
  function Normalize(x: RawRecord, freshId: string, today: string): (p: Product)
    ensures p.name != [] && p.quantity != 0
    ensures p.id == (if GivenText(x.id) then x.id.value else freshId)
    ensures p.name == (if GivenText(x.name) then x.name.value else NoName)
    ensures p.category == (if GivenText(x.category) then x.category.value else [])
    ensures p.quantity == (if GivenNumber(x.quantity) then x.quantity.value else 1)
    ensures p.expiry == (if GivenText(x.expiry) then x.expiry.value else today)
  {
    Product(TextOr(x.id, freshId), TextOr(x.name, NoName), TextOr(x.category, []),
            NumberOr(x.quantity, 1), TextOr(x.expiry, today))
  }

  /** `arr.map(...)` over entries known to be readable; entry `i` of the
      array (counting from `start`) may draw identifier `freshIds(i)`. */
  function NormalizeAll(entries: seq<RawEntry>, start: nat, freshIds: nat -> string, today: string): (r: seq<Product>)
    requires forall i :: 0 <= i < |entries| ==> entries[i].Entry?
    ensures |r| == |entries|
    ensures forall i :: 0 <= i < |entries| ==>
              r[i] == Normalize(entries[i].fields, freshIds(start + i), today)
  {
    if |entries| == 0 then []
    else
      assert forall i :: 1 <= i < |entries| ==> entries[1..][i - 1] == entries[i];
      [Normalize(entries[0].fields, freshIds(start), today)]
        + NormalizeAll(entries[1..], start + 1, freshIds, today)
  }

  /** The import handler: a payload that is not an array, or an array with a
      `null` entry, is refused as a whole; otherwise the normalized entries
      are appended after the existing products. */
  function Import(products: seq<Product>, payload: Payload, freshIds: nat -> string, today: string): (r: Step)
    ensures payload.NotArray? ==> r == Step(products, Some(NotAnArray))
    ensures payload.Array? && (exists i :: 0 <= i < |payload.entries| && payload.entries[i].Nullish?) ==>
              r == Step(products, Some(UnreadableEntry))
    ensures r.problem.None? <==>
              payload.Array? && forall i :: 0 <= i < |payload.entries| ==> payload.entries[i].Entry?
    ensures r.problem.None? ==>
              && |r.products| == |products| + |payload.entries|
              && r.products[..|products|] == products
              && forall i :: 0 <= i < |payload.entries| ==>
                   r.products[|products| + i] == Normalize(payload.entries[i].fields, freshIds(i), today)
  {
    match payload
    case NotArray => Step(products, Some(NotAnArray))
    case Array(entries) =>
      if exists i :: 0 <= i < |entries| && entries[i].Nullish? then
        Step(products, Some(UnreadableEntry))
      else
        var added := NormalizeAll(entries, 0, freshIds, today);
        assert (products + added)[..|products|] == products;
        Step(products + added, None)
  }

  /** The raw form of a stored record, as `JSON.stringify` writes it and
      `JSON.parse` reads it back. */
  function ToRaw(p: Product): RawRecord {
    RawRecord(Some(p.id), Some(p.name), Some(p.category), Some(p.quantity), Some(p.expiry))
  }

  /** The export handler's array. */
  function Export(products: seq<Product>): (r: seq<RawEntry>)
    ensures |r| == |products|
    ensures forall i :: 0 <= i < |r| ==> r[i] == Entry(ToRaw(products[i]))
  {
    if |products| == 0 then []
    else
      assert forall i :: 1 <= i < |products| ==> products[1..][i - 1] == products[i];
      [Entry(ToRaw(products[0]))] + Export(products[1..])
  }

  /** A record whose every field survives normalization: identifier, name
      and expiry non-empty, quantity non-zero. */
  predicate Truthy(p: Product) {
    p.id != [] && p.name != [] && p.quantity != 0 && p.expiry != []
  }

  /** Normalizing exported truthy records gives the records back. */
  lemma NormalizeExported(exported: seq<Product>, freshIds: nat -> string, today: string)
    requires forall i :: 0 <= i < |exported| ==> Truthy(exported[i])
    ensures forall i :: 0 <= i < |Export(exported)| ==> Export(exported)[i].Entry?
    ensures NormalizeAll(Export(exported), 0, freshIds, today) == exported
  {
    var entries := Export(exported);
    var added := NormalizeAll(entries, 0, freshIds, today);
    forall i | 0 <= i < |exported| ensures added[i] == exported[i] {
      assert entries[i].fields == ToRaw(exported[i]);
    }
  }

  /** Exporting records and importing the file again appends exactly those
      records, whatever identifiers and date the clock would supply. */
  lemma ExportImportRoundTrip(products: seq<Product>, exported: seq<Product>, freshIds: nat -> string, today: string)
    requires forall i :: 0 <= i < |exported| ==> Truthy(exported[i])
    ensures Import(products, Array(Export(exported)), freshIds, today) == Step(products + exported, None)
  {
    NormalizeExported(exported, freshIds, today);
  }

  /** Normalization is idempotent: a normalized record exported and
      imported again comes back unchanged, as long as the clock supplied a
      non-empty identifier and date the first time. */
  lemma NormalizeIdempotent(x: RawRecord, freshId: string, today: string, freshId2: string, today2: string)
    requires freshId != [] && today != []
    ensures Normalize(ToRaw(Normalize(x, freshId, today)), freshId2, today2) == Normalize(x, freshId, today)
  {
  }
}
