/**
  The `maintenance` table and the pure part of every statement run against
  it: the rows a vehicle view shows, the rows an export writes, the record a
  valid form submission inserts, and the rows an import appends.
  The class in module Tracker performs these steps on its own state.
 */
module Store {
  import opened Wrappers
  import opened Text
  import opened Values
  import opened Catalog

  /** The five data columns of a row: what export writes for it, without `id`. */
  datatype Fields = Fields(vehicle: Value, task: Value, lastDate: Value, lastMileage: Value, notes: Value)

  /** A row of `maintenance`: the store-assigned `id` and the data columns. */
  datatype Record = Record(id: int, fields: Fields)

  /** A row of the vehicle view: task, last date, last mileage and notes. */
  datatype DisplayRow = DisplayRow(task: Value, lastDate: Value, lastMileage: Value, notes: Value)

  predicate FieldsStorable(f: Fields)
  {
    Storable(f.vehicle) && Storable(f.task) && Storable(f.lastDate) && Storable(f.lastMileage) && Storable(f.notes)
  }

  /**
    The invariant of the table together with its AUTOINCREMENT counter
    `nextId` (one more than the largest id ever handed out): ids are
    positive, below the counter and strictly increasing in table order.
   */
  predicate TableValid(rows: seq<Record>, nextId: int)
  {
    && 1 <= nextId
    && (forall k :: 0 <= k < |rows| ==> 1 <= rows[k].id < nextId && FieldsStorable(rows[k].fields))
    && (forall a, b :: 0 <= a < b < |rows| ==> rows[a].id < rows[b].id)
  }

  /** The rows that inserting `entries` one after another adds, numbered from `first`. */
  function Numbered(first: int, entries: seq<Fields>): seq<Record>
  {
    seq(|entries|, k requires 0 <= k < |entries| => Record(first + k, entries[k]))
  }

  /** Inserting one more entry numbers it after the others. */
  lemma NumberedSnoc(first: int, entries: seq<Fields>, f: Fields)
    ensures Numbered(first, entries + [f]) == Numbered(first, entries) + [Record(first + |entries|, f)]
  {
  }

  /** No two rows of a valid table share an id. */
  lemma IdsUnique(rows: seq<Record>, nextId: int)
    requires TableValid(rows, nextId)
    ensures forall a, b :: 0 <= a < |rows| && 0 <= b < |rows| && a != b ==> rows[a].id != rows[b].id
  {
    forall a, b | 0 <= a < |rows| && 0 <= b < |rows| && a != b
      ensures rows[a].id != rows[b].id
    {
      if a < b { assert rows[a].id < rows[b].id; } else { assert rows[b].id < rows[a].id; }
    }
  }

  /**
    Inserting rows with fresh AUTOINCREMENT ids keeps the table valid: each
    new id is larger than every id handed out before it.
   */
  lemma AppendNumberedValid(rows: seq<Record>, nextId: int, entries: seq<Fields>)
    requires TableValid(rows, nextId)
    requires forall k :: 0 <= k < |entries| ==> FieldsStorable(entries[k])
    ensures TableValid(rows + Numbered(nextId, entries), nextId + |entries|)
    ensures forall a, b :: 0 <= a < |rows| && 0 <= b < |entries| ==>
              rows[a].id < Numbered(nextId, entries)[b].id
  {
    var added := Numbered(nextId, entries);
    var all := rows + added;
    forall a, b | 0 <= a < b < |all| ensures all[a].id < all[b].id {
      if b < |rows| {
      } else if a < |rows| {
        assert all[b] == added[b - |rows|];
      } else {
        assert all[a] == added[a - |rows|] && all[b] == added[b - |rows|];
      }
    }
  }

  // ---------------------------------------------------------------------
  // Per-vehicle listing
  // ---------------------------------------------------------------------

  predicate OfVehicle(r: Record, name: string)
  {
    r.fields.vehicle == Text(name)
  }

  /** The columns `task, last_date, last_mileage, notes` of a row. */
  function Project(r: Record): DisplayRow
  {
    DisplayRow(r.fields.task, r.fields.lastDate, r.fields.lastMileage, r.fields.notes)
  }

  /**
    `SELECT task, last_date, last_mileage, notes FROM maintenance WHERE vehicle=?`:
    the projections of the rows of vehicle `name`, in table order.
   */
  function SelectByVehicle(rows: seq<Record>, name: string): (r: seq<DisplayRow>)
    ensures |r| <= |rows|
    decreases |rows|
  {
    if rows == [] then []
    else
      var last := rows[|rows| - 1];
      SelectByVehicle(rows[..|rows| - 1], name) + (if OfVehicle(last, name) then [Project(last)] else [])
  }

  /** Listing after an insert: the new row shows up last, and only for its own vehicle. */
  lemma SelectAfterInsert(rows: seq<Record>, r: Record, name: string)
    ensures SelectByVehicle(rows + [r], name) ==
            SelectByVehicle(rows, name) + (if OfVehicle(r, name) then [Project(r)] else [])
  {
    assert (rows + [r])[..|rows|] == rows;
  }

  /** Listing distributes over the table order: rows keep their relative order. */
  lemma {:induction false} SelectAppend(a: seq<Record>, b: seq<Record>, name: string)
    ensures SelectByVehicle(a + b, name) == SelectByVehicle(a, name) + SelectByVehicle(b, name)
    decreases |b|
  {
    if b == [] {
      assert a + b == a;
    } else {
      var b' := b[..|b| - 1];
      var last := b[|b| - 1];
      assert a + b == (a + b') + [last];
      assert b == b' + [last];
      SelectAfterInsert(a + b', last, name);
      SelectAfterInsert(b', last, name);
      SelectAppend(a, b', name);
    }
  }

  /** The listing is empty exactly when no row belongs to the vehicle. */
  lemma {:induction false} SelectEmptyIff(rows: seq<Record>, name: string)
    ensures SelectByVehicle(rows, name) == [] <==> forall k :: 0 <= k < |rows| ==> !OfVehicle(rows[k], name)
    decreases |rows|
  {
    if rows != [] {
      var front := rows[..|rows| - 1];
      SelectEmptyIff(front, name);
      assert forall k :: 0 <= k < |front| ==> front[k] == rows[k];
    }
  }

  /** Every listed row is the projection of a row of the vehicle. */
  lemma {:induction false} SelectSound(rows: seq<Record>, name: string, n: nat)
    requires n < |SelectByVehicle(rows, name)|
    ensures exists k :: 0 <= k < |rows| && OfVehicle(rows[k], name) && Project(rows[k]) == SelectByVehicle(rows, name)[n]
    decreases |rows|
  {
    var front := rows[..|rows| - 1];
    var last := rows[|rows| - 1];
    if n < |SelectByVehicle(front, name)| {
      SelectSound(front, name, n);
      var k :| 0 <= k < |front| && OfVehicle(front[k], name) && Project(front[k]) == SelectByVehicle(front, name)[n];
      assert rows[k] == front[k];
    } else {
      assert OfVehicle(rows[|rows| - 1], name);
    }
  }

  /** Every row of the vehicle is listed. */
  lemma {:induction false} SelectComplete(rows: seq<Record>, name: string, k: nat)
    requires k < |rows| && OfVehicle(rows[k], name)
    ensures Project(rows[k]) in SelectByVehicle(rows, name)
    decreases |rows|
  {
    var front := rows[..|rows| - 1];
    if k < |front| {
      assert front[k] == rows[k];
      SelectComplete(front, name, k);
    }
  }

  // ---------------------------------------------------------------------
  // The vehicle view, with its placeholder rows
  // ---------------------------------------------------------------------

  /** The text shown in the date and mileage columns of a placeholder row. */
  const Dash: string := "\U{2014}"

  /** The row shown for default task `t`: its name, dashes for date and mileage, no notes. */
  function Placeholder(t: DefaultTask): (r: DisplayRow)
    ensures r.task == Text(t.task) && r.notes == Text("")
    ensures r.lastDate == r.lastMileage == Text(Dash)
  {
    DisplayRow(Text(t.task), Text(Dash), Text(Dash), Text(""))
  }

  /** The rows shown for a vehicle with no history: one per default task. */
  function Placeholders(): (r: seq<DisplayRow>)
    ensures |r| == |DEFAULT_TASKS|
    ensures forall k :: 0 <= k < |r| ==> r[k].task == Text(DEFAULT_TASKS[k].task)
  {
    seq(|DEFAULT_TASKS|, k requires 0 <= k < |DEFAULT_TASKS| => Placeholder(DEFAULT_TASKS[k]))
  }

  /** The placeholder rows are the five default tasks, in catalog order. */
  lemma PlaceholderRows()
    ensures Placeholders() == [
      DisplayRow(Text("Oil Change"), Text(Dash), Text(Dash), Text("")),
      DisplayRow(Text("Brake Fluid"), Text(Dash), Text(Dash), Text("")),
      DisplayRow(Text("Coolant Flush"), Text(Dash), Text(Dash), Text("")),
      DisplayRow(Text("Spark Plugs"), Text(Dash), Text(Dash), Text("")),
      DisplayRow(Text("Air Filter"), Text(Dash), Text(Dash), Text(""))
    ]
  {
  }

  /** What the view shows for vehicle `name`: its rows, or the placeholders when it has none. */
  function Display(rows: seq<Record>, name: string): (r: seq<DisplayRow>)
    ensures r != []
  {
    var found := SelectByVehicle(rows, name);
    if found == [] then Placeholders() else found
  }

  /**
    The view shows exactly the vehicle's rows when it has any, and exactly
    the five placeholder rows when it has none.
   */
  lemma DisplayCases(rows: seq<Record>, name: string)
    ensures (exists k :: 0 <= k < |rows| && OfVehicle(rows[k], name)) ==>
              Display(rows, name) == SelectByVehicle(rows, name)
    ensures (forall k :: 0 <= k < |rows| ==> !OfVehicle(rows[k], name)) ==>
              Display(rows, name) == Placeholders() && |Display(rows, name)| == 5
  {
    SelectEmptyIff(rows, name);
  }

  // ---------------------------------------------------------------------
  // Adding a record through the form
  // ---------------------------------------------------------------------

  /** `mileage or None`: the empty string becomes NULL, anything else is kept. */
  function MileageValue(m: string): (r: Value)
    ensures r == Null <==> m == []
    ensures m != [] ==> r == Text(m)
  {
    if m == [] then Null else Text(m)
  }

  /**
    The data columns the form's Save inserts for `vehicle`, or `None` when the
    task is empty once stripped ("Task name is required."). Every field is
    stripped; the date and notes are kept as text even when empty.
   */
  function NewRecord(vehicle: Vehicle, task: string, date: string, mileage: string, notes: string)
    : (r: Option<Fields>)
    ensures r.None? <==> AllSpace(task)
    ensures r.Some? ==> r.value.vehicle == Text(vehicle.name) && FieldsStorable(r.value)
    ensures r.Some? ==> r.value.task.Text? && r.value.task.s != [] &&
                        !IsSpace(r.value.task.s[0]) && !IsSpace(r.value.task.s[|r.value.task.s| - 1])
    ensures r.Some? ==> r.value.lastDate.Text? && r.value.notes.Text?
    ensures r.Some? ==> (r.value.lastMileage == Null <==> AllSpace(mileage))
    ensures r.Some? ==> && r.value.task == Text(Strip(task))
                        && r.value.lastDate == Text(Strip(date))
                        && r.value.notes == Text(Strip(notes))
    ensures r.Some? && !AllSpace(mileage) ==> r.value.lastMileage == Text(Strip(mileage))
  {
    var t := Strip(task);
    if t == [] then None
    else
      var m := Strip(mileage);
      Some(Fields(Text(vehicle.name), Text(t), Text(Strip(date)), MileageValue(m), Text(Strip(notes))))
  }

  /** A mileage of `0`, even padded with blanks, is stored as the text "0", not as NULL. */
  lemma ExplicitZeroMileageKept(v: Vehicle, task: string, date: string, notes: string)
    requires !AllSpace(task)
    ensures NewRecord(v, task, date, " 0 ", notes).Some?
    ensures NewRecord(v, task, date, " 0 ", notes).value.lastMileage == Text("0")
  {
    var padded := " 0 ";
    assert padded[1..2] == "0";
    StripIsSlice(padded, 1, 2);
    var r := NewRecord(v, task, date, padded, notes);
    assert r.Some?;
    assert r.value.lastMileage == MileageValue(Strip(padded));
  }

  /** A padded task is stored stripped. */
  lemma TaskIsStripped(v: Vehicle, date: string, mileage: string, notes: string)
    ensures NewRecord(v, "  Oil Change\t", date, mileage, notes).Some?
    ensures NewRecord(v, "  Oil Change\t", date, mileage, notes).value.task == Text("Oil Change")
  {
    var padded := "  Oil Change\t";
    assert padded[2..12] == "Oil Change";
    StripIsSlice(padded, 2, 12);
    assert !AllSpace(padded) by { assert !IsSpace(padded[2]); }
  }

  /**
    Insert then list: saving a record for a vehicle with no history, with
    fields that have no surrounding blanks, makes the vehicle's view list
    exactly that one record with the values as typed.
   */
  lemma InsertThenList(rows: seq<Record>, nextId: int, v: Vehicle, task: string, date: string, mileage: string, notes: string)
    requires forall k :: 0 <= k < |rows| ==> !OfVehicle(rows[k], v.name)
    requires task != [] && Unpadded(task) && Unpadded(date) && Unpadded(mileage) && Unpadded(notes)
    ensures NewRecord(v, task, date, mileage, notes).Some?
    ensures var f := NewRecord(v, task, date, mileage, notes).value;
            SelectByVehicle(rows + [Record(nextId, f)], v.name) ==
              [DisplayRow(Text(task), Text(date), if mileage == [] then Null else Text(mileage), Text(notes))]
  {
    KeptByStrip(task);
    KeptByStrip(date);
    KeptByStrip(mileage);
    KeptByStrip(notes);
    var f := NewRecord(v, task, date, mileage, notes).value;
    SelectEmptyIff(rows, v.name);
    SelectAfterInsert(rows, Record(nextId, f), v.name);
  }

  // ---------------------------------------------------------------------
  // Export
  // ---------------------------------------------------------------------

  /** `SELECT vehicle, task, last_date, last_mileage, notes FROM maintenance`: every row, id dropped. */
  function ExportRows(rows: seq<Record>): seq<Fields>
  {
    seq(|rows|, k requires 0 <= k < |rows| => rows[k].fields)
  }

  /** One exported tuple per row, in table order. */
  lemma ExportShape(rows: seq<Record>)
    ensures |ExportRows(rows)| == |rows|
    ensures forall k :: 0 <= k < |rows| ==> ExportRows(rows)[k] == rows[k].fields
  {
  }

  /** Exporting the rows an import added gives back the imported tuples: ids are dropped. */
  lemma ExportNumbered(first: int, entries: seq<Fields>)
    ensures ExportRows(Numbered(first, entries)) == entries
  {
  }

  /** Export of a longer table extends the export of a shorter one. */
  lemma ExportAppend(a: seq<Record>, b: seq<Record>)
    ensures ExportRows(a + b) == ExportRows(a) + ExportRows(b)
  {
  }

  /** The 5-element JSON list `json.dump` writes for one exported tuple. */
  function RowJson(f: Fields): (j: Json)
    ensures j.JList? && |j.elems| == 5
    ensures forall k :: 0 <= k < 5 ==> !j.elems[k].JList? && !j.elems[k].JDict?
  {
    JList([ToJson(f.vehicle), ToJson(f.task), ToJson(f.lastDate), ToJson(f.lastMileage), ToJson(f.notes)])
  }

  /** The document `json.dump` writes: a list of 5-element lists. */
  function ExportDocument(tuples: seq<Fields>): (j: Json)
    ensures j.JList? && |j.elems| == |tuples|
    ensures forall k :: 0 <= k < |tuples| ==> j.elems[k] == RowJson(tuples[k])
  {
    JList(seq(|tuples|, k requires 0 <= k < |tuples| => RowJson(tuples[k])))
  }

  // ---------------------------------------------------------------------
  // Import
  // ---------------------------------------------------------------------

  /** Why one entry of an import file is not inserted. */
  datatype EntryError =
    | EntryNotIterable           // TypeError: cannot unpack a non-iterable value
    | WrongArity(count: nat)     // ValueError: not exactly five values to unpack
    | Unbindable(column: nat)    // the first of the five values sqlite3 cannot bind

  datatype ImportError =
    | NotIterable                            // the document itself is not iterable
    | BadEntry(index: nat, reason: EntryError)

  /** The rows an import inserts, in file order, and the failure that stopped it, if any. */
  datatype ImportPlan = ImportPlan(entries: seq<Fields>, failure: Option<ImportError>)

  /** Index of the first of `xs` that cannot be bound, or `|xs|`. */
  function FirstUnbindable(xs: seq<Json>): (c: nat)
    ensures c <= |xs|
    ensures forall k :: 0 <= k < c ==> Bind(xs[k]).Some?
    ensures c < |xs| ==> Bind(xs[c]).None?
    decreases |xs|
  {
    if xs == [] then 0
    else if Bind(xs[0]).None? then 0
    else 1 + FirstUnbindable(xs[1..])
  }

  /**
    `for v, t, d, m, n in data` followed by the INSERT for one entry: the
    entry must unpack into exactly five values, each of which must bind.
   */
  function DecodeEntry(j: Json): (r: Result<Fields, EntryError>)
    ensures r.Success? ==> FieldsStorable(r.value)
  {
    match Items(j)
    case None => Failure(EntryNotIterable)
    case Some(xs) =>
      if |xs| != 5 then Failure(WrongArity(|xs|))
      else
        var c := FirstUnbindable(xs);
        if c < 5 then Failure(Unbindable(c))
        else Success(Fields(Bind(xs[0]).value, Bind(xs[1]).value, Bind(xs[2]).value, Bind(xs[3]).value, Bind(xs[4]).value))
  }

  /**
    An entry is inserted exactly when it unpacks into five values that all
    bind; the row holds the bound values in order. A non-iterable entry is
    reported as such, a wrong count with the count, and otherwise the first
    value that does not bind.
   */
  lemma DecodeEntryMeaning(j: Json)
    ensures DecodeEntry(j).Success? <==>
              Items(j).Some? && |Items(j).value| == 5 && forall c :: 0 <= c < 5 ==> Bind(Items(j).value[c]).Some?
    ensures DecodeEntry(j).Success? ==>
              DecodeEntry(j).value == Fields(Bind(Items(j).value[0]).value, Bind(Items(j).value[1]).value,
                                             Bind(Items(j).value[2]).value, Bind(Items(j).value[3]).value,
                                             Bind(Items(j).value[4]).value)
    ensures DecodeEntry(j) == Failure(EntryNotIterable) <==> Items(j).None?
    ensures Items(j).Some? && |Items(j).value| != 5 ==> DecodeEntry(j) == Failure(WrongArity(|Items(j).value|))
    ensures DecodeEntry(j).Failure? && DecodeEntry(j).error.Unbindable? ==>
              var c := DecodeEntry(j).error.column;
              && c < 5
              && Bind(Items(j).value[c]).None?
              && forall b :: 0 <= b < c ==> Bind(Items(j).value[b]).Some?
  {
  }

  /**
    The import loop over `items`: entries are inserted in order until the
    first one that fails, which stops the loop; the ones before it stay.
   */
  function DecodeEntries(items: seq<Json>): (p: ImportPlan)
    ensures |p.entries| <= |items|
    ensures p.failure.None? ==> |p.entries| == |items|
    ensures p.failure.Some? ==> p.failure.value.BadEntry? && p.failure.value.index == |p.entries| < |items|
    decreases |items|
  {
    if items == [] then ImportPlan([], None)
    else
      var prev := DecodeEntries(items[..|items| - 1]);
      if prev.failure.Some? then prev
      else
        match DecodeEntry(items[|items| - 1])
        case Success(f) => ImportPlan(prev.entries + [f], None)
        case Failure(e) => ImportPlan(prev.entries, Some(BadEntry(|items| - 1, e)))
  }

  /**
    What the import loop inserted: the decoded entries before the one it
    stopped at, and, when it stopped, why that entry failed.
   */
  lemma {:induction false} DecodeEntriesMeaning(items: seq<Json>)
    ensures var p := DecodeEntries(items);
            forall k :: 0 <= k < |p.entries| ==> DecodeEntry(items[k]) == Success(p.entries[k])
    ensures var p := DecodeEntries(items);
            p.failure.Some? ==>
              && |p.entries| < |items|
              && DecodeEntry(items[|p.entries|]).Failure?
              && p.failure == Some(BadEntry(|p.entries|, DecodeEntry(items[|p.entries|]).error))
    decreases |items|
  {
    if items != [] {
      var front := items[..|items| - 1];
      DecodeEntriesMeaning(front);
      assert forall k :: 0 <= k < |front| ==> front[k] == items[k];
    }
  }

  /** `import_data` from the parsed document `doc`. */
  function ImportPlanOf(doc: Json): (p: ImportPlan)
    ensures p.failure == Some(NotIterable) <==> Items(doc).None?
    ensures Items(doc).None? ==> p.entries == []
  {
    match Items(doc)
    case None => ImportPlan([], Some(NotIterable))
    case Some(items) => DecodeEntries(items)
  }

  /**
    When entry `k` is the first malformed one, exactly the entries before it
    are inserted, and the import reports entry `k`.
   */
  lemma ImportStopsAtFirstFailure(items: seq<Json>, k: nat)
    requires k < |items| && DecodeEntry(items[k]).Failure?
    requires forall j :: 0 <= j < k ==> DecodeEntry(items[j]).Success?
    ensures DecodeEntries(items).entries == seq(k, j requires 0 <= j < k => DecodeEntry(items[j]).value)
    ensures DecodeEntries(items).failure == Some(BadEntry(k, DecodeEntry(items[k]).error))
  {
    DecodeEntriesMeaning(items);
  }

  /** When every entry is well formed, all of them are inserted, in file order. */
  lemma ImportAllEntries(items: seq<Json>)
    requires forall j :: 0 <= j < |items| ==> DecodeEntry(items[j]).Success?
    ensures DecodeEntries(items) == ImportPlan(seq(|items|, j requires 0 <= j < |items| => DecodeEntry(items[j]).value), None)
  {
    DecodeEntriesMeaning(items);
  }

  /** The import loop's step: when the entries before `i` all went in, so does a well-formed entry `i`. */
  lemma DecodedPrefixGrows(items: seq<Json>, i: nat)
    requires i < |items| && DecodeEntries(items[..i]).failure.None?
    requires DecodeEntry(items[i]).Success?
    ensures DecodeEntries(items[..i + 1]) ==
            ImportPlan(DecodeEntries(items[..i]).entries + [DecodeEntry(items[i]).value], None)
  {
    assert items[..i + 1][..i] == items[..i];
  }

  /**
    The import loop's step: when the entries before `i` all went in and
    entry `i` is malformed, the import ends there with what it inserted.
   */
  lemma DecodedPrefixFails(items: seq<Json>, i: nat)
    requires i < |items| && DecodeEntries(items[..i]).failure.None?
    requires DecodeEntry(items[i]).Failure?
    ensures DecodeEntries(items) ==
            ImportPlan(DecodeEntries(items[..i]).entries, Some(BadEntry(i, DecodeEntry(items[i]).error)))
  {
    var prefix := items[..i];
    DecodeEntriesMeaning(prefix);
    var done := DecodeEntries(prefix).entries;
    forall j | 0 <= j < i ensures DecodeEntry(items[j]) == Success(done[j]) {
      assert prefix[j] == items[j];
    }
    ImportStopsAtFirstFailure(items, i);
  }

  /** An exported tuple reads back as itself. */
  lemma DecodeRowJson(f: Fields)
    requires FieldsStorable(f)
    ensures DecodeEntry(RowJson(f)) == Success(f)
  {
    BindToJson(f.vehicle);
    BindToJson(f.task);
    BindToJson(f.lastDate);
    BindToJson(f.lastMileage);
    BindToJson(f.notes);
  }

  /** Importing an exported document inserts every exported tuple and fails nowhere. */
  lemma ImportExportedDocument(tuples: seq<Fields>)
    requires forall k :: 0 <= k < |tuples| ==> FieldsStorable(tuples[k])
    ensures ImportPlanOf(ExportDocument(tuples)) == ImportPlan(tuples, None)
  {
    var items := ExportDocument(tuples).elems;
    forall j | 0 <= j < |items| ensures DecodeEntry(items[j]) == Success(tuples[j]) {
      DecodeRowJson(tuples[j]);
    }
    ImportAllEntries(items);
  }

  /**
    Round trip: export a table, import the file into an empty table (whose
    ids start anywhere) and export again; the two exports are identical.
   */
  lemma ExportImportRoundTrip(rows: seq<Record>, first: int)
    requires forall k :: 0 <= k < |rows| ==> FieldsStorable(rows[k].fields)
    ensures ImportPlanOf(ExportDocument(ExportRows(rows))).failure.None?
    ensures ExportRows(Numbered(first, ImportPlanOf(ExportDocument(ExportRows(rows))).entries)) == ExportRows(rows)
  {
    ImportExportedDocument(ExportRows(rows));
    ExportNumbered(first, ExportRows(rows));
  }

  /** Import does not validate the task: an empty task is inserted as it is. */
  lemma ImportKeepsEmptyTask(vehicle: string)
    ensures DecodeEntry(JList([JStr(vehicle), JStr(""), JNull, JNull, JStr("")])) ==
            Success(Fields(Text(vehicle), Text(""), Null, Null, Text("")))
  {
  }

  /**
    A file whose third entry has the wrong shape: the first two entries are
    inserted, the fourth is not, and the import reports entry 2.
   */
  lemma ThirdEntryMalformed(a: Fields, b: Fields, d: Fields)
    requires FieldsStorable(a) && FieldsStorable(b)
    ensures ImportPlanOf(JList([RowJson(a), RowJson(b), JList([JStr("x")]), RowJson(d)])) ==
            ImportPlan([a, b], Some(BadEntry(2, WrongArity(1))))
  {
    var items := [RowJson(a), RowJson(b), JList([JStr("x")]), RowJson(d)];
    DecodeRowJson(a);
    DecodeRowJson(b);
    ImportStopsAtFirstFailure(items, 2);
  }
}
