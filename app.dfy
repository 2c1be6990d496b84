/**
  The application object `BreakMyWalletApp`: its database connection with
  the `maintenance` table and AUTOINCREMENT counter, the selected vehicle,
  and what the window shows (the heading above the view and its rows).
 */
module Tracker {
  import opened Wrappers
  import opened Values
  import opened Catalog
  import opened Store

  /** What the database file already holds when the application starts. */
  datatype StoredTable = StoredTable(rows: seq<Record>, nextId: int)

  /** The result of pressing Save in the "Add Maintenance Record" form. */
  datatype SaveOutcome = Saved(id: int) | TaskRequired

  class BreakMyWalletApp {
    var hasTable: bool              // the `maintenance` table exists
    var rows: seq<Record>           // its rows, in table order
    var nextId: int                 // the id the next INSERT receives
    var currentVehicle: Option<Vehicle>
    var heading: string             // the vehicle label above the view
    var tree: seq<DisplayRow>       // the rows of the view

    ghost predicate Valid()
      reads this
    {
      hasTable && TableValid(rows, nextId)
    }

    /** Opens the database file (`stored`, or a new empty file), creates the table, selects no vehicle. */
    constructor (stored: Option<StoredTable>)
      requires stored.Some? ==> TableValid(stored.value.rows, stored.value.nextId)
      ensures Valid()
      ensures stored.Some? ==> rows == stored.value.rows && nextId == stored.value.nextId
      ensures stored.None? ==> rows == [] && nextId == 1
      ensures currentVehicle == None && heading == "Select a Vehicle" && tree == []
    {
      hasTable := stored.Some?;
      rows := if stored.Some? then stored.value.rows else [];
      nextId := if stored.Some? then stored.value.nextId else 1;
      currentVehicle := None;
      heading := "Select a Vehicle";
      tree := [];
      new;
      CreateTables();
    }

    /**
      `CREATE TABLE IF NOT EXISTS maintenance`: creates an empty table whose
      first id is 1, and leaves an existing table and its counter alone.
     */
    method CreateTables()
      requires hasTable ==> TableValid(rows, nextId)
      modifies this`hasTable, this`rows, this`nextId
      ensures Valid()
      ensures old(hasTable) ==> rows == old(rows) && nextId == old(nextId)
      ensures !old(hasTable) ==> rows == [] && nextId == 1
    {
      if !hasTable {
        hasTable, rows, nextId := true, [], 1;
      }
    }

    /** `INSERT INTO maintenance ...`: appends one row under a fresh AUTOINCREMENT id. */
    method Insert(f: Fields) returns (id: int)
      requires Valid() && FieldsStorable(f)
      modifies this`rows, this`nextId
      ensures Valid()
      ensures id == old(nextId) && nextId == old(nextId) + 1
      ensures rows == old(rows) + [Record(id, f)]
      ensures forall k :: 0 <= k < |old(rows)| ==> old(rows)[k].id < id
    {
      AppendNumberedValid(rows, nextId, [f]);
      assert Numbered(nextId, [f]) == [Record(nextId, f)];
      id := nextId;
      rows := rows + [Record(id, f)];
      nextId := nextId + 1;
    }

    /**
      `load_vehicle`: selects `v`, empties the view and fills it with the
      vehicle's rows, or with the default-task placeholders when it has none.
     */
    method LoadVehicle(v: Vehicle)
      modifies this`currentVehicle, this`heading, this`tree
      ensures currentVehicle == Some(v) && heading == v.name
      ensures tree == Display(rows, v.name)
    {
      currentVehicle := Some(v);
      heading := v.name;
      tree := [];
      var fetched := SelectByVehicle(rows, v.name);
      for i := 0 to |fetched|
        invariant tree == fetched[..i]
        invariant currentVehicle == Some(v) && heading == v.name
      {
        tree := tree + [fetched[i]];
      }
      assert fetched[..|fetched|] == fetched;
      if tree == [] {
        var placeholders := Placeholders();
        for i := 0 to |DEFAULT_TASKS|
          invariant tree == placeholders[..i]
          invariant currentVehicle == Some(v) && heading == v.name
        {
          tree := tree + [Placeholder(DEFAULT_TASKS[i])];
        }
        assert placeholders[..|DEFAULT_TASKS|] == placeholders;
      }
    }

    /**
      The "Add Maintenance" button: the form opens only when a vehicle is
      selected ("Please select a vehicle first." otherwise). Nothing is stored.
     */
    method AddMaintenancePopup() returns (formShown: bool)
      ensures formShown <==> currentVehicle.Some?
    {
      formShown := currentVehicle.Some?;
    }

    /**
      `save_record`, the form's Save button: strips the fields, rejects a
      blank task, otherwise inserts one row for the selected vehicle and
      reloads the view. The form exists only once a vehicle is selected.
     */
    method SaveRecord(task: string, date: string, mileage: string, notes: string) returns (outcome: SaveOutcome)
      requires Valid() && currentVehicle.Some?
      modifies this`rows, this`nextId, this`currentVehicle, this`heading, this`tree
      ensures Valid() && currentVehicle == old(currentVehicle)
      ensures var r := NewRecord(old(currentVehicle).value, task, date, mileage, notes);
              if r.None? then
                && outcome == TaskRequired
                && rows == old(rows) && nextId == old(nextId)
                && tree == old(tree) && heading == old(heading)
              else
                && outcome == Saved(old(nextId))
                && rows == old(rows) + [Record(old(nextId), r.value)]
                && nextId == old(nextId) + 1
                && heading == currentVehicle.value.name
                && tree == Display(rows, currentVehicle.value.name)
    {
      var vehicle := currentVehicle.value;
      var row := NewRecord(vehicle, task, date, mileage, notes);
      if row.None? {
        return TaskRequired;
      }
      var id := Insert(row.value);
      LoadVehicle(vehicle);
      outcome := Saved(id);
    }

    /** `export_data`: every row as a 5-element list, id dropped; nothing changes. */
    method ExportData() returns (doc: Json)
      requires Valid()
      ensures doc == ExportDocument(ExportRows(rows))
      ensures doc.JList? && |doc.elems| == |rows|
      ensures ImportPlanOf(doc) == ImportPlan(ExportRows(rows), None)
    {
      var data := ExportRows(rows);
      doc := ExportDocument(data);
      ImportExportedDocument(data);
    }

    /**
      One pass of the loop of `import_data`: unpack `entry` into five values
      and run the INSERT with them; nothing is inserted when that fails.
     */
    method InsertEntry(entry: Json) returns (error: Option<EntryError>)
      requires Valid()
      modifies this`rows, this`nextId
      ensures Valid()
      ensures DecodeEntry(entry).Failure? ==>
                error == Some(DecodeEntry(entry).error) && rows == old(rows) && nextId == old(nextId)
      ensures DecodeEntry(entry).Success? ==>
                && error.None?
                && rows == old(rows) + [Record(old(nextId), DecodeEntry(entry).value)]
                && nextId == old(nextId) + 1
    {
      var decoded := DecodeEntry(entry);
      if decoded.Failure? {
        return Some(decoded.error);
      }
      var _ := Insert(decoded.value);
      error := None;
    }

    /**
      The loop of `import_data`: one INSERT per entry of `data`, in order,
      stopping at the first entry that does not unpack into five bindable
      values. The rows inserted before that entry stay in the table.
     */
    method InsertEntries(data: seq<Json>) returns (failure: Option<ImportError>)
      requires Valid()
      modifies this`rows, this`nextId
      ensures Valid()
      ensures failure == DecodeEntries(data).failure
      ensures rows == old(rows) + Numbered(old(nextId), DecodeEntries(data).entries)
      ensures nextId == old(nextId) + |DecodeEntries(data).entries|
    {
      ghost var done: seq<Fields> := [];
      for i := 0 to |data|
        invariant Valid()
        invariant DecodeEntries(data[..i]) == ImportPlan(done, None)
        invariant rows == old(rows) + Numbered(old(nextId), done)
        invariant nextId == old(nextId) + |done|
      {
        var error := InsertEntry(data[i]);
        if error.Some? {
          DecodedPrefixFails(data, i);
          return Some(BadEntry(i, error.value));
        }
        DecodedPrefixGrows(data, i);
        NumberedSnoc(old(nextId), done, DecodeEntry(data[i]).value);
        done := done + [DecodeEntry(data[i]).value];
      }
      assert data[..|data|] == data;
      failure := None;
    }

    /**
      `import_data` on the parsed file `doc`: inserts its entries in file
      order, without validating the task, until one is malformed; a document
      that is not iterable inserts nothing. After a complete import the view
      of the selected vehicle is reloaded; after a failure it is left as it was.
     */
    method ImportData(doc: Json) returns (failure: Option<ImportError>)
      requires Valid()
      modifies this`rows, this`nextId, this`currentVehicle, this`heading, this`tree
      ensures Valid() && currentVehicle == old(currentVehicle)
      ensures failure == ImportPlanOf(doc).failure
      ensures rows == old(rows) + Numbered(old(nextId), ImportPlanOf(doc).entries)
      ensures nextId == old(nextId) + |ImportPlanOf(doc).entries|
      ensures failure.Some? || currentVehicle.None? ==> tree == old(tree) && heading == old(heading)
      ensures failure.None? && currentVehicle.Some? ==>
                heading == currentVehicle.value.name && tree == Display(rows, currentVehicle.value.name)
    {
      var items := Items(doc);
      if items.None? {
        return Some(NotIterable);
      }
      failure := InsertEntries(items.value);
      if failure.None? && currentVehicle.Some? {
        LoadVehicle(currentVehicle.value);
      }
    }
  }
}
