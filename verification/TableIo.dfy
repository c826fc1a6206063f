/** storage_append_row and storage_select_projection on a directory whose operations may fail. */
module TableIo {
  import opened SqlTypes
  import opened Csv
  import opened CsvIo
  import opened Schema
  import opened Storage
  import opened StorageTheorems
  import opened StorageIo
  import opened Files

  lemma SameButTransitive(a: World, b: World, c: World, p: Place, name: string)
    requires SameBut(a, b, p, name) && SameBut(b, c, p, name)
    ensures SameBut(a, c, p, name)
  {
  }

  lemma WorldUpdates(w: World, p: Place, name: string, a: string, b: string)
    ensures w.Set(p, name, a).Set(p, name, b) == w.Set(p, name, b)
    ensures name !in w.At(p) ==> w.Set(p, name, a).Unset(p, name) == w
    ensures SameBut(w, w.Unset(p, name), p, name)
  {
    assert w.At(p)[name := a][name := b] == w.At(p)[name := b];
    assert name !in w.At(p) ==> w.At(p)[name := a] - {name} == w.At(p);
  }

  lemma SameUnset(w: World, w': World, p: Place, name: string)
    requires SameBut(w, w', p, name)
    ensures w'.Unset(p, name) == w.Unset(p, name)
  {
  }

  /** Since the trace had length from, nothing but one file has differed from w. */
  ghost predicate TraceSameBut(trace: seq<World>, from: nat, w: World, p: Place, name: string) {
    forall k :: from <= k < |trace| ==> SameBut(w, trace[k], p, name)
  }

  lemma TraceExtends(t: seq<World>, t': seq<World>, from: nat, w: World, w': World, p: Place, name: string)
    requires t <= t' && SameBut(w, w', p, name)
    requires TraceSameBut(t, from, w, p, name) && TraceSameBut(t', |t|, w', p, name)
    ensures TraceSameBut(t', from, w, p, name)
  {
    forall k | from <= k < |t'|
      ensures SameBut(w, t'[k], p, name)
    {
      if k >= |t| { SameButTransitive(w, w', t'[k], p, name); }
    }
  }

  /** load_table_schema */
  method OpenSchema(fs: FileSystem, p: Place, schemaName: string) returns (r: Result<Option<seq<Column>>>)
    modifies fs`faults, fs`lastFailed
    ensures fs.faults >= old(fs.faults)
    ensures r == if fs.faults == old(fs.faults) then LoadOptionalSchema(Lookup(fs.world.At(p), schemaName)) else Err(Io)
  {
    var bytes := fs.OpenIfPresent(p, schemaName);
    if bytes.Err? || bytes.value == None { return if bytes.Err? then Err(Io) else Ok(None); }
    var file := new File(bytes.value.value);
    var loaded := LoadTableSchema(file);
    r := match loaded case Err(code) => Err(code) case Ok(schema) => Ok(Some(schema));
  }

  /** load_csv_header and the check of the header against the schema or the value count */
  method CheckCsvHeader(fs: FileSystem, p: Place, csvName: string, schema: Option<seq<Column>>, valueCount: nat)
    returns (code: Option<ErrorCode>)
    requires csvName in fs.world.At(p)
    modifies fs`faults, fs`lastFailed
    ensures old(fs.faults) <= fs.faults <= old(fs.faults) + 1
    ensures fs.faults > old(fs.faults) ==> code == Some(Io)
    ensures fs.faults == old(fs.faults) ==>
              code == match LoadHeader(fs.world.At(p)[csvName])
                      case Err(c) => Some(c)
                      case Ok(header) => CheckHeader(schema, header.fields, valueCount)
  {
    var bytes := fs.Open(p, csvName);
    if bytes == None { return Some(Io); }
    var file := new File(bytes.value);
    var header := LoadCsvHeader(file);
    if header == None { return Some(Parse); }
    if schema.Some? {
      var matches := HeaderMatchesSchema(header.value, schema.value);
      code := if matches then None else Some(Parse);
    } else {
      code := if |header.value| == valueCount then None else Some(Argument);
    }
  }

  /** The steps of storage_append_row from the header check on, for a CSV that exists. It is written in one step: a
      failure before leaves the world alone, and a failed write is not undone. */
  method AppendToCsv(fs: FileSystem, p: Place, csvName: string, schema: Option<seq<Column>>, stored: seq<SqlValue>)
    returns (code: Option<ErrorCode>)
    requires csvName in fs.world.At(p)
    requires schema.Some? ==> |schema.value| == |stored| && TypesMatch(schema.value, stored)
    modifies fs`world, fs`faults, fs`lastFailed, fs`trace
    ensures old(fs.faults) <= fs.faults <= old(fs.faults) + 1
    ensures fs.faults > old(fs.faults) ==> code == Some(Io)
    ensures fs.faults == old(fs.faults) ==>
              match AppendChecked(schema, old(fs.world).At(p)[csvName], stored)
              case Err(c) => code == Some(c) && fs.world == old(fs.world)
              case Ok(csv) => code == None && fs.world == old(fs.world).Set(p, csvName, csv)
    ensures || (fs.trace == old(fs.trace) && fs.world == old(fs.world))
            || fs.trace == old(fs.trace) + [fs.world]
    ensures code.Some? && fs.trace != old(fs.trace) ==> fs.faults == old(fs.faults) + 1
    ensures SameBut(old(fs.world), fs.world, p, csvName)
    ensures old(fs.trace) <= fs.trace && TraceSameBut(fs.trace, |old(fs.trace)|, old(fs.world), p, csvName)
  {
    code := CheckCsvHeader(fs, p, csvName, schema, |stored|);
    if code.Some? { return; }
    var bytes := fs.Open(p, csvName);
    if bytes == None { return Some(Io); }
    var file := new File(bytes.value);
    AppendRowToFile(file, schema, stored);
    var ok := fs.Write(p, csvName, file.bytes, Writing(p, csvName));
    code := if ok then None else Some(Io);
  }

  datatype Prepared = Prepared(schema: Option<seq<Column>>, stored: seq<SqlValue>)

  /** The first steps of storage_append_row: the schema, the mapping and the types. */
  method PrepareInsert(fs: FileSystem, p: Place, schemaName: string, columns: seq<string>, values: seq<SqlValue>)
    returns (r: Result<Prepared>)
    modifies fs`faults, fs`lastFailed
    ensures fs.faults >= old(fs.faults)
    ensures fs.faults > old(fs.faults) ==> r == Err(Io)
    ensures fs.faults == old(fs.faults) ==>
              match LoadOptionalSchema(Lookup(fs.world.At(p), schemaName))
              case Err(c) => r == Err(c)
              case Ok(schema) =>
                match StoredValues(schema, columns, values)
                case Err(c) => r == Err(c)
                case Ok(stored) => r == Ok(Prepared(schema, stored))
    ensures r.Ok? && r.value.schema.Some? ==> ValidSchema(r.value.schema.value)
    ensures r.Ok? && r.value.schema.Some? ==>
              |r.value.schema.value| == |r.value.stored| && TypesMatch(r.value.schema.value, r.value.stored)
  {
    var loaded := OpenSchema(fs, p, schemaName);
    if loaded.Err? { return Err(loaded.code); }
    var schema := loaded.value;
    if schema == None {
      return if columns == [] then Ok(Prepared(None, values)) else Err(Unsupported);
    }
    var mapped := MapValuesToSchema(schema.value, columns, values);
    if mapped.Err? { return Err(mapped.code); }
    var valid := ValidateValueTypes(schema.value, mapped.value);
    r := if valid then Ok(Prepared(schema, mapped.value)) else Err(Argument);
  }

  /** cleanup_created_csv, seen from the world w before the CSV was created */
  method CleanUpCreated(fs: FileSystem, p: Place, csvName: string, ghost w: World, ghost from: nat)
    requires SameBut(w, fs.world, p, csvName) && TraceSameBut(fs.trace, from, w, p, csvName)
    modifies fs`world, fs`faults, fs`lastFailed, fs`trace
    ensures fs.faults >= old(fs.faults)
    ensures fs.faults == old(fs.faults) ==> fs.world == w.Unset(p, csvName)
    ensures SameBut(w, fs.world, p, csvName)
    ensures old(fs.trace) <= fs.trace && TraceSameBut(fs.trace, from, w, p, csvName)
  {
    ghost var before := fs.world;
    var _ := fs.Remove(p, csvName);
    SameUnset(w, before, p, csvName);
    WorldUpdates(before, p, csvName, "", "");
    SameButTransitive(w, before, fs.world, p, csvName);
  }

  /** The branch of storage_append_row that creates the CSV, and removes it again when a later step fails.
      A file that the probe has missed is truncated. When the header write itself fails there is no
      clean-up; when one later call fails, the clean-up leaves no trace. */
  method CreateAndAppend(fs: FileSystem, p: Place, csvName: string, schema: seq<Column>, stored: seq<SqlValue>)
    returns (code: Option<ErrorCode>, ghost created: bool)
    requires |schema| == |stored| && TypesMatch(schema, stored)
    modifies fs`world, fs`faults, fs`lastFailed, fs`trace
    ensures fs.faults >= old(fs.faults)
    ensures fs.faults > old(fs.faults) ==>
              || code == Some(Io)
              || (created && code.Some?
                  && AppendChecked(Some(schema), HeaderLine(Names(schema)), stored) == Err(code.value))
    ensures fs.faults == old(fs.faults) ==>
              match AppendChecked(Some(schema), HeaderLine(Names(schema)), stored)
              case Err(c) => code == Some(c) && fs.world == old(fs.world).Unset(p, csvName)
              case Ok(csv) => code == None && fs.world == old(fs.world).Set(p, csvName, csv)
    ensures old(fs.trace) < fs.trace
    ensures !created ==> code.Some? && fs.faults == old(fs.faults) + 1 && fs.trace == old(fs.trace) + [fs.world]
    ensures created && fs.faults == old(fs.faults) + 1 ==>
              match AppendChecked(Some(schema), HeaderLine(Names(schema)), stored)
              case Err(_) => true
              case Ok(_) => fs.world == old(fs.world).Unset(p, csvName)
    ensures SameBut(old(fs.world), fs.world, p, csvName)
    ensures old(fs.trace) <= fs.trace && TraceSameBut(fs.trace, |old(fs.trace)|, old(fs.world), p, csvName)
  {
    hide HeaderLine, WithRow, TypesMatch;
    ghost var w := fs.world;
    var header := new File("");
    WriteHeader(header, Names(schema));
    assert header.bytes == HeaderLine(Names(schema));
    var ok := fs.Write(p, csvName, header.bytes, Creating(p, csvName));
    created := ok;
    if !ok { return Some(Io), false; }
    ghost var w1, t1 := fs.world, fs.trace;
    assert w1 == w.Set(p, csvName, HeaderLine(Names(schema)));
    code := AppendToCsv(fs, p, csvName, Some(schema), stored);
    TraceExtends(t1, fs.trace, |old(fs.trace)|, w, w1, p, csvName);
    SameButTransitive(w, w1, fs.world, p, csvName);
    if code.Some? {
      CleanUpCreated(fs, p, csvName, w, |old(fs.trace)|);
    } else {
      WorldUpdates(w, p, csvName, header.bytes, WithRow(header.bytes, stored));
    }
  }

  /** storage_append_row: with working I/O the outcome is that of AppendRow, and a refused INSERT leaves
      no trace; nor does an INSERT that has created the CSV and in which then one call fails. Whatever
      fails, only the table's CSV can differ. If the probe misses the CSV, the outcome is that of a
      table without one: with a column list, the rows that were there are gone. */
  method StorageAppendRow(fs: FileSystem, p: Place, schemaPart: Option<string>, table: string,
                          columns: seq<string>, values: seq<SqlValue>)
    returns (code: Option<ErrorCode>, ghost created: bool)
    modifies fs
    ensures fs.faults >= old(fs.faults) && fs.misreads >= old(fs.misreads)
    ensures fs.faults > old(fs.faults) ==>
              || code == Some(Io)
              || (created && code.Some?
                  && AppendRow(Lookup(old(fs.world).At(p), SchemaName(schemaPart, table)), None, columns, values)
                     == Err(code.value))
    ensures var w, csvName := old(fs.world), CsvName(schemaPart, table);
            var seen := if fs.misreads == old(fs.misreads) then Lookup(w.At(p), csvName) else None;
            fs.faults == old(fs.faults) ==>
              match AppendRow(Lookup(w.At(p), SchemaName(schemaPart, table)), seen, columns, values)
              case Err(c) => code == Some(c) && fs.world == if created then w.Unset(p, csvName) else w
              case Ok(csv) => code == None && fs.world == w.Set(p, csvName, csv)
    ensures created ==> fs.misreads > old(fs.misreads) || CsvName(schemaPart, table) !in old(fs.world).At(p)
    ensures created && fs.faults == old(fs.faults) + 1 ==>
              match AppendRow(Lookup(old(fs.world).At(p), SchemaName(schemaPart, table)), None, columns, values)
              case Err(_) => true
              case Ok(_) => fs.world == old(fs.world).Unset(p, CsvName(schemaPart, table))
    ensures fs.trace == old(fs.trace) ==> fs.world == old(fs.world)
    ensures fs.misreads == old(fs.misreads) && code.Some? && CsvName(schemaPart, table) in old(fs.world).At(p) ==>
              fs.world == old(fs.world) || fs.trace == old(fs.trace) + [fs.world]
    ensures SameBut(old(fs.world), fs.world, p, CsvName(schemaPart, table))
    ensures old(fs.trace) <= fs.trace
    ensures TraceSameBut(fs.trace, |old(fs.trace)|, old(fs.world), p, CsvName(schemaPart, table))
  {
    hide LoadOptionalSchema, StoredValues, AppendChecked, HeaderLine, TypesMatch, RelativeName;
    var csvName := CsvName(schemaPart, table);
    created := false;
    var prepared := PrepareInsert(fs, p, SchemaName(schemaPart, table), columns, values);
    if prepared.Err? { return Some(prepared.code), false; }
    var schema, stored := prepared.value.schema, prepared.value.stored;
    var found := fs.Exists(p, csvName);
    if found {
      code := AppendToCsv(fs, p, csvName, schema, stored);
    } else if schema == None || columns == [] {
      return Some(Io), false;
    } else {
      code, created := CreateAndAppend(fs, p, csvName, schema.value, stored);
    }
  }

  /** A refused INSERT that had created its CSV leaves the directory as it was. */
  lemma CreatedAndRemoved(w: World, p: Place, csvName: string)
    requires csvName !in w.At(p)
    ensures w.Unset(p, csvName) == w
  {
    assert w.At(p) - {csvName} == w.At(p);
  }

  /** storage_select_projection */
  method StorageSelectProjection(fs: FileSystem, p: Place, schemaPart: Option<string>, table: string,
                                 columns: seq<string>, selectAll: bool, out: File) returns (code: Option<ErrorCode>)
    requires out.AtEnd()
    modifies fs`faults, fs`lastFailed, out
    ensures out.AtEnd()
    ensures var dir := fs.world.At(p);
            || (code == Some(Io) && fs.faults > old(fs.faults))
            || (fs.faults == old(fs.faults) &&
                match SelectRows(Lookup(dir, SchemaName(schemaPart, table)), Lookup(dir, CsvName(schemaPart, table)),
                                 selectAll, columns)
                case Err(c) => code == Some(c)
                case Ok(rows) => code == None && out.bytes == old(out.bytes) + rows)
  {
    hide CopyRecords, ProjectRecords, LoadSchema, ReadAll, ParseFields;
    var loaded := OpenSchema(fs, p, SchemaName(schemaPart, table));
    if loaded.Err? { return Some(loaded.code); }
    var schema := loaded.value;
    var bytes := fs.Open(p, CsvName(schemaPart, table));
    if bytes == None { return Some(Io); }
    var file := new File(bytes.value);
    var header := LoadCsvHeader(file);
    if header == None { return Some(Parse); }
    if schema.Some? {
      var matches := HeaderMatchesSchema(header.value, schema.value);
      if !matches { return Some(Parse); }
    }
    var ok;
    if selectAll {
      file.Rewind();
      assert file.bytes[0..] == file.bytes;
      CopyRendered(file.bytes, |header.value|, true);
      ok := CopyStreamValidated(file, out, |header.value|);
    } else {
      if schema == None { return Some(Unsupported); }
      if columns == [] { return Some(Argument); }
      var indices := SelectIndices(schema.value, columns);
      if indices == None { return Some(Argument); }
      ProjectRendered(file.Unread(), schema.value, indices.value);
      ok := WriteProjection(file, out, schema.value, columns, indices.value);
    }
    if !ok { return Some(Parse); }
    var flushed := fs.Works(Buffering);
    code := if flushed then None else Some(Io);
  }

  method WriteProjection(file: File, out: File, schema: seq<Column>, columns: seq<string>, indices: seq<nat>)
    returns (ok: bool)
    requires file != out && file.Valid() && out.AtEnd() && ValidIndices(indices, |schema|)
    modifies file`pos, out
    ensures out.AtEnd()
    ensures match ProjectRecords(old(file.Unread()), schema, indices)
            case Err(_) => !ok
            case Ok(rows) => ok && out.bytes == old(out.bytes) + (HeaderLine(columns) + rows)
  {
    hide ProjectRecords, HeaderLine;
    ghost var start, rest := out.bytes, ProjectRecords(file.Unread(), schema, indices);
    WriteHeader(out, columns);
    ok := ProjectStream(file, out, schema, indices);
    if rest.Ok? {
      Associative(start, HeaderLine(columns), rest.value);
    }
  }
}
