/** Schema files and the mapping of INSERT values to schema order (src/storage.c:524-762, 973-1089). */
module Schema {
  import opened SqlTypes
  import opened Csv

  datatype ColumnType = IntColumn | StringColumn

  datatype Column = Column(name: string, kind: ColumnType)

  function Names(schema: seq<Column>): (names: seq<string>)
    ensures |names| == |schema|
  {
    seq(|schema|, i requires 0 <= i < |schema| => schema[i].name)
  }

  /** What a schema that loads guarantees. */
  ghost predicate ValidSchema(schema: seq<Column>) {
    && |schema| > 0
    && Distinct(Names(schema))
    && forall i :: 0 <= i < |schema| ==> schema[i].name != ""
  }

  /** The first index of name, or |names| when it does not occur. */
  function IndexOf(names: seq<string>, name: string): (i: nat)
    ensures i <= |names|
    ensures i < |names| ==> names[i] == name
    ensures name !in names[..i]
    ensures i == |names| <==> name !in names
  {
    if names == [] || names[0] == name then 0 else 1 + IndexOf(names[1..], name)
  }

  // ---------- loading ----------

  function Lower(s: string): string {
    seq(|s|, i requires 0 <= i < |s| => ToLower(s[i]))
  }

  function ParseType(text: string): Option<ColumnType> {
    if Lower(text) == "int" then Some(IntColumn)
    else if Lower(text) == "string" then Some(StringColumn)
    else None
  }

  function SchemaRow(record: string, schema: seq<Column>): (r: Option<Column>)
    ensures r.Some? ==> r.value.name != "" && r.value.name !in Names(schema)
  {
    match ParseFields(record)
    case None => None
    case Some(fields) =>
      if |fields| != 2 || fields[0] == "" || fields[0] in Names(schema) then None
      else
        match ParseType(fields[1])
        case None => None
        case Some(kind) => Some(Column(fields[0], kind))
  }

  lemma ExtendSchema(schema: seq<Column>, column: Column)
    requires schema != [] ==> ValidSchema(schema)
    requires column.name != "" && column.name !in Names(schema)
    ensures ValidSchema(schema + [column])
  {
    assert Names(schema + [column]) == Names(schema) + [column.name];
  }

  function LoadRows(s: string, schema: seq<Column>): (r: Result<seq<Column>>)
    requires schema != [] ==> ValidSchema(schema)
    ensures r.Ok? ==> ValidSchema(r.value) && schema <= r.value
    ensures r.Err? ==> r.code == Parse
    decreases |s|
  {
    match ReadRecord(s)
    case EndOfFile => if schema == [] then Err(Parse) else Ok(schema)
    case Unterminated => Err(Parse)
    case Record(text, _, rest) =>
      match SchemaRow(text, schema)
      case None => Err(Parse)
      case Some(column) =>
        ExtendSchema(schema, column);
        LoadRows(rest, schema + [column])
  }

  function LoadSchema(bytes: string): (r: Result<seq<Column>>)
    ensures r.Ok? ==> ValidSchema(r.value)
    ensures r.Err? ==> r.code == Parse
  {
    match ReadRecord(bytes)
    case EndOfFile => Err(Parse)
    case Unterminated => Err(Parse)
    case Record(text, _, rest) =>
      if ParseFields(text) != Some(["name", "type"]) then Err(Parse) else LoadRows(rest, [])
  }

  // ---------- mapping ----------

  /** An INSERT fits a schema when it is positional and complete, or its column list is a
      permutation of the schema's names. */
  predicate Fits(schema: seq<Column>, columns: seq<string>, values: seq<SqlValue>) {
    && |values| == |schema|
    && (columns == [] || multiset(columns) == multiset(Names(schema)))
  }

  lemma PermutationShape(schema: seq<Column>, columns: seq<string>)
    requires multiset(columns) == multiset(Names(schema))
    ensures |columns| == |schema|
    ensures forall c :: c in columns <==> c in Names(schema)
  {
    assert |multiset(columns)| == |columns| && |multiset(Names(schema))| == |schema|;
    forall c
      ensures c in columns <==> c in Names(schema)
    {
      assert c in columns <==> c in multiset(columns);
      assert c in Names(schema) <==> c in multiset(Names(schema));
    }
  }

  /** The values in schema order. */
  function Mapped(schema: seq<Column>, columns: seq<string>, values: seq<SqlValue>): (ordered: seq<SqlValue>)
    requires Fits(schema, columns, values)
    ensures |ordered| == |schema|
  {
    if columns == [] then values
    else
      PermutationShape(schema, columns);
      seq(|schema|, i requires 0 <= i < |schema| =>
        assert Names(schema)[i] == schema[i].name; values[IndexOf(columns, schema[i].name)])
  }

  predicate TypesMatch(schema: seq<Column>, values: seq<SqlValue>)
    requires |schema| == |values|
  {
    forall i :: 0 <= i < |schema| ==> (schema[i].kind == StringColumn <==> values[i].StringValue?)
  }

  lemma {:induction false} DistinctCount<T>(s: seq<T>, x: T)
    requires Distinct(s)
    ensures multiset(s)[x] == if x in s then 1 else 0
  {
    if s != [] {
      var init, last := s[..|s| - 1], s[|s| - 1];
      assert s == init + [last];
      DistinctCount(init, x);
    }
  }

  lemma SameElements<T>(a: seq<T>, b: seq<T>)
    requires Distinct(a) && Distinct(b)
    requires forall x :: x in a <==> x in b
    ensures multiset(a) == multiset(b)
  {
    forall x
      ensures multiset(a)[x] == multiset(b)[x]
    {
      DistinctCount(a, x);
      DistinctCount(b, x);
    }
  }

  lemma {:induction false} DistinctCardinality<T>(s: seq<T>)
    requires Distinct(s)
    ensures |set x | x in s| == |s|
  {
    if s != [] {
      var init, last := s[..|s| - 1], s[|s| - 1];
      assert s == init + [last];
      DistinctCardinality(init);
      assert (set x | x in s) == (set x | x in init) + {last};
    }
  }

  lemma SubsetOfSameSize<T>(a: set<T>, b: set<T>)
    requires a <= b && |a| == |b|
    ensures a == b
  {
    assert |b - a| == 0;
  }

  /** Pigeonhole: distinct known columns, as many as the schema has, name every schema column. */
  lemma Pigeonhole(schema: seq<Column>, columns: seq<string>)
    requires Distinct(Names(schema)) && |columns| == |schema|
    ensures multiset(columns) == multiset(Names(schema))
       <==> Distinct(columns) && forall c :: c in columns ==> c in Names(schema)
  {
    var names := Names(schema);
    if Distinct(columns) && forall c :: c in columns ==> c in names {
      var a, b := set c | c in columns, set c | c in names;
      DistinctCardinality(columns);
      DistinctCardinality(names);
      SubsetOfSameSize(a, b);
      forall c
        ensures c in columns <==> c in names
      {
        assert c in a <==> c in b;
      }
      SameElements(columns, names);
    }
    if multiset(columns) == multiset(names) {
      PermutationShape(schema, columns);
      forall i, j | 0 <= i < j < |columns|
        ensures columns[i] != columns[j]
      {
        DistinctCount(names, columns[i]);
        assert columns == columns[..j] + columns[j..];
        assert columns[i] in multiset(columns[..j]);
        assert columns[j] in multiset(columns[j..]);
      }
    }
  }

  function Project<P, Q>(s: seq<P>, f: P -> Q): seq<Q> {
    seq(|s|, i requires 0 <= i < |s| => f(s[i]))
  }

  function Without<T>(s: seq<T>, k: nat): seq<T>
    requires k < |s|
  {
    s[..k] + s[k + 1..]
  }

  lemma WithoutOne<T>(s: seq<T>, k: nat)
    requires k < |s|
    ensures multiset(s) == multiset(Without(s, k)) + multiset{s[k]}
  {
    assert s == s[..k] + [s[k]] + s[k + 1..];
  }

  lemma {:induction false} ProjectionMultiset<P, Q>(a: seq<P>, b: seq<P>, f: P -> Q)
    requires multiset(a) == multiset(b)
    ensures multiset(Project(a, f)) == multiset(Project(b, f))
    decreases |a|
  {
    hide Project, Without;
    assert |multiset(a)| == |a| && |multiset(b)| == |b|;
    if a != [] {
      assert a[0] in multiset(a) && a[0] in multiset(b);
      var k :| 0 <= k < |b| && b[k] == a[0];
      RestAgrees(a, b, k);
      ProjectionMultiset(Without(a, 0), Without(b, k), f);
      ProjectWithout(a, f, 0);
      ProjectWithout(b, f, k);
    } else {
      assert b == [];
    }
  }

  lemma RestAgrees<P>(a: seq<P>, b: seq<P>, k: nat)
    requires a != [] && k < |b| && b[k] == a[0] && multiset(a) == multiset(b)
    ensures multiset(Without(a, 0)) == multiset(Without(b, k)) && |Without(a, 0)| < |a|
  {
    WithoutOne(a, 0);
    WithoutOne(b, k);
    assert multiset(Without(a, 0)) == multiset(a) - multiset{a[0]};
    assert multiset(Without(b, k)) == multiset(b) - multiset{a[0]};
  }

  lemma ProjectWithout<P, Q>(s: seq<P>, f: P -> Q, k: nat)
    requires k < |s|
    ensures multiset(Project(s, f)) == multiset(Project(Without(s, k), f)) + multiset{f(s[k])}
  {
    WithoutOne(Project(s, f), k);
    assert Without(Project(s, f), k) == Project(Without(s, k), f);
  }

  function Pairs(columns: seq<string>, values: seq<SqlValue>): (pairs: seq<(string, SqlValue)>)
    requires |columns| == |values|
    ensures |pairs| == |columns|
  {
    seq(|columns|, i requires 0 <= i < |columns| => (columns[i], values[i]))
  }

  /** Each schema slot holds the value that was listed beside its name. */
  lemma MappedPairs(schema: seq<Column>, columns: seq<string>, values: seq<SqlValue>)
    requires Fits(schema, columns, values) && columns != [] && ValidSchema(schema)
    ensures |columns| == |values|
    ensures multiset(Pairs(Names(schema), Mapped(schema, columns, values))) == multiset(Pairs(columns, values))
  {
    PermutationShape(schema, columns);
    Pigeonhole(schema, columns);
    var names, ordered := Names(schema), Mapped(schema, columns, values);
    var a, b := Pairs(names, ordered), Pairs(columns, values);
    forall p | p in a
      ensures p in b
    {
      var i :| 0 <= i < |a| && a[i] == p;
      assert names[i] in names;
      var k := IndexOf(columns, names[i]);
      assert b[k] == p;
    }
    forall p | p in b
      ensures p in a
    {
      var k :| 0 <= k < |b| && b[k] == p;
      assert columns[k] in columns;
      var i :| 0 <= i < |names| && names[i] == columns[k];
      assert IndexOf(columns, names[i]) == k;
      assert a[i] == p;
    }
    SameElements(a, b);
  }

  /** Listing the columns, each with its value, in another order stores the same row. */
  lemma JointReordering(schema: seq<Column>, columns: seq<string>, values: seq<SqlValue>,
                        columns': seq<string>, values': seq<SqlValue>)
    requires ValidSchema(schema)
    requires columns != [] && Fits(schema, columns, values)
    requires columns' != [] && |columns'| == |values'| && |columns| == |values|
    requires multiset(Pairs(columns, values)) == multiset(Pairs(columns', values'))
    ensures Fits(schema, columns', values')
    ensures Mapped(schema, columns', values') == Mapped(schema, columns, values)
  {
    var b, b' := Pairs(columns, values), Pairs(columns', values');
    assert |multiset(b)| == |b| && |multiset(b')| == |b'|;
    var first := (p: (string, SqlValue)) => p.0;
    ProjectionMultiset(b, b', first);
    assert Project(b, first) == columns && Project(b', first) == columns';
    PermutationShape(schema, columns);
    PermutationShape(schema, columns');
    Pigeonhole(schema, columns');
    forall i | 0 <= i < |schema|
      ensures Mapped(schema, columns', values')[i] == Mapped(schema, columns, values)[i]
    {
      assert Names(schema)[i] in Names(schema);
      var k := IndexOf(columns, schema[i].name);
      assert b[k] in multiset(b) && b[k] in multiset(b');
      var k' :| 0 <= k' < |b'| && b'[k'] == b[k];
      assert columns'[k'] == schema[i].name;
    }
  }

  /** Mapping neither loses nor repeats a value. */
  lemma MappedKeepsValues(schema: seq<Column>, columns: seq<string>, values: seq<SqlValue>)
    requires ValidSchema(schema) && Fits(schema, columns, values)
    ensures multiset(Mapped(schema, columns, values)) == multiset(values)
  {
    if columns != [] {
      MappedPairs(schema, columns, values);
      var a, b := Pairs(Names(schema), Mapped(schema, columns, values)), Pairs(columns, values);
      var second := (p: (string, SqlValue)) => p.1;
      ProjectionMultiset(a, b, second);
      assert Project(a, second) == Mapped(schema, columns, values);
      assert Project(b, second) == values;
    }
  }
}
