/** `TdTableImporter.output`: import a payload into a table; when the
    import reports that the table does not exist, create the table and try
    the import once more. Any other failure, a failure of the creation, or
    a failure of the retry is handed to the caller. */
module TableImporter {
  import opened Seqs

  type Bytes = seq<bv8>

  /** A call on the API client. */
  datatype Call =
    | CreateDatabase(database: string)
    | CreateTable(database: string, table: string)
    | ImportTable(database: string, table: string, data: Bytes)

  /** How a call ends: normally, with `FileNotFoundException`, or with any
      other `IOException` or `ApiError`. */
  datatype Reply = Ok | NotFound | OtherError(reason: string)

  /** The calls made, in order, and how `output` ends (`Ok`, or the
      exception it lets through). */
  datatype Run = Run(trace: seq<Call>, result: Reply)

  /** The API client as a script: `respond(n, c)` is the reply to `c` when
      it is call number `n` (from 0) of this `output`. */
  function Output(database: string, table: string, data: Bytes, respond: (nat, Call) -> Reply): (r: Run)
    ensures 1 <= |r.trace| <= 3
    ensures r.trace == [ImportTable(database, table, data), CreateTable(database, table), ImportTable(database, table, data)][..|r.trace|]
    ensures forall i :: 0 <= i < |r.trace| - 1 ==> respond(i, r.trace[i]) == [NotFound, Ok][i]
    ensures r.result == respond(|r.trace| - 1, r.trace[|r.trace| - 1])
    ensures |r.trace| < 3 ==> r.result != [NotFound, Ok][|r.trace| - 1]
  {
    var importCall := ImportTable(database, table, data);
    var first := respond(0, importCall);
    if first != NotFound then Run([importCall], first)
    else
      var created := respond(1, CreateTable(database, table));
      if created != Ok then Run([importCall, CreateTable(database, table)], created)
      else Run([importCall, CreateTable(database, table), importCall], respond(2, importCall))
  }

  function CountImports(trace: seq<Call>): nat {
    if |trace| == 0 then 0
    else (if trace[0].ImportTable? then 1 else 0) + CountImports(trace[1..])
  }

  function CountCreateTables(trace: seq<Call>): nat {
    if |trace| == 0 then 0
    else (if trace[0].CreateTable? then 1 else 0) + CountCreateTables(trace[1..])
  }

  /** Every call is an import or a table creation on the given database and
      table, imports carry the given payload, and there are at most two
      imports and at most one table creation; no database is ever created. */
  lemma OutputCalls(database: string, table: string, data: Bytes, respond: (nat, Call) -> Reply)
    ensures var r := Output(database, table, data, respond);
      && (forall c :: c in r.trace ==> !c.CreateDatabase? && c.database == database && c.table == table)
      && (forall c :: c in r.trace && c.ImportTable? ==> c.data == data)
      && CountImports(r.trace) <= 2
      && CountCreateTables(r.trace) <= 1
  {
    var r := Output(database, table, data, respond);
    var imp := ImportTable(database, table, data);
    var ct := CreateTable(database, table);
    assert CountImports([imp]) == 1 && CountCreateTables([imp]) == 0 by {
      assert [imp][1..] == [];
    }
    assert CountImports([imp, ct]) == 1 && CountCreateTables([imp, ct]) == 0 + 1 by {
      assert [imp, ct][1..] == [ct] && [ct][1..] == [];
    }
    assert CountImports([imp, ct, imp]) == 2 && CountCreateTables([imp, ct, imp]) == 1 by {
      assert [imp, ct, imp][1..] == [ct, imp] && [ct, imp][1..] == [imp] && [imp][1..] == [];
    }
  }

  /** A first import that succeeds is the only call. */
  lemma ImportSucceedsFirstTime(database: string, table: string, data: Bytes, respond: (nat, Call) -> Reply)
    requires respond(0, ImportTable(database, table, data)) == Ok
    ensures Output(database, table, data, respond) == Run([ImportTable(database, table, data)], Ok)
  {
  }

  /** A first import failing for any reason other than a missing table
      fails the whole output, with no creation and no retry. */
  lemma OtherErrorPropagates(database: string, table: string, data: Bytes, respond: (nat, Call) -> Reply)
    requires respond(0, ImportTable(database, table, data)).OtherError?
    ensures Output(database, table, data, respond) ==
      Run([ImportTable(database, table, data)], respond(0, ImportTable(database, table, data)))
  {
  }

  /** A missing table: create it, then import again; the retry decides the
      outcome, and its failure (a second `NotFound` included) propagates. */
  lemma TableNotFoundCreatesAndRetries(database: string, table: string, data: Bytes, respond: (nat, Call) -> Reply)
    requires respond(0, ImportTable(database, table, data)) == NotFound
    requires respond(1, CreateTable(database, table)) == Ok
    ensures Output(database, table, data, respond) ==
      Run([ImportTable(database, table, data), CreateTable(database, table), ImportTable(database, table, data)],
          respond(2, ImportTable(database, table, data)))
  {
  }

  /** A failed table creation propagates, and no second import is made. */
  lemma CreateFailurePropagates(database: string, table: string, data: Bytes, respond: (nat, Call) -> Reply)
    requires respond(0, ImportTable(database, table, data)) == NotFound
    requires respond(1, CreateTable(database, table)) != Ok
    ensures Output(database, table, data, respond) ==
      Run([ImportTable(database, table, data), CreateTable(database, table)], respond(1, CreateTable(database, table)))
  {
  }

  /** The output succeeds exactly when the first import does, or when the
      table was missing, its creation succeeded and the retry succeeded. */
  lemma OutputSucceedsIff(database: string, table: string, data: Bytes, respond: (nat, Call) -> Reply)
    ensures var imp := ImportTable(database, table, data);
      Output(database, table, data, respond).result == Ok <==>
        || respond(0, imp) == Ok
        || (respond(0, imp) == NotFound && respond(1, CreateTable(database, table)) == Ok && respond(2, imp) == Ok)
  {
  }

  // ---------------------------------------------------------------------
  // The repository's test client

  /** The test suite's mock client: it counts every call, fails with
      `FileNotFoundException` at the listed call numbers, and records an
      event for each call that succeeds. */
  datatype Mock = Mock(importTableErrors: set<nat>, createTableErrors: set<nat>, createDatabaseErrors: set<nat>)

  function MockReply(mock: Mock, n: nat, c: Call): Reply {
    match c
    case CreateDatabase(_) => if n in mock.createDatabaseErrors then NotFound else Ok
    case CreateTable(_, _) => if n in mock.createTableErrors then NotFound else Ok
    case ImportTable(_, _, _) => if n in mock.importTableErrors then NotFound else Ok
  }

  /** The mock as the scripted client `Output` takes. */
  function MockClient(mock: Mock): (nat, Call) -> Reply {
    (n: nat, c: Call) => MockReply(mock, n, c)
  }

  /** The event text the mock records: "cd:db", "ct:db#table", "it:db#table#data". */
  function EventText(c: Call): string {
    match c
    case CreateDatabase(db) => "cd:" + db
    case CreateTable(db, t) => "ct:" + db + "#" + t
    case ImportTable(db, t, d) => "it:" + db + "#" + t + "#" + Latin1(d)
  }

  /** `new String(data)` for ASCII data, such as the test payload: each
      byte read as the character with the same code. */
  function Latin1(data: Bytes): (s: string)
    ensures |s| == |data|
  {
    seq(|data|, i requires 0 <= i < |data| => data[i] as char)
  }

  /** The event texts of every call of a trace. */
  function EventTexts(trace: seq<Call>): seq<string> {
    seq(|trace|, i requires 0 <= i < |trace| => EventText(trace[i]))
  }

  /** The mock's event list after a run, the trace's first call being call
      number `from`: the texts of the successful calls, in order. */
  function MockEvents(mock: Mock, trace: seq<Call>, from: nat): (events: seq<string>)
    ensures Subseq(events, EventTexts(trace))
    ensures (forall i :: 0 <= i < |trace| ==> MockReply(mock, from + i, trace[i]) == Ok) ==> events == EventTexts(trace)
    ensures (forall i :: 0 <= i < |trace| ==> MockReply(mock, from + i, trace[i]) != Ok) ==> events == []
    decreases |trace|
  {
    if |trace| == 0 then []
    else
      var rest := MockEvents(mock, trace[1..], from + 1);
      assert EventTexts(trace) == [EventText(trace[0])] + EventTexts(trace[1..]);
      assert forall i :: 0 <= i < |trace[1..]| ==> trace[1..][i] == trace[i + 1] && from + 1 + i == from + (i + 1);
      if MockReply(mock, from, trace[0]) == Ok then [EventText(trace[0])] + rest else rest
  }

  /** "testdata".getBytes() */
  const TEST_DATA: Bytes := [0x74, 0x65, 0x73, 0x74, 0x64, 0x61, 0x74, 0x61]

  /** The test payload reads back as the text "testdata". */
  lemma TestDataText()
    ensures Latin1(TEST_DATA) == "testdata"
  {
  }

  /** The event the mock records for importing the test payload. */
  lemma TestImportEventText()
    ensures EventText(ImportTable("testdb", "testtable", TEST_DATA)) == "it:testdb#testtable#testdata"
  {
    TestDataText();
  }

  /** testImportTableWithoutException: one event, the import. */
  lemma TestImportTableWithoutException()
    ensures var mock := Mock({}, {}, {});
      var r := Output("testdb", "testtable", TEST_DATA, MockClient(mock));
      r.result == Ok && MockEvents(mock, r.trace, 0) == ["it:testdb#testtable#testdata"]
  {
    var mock := Mock({}, {}, {});
    var imp := ImportTable("testdb", "testtable", TEST_DATA);
    TestImportEventText();
    assert Output("testdb", "testtable", TEST_DATA, MockClient(mock)) == Run([imp], Ok);
    assert [imp][1..] == [];
    assert MockEvents(mock, [imp], 0) == [EventText(imp)] + MockEvents(mock, [], 1);
  }

  /** testImportTableWithTableNotFound: the table creation, then the import. */
  lemma TestImportTableWithTableNotFound()
    ensures var mock := Mock({0}, {}, {});
      var r := Output("testdb", "testtable", TEST_DATA, MockClient(mock));
      r.result == Ok && MockEvents(mock, r.trace, 0) == ["ct:testdb#testtable", "it:testdb#testtable#testdata"]
  {
    var mock := Mock({0}, {}, {});
    var imp := ImportTable("testdb", "testtable", TEST_DATA);
    var ct := CreateTable("testdb", "testtable");
    assert Output("testdb", "testtable", TEST_DATA, MockClient(mock)) == Run([imp, ct, imp], Ok);
    MockEventsTableNotFound();
  }

  /** The mock's events for the trace import, create, import with the first import failing. */
  lemma MockEventsTableNotFound()
    ensures var imp := ImportTable("testdb", "testtable", TEST_DATA);
      var ct := CreateTable("testdb", "testtable");
      MockEvents(Mock({0}, {}, {}), [imp, ct, imp], 0) == ["ct:testdb#testtable", "it:testdb#testtable#testdata"]
  {
    var mock := Mock({0}, {}, {});
    var imp := ImportTable("testdb", "testtable", TEST_DATA);
    var ct := CreateTable("testdb", "testtable");
    assert MockEvents(mock, [imp, ct, imp], 0) == [EventText(ct), EventText(imp)] by {
      assert [imp, ct, imp][1..] == [ct, imp] && [ct, imp][1..] == [imp] && [imp][1..] == [];
      assert MockEvents(mock, [imp], 2) == [EventText(imp)] + MockEvents(mock, [], 3);
      assert MockEvents(mock, [ct, imp], 1) == [EventText(ct)] + MockEvents(mock, [imp], 2);
    }
    TestImportEventText();
    assert EventText(ct) == "ct:testdb#testtable";
  }

  /** The scenario of testImportTableWithDatabaseNotFound, as the code
      behaves: the failed table creation propagates as `NotFound` and no
      event is recorded (the test expects a database creation the code
      does not make). */
  lemma DatabaseNotFoundScenario()
    ensures var mock := Mock({0}, {1}, {});
      var r := Output("testdb", "testtable", TEST_DATA, MockClient(mock));
      r.result == NotFound && MockEvents(mock, r.trace, 0) == []
  {
    var mock := Mock({0}, {1}, {});
    var imp := ImportTable("testdb", "testtable", TEST_DATA);
    var ct := CreateTable("testdb", "testtable");
    assert [imp, ct][1..] == [ct] && [ct][1..] == [];
    assert MockEvents(mock, [ct], 1) == MockEvents(mock, [], 2);
    assert MockEvents(mock, [imp, ct], 0) == MockEvents(mock, [ct], 1);
  }
}
