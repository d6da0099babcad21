/**
 The readiness probe of one target, `_perform_ping` (api/keepalive.py, lines
 45-88), with the Supabase client replaced by the answers its calls give.
 The probe never raises: every fault becomes a failed ProbeResult.
 */
module Probe {
  import opened Wrappers
  import Text
  import opened SchemaMap

  /** What a backend call returned, or the text of the exception it raised. */
  type Fallible<T> = Result<T, string>

  /** A row of the schema query, together with the backend's answer to that schema's table query. */
  datatype SchemaRow = SchemaRow(name: string, tables: Fallible<seq<string>>)

  /**
   Everything the probe learns from one target: whether the client could be
   created, the (non-system) schemas and, per schema, its base tables, and
   the answer to the one-row query against the table chosen for sampling.
   */
  datatype Backend = Backend(client: Fallible<()>, schemas: Fallible<seq<SchemaRow>>, sample: Fallible<()>)

  /** The table query for `schema` raised `detail`. */
  datatype TableFault = TableFault(schema: string, detail: string)

  /** How the probe ended, one case per cause; all faults look alike to the caller. */
  datatype Outcome =
    | ConnectFault(detail: string)
    | SchemaQueryFault(detail: string)
    | NoSchemas
    | TableQueryFault(schema: string, detail: string)
    | NoTables
    | SampleFault(target: string, detail: string)
    | Pinged(target: string, found: seq<Entry>)

  /** The `(bool, str)` pair `_perform_ping` returns. */
  datatype ProbeResult = ProbeResult(success: bool, message: string)

  /** The table query for this row answered with at least one table. */
  predicate HasTables(row: SchemaRow) {
    row.tables.Success? && row.tables.value != []
  }

  /** Every table query answered, none raised. */
  predicate Answered(rows: seq<SchemaRow>) {
    forall i :: 0 <= i < |rows| ==> rows[i].tables.Success?
  }

  function Names(rows: seq<SchemaRow>): (ns: seq<string>)
    ensures |ns| == |rows|
    ensures forall i :: 0 <= i < |rows| ==> ns[i] == rows[i].name
  {
    seq(|rows|, i requires 0 <= i < |rows| => rows[i].name)
  }

  /**
   The loop over the schemas: each schema with tables is stored under its
   name; the first table query that raises ends the loop with its fault.
   */
  function CollectTables(rows: seq<SchemaRow>): (r: Result<seq<Entry>, TableFault>)
    ensures r.Success? ==> Distinct(Keys(r.value)) && forall e :: e in r.value ==> e.tables != []
    ensures r.Failure? <==> !Answered(rows)
    ensures r.Failure? ==>
      exists i :: 0 <= i < |rows| && rows[i].tables.Failure? &&
        r.error == TableFault(rows[i].name, rows[i].tables.error) &&
        forall j :: 0 <= j < i ==> rows[j].tables.Success?
    decreases |rows|
  {
    if |rows| == 0 then Success([])
    else
      var prefix, last := rows[..|rows| - 1], rows[|rows| - 1];
      assert forall i :: 0 <= i < |prefix| ==> prefix[i] == rows[i];
      match CollectTables(prefix)
      case Failure(f) => Failure(f)
      case Success(m) =>
        match last.tables
        case Failure(d) => Failure(TableFault(last.name, d))
        case Success(ts) => Success(if ts == [] then m else Put(m, last.name, ts))
  }

  /** `schema.table` of the first table of the first schema in `found`. */
  function SampleTarget(found: seq<Entry>): string
    requires |found| > 0 && found[0].tables != []
  {
    found[0].schema + "." + found[0].tables[0]
  }

  /** The steps of the probe, in order, stopping at the first that does not go through. */
  function Investigate(b: Backend): (o: Outcome)
    ensures o.Pinged? ==> o.found != [] && forall e :: e in o.found ==> e.tables != []
  {
    match b.client
    case Failure(d) => ConnectFault(d)
    case Success(_) =>
      match b.schemas
      case Failure(d) => SchemaQueryFault(d)
      case Success(rows) =>
        if |rows| == 0 then NoSchemas
        else
          match CollectTables(rows)
          case Failure(f) => TableQueryFault(f.schema, f.detail)
          case Success(found) =>
            if |found| == 0 then NoTables
            else
              assert found[0] in found;
              var target := SampleTarget(found);
              match b.sample
              case Failure(d) => SampleFault(target, d)
              case Success(_) => Pinged(target, found)
  }

  /** `s: [t1, t2]` */
  function EntryText(e: Entry): string {
    e.schema + ": [" + Text.Join(", ", e.tables) + "]"
  }

  function EntryTexts(found: seq<Entry>): (ts: seq<string>)
    ensures |ts| == |found|
    ensures forall i :: 0 <= i < |found| ==> ts[i] == EntryText(found[i])
  {
    seq(|found|, i requires 0 <= i < |found| => EntryText(found[i]))
  }

  /** Every schema with its tables, `s1: [t1, t2], s2: [t3]`. */
  function SchemaInfo(found: seq<Entry>): string {
    Text.Join(", ", EntryTexts(found))
  }

  function FaultMessage(name: string, detail: string): string {
    "Error pinging " + name + ": " + detail
  }

  function NoSchemasMessage(name: string): string {
    "No schemas found for " + name
  }

  function NoTablesMessage(name: string): string {
    "No tables found in any schema for " + name
  }

  function SuccessPrefix(name: string): string {
    "Pinged " + name + " (schemas and tables: "
  }

  const SuccessSuffix: string := ") successfully"

  /** The pair returned for an outcome; `name` is the target's name as the f-string renders it. */
  function Report(name: string, o: Outcome): ProbeResult {
    match o
    case ConnectFault(d) => ProbeResult(false, FaultMessage(name, d))
    case SchemaQueryFault(d) => ProbeResult(false, FaultMessage(name, d))
    case NoSchemas => ProbeResult(false, NoSchemasMessage(name))
    case TableQueryFault(_, d) => ProbeResult(false, FaultMessage(name, d))
    case NoTables => ProbeResult(false, NoTablesMessage(name))
    case SampleFault(_, d) => ProbeResult(false, FaultMessage(name, d))
    case Pinged(_, found) => ProbeResult(true, SuccessPrefix(name) + SchemaInfo(found) + SuccessSuffix)
  }

  /** `_perform_ping(conf)` against the backend `b`, for a target whose name renders as `name`. */
  function Ping(name: string, b: Backend): ProbeResult {
    Report(name, Investigate(b))
  }

  // ---------------------------------------------------------------------
  // Reference definitions of what the schema loop should produce
  // ---------------------------------------------------------------------

  /** The names of the schemas with tables, in schema order, repeats kept. */
  function NonEmptyNames(rows: seq<SchemaRow>): (ns: seq<string>)
    ensures forall k :: k in ns <==> exists i :: 0 <= i < |rows| && rows[i].name == k && HasTables(rows[i])
    decreases |rows|
  {
    if |rows| == 0 then []
    else
      var prefix, last := rows[..|rows| - 1], rows[|rows| - 1];
      assert forall i :: 0 <= i < |prefix| ==> prefix[i] == rows[i];
      NonEmptyNames(prefix) + (if HasTables(last) then [last.name] else [])
  }

  /** `ks` with every repeat after the first occurrence dropped. */
  function Dedup(ks: seq<string>): (r: seq<string>)
    ensures Distinct(r)
    ensures forall k :: k in r <==> k in ks
    decreases |ks|
  {
    if |ks| == 0 then []
    else
      var d, x := Dedup(ks[..|ks| - 1]), ks[|ks| - 1];
      assert ks == ks[..|ks| - 1] + [x];
      if x in d then d else d + [x]
  }

  /** The tables of the last schema called `k` that has tables. */
  function LastTables(rows: seq<SchemaRow>, k: string): Option<seq<string>>
    decreases |rows|
  {
    if |rows| == 0 then None
    else if HasTables(rows[|rows| - 1]) && rows[|rows| - 1].name == k then Some(rows[|rows| - 1].tables.value)
    else LastTables(rows[..|rows| - 1], k)
  }

  /** One entry per schema with tables, in schema order. */
  function NonEmptyEntries(rows: seq<SchemaRow>): (r: seq<Entry>)
    ensures forall e :: e in r ==>
      exists i :: 0 <= i < |rows| && rows[i].name == e.schema && HasTables(rows[i])
    decreases |rows|
  {
    if |rows| == 0 then []
    else
      var prefix, last := rows[..|rows| - 1], rows[|rows| - 1];
      assert forall i :: 0 <= i < |prefix| ==> prefix[i] == rows[i];
      NonEmptyEntries(prefix) + (if HasTables(last) then [Entry(last.name, last.tables.value)] else [])
  }

  // ---------------------------------------------------------------------
  // The schema loop against the reference
  // ---------------------------------------------------------------------

  /** When every table query answers, the keys are the schemas with tables, in order of first appearance. */
  lemma {:induction false} CollectKeys(rows: seq<SchemaRow>)
    requires Answered(rows)
    ensures CollectTables(rows).Success?
    ensures Keys(CollectTables(rows).value) == Dedup(NonEmptyNames(rows))
    decreases |rows|
  {
    if |rows| > 0 {
      var prefix, last := rows[..|rows| - 1], rows[|rows| - 1];
      assert forall i :: 0 <= i < |prefix| ==> prefix[i] == rows[i];
      CollectKeys(prefix);
      if HasTables(last) {
        var ns := NonEmptyNames(prefix) + [last.name];
        assert NonEmptyNames(rows) == ns;
        assert ns[..|ns| - 1] == NonEmptyNames(prefix);
      } else {
        assert NonEmptyNames(rows) == NonEmptyNames(prefix) + [];
        assert NonEmptyNames(prefix) + [] == NonEmptyNames(prefix);
      }
    }
  }

  /** When every table query answers, each key holds the tables of the last schema of that name with tables. */
  lemma {:induction false} CollectValues(rows: seq<SchemaRow>, k: string)
    requires Answered(rows)
    ensures CollectTables(rows).Success?
    ensures Get(CollectTables(rows).value, k) == LastTables(rows, k)
    decreases |rows|
  {
    if |rows| > 0 {
      var prefix := rows[..|rows| - 1];
      assert forall i :: 0 <= i < |prefix| ==> prefix[i] == rows[i];
      CollectValues(prefix, k);
    }
  }

  /**
   With the schema names distinct, as the catalog returns them, the mapping is
   exactly the schemas with tables, each with its own tables, in schema order.
   */
  lemma {:induction false} CollectDistinct(rows: seq<SchemaRow>)
    requires Answered(rows)
    requires Distinct(Names(rows))
    ensures CollectTables(rows) == Success(NonEmptyEntries(rows))
    decreases |rows|
  {
    if |rows| > 0 {
      var prefix, last := rows[..|rows| - 1], rows[|rows| - 1];
      assert forall i :: 0 <= i < |prefix| ==> prefix[i] == rows[i];
      assert Names(prefix) == Names(rows)[..|rows| - 1];
      CollectDistinct(prefix);
      var m := NonEmptyEntries(prefix);
      if HasTables(last) {
        var ts := last.tables.value;
        forall j | 0 <= j < |m| ensures m[j].schema != last.name {
          assert m[j] in m;
          var i :| 0 <= i < |prefix| && prefix[i].name == m[j].schema && HasTables(prefix[i]);
          assert Names(rows)[i] != Names(rows)[|rows| - 1];
        }
        assert IndexOf(Keys(m), last.name) == None;
        assert CollectTables(rows) == Success(Put(m, last.name, ts));
        assert NonEmptyEntries(rows) == m + [Entry(last.name, ts)];
      } else {
        assert CollectTables(rows) == Success(m);
        assert NonEmptyEntries(rows) == m + [];
        assert m + [] == m;
      }
    }
  }

  lemma NonEmptyNamesEmpty(rows: seq<SchemaRow>)
    ensures NonEmptyNames(rows) == [] <==> forall i :: 0 <= i < |rows| ==> !HasTables(rows[i])
  {
    var ns := NonEmptyNames(rows);
    if ns != [] {
      assert ns[0] in ns;
    } else {
      forall i | 0 <= i < |rows| ensures !HasTables(rows[i]) {
        assert HasTables(rows[i]) ==> rows[i].name in ns;
      }
    }
  }

  lemma DedupEmpty(ks: seq<string>)
    ensures Dedup(ks) == [] <==> ks == []
  {
  }

  /** The loop finds no tables at all exactly when every query answers with none. */
  lemma CollectEmpty(rows: seq<SchemaRow>)
    ensures CollectTables(rows) == Success([]) <==>
      Answered(rows) && forall i :: 0 <= i < |rows| ==> !HasTables(rows[i])
  {
    NonEmptyNamesEmpty(rows);
    if Answered(rows) {
      CollectKeys(rows);
      var m := CollectTables(rows).value;
      DedupEmpty(NonEmptyNames(rows));
      assert m == [] <==> Keys(m) == [];
    }
  }

  lemma {:induction false} DedupHead(ks: seq<string>)
    requires ks != []
    ensures Dedup(ks) != [] && Dedup(ks)[0] == ks[0]
    decreases |ks|
  {
    if |ks| > 1 {
      var prefix := ks[..|ks| - 1];
      DedupHead(prefix);
    }
  }

  /** The first name listed is that of the first schema with tables. */
  lemma {:induction false} NonEmptyNamesHead(rows: seq<SchemaRow>, i: nat)
    requires i < |rows| && HasTables(rows[i])
    requires forall j :: 0 <= j < i ==> !HasTables(rows[j])
    ensures NonEmptyNames(rows) != [] && NonEmptyNames(rows)[0] == rows[i].name
    decreases |rows|
  {
    var prefix := rows[..|rows| - 1];
    if i == |rows| - 1 {
      NonEmptyNamesEmpty(prefix);
      assert NonEmptyNames(rows) == [] + [rows[i].name];
    } else {
      NonEmptyNamesHead(prefix, i);
    }
  }

  // ---------------------------------------------------------------------
  // What the probe reports
  // ---------------------------------------------------------------------

  /** No two kinds of failure message coincide, and none reads like a success. */
  lemma MessagesDiffer(name: string, detail: string)
    ensures FaultMessage(name, detail) != NoSchemasMessage(name)
    ensures FaultMessage(name, detail) != NoTablesMessage(name)
    ensures NoSchemasMessage(name) != NoTablesMessage(name)
    ensures !Text.StartsWith(FaultMessage(name, detail), "Pinged ")
    ensures !Text.StartsWith(NoSchemasMessage(name), "Pinged ")
    ensures !Text.StartsWith(NoTablesMessage(name), "Pinged ")
  {
    assert FaultMessage(name, detail)[0] == 'E';
    assert NoSchemasMessage(name)[0] == 'N' && NoSchemasMessage(name)[3] == 's';
    assert NoTablesMessage(name)[0] == 'N' && NoTablesMessage(name)[3] == 't';
  }

  /** The probe succeeds exactly when its message starts with "Pinged ". */
  lemma PingSuccessTag(name: string, b: Backend)
    ensures Ping(name, b).success <==> Text.StartsWith(Ping(name, b).message, "Pinged ")
  {
    var o := Investigate(b);
    if o.ConnectFault? || o.SchemaQueryFault? || o.TableQueryFault? || o.SampleFault? {
      MessagesDiffer(name, o.detail);
    } else if !o.Pinged? {
      MessagesDiffer(name, "");
    } else {
      assert Ping(name, b).message[..7] == "Pinged ";
    }
  }

  /** "No schemas found" is reported exactly when the client works and the schema query returns no rows. */
  lemma PingNoSchemas(name: string, b: Backend)
    ensures Ping(name, b) == ProbeResult(false, NoSchemasMessage(name)) <==>
      b.client.Success? && b.schemas == Success([])
  {
    var o := Investigate(b);
    if o.ConnectFault? || o.SchemaQueryFault? || o.TableQueryFault? || o.SampleFault? {
      MessagesDiffer(name, o.detail);
    } else {
      MessagesDiffer(name, "");
    }
  }

  /**
   "No tables found" is reported exactly when the client works, the schema
   query returns some schemas, and every table query answers with no tables.
   */
  lemma PingNoTables(name: string, b: Backend)
    ensures Ping(name, b) == ProbeResult(false, NoTablesMessage(name)) <==>
      b.client.Success? && b.schemas.Success? && b.schemas.value != [] &&
      Answered(b.schemas.value) && forall i :: 0 <= i < |b.schemas.value| ==> !HasTables(b.schemas.value[i])
  {
    var o := Investigate(b);
    if b.schemas.Success? {
      CollectEmpty(b.schemas.value);
    }
    if o.ConnectFault? || o.SchemaQueryFault? || o.TableQueryFault? || o.SampleFault? {
      MessagesDiffer(name, o.detail);
    } else {
      MessagesDiffer(name, "");
    }
  }

  /** Success needs every step to go through and at least one schema with tables. */
  lemma PingSucceeds(name: string, b: Backend)
    ensures Ping(name, b).success <==>
      b.client.Success? && b.schemas.Success? && Answered(b.schemas.value) &&
      (exists i :: 0 <= i < |b.schemas.value| && HasTables(b.schemas.value[i])) &&
      b.sample.Success?
  {
    if b.schemas.Success? {
      CollectEmpty(b.schemas.value);
    }
  }

  /**
   Any fault ends the probe with "Error pinging {name}: {detail}", the detail
   being that of the first step to fault.
   */
  lemma PingFaults(name: string, b: Backend)
    ensures b.client.Failure? ==> Ping(name, b) == ProbeResult(false, FaultMessage(name, b.client.error))
    ensures b.client.Success? && b.schemas.Failure? ==>
      Ping(name, b) == ProbeResult(false, FaultMessage(name, b.schemas.error))
    ensures b.client.Success? && b.schemas.Success? && b.schemas.value != [] && !Answered(b.schemas.value) ==>
      var rows := b.schemas.value;
      exists i :: 0 <= i < |rows| && rows[i].tables.Failure? && (forall j :: 0 <= j < i ==> rows[j].tables.Success?) &&
        Ping(name, b) == ProbeResult(false, FaultMessage(name, rows[i].tables.error))
    ensures (b.client.Success? && b.schemas.Success? && Answered(b.schemas.value) &&
             (exists i :: 0 <= i < |b.schemas.value| && HasTables(b.schemas.value[i])) && b.sample.Failure?) ==>
      Ping(name, b) == ProbeResult(false, FaultMessage(name, b.sample.error))
  {
    if b.schemas.Success? {
      CollectEmpty(b.schemas.value);
    }
  }

  /**
   The sampled table is the first table stored for the first schema (in
   schema order) that has tables, and the listing is the whole mapping.
   */
  lemma PingSample(b: Backend)
    requires Investigate(b).Pinged?
    ensures b.schemas.Success? && Answered(b.schemas.value)
    ensures CollectTables(b.schemas.value) == Success(Investigate(b).found)
    ensures var rows := b.schemas.value;
      exists i :: 0 <= i < |rows| && HasTables(rows[i]) && (forall j :: 0 <= j < i ==> !HasTables(rows[j])) &&
        var ts := LastTables(rows, rows[i].name);
        ts.Some? && ts.value != [] && Investigate(b).target == rows[i].name + "." + ts.value[0]
  {
    var rows := b.schemas.value;
    var found := Investigate(b).found;
    CollectKeys(rows);
    var i :| 0 <= i < |rows| && HasTables(rows[i]) && forall j :: 0 <= j < i ==> !HasTables(rows[j]) by {
      CollectEmpty(rows);
      var k :| 0 <= k < |rows| && HasTables(rows[k]);
      FirstWithTables(rows, k);
    }
    NonEmptyNamesHead(rows, i);
    DedupHead(NonEmptyNames(rows));
    assert Keys(found)[0] == rows[i].name;
    assert IndexOf(Keys(found), rows[i].name) == Some(0);
    CollectValues(rows, rows[i].name);
  }

  lemma {:induction false} FirstWithTables(rows: seq<SchemaRow>, k: nat)
    requires k < |rows| && HasTables(rows[k])
    ensures exists i :: 0 <= i < |rows| && HasTables(rows[i]) && forall j :: 0 <= j < i ==> !HasTables(rows[j])
    decreases k
  {
    if exists j :: 0 <= j < k && HasTables(rows[j]) {
      var j :| 0 <= j < k && HasTables(rows[j]);
      FirstWithTables(rows, j);
    }
  }

  /** A successful probe's message has the fixed opening and closing. */
  lemma PingMessageFrame(name: string, b: Backend)
    requires Ping(name, b).success
    ensures Text.StartsWith(Ping(name, b).message, SuccessPrefix(name))
    ensures Text.EndsWith(Ping(name, b).message, SuccessSuffix)
    ensures Text.Contains(Ping(name, b).message, "successfully")
  {
    var info := SchemaInfo(Investigate(b).found);
    SuccessShape(name, b);
    Text.Framed(SuccessPrefix(name), info, SuccessSuffix);
    SuffixSaysSuccess();
    Text.ContainsInRight(SuccessPrefix(name) + info, SuccessSuffix, "successfully");
  }

  /** A successful ping's message is the success frame around the schema listing. */
  lemma SuccessShape(name: string, b: Backend)
    requires Ping(name, b).success
    ensures Investigate(b).Pinged?
    ensures Ping(name, b).message == SuccessPrefix(name) + SchemaInfo(Investigate(b).found) + SuccessSuffix
  {
  }

  lemma SuffixSaysSuccess()
    ensures Text.Contains(SuccessSuffix, "successfully")
  {
    Text.ContainsPrefix("successfully", "");
    assert "successfully" + "" == "successfully";
    Text.ContainsInRight(") ", "successfully", "successfully");
    assert ") " + "successfully" == SuccessSuffix;
  }

  /**
   A successful probe's message lists every mapped schema as `s: [t1, t2]`,
   joined by ", " in the order of the mapping the schema loop built.
   */
  lemma PingMessageListing(name: string, b: Backend)
    requires Ping(name, b).success
    ensures Investigate(b).Pinged?
    ensures b.schemas.Success? && CollectTables(b.schemas.value).Success?
    ensures Ping(name, b).message ==
      SuccessPrefix(name) + Text.Join(", ", EntryTexts(CollectTables(b.schemas.value).value)) + SuccessSuffix
    ensures forall i :: 0 <= i < |Investigate(b).found| ==>
      Text.Contains(Ping(name, b).message, EntryText(Investigate(b).found[i]))
  {
    PingSample(b);
    var found := Investigate(b).found;
    forall i | 0 <= i < |found| ensures Text.Contains(Ping(name, b).message, EntryText(found[i])) {
      Text.ContainsPrefix(EntryText(found[i]), "");
      assert EntryText(found[i]) + "" == EntryText(found[i]);
      InInfo(name, found, i, EntryText(found[i]));
    }
  }

  /** With distinct schema names, the listing is the schemas with tables, in schema order, each with its own tables. */
  lemma PingMessageDistinct(name: string, b: Backend)
    requires Ping(name, b).success
    requires b.schemas.Success? && Distinct(Names(b.schemas.value))
    ensures Ping(name, b).message ==
      SuccessPrefix(name) + Text.Join(", ", EntryTexts(NonEmptyEntries(b.schemas.value))) + SuccessSuffix
  {
    PingMessageListing(name, b);
    PingSample(b);
    CollectDistinct(b.schemas.value);
  }

  /** A successful probe's message names every table it found. */
  lemma PingMessageTables(name: string, b: Backend)
    requires Ping(name, b).success
    ensures Investigate(b).Pinged?
    ensures var found := Investigate(b).found;
      forall i, j :: 0 <= i < |found| && 0 <= j < |found[i].tables| ==>
        Text.Contains(Ping(name, b).message, found[i].tables[j])
  {
    var found := Investigate(b).found;
    forall i, j | 0 <= i < |found| && 0 <= j < |found[i].tables|
      ensures Text.Contains(Ping(name, b).message, found[i].tables[j])
    {
      EntryContainsTable(found[i], j);
      InInfo(name, found, i, found[i].tables[j]);
    }
  }

  lemma EntryContainsTable(e: Entry, j: nat)
    requires j < |e.tables|
    ensures Text.Contains(EntryText(e), e.tables[j])
  {
    Text.JoinContainsEach(", ", e.tables, j);
    assert EntryText(e) == (e.schema + ": [") + (Text.Join(", ", e.tables) + "]");
    Text.ContainsInLeft(Text.Join(", ", e.tables), "]", e.tables[j]);
    Text.ContainsInRight(e.schema + ": [", Text.Join(", ", e.tables) + "]", e.tables[j]);
  }

  /** Whatever the rendering of entry `i` contains, the success message contains. */
  lemma InInfo(name: string, found: seq<Entry>, i: nat, x: string)
    requires i < |found| && Text.Contains(EntryText(found[i]), x)
    ensures Text.Contains(SuccessPrefix(name) + SchemaInfo(found) + SuccessSuffix, x)
  {
    var info := SchemaInfo(found);
    Text.JoinContainsEach(", ", EntryTexts(found), i);
    Text.ContainsTransitive(info, EntryText(found[i]), x);
    Text.ContainsInLeft(info, SuccessSuffix, x);
    Text.ContainsInRight(SuccessPrefix(name), info + SuccessSuffix, x);
    assert SuccessPrefix(name) + info + SuccessSuffix == SuccessPrefix(name) + (info + SuccessSuffix);
  }
}
