# Supabase keep-alive: a Dafny model

`api/keepalive.py` is a small web service. It keeps a list of Supabase
projects alive by probing each one on request. At import time it reads the
`SUPABASE_CONFIG` environment variable, decodes it as JSON and validates it. A
broken configuration is kept as a permanent `startup_error`. Three routes then
probe targets:

- all targets;
- one target chosen by index;
- one target chosen by name.

A probe (`_perform_ping`) takes four steps:

1. it creates a client;
2. it lists the non-system schemas;
3. it lists the base tables of every schema into an ordered `schema -> tables` dict;
4. it runs a one-row query against the first table of the first schema.

The probe returns a `(success, message)` pair and never raises.

The model is pure functions over immutable datatypes:

| file | module | what it holds |
|---|---|---|
| `wrappers.dfy` | `Wrappers` | `Option` and `Result` |
| `text.dfy` | `Text` | Python's `str.join` and `str(int)`; substring, prefix and suffix relations |
| `json.dfy` | `Json` | the decoded JSON value; Python's `type(v).__name__` and `str(v)` of it |
| `config.dfy` | `Config` | start-up validation, its error texts, lookup by index and by name |
| `schema_map.dfy` | `SchemaMap` | the ordered dict of schemas: Python dict semantics of `d[k] = v` |
| `probe.dfy` | `Probe` | `_perform_ping`, with the backend's answers given as data |
| `routes.dfy` | `Routes` | start-up state, the three routes, success count and verdict |

The backend is a value, `Probe.Backend`. It holds three answers:

- whether `create_client` succeeded;
- the schema rows, each carrying the answer to that schema's table query;
- the answer to the sampling query.

Each answer is either a value or the text of the exception raised. The
network is a function `(supabase_url, supabase_key) -> Backend`. A route
receives it as a parameter.

Each step's fault is a separate `Probe.Outcome` case, and `Probe.Report` maps
every fault to the same message shape. The start-up state is an explicit
value, `Routes.AppState`, rather than a global.

## Model

| member | source | states |
|---|---|---|
| Config.CheckEntry | api/keepalive.py:31-37 | An element passes exactly when it is an object holding all four required keys. A non-object fails as NotAnObject carrying its own Python type name, the `'<type>'` of `'<type>' object has no attribute 'keys'`. An object fails with exactly the set of required keys it lacks. The error carries the element's index. |
| Config.ValidateFrom | api/keepalive.py:32-37 | The validation loop succeeds exactly when every element from `i` on passes. On success it yields one target per element, in order, built from that element's fields. On failure the error is the check of the first failing element, and every element before it passed. |
| Config.Load | api/keepalive.py:22-37 | Start-up validation. Undecodable text gives the decoder's error. A non-array gives NotAnArray. Exactly the empty array gives EmptyArray. A non-empty array is accepted exactly when every element passes, and then yields as many targets as elements. Otherwise the error is that of the first failing element. |
| Config.Describe | api/keepalive.py:22-39 | The text stored as `startup_error` is never empty, so a failed start-up always makes `if startup_error:` true. |
| Config.GetByIndex | api/keepalive.py:91-94 | Returns `targets[idx]` exactly when `0 <= idx < len`. Any other index, negative included, gives the 404 detail naming the index. |
| Config.FirstNamed | api/keepalive.py:97-101 | Returns the least position whose name equals the argument. It returns nothing exactly when no target has that name. |
| Config.GetByName | api/keepalive.py:97-101 | Fails exactly when no target's `name` equals the string. Otherwise returns the first target with that name. |
| SchemaMap.IndexOf | api/keepalive.py:72 | The first position of a key. It returns nothing exactly when the key is absent. |
| SchemaMap.Put | api/keepalive.py:72 | `d[k] = v` on an insertion-ordered dict. A present key keeps its place; a new key goes last. `k` then maps to `v` and every other key keeps its value. No entry other than `(k, v)` appears, and distinct keys stay distinct. |
| Probe.CollectTables | api/keepalive.py:62-72 | The schema loop. It fails exactly when some table query raises, with the fault of the first such schema. On success the keys are distinct and every stored table list is non-empty. |
| Probe.CollectKeys | api/keepalive.py:62-72 | When every table query answers, the keys are the schemas with tables, in schema order, repeats dropped after their first appearance. |
| Probe.CollectValues | api/keepalive.py:62-72 | When every table query answers, each key holds the tables of the last schema of that name that had tables. |
| Probe.CollectDistinct | api/keepalive.py:62-72 | With distinct schema names, the mapping is exactly the schemas with non-empty table lists, each with its own tables, in schema order. |
| Probe.CollectEmpty | api/keepalive.py:62-75 | The mapping comes out empty exactly when every table query answers and none returns a table. |
| Probe.Investigate | api/keepalive.py:45-85 | A probe that gets through has a non-empty mapping, and every mapped schema has a non-empty table list. |
| Probe.PingNoSchemas | api/keepalive.py:50-59 | The probe reports `(False, "No schemas found for {name}")` exactly when the client is created and the schema query returns no rows. |
| Probe.PingNoTables | api/keepalive.py:61-75 | The probe reports `(False, "No tables found in any schema for {name}")` exactly when all of these hold: the client is created; there are schemas; every table query answers; none returns a table. |
| Probe.PingSucceeds | api/keepalive.py:45-85 | The probe succeeds exactly when all of these hold: every step answers; at least one schema has tables; the sampling query answers. |
| Probe.PingFaults | api/keepalive.py:46-88 | A fault at any step yields `(False, "Error pinging {name}: {detail}")`. Steps are checked in order: client, schema query, the first failing table query, sampling query. The detail is that of the first step to fault. |
| Probe.PingSample | api/keepalive.py:77-81 | The sampled `schema.table` comes from the first schema, in schema order, that has tables. The table is the first table stored for that schema. The listing is the loop's whole mapping. |
| Probe.PingMessageFrame | api/keepalive.py:84-85 | A success message opens with `Pinged {name} (schemas and tables: ` and ends with `) successfully`. |
| Probe.PingMessageListing | api/keepalive.py:78-85 | A success message is exactly the opening, then every mapped schema rendered as `s: [t1, t2]` and joined by `", "` in mapping order, then the closing. Each such rendering occurs in the message. |
| Probe.PingMessageDistinct | api/keepalive.py:62-85 | With distinct schema names, a success message lists the schemas that have tables, in schema order, each with its own tables. |
| Probe.PingMessageTables | api/keepalive.py:84-85 | A success message names every table of every mapped schema. |
| Probe.PingSuccessTag | api/keepalive.py:58-88 | A probe succeeds exactly when its message starts with `Pinged `. |
| Probe.MessagesDiffer | api/keepalive.py:59-88 | The three failure message forms never coincide, and none starts like a success message. |
| Text.JoinContainsEach | api/keepalive.py:84 | Every part of `sep.join(parts)` occurs in the joined string. |
| Text.JoinLength | api/keepalive.py:84 | The joined string is as long as its parts plus one separator between each pair. |
| Text.DecimalRoundTrip | api/keepalive.py:93 | Reading back the digits `str(n)` renders gives `n`. |
| Routes.Startup | api/keepalive.py:17-40 | Start-up serves only a non-empty target list that validation accepted. Otherwise it keeps validation's error. |
| Routes.CountSuccesses | api/keepalive.py:116-120 | The counting loop over all targets ends with `success_count` equal to the number of positions whose probe succeeded. That number equals `SuccessCount` of the outcomes, the count the verdict is taken over. |
| Routes.SuccessCountIndices | api/keepalive.py:116-120 | The number of `True` outcomes counted is the number of positions holding `True`. |
| Routes.SuccessCount | api/keepalive.py:116-120 | The success count is the number of `True` outcomes in the multiset of outcomes, never more than the number of probes. |
| Routes.Verdict | api/keepalive.py:122-127 | For a non-empty list, the verdict is 200 `ok` exactly when all probes succeed. It is 500 `partial_failure` exactly when some but not all succeed, and 500 `all_failure` exactly when none does. |
| Routes.KeepaliveAll | api/keepalive.py:111-127 | A broken start-up answers 500 `Startup failed: ...`. Otherwise the three-way verdict is taken over the success count of all targets. |
| Routes.AllDependsOnOutcomes | api/keepalive.py:116-127 | The aggregate reply depends only on the multiset of probe outcomes. |
| Routes.Single | api/keepalive.py:136-138 | A single-target reply is 200 `success` exactly when the probe succeeded, else 500 `error`. It echoes the probe's message. |
| Routes.KeepaliveByIndex | api/keepalive.py:129-138 | A broken start-up short-circuits. An in-range index answers with that target's probe. An out-of-range index answers 404. |
| Routes.KeepaliveByName | api/keepalive.py:141-149 | A broken start-up short-circuits. An unknown name answers 404, and a known name never does. Any other reply is the probe of the first target with that name. |
| Routes.BrokenShortCircuit | api/keepalive.py:113-144 | With a broken start-up, all three routes answer 500 `error` with `Startup failed: ` and the stored error. The reply is the same whatever the network, so no probe is performed. |
| Routes.ScenarioAll | api/keepalive.py:111-127 | Two valid targets, `a` reachable and `b` not: the aggregate reply is 500 `partial_failure`. |
| Routes.ScenarioSelect | api/keepalive.py:129-149 | In the same configuration: index 0 answers 200 with `a`'s listing; index 5 answers 404; name `b` answers 500 with its fault; name `c` answers 404. |

## Left out

- HTTP routing, `Request`, `JSONResponse` serialisation and the `HTTPException` mechanism: a 404 is a `Reply` with a `Detail` body. FastAPI's conversion of a non-integer `idx` path segment is not modelled.
- The Supabase client and the SQL text it sends are replaced by `Probe.Backend` values, because they are foreign network calls. This includes the schema name interpolated into the table query.
- `Routes.Network`: the backend reached depends only on `(supabase_url, supabase_key)`. A backend whose answers change between two probes of the same url and key is not modelled.
- `os.getenv`, `load_dotenv` and `json.loads` are not modelled, because they are environment access and parsing. The model starts from the decoded value or the decoder's error, `Config.Raw`. An unset variable defaults to `"[]"`, which `Config.Load` rejects as `EmptyArray`.
- JSON numbers are integers only. Python floats are not modelled.
- The `print` of the start-up error (line 40) is not modelled, because it is console output.
- `Config.Describe`: missing keys are listed in a fixed order. The source lists them in Python's set-iteration order, which is not determined.
- `Json.Show`: a target `name` that is a JSON array or object renders as a placeholder. Python's `repr` of containers is not modelled.
- `async`: the handlers await nothing, so the model is sequential.
- The configured `table_name` is validated but never used by the probe, in the code as in the model.
