/**
 The three keep-alive routes (api/keepalive.py, lines 109-149): the start-up
 short-circuit, the probe of every target with its three-way verdict, and
 the probe of one target chosen by index or by name.
 */
module Routes {
  import opened Wrappers
  import Json
  import Config
  import Probe
  import SchemaMap
  import Text

  /** The backend each `create_client(url, key)` reaches. */
  type Network = (Json.Value, Json.Value) -> Probe.Backend

  /** What start-up left behind: the validation error, or the validated targets. */
  datatype AppState = Broken(error: Config.ConfigError) | Serving(targets: seq<Config.Target>)

  /** The JSON body of a reply: the routes' own `{status, message}`, or a 404's `{detail}`. */
  datatype Body = Status(status: string, message: string) | Detail(detail: string)

  datatype Reply = Reply(code: int, body: Body)

  /** Module import time: validate the configuration once. */
  function Startup(raw: Config.Raw): (s: AppState)
    ensures s.Serving? ==> |s.targets| > 0 && Config.Load(raw) == Success(s.targets)
    ensures s.Broken? ==> Config.Load(raw) == Failure(s.error)
  {
    match Config.Load(raw)
    case Success(ts) => Serving(ts)
    case Failure(e) => Broken(e)
  }

  function StartupFailed(e: Config.ConfigError): Reply {
    Reply(500, Status("error", "Startup failed: " + Config.Describe(e)))
  }

  const AllOk: Reply := Reply(200, Status("success", "ok"))
  const PartialFailure: Reply := Reply(500, Status("error", "partial_failure"))
  const AllFailure: Reply := Reply(500, Status("error", "all_failure"))

  /** `_perform_ping(conf)` for one target: it reaches the backend its url and key name. */
  function PingTarget(t: Config.Target, net: Network): Probe.ProbeResult {
    Probe.Ping(Json.Show(t.name), net(t.url, t.key))
  }

  /** The success flag of each target's probe, one probe per target, in order. */
  function Flags(targets: seq<Config.Target>, net: Network): (fs: seq<bool>)
    ensures |fs| == |targets|
    ensures forall i :: 0 <= i < |targets| ==> fs[i] == PingTarget(targets[i], net).success
  {
    seq(|targets|, i requires 0 <= i < |targets| => PingTarget(targets[i], net).success)
  }

  /** `success_count` after the loop: how many probes succeeded. */
  function SuccessCount(fs: seq<bool>): (n: nat)
    ensures n == multiset(fs)[true]
    ensures n <= |fs|
    decreases |fs|
  {
    if |fs| == 0 then 0
    else
      assert fs == fs[..|fs| - 1] + [fs[|fs| - 1]];
      SuccessCount(fs[..|fs| - 1]) + (if fs[|fs| - 1] then 1 else 0)
  }

  /** The positions among the first `n` targets whose probe succeeds. */
  ghost function SucceededAmong(targets: seq<Config.Target>, net: Network, n: nat): set<int>
    requires n <= |targets|
  {
    set i | 0 <= i < n && PingTarget(targets[i], net).success
  }

  /** The positions among the first `n` outcomes that hold `True`. */
  ghost function TrueAmong(fs: seq<bool>, n: nat): set<int>
    requires n <= |fs|
  {
    set i | 0 <= i < n && fs[i]
  }

  /** Counting `True`s one by one counts the positions that hold `True`. */
  lemma {:induction false} SuccessCountIndices(fs: seq<bool>)
    ensures SuccessCount(fs) == |set i | 0 <= i < |fs| && fs[i]|
    decreases |fs|
  {
    if |fs| > 0 {
      var prefix := fs[..|fs| - 1];
      SuccessCountIndices(prefix);
      var before := set i | 0 <= i < |prefix| && prefix[i];
      var after := set i | 0 <= i < |fs| && fs[i];
      if fs[|fs| - 1] {
        assert after == before + {|fs| - 1};
      } else {
        assert after == before;
      }
    }
  }

  /**
   The loop of `keepalive_all`: probe each target in turn and add one for
   each success.
   */
  method CountSuccesses(targets: seq<Config.Target>, net: Network) returns (successCount: nat)
    ensures successCount == |SucceededAmong(targets, net, |targets|)|
    ensures successCount == SuccessCount(Flags(targets, net))
  {
    ghost var fs := Flags(targets, net);
    successCount := 0;
    var i := 0;
    while i < |targets|
      invariant 0 <= i <= |targets|
      invariant successCount == SuccessCount(fs[..i])
    {
      var success := Probed(targets, net, i);
      assert fs[..i + 1][..i] == fs[..i];
      if success {
        successCount := successCount + 1;
      }
      i := i + 1;
    }
    assert fs[..i] == fs;
    Counted(targets, net);
  }

  /** The number of successful positions is the count of `True` outcomes. */
  lemma Counted(targets: seq<Config.Target>, net: Network)
    ensures SuccessCount(Flags(targets, net)) == |SucceededAmong(targets, net, |targets|)|
  {
    SuccessCountIndices(Flags(targets, net));
    CountOfFlags(targets, net);
  }

  /** Probe target `i`; its success is outcome `i`. */
  function Probed(targets: seq<Config.Target>, net: Network, i: nat): (success: bool)
    requires i < |targets|
    ensures success == Flags(targets, net)[i]
  {
    PingTarget(targets[i], net).success
  }

  /** The successful positions are the positions of `True` among the outcomes. */
  lemma CountOfFlags(targets: seq<Config.Target>, net: Network)
    ensures TrueAmong(Flags(targets, net), |targets|) == SucceededAmong(targets, net, |targets|)
  {
  }

  /** The verdict on `count` successes out of `total` probes. */
  function Verdict(count: nat, total: nat): (r: Reply)
    requires count <= total
    ensures r == AllOk || r == PartialFailure || r == AllFailure
    ensures total > 0 ==>
      (r == AllOk <==> count == total) &&
      (r == PartialFailure <==> 0 < count < total) &&
      (r == AllFailure <==> count == 0)
  {
    if count == total then AllOk
    else if count > 0 then PartialFailure
    else AllFailure
  }

  /** `keepalive_all`. */
  function KeepaliveAll(app: AppState, net: Network): (r: Reply)
    ensures app.Broken? ==> r == StartupFailed(app.error)
    ensures app.Serving? && app.targets != [] ==>
      var n := SuccessCount(Flags(app.targets, net));
      (r == AllOk <==> n == |app.targets|) &&
      (r == PartialFailure <==> 0 < n < |app.targets|) &&
      (r == AllFailure <==> n == 0)
  {
    match app
    case Broken(e) => StartupFailed(e)
    case Serving(ts) => Verdict(SuccessCount(Flags(ts, net)), |ts|)
  }

  /** The reply of a single-target route to its probe's result. */
  function Single(p: Probe.ProbeResult): (r: Reply)
    ensures r.code == 200 <==> p.success
    ensures r.code == 500 <==> !p.success
    ensures r.body == Status(if p.success then "success" else "error", p.message)
  {
    Reply(if p.success then 200 else 500, Status(if p.success then "success" else "error", p.message))
  }

  /** `keepalive_by_index`; the route without a path index takes `idx` from the query, default 0. */
  function KeepaliveByIndex(app: AppState, net: Network, idx: int): (r: Reply)
    ensures app.Broken? ==> r == StartupFailed(app.error)
    ensures app.Serving? && 0 <= idx < |app.targets| ==> r == Single(PingTarget(app.targets[idx], net))
    ensures app.Serving? && !(0 <= idx < |app.targets|) ==> r.code == 404 && r.body.Detail?
  {
    match app
    case Broken(e) => StartupFailed(e)
    case Serving(ts) =>
      match Config.GetByIndex(ts, idx)
      case Failure(detail) => Reply(404, Detail(detail))
      case Success(t) => Single(PingTarget(t, net))
  }

  /** `keepalive_by_name`. */
  function KeepaliveByName(app: AppState, net: Network, name: string): (r: Reply)
    ensures app.Broken? ==> r == StartupFailed(app.error)
    ensures app.Serving? && (forall i :: 0 <= i < |app.targets| ==> !Config.Named(app.targets[i], name)) ==>
      r.code == 404 && r.body.Detail?
    ensures app.Serving? && (exists i :: 0 <= i < |app.targets| && Config.Named(app.targets[i], name)) ==>
      r.code != 404
    ensures app.Serving? && r.code != 404 ==>
      exists i :: 0 <= i < |app.targets| && Config.Named(app.targets[i], name) &&
        (forall j :: 0 <= j < i ==> !Config.Named(app.targets[j], name)) &&
        r == Single(PingTarget(app.targets[i], net))
  {
    match app
    case Broken(e) => StartupFailed(e)
    case Serving(ts) =>
      match Config.GetByName(ts, name)
      case Failure(detail) => Reply(404, Detail(detail))
      case Success(t) => Single(PingTarget(t, net))
  }

  /**
   With the configuration broken, every route answers 500 with the stored
   error and probes nothing: its reply is the same whatever the network.
   */
  lemma BrokenShortCircuit(e: Config.ConfigError, net1: Network, net2: Network, idx: int, name: string)
    ensures var app := Broken(e);
      KeepaliveAll(app, net1) == KeepaliveAll(app, net2) == StartupFailed(e) &&
      KeepaliveByIndex(app, net1, idx) == KeepaliveByIndex(app, net2, idx) == StartupFailed(e) &&
      KeepaliveByName(app, net1, name) == KeepaliveByName(app, net2, name) == StartupFailed(e)
    ensures StartupFailed(e).code == 500 && StartupFailed(e).body.status == "error"
    ensures StartupFailed(e).body.message[..16] == "Startup failed: "
  {
  }

  /** The aggregate verdict depends only on the multiset of probe outcomes, not on which target had which. */
  lemma AllDependsOnOutcomes(ts1: seq<Config.Target>, net1: Network, ts2: seq<Config.Target>, net2: Network)
    requires multiset(Flags(ts1, net1)) == multiset(Flags(ts2, net2))
    ensures KeepaliveAll(Serving(ts1), net1) == KeepaliveAll(Serving(ts2), net2)
  {
  }

  // ---------------------------------------------------------------------
  // Two targets `a` and `b`; `a` answers, `b` cannot be reached
  // ---------------------------------------------------------------------

  function TargetEntry(name: string, url: string): Json.Value {
    Json.Object(map[
      "name" := Json.Str(name), "supabase_url" := Json.Str(url),
      "supabase_key" := Json.Str("k"), "table_name" := Json.Str("t")])
  }

  const TwoTargets: Config.Raw := Config.Decoded(Json.Array([TargetEntry("a", "https://a"), TargetEntry("b", "https://b")]))

  const Reachable: Probe.Backend := Probe.Backend(
    Success(()), Success([Probe.SchemaRow("public", Success(["users"]))]), Success(()))

  /** `a` answers; every other url is unreachable. */
  function OnlyA(url: Json.Value, key: Json.Value): Probe.Backend {
    if url == Json.Str("https://a") then Reachable
    else Probe.Backend(Failure("connection refused"), Success([]), Success(()))
  }

  const TargetA: Config.Target := Config.Target(Json.Str("a"), Json.Str("https://a"), Json.Str("k"), Json.Str("t"))
  const TargetB: Config.Target := Config.Target(Json.Str("b"), Json.Str("https://b"), Json.Str("k"), Json.Str("t"))

  lemma ScenarioStartup()
    ensures Startup(TwoTargets) == Serving([TargetA, TargetB])
  {
  }

  const Found: seq<SchemaMap.Entry> := [SchemaMap.Entry("public", ["users"])]

  lemma ScenarioInvestigate()
    ensures Probe.Investigate(Reachable) == Probe.Pinged("public.users", Found)
  {
  }

  lemma ScenarioInfo()
    ensures Probe.SchemaInfo(Found) == "public: [users]"
  {
  }

  lemma ScenarioProbes()
    ensures PingTarget(TargetA, OnlyA) ==
      Probe.ProbeResult(true, Probe.SuccessPrefix("a") + "public: [users]" + Probe.SuccessSuffix)
    ensures PingTarget(TargetB, OnlyA) == Probe.ProbeResult(false, Probe.FaultMessage("b", "connection refused"))
  {
    ScenarioInvestigate();
    ScenarioInfo();
  }

  /** Two targets, `a` reachable and `b` not: the aggregate is a partial failure. */
  lemma ScenarioAll()
    ensures KeepaliveAll(Startup(TwoTargets), OnlyA) == PartialFailure
  {
    ScenarioStartup();
    ScenarioProbes();
  }

  /** Selecting by index and by name, in range and out of it. */
  lemma ScenarioSelect()
    ensures KeepaliveByIndex(Startup(TwoTargets), OnlyA, 0) ==
      Reply(200, Status("success", Probe.SuccessPrefix("a") + "public: [users]" + Probe.SuccessSuffix))
    ensures KeepaliveByIndex(Startup(TwoTargets), OnlyA, 5).code == 404
    ensures KeepaliveByName(Startup(TwoTargets), OnlyA, "b") ==
      Reply(500, Status("error", Probe.FaultMessage("b", "connection refused")))
    ensures KeepaliveByName(Startup(TwoTargets), OnlyA, "c").code == 404
  {
    ScenarioStartup();
    ScenarioProbes();
    var ts := [TargetA, TargetB];
    assert Config.GetByIndex(ts, 0) == Success(TargetA);
    assert Config.FirstNamed(ts, "b", 0) == Some(1) by {
      assert !Config.Named(ts[0], "b") && Config.Named(ts[1], "b");
    }
    assert Config.GetByName(ts, "c").Failure? by {
      assert !Config.Named(ts[0], "c") && !Config.Named(ts[1], "c");
    }
  }
}
