/**
 Start-up validation of the configured target list and the two lookups the
 single-target routes use (api/keepalive.py, lines 17-40 and 91-101).
 */
module Config {
  import opened Wrappers
  import Json
  import Text

  /** The keys every configured target must carry. */
  const RequiredFields: set<string> := {"name", "supabase_url", "supabase_key", "table_name"}

  /** The order in which a message lists missing keys. */
  const FieldOrder: seq<string> := ["name", "supabase_url", "supabase_key", "table_name"]

  /** One configured target, as the rest of the service reads it. */
  datatype Target = Target(name: Json.Value, url: Json.Value, key: Json.Value, tableName: Json.Value)

  /** The configuration text after `json.loads`: a decoded value or the decoder's complaint. */
  datatype Raw =
    | Unparseable(msg: string, lineno: nat, colno: nat, pos: nat)
    | Decoded(value: Json.Value)

  /** Why start-up validation rejected the configuration. */
  datatype ConfigError =
    | BadJson(msg: string, lineno: nat, colno: nat, pos: nat)
    | NotAnArray
    | EmptyArray
    | NotAnObject(index: nat, typeName: string)
    | MissingFields(index: nat, missing: set<string>)

  /** An element the validator accepts: an object with every required key. */
  predicate Conforms(v: Json.Value) {
    v.Object? && RequiredFields <= v.fields.Keys
  }

  function ToTarget(v: Json.Value): (t: Target)
    requires Conforms(v)
  {
    Target(v.fields["name"], v.fields["supabase_url"], v.fields["supabase_key"], v.fields["table_name"])
  }

  /** The check one loop iteration makes on element `index`. */
  function CheckEntry(v: Json.Value, index: nat): (r: Option<ConfigError>)
    ensures r.None? <==> Conforms(v)
    ensures r.Some? ==> (r.value.NotAnObject? || r.value.MissingFields?) && r.value.index == index
    ensures r.Some? && !v.Object? ==> r.value == NotAnObject(index, Json.TypeName(v))
    ensures r.Some? && v.Object? ==> r.value.MissingFields? && r.value.missing != {}
    ensures r.Some? && r.value.MissingFields? ==> v.Object? && r.value.missing == RequiredFields - v.fields.Keys
  {
    if !v.Object? then Some(NotAnObject(index, Json.TypeName(v)))
    else
      var missing := RequiredFields - v.fields.Keys;
      EmptyDifference(RequiredFields, v.fields.Keys);
      if missing != {} then Some(MissingFields(index, missing)) else None
  }

  lemma EmptyDifference(a: set<string>, b: set<string>)
    ensures a - b == {} <==> a <= b
  {
    if a - b == {} {
      forall x | x in a ensures x in b {
        assert x !in a - b;
      }
    }
  }

  /** The validation loop from element `i` on: the first offending element stops it. */
  function ValidateFrom(items: seq<Json.Value>, i: nat): (r: Result<seq<Target>, ConfigError>)
    requires i <= |items|
    ensures r.Success? <==> forall j :: i <= j < |items| ==> Conforms(items[j])
    ensures r.Success? ==>
      |r.value| == |items| - i &&
      forall j :: i <= j < |items| ==> Conforms(items[j]) && r.value[j - i] == ToTarget(items[j])
    ensures r.Failure? ==>
      exists j :: i <= j < |items| && CheckEntry(items[j], j) == Some(r.error) &&
        forall k :: i <= k < j ==> Conforms(items[k])
    decreases |items| - i
  {
    if i == |items| then Success([])
    else match CheckEntry(items[i], i)
      case Some(e) => Failure(e)
      case None =>
        match ValidateFrom(items, i + 1)
        case Failure(e) => Failure(e)
        case Success(rest) => Success([ToTarget(items[i])] + rest)
  }

  /**
   Start-up validation: the target list, or the first check that failed. A
   non-empty array is rejected exactly when some element fails its check, with
   the error of the first such element; otherwise every element becomes a
   target, in order.
   */
  function Load(raw: Raw): (r: Result<seq<Target>, ConfigError>)
    ensures raw.Unparseable? ==> r == Failure(BadJson(raw.msg, raw.lineno, raw.colno, raw.pos))
    ensures raw.Decoded? && !raw.value.Array? ==> r == Failure(NotAnArray)
    ensures raw == Decoded(Json.Array([])) <==> r == Failure(EmptyArray)
    ensures r.Success? ==> raw.Decoded? && raw.value.Array? && |r.value| == |raw.value.items| > 0
    ensures r.Success? ==> forall j :: 0 <= j < |r.value| ==>
      Conforms(raw.value.items[j]) && r.value[j] == ToTarget(raw.value.items[j])
    ensures raw.Decoded? && raw.value.Array? && |raw.value.items| > 0 ==>
      (r.Success? <==> forall j :: 0 <= j < |raw.value.items| ==> Conforms(raw.value.items[j]))
    ensures raw.Decoded? && raw.value.Array? && r.Failure? && r.error != EmptyArray ==>
      exists j :: 0 <= j < |raw.value.items| && CheckEntry(raw.value.items[j], j) == Some(r.error) &&
        forall k :: 0 <= k < j ==> Conforms(raw.value.items[k])
  {
    match raw
    case Unparseable(msg, lineno, colno, pos) => Failure(BadJson(msg, lineno, colno, pos))
    case Decoded(v) =>
      if !v.Array? then Failure(NotAnArray)
      else if |v.items| == 0 then Failure(EmptyArray)
      else ValidateFrom(v.items, 0)
  }

  /** The missing keys, in a fixed order. */
  function MissingList(missing: set<string>): (r: seq<string>)
    ensures forall f :: f in r <==> f in missing && f in RequiredFields
  {
    KeepIn(FieldOrder, missing)
  }

  /** The elements of `fs` that lie in `keep`, in the order of `fs`. */
  function KeepIn(fs: seq<string>, keep: set<string>): (r: seq<string>)
    ensures forall f :: f in r <==> f in fs && f in keep
    decreases |fs|
  {
    if |fs| == 0 then []
    else (if fs[0] in keep then [fs[0]] else []) + KeepIn(fs[1..], keep)
  }

  /** `str(e)` for the exception the validation raised; never empty, so `startup_error` is truthy. */
  function Describe(e: ConfigError): (r: string)
    ensures |r| > 0
  {
    match e
    case BadJson(msg, lineno, colno, pos) =>
      msg + ": line " + Text.IntToDecimal(lineno) + " column " + Text.IntToDecimal(colno)
      + " (char " + Text.IntToDecimal(pos) + ")"
    case NotAnArray => "SUPABASE_CONFIG 必须是 JSON 数组格式"
    case EmptyArray => "SUPABASE_CONFIG 不能为空数组"
    case NotAnObject(_, typeName) => "'" + typeName + "' object has no attribute 'keys'"
    case MissingFields(index, missing) =>
      "配置 index=" + Text.IntToDecimal(index) + " 缺少字段: " + Text.Join(", ", MissingList(missing))
  }

  /** `config_list[idx]` when `idx` is in range, else the 404 detail. */
  function GetByIndex(targets: seq<Target>, idx: int): (r: Result<Target, string>)
    ensures r.Success? <==> 0 <= idx < |targets|
    ensures r.Success? ==> r.value == targets[idx]
    ensures r.Failure? ==> Text.StartsWith(r.error, "index " + Text.IntToDecimal(idx))
  {
    if idx < 0 || idx >= |targets| then Failure("index " + Text.IntToDecimal(idx) + " 不存在")
    else Success(targets[idx])
  }

  /** Does this target's `name` compare equal to the string `name`? */
  predicate Named(t: Target, name: string) {
    t.name == Json.Str(name)
  }

  /** The position of the first target from `from` on whose name is `name`. */
  function FirstNamed(targets: seq<Target>, name: string, from: nat): (r: Option<nat>)
    requires from <= |targets|
    ensures r.None? <==> forall j :: from <= j < |targets| ==> !Named(targets[j], name)
    ensures r.Some? ==>
      from <= r.value < |targets| && Named(targets[r.value], name) &&
      forall j :: from <= j < r.value ==> !Named(targets[j], name)
    decreases |targets| - from
  {
    if from == |targets| then None
    else if Named(targets[from], name) then Some(from)
    else FirstNamed(targets, name, from + 1)
  }

  /** The first target named `name`, else the 404 detail. */
  function GetByName(targets: seq<Target>, name: string): (r: Result<Target, string>)
    ensures r.Failure? <==> forall j :: 0 <= j < |targets| ==> !Named(targets[j], name)
    ensures r.Success? ==>
      exists i :: 0 <= i < |targets| && targets[i] == r.value && Named(r.value, name) &&
        forall j :: 0 <= j < i ==> !Named(targets[j], name)
  {
    match FirstNamed(targets, name, 0)
    case Some(i) => Success(targets[i])
    case None => Failure("name '" + name + "' 未找到对应配置")
  }
}
