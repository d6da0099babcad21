/**
 The ordered schema -> tables mapping `_perform_ping` builds in a Python dict
 (api/keepalive.py, lines 62-72): keys keep the position of their first
 insertion, and assigning to a present key replaces its value in place.
 */
module SchemaMap {
  import opened Wrappers

  /** One schema and the base tables found in it. */
  datatype Entry = Entry(schema: string, tables: seq<string>)

  /** The keys of `m`, in iteration order. */
  function Keys(m: seq<Entry>): (ks: seq<string>)
    ensures |ks| == |m|
    ensures forall i :: 0 <= i < |m| ==> ks[i] == m[i].schema
  {
    seq(|m|, i requires 0 <= i < |m| => m[i].schema)
  }

  predicate Distinct(ks: seq<string>) {
    forall i, j :: 0 <= i < j < |ks| ==> ks[i] != ks[j]
  }

  /** The first position of `k` in `ks`. */
  function IndexOf(ks: seq<string>, k: string): (r: Option<nat>)
    ensures r.None? <==> k !in ks
    ensures r.Some? ==> r.value < |ks| && ks[r.value] == k && forall j :: 0 <= j < r.value ==> ks[j] != k
    decreases |ks|
  {
    if |ks| == 0 then None
    else if ks[0] == k then Some(0)
    else match IndexOf(ks[1..], k)
      case None => None
      case Some(i) => Some(i + 1)
  }

  /** Two sequences that agree on a prefix agree on where `k` first occurs in it. */
  lemma IndexOfAppend(ks: seq<string>, x: string, k: string)
    requires k != x
    ensures IndexOf(ks + [x], k) == IndexOf(ks, k)
  {
    var b := IndexOf(ks, k);
    if b.Some? {
      assert (ks + [x])[b.value] == k;
    }
  }

  /** `m.get(k)`. */
  function Get(m: seq<Entry>, k: string): Option<seq<string>> {
    match IndexOf(Keys(m), k)
    case None => None
    case Some(i) => Some(m[i].tables)
  }

  /** `m[k] = v`. */
  function Put(m: seq<Entry>, k: string, v: seq<string>): (r: seq<Entry>)
    ensures Keys(r) == if k in Keys(m) then Keys(m) else Keys(m) + [k]
    ensures Get(r, k) == Some(v)
    ensures forall k' :: k' != k ==> Get(r, k') == Get(m, k')
    ensures forall e :: e in r ==> e in m || e == Entry(k, v)
    ensures Distinct(Keys(m)) ==> Distinct(Keys(r))
  {
    match IndexOf(Keys(m), k)
    case Some(i) =>
      var r := m[i := Entry(k, v)];
      assert Keys(r) == Keys(m);
      r
    case None =>
      var r := m + [Entry(k, v)];
      assert Keys(r) == Keys(m) + [k];
      assert forall k' :: k' != k ==> IndexOf(Keys(r), k') == IndexOf(Keys(m), k') by {
        forall k' | k' != k ensures IndexOf(Keys(r), k') == IndexOf(Keys(m), k') {
          IndexOfAppend(Keys(m), k, k');
        }
      }
      r
  }
}
