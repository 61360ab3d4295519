/** The plain nested-dictionary form the tracker is stored in (a MongoDB
    document as Python sees it). A dictionary is a sequence of key/value
    entries in insertion order, which is how Python iterates it. */
module Documents {
  import opened Wrappers

  datatype Value =
    | Null
    | Bool(b: bool)
    | Number(x: real)
    | Timestamp(t: real)
    | Object(entries: Entries)

  type Entries = seq<(string, Value)>

  predicate HasKey(es: Entries, k: string)
  {
    k in Firsts(es)
  }

  /** `d[k]` when `k in d`, otherwise `None` (Python raises `KeyError`). */
  function Get(es: Entries, k: string): (r: Option<Value>)
    ensures r.Some? <==> HasKey(es, k)
  {
    if es == [] then
      None
    else if es[0].0 == k then
      Some(es[0].1)
    else
      Get(es[1..], k)
  }

  /** No key occurs twice, as in every Python dict. */
  predicate DistinctKeys(es: Entries)
  {
    forall i, j | 0 <= i < j < |es| :: es[i].0 != es[j].0
  }

  /** A value every dictionary of which, at any depth, has distinct keys. */
  predicate WellFormed(v: Value)
  {
    match v
    case Object(es) => DistinctKeys(es) && forall e | e in es :: WellFormed(e.1)
    case _ => true
  }

  /** In a dictionary with distinct keys, looking a key up finds its entry. */
  lemma {:induction false} GetEntry(es: Entries, i: nat)
    requires DistinctKeys(es)
    requires i < |es|
    ensures Get(es, es[i].0) == Some(es[i].1)
  {
    if i > 0 {
      assert es[0].0 != es[i].0;
      assert DistinctKeys(es[1..]) by {
        forall a, b | 0 <= a < b < |es[1..]|
          ensures es[1..][a].0 != es[1..][b].0
        {
          assert es[1..][a] == es[a + 1] && es[1..][b] == es[b + 1];
        }
      }
      GetEntry(es[1..], i - 1);
    }
  }
}
