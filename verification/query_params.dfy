/** Query parameters as Angular's immutable `HttpParams` keeps them: an ordered
    list of key/value pairs in which `set` replaces the value of a key already
    present (keeping its position) and otherwise appends the key at the end. */
module QueryParams {
  import opened Wrappers

  type Params = seq<(string, string)>

  /** The keys, in the order they will be serialised. */
  function Keys(ps: Params): (ks: seq<string>)
    ensures |ks| == |ps|
    ensures forall i :: 0 <= i < |ps| ==> ks[i] == ps[i].0
  {
    if |ps| == 0 then [] else [ps[0].0] + Keys(ps[1..])
  }

  /** The value the first pair with key `k` carries, if any. */
  function Get(ps: Params, k: string): (r: Option<string>)
    ensures r.Some? <==> k in Keys(ps)
  {
    if |ps| == 0 then None
    else if ps[0].0 == k then Some(ps[0].1)
    else Get(ps[1..], k)
  }

  /** `params.set(k, v)`. */
  function Set(ps: Params, k: string, v: string): (r: Params)
    ensures Get(r, k) == Some(v)
    ensures k in Keys(ps) ==> Keys(r) == Keys(ps)
    ensures k !in Keys(ps) ==> Keys(r) == Keys(ps) + [k]
  {
    if |ps| == 0 then [(k, v)]
    else if ps[0].0 == k then [(k, v)] + ps[1..]
    else [ps[0]] + Set(ps[1..], k, v)
  }

  /** Setting one key leaves what every other key reads unchanged. */
  lemma {:induction false} SetKeepsOtherKeys(ps: Params, k: string, v: string, other: string)
    requires other != k
    ensures Get(Set(ps, k, v), other) == Get(ps, other)
    decreases |ps|
  {
    if |ps| > 0 && ps[0].0 != k {
      SetKeepsOtherKeys(ps[1..], k, v, other);
      assert Set(ps, k, v)[1..] == Set(ps[1..], k, v);
    }
  }
}
