/** The per-timestep cache of `OpCellFeatures.execute`, and `propagateDirty`.
    The features of one timestep are computed by a function supplied as a
    parameter (the extraction of the other modules, fed by the input slots). */
module FeatureCache {

  /** What `execute` hands back for one timestep: the features, or, while the
      operator is frozen, a placeholder with an empty array per feature name. */
  datatype Served<F> = Computed(features: F) | Placeholder(names: seq<string>)

  /** The operator's own state: `_cache` and `fixed`. */
  datatype OpState<F> = OpState(cache: map<int, F>, fixed: bool)

  /** The result of one `execute` call: the returned dictionary and the cache after it. */
  datatype Execution<F> = Execution(feats: map<int, Served<F>>, cache: map<int, F>)

  /** The timesteps `execute` visits: the requested ones, or every timestep
      of the label image when the request is empty. */
  function Requested(roi: seq<int>, numTimesteps: nat): (req: seq<int>)
    ensures |roi| > 0 ==> req == roi
    ensures |roi| == 0 ==> |req| == numTimesteps && forall t :: t in req <==> 0 <= t < numTimesteps
  {
    if |roi| > 0 then roi
    else
      var all := seq(numTimesteps, t requires 0 <= t < numTimesteps => t);
      forall t ensures t in all <==> 0 <= t < numTimesteps {
        if 0 <= t < numTimesteps {
          assert all[t] == t;
        }
      }
      all
  }

  /** One iteration of the loop of `execute` for timestep `t`. */
  function Visit<F>(cache: map<int, F>, fixed: bool, t: int, compute: int -> F,
                    placeholderNames: seq<string>): (r: (Served<F>, map<int, F>))
    ensures t in cache ==> r == (Computed(cache[t]), cache)
    ensures t !in cache && fixed ==> r == (Placeholder(placeholderNames), cache)
    ensures t !in cache && !fixed ==> r == (Computed(compute(t)), cache[t := compute(t)])
  {
    if t in cache then (Computed(cache[t]), cache)
    else if fixed then (Placeholder(placeholderNames), cache)
    else (Computed(compute(t)), cache[t := compute(t)])
  }

  /** The loop of `execute` over `req[i..]`, starting from `feats` and `cache`. */
  function ExecuteFrom<F>(req: seq<int>, i: nat, feats: map<int, Served<F>>, cache: map<int, F>,
                          fixed: bool, compute: int -> F, placeholderNames: seq<string>): (r: Execution<F>)
    requires i <= |req|
    ensures r.feats.Keys == feats.Keys + set k | i <= k < |req| :: req[k]
    ensures forall t :: t in feats && t !in req[i..] ==> r.feats[t] == feats[t]
    ensures forall t :: t in cache ==> t in r.cache && r.cache[t] == cache[t]
    ensures forall t :: t in req[i..] && t in cache ==> r.feats[t] == Computed(cache[t])
    ensures fixed ==> r.cache == cache
    ensures fixed ==> forall t :: t in req[i..] && t !in cache ==> r.feats[t] == Placeholder(placeholderNames)
    ensures !fixed ==> r.cache.Keys == cache.Keys + set k | i <= k < |req| :: req[k]
    ensures !fixed ==> forall t :: t in req[i..] ==> r.feats[t] == Computed(r.cache[t])
    ensures !fixed ==> forall t :: t in req[i..] && t !in cache ==> r.cache[t] == compute(t)
    decreases |req| - i
  {
    if i == |req| then Execution(feats, cache)
    else
      var t := req[i];
      var (served, cache') := Visit(cache, fixed, t, compute, placeholderNames);
      assert req[i..] == [t] + req[i + 1..];
      ListedFromCons(req, i);
      ExecuteFrom(req, i + 1, feats[t := served], cache', fixed, compute, placeholderNames)
  }

  /** The timesteps listed from index `i` on are `req[i]` and those listed after it. */
  lemma ListedFromCons(req: seq<int>, i: nat)
    requires i < |req|
    ensures (set k | i <= k < |req| :: req[k]) == {req[i]} + set k | i + 1 <= k < |req| :: req[k]
  {
  }

  /** `execute(slot, subindex, roi, result)` on the state `st`. */
  function Execute<F>(st: OpState<F>, roi: seq<int>, numTimesteps: nat, compute: int -> F,
                      placeholderNames: seq<string>): (r: Execution<F>)
    ensures forall t :: t in r.feats <==> t in Requested(roi, numTimesteps)
    ensures forall t :: t in st.cache ==> t in r.cache && r.cache[t] == st.cache[t]
    ensures forall t :: t in Requested(roi, numTimesteps) && t in st.cache ==> r.feats[t] == Computed(st.cache[t])
    ensures st.fixed ==> r.cache == st.cache
    ensures st.fixed ==> forall t :: t in Requested(roi, numTimesteps) && t !in st.cache ==>
      r.feats[t] == Placeholder(placeholderNames)
    ensures !st.fixed ==> forall t :: t in r.cache <==> t in st.cache || t in Requested(roi, numTimesteps)
    ensures !st.fixed ==> forall t :: t in Requested(roi, numTimesteps) ==> r.feats[t] == Computed(r.cache[t])
    ensures !st.fixed ==> forall t :: t in Requested(roi, numTimesteps) && t !in st.cache ==> r.cache[t] == compute(t)
  {
    var req := Requested(roi, numTimesteps);
    assert req[0..] == req;
    assert forall t :: t in req <==> t in set k | 0 <= k < |req| :: req[k];
    ExecuteFrom(req, 0, map[], st.cache, st.fixed, compute, placeholderNames)
  }

  /** The state after `execute`: only the cache changes. */
  function After<F>(st: OpState<F>, e: Execution<F>): OpState<F>
  {
    OpState(e.cache, st.fixed)
  }

  /** A second request for the same timesteps returns the same features and
      leaves the cache as the first request left it. */
  lemma ExecuteIdempotent<F>(st: OpState<F>, roi: seq<int>, numTimesteps: nat, compute: int -> F,
                             placeholderNames: seq<string>)
    ensures var e1 := Execute(st, roi, numTimesteps, compute, placeholderNames);
      var e2 := Execute(After(st, e1), roi, numTimesteps, compute, placeholderNames);
      e2.feats == e1.feats && e2.cache == e1.cache
  {
    var e1 := Execute(st, roi, numTimesteps, compute, placeholderNames);
    var e2 := Execute(After(st, e1), roi, numTimesteps, compute, placeholderNames);
    assert e2.feats.Keys == e1.feats.Keys;
    assert e2.cache.Keys == e1.cache.Keys;
  }

  /** While frozen, nothing is computed: repeated requests see the same
      cache, and a timestep served as a placeholder is not cached. */
  lemma FrozenHasNoEffect<F>(st: OpState<F>, roi: seq<int>, numTimesteps: nat, compute: int -> F,
                             placeholderNames: seq<string>, t: int)
    requires st.fixed
    requires t in Requested(roi, numTimesteps) && t !in st.cache
    ensures var e := Execute(st, roi, numTimesteps, compute, placeholderNames);
      e.feats[t].Placeholder? && t !in e.cache
  {
  }

  /** The input slots `propagateDirty` tells apart. */
  datatype Slot = TranslationVectors | OtherInput

  /** The output timesteps `propagateDirty` marks dirty. */
  datatype Dirty = NothingDirty | DirtyRange(start: int, stop: int)

  /** `propagateDirty(slot, subindex, roi)`: the timesteps `[0, shape[0])` of
      the output are marked dirty when the translation vectors change; the
      cache itself is never touched. */
  function PropagateDirty<F>(st: OpState<F>, slot: Slot, translationTimesteps: nat): (r: (OpState<F>, Dirty))
    ensures r.0.cache == st.cache && r.0.fixed == st.fixed
    ensures slot == TranslationVectors ==> r.1 == DirtyRange(0, translationTimesteps)
    ensures slot != TranslationVectors ==> r.1 == NothingDirty
  {
    if slot == TranslationVectors then (st, DirtyRange(0, translationTimesteps)) else (st, NothingDirty)
  }

  /** After the translation vectors change, a timestep that was cached is
      still served from the cache: the new vectors are not used for it. */
  lemma StaleAfterDirty<F>(st: OpState<F>, translationTimesteps: nat, roi: seq<int>, numTimesteps: nat,
                           newCompute: int -> F, placeholderNames: seq<string>, t: int)
    requires t in st.cache && t in Requested(roi, numTimesteps)
    ensures var dirty := PropagateDirty(st, TranslationVectors, translationTimesteps).0;
      Execute(dirty, roi, numTimesteps, newCompute, placeholderNames).feats[t] == Computed(st.cache[t])
  {
  }
}
