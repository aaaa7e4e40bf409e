/**
 * The server's `ModelManager`: a timestamped cache of loaded retrieval models.
 * The clock is the `now` parameter (seconds) and the loader a function parameter.
 */
module ModelManager {

  /** The only key `get_model` ever stores, and where it loads that index from. */
  const IndexName: string := "test_index"
  const IndexRoot: string := "./indexes"
  const DefaultTimeout: int := 3600
  /** The device `get_model` loads onto when the caller names none. */
  const DefaultDevice: string := "mps"

  /** The entries `clear_cache` keeps: those no older than `timeout` at time `now`. */
  function Unexpired<M>(m: map<string, (M, int)>, now: int, timeout: int): (r: map<string, (M, int)>)
    ensures r.Keys <= m.Keys
    ensures forall k :: k in m ==> (k in r <==> now - m[k].1 <= timeout)
    ensures forall k :: k in r ==> r[k] == m[k]
  {
    map k | k in m && now - m[k].1 <= timeout :: m[k]
  }

  /** An entry refreshed at `now` survives a clean-up at `now` for any non-negative timeout. */
  lemma FreshEntrySurvives<M>(m: map<string, (M, int)>, k: string, x: M, now: int, timeout: int)
    requires timeout >= 0
    ensures k in Unexpired(m[k := (x, now)], now, timeout)
    ensures Unexpired(m[k := (x, now)], now, timeout)[k] == (x, now)
  {
  }

  /** Cleaning up twice at the same time is cleaning up once. */
  lemma UnexpiredIdempotent<M>(m: map<string, (M, int)>, now: int, timeout: int)
    ensures Unexpired(Unexpired(m, now, timeout), now, timeout) == Unexpired(m, now, timeout)
  {
  }

  /** A cache whose keys are all `"test_index"` holds at most one model. */
  lemma AtMostOneEntry<M>(m: map<string, (M, int)>)
    requires m.Keys <= {IndexName}
    ensures |m| <= 1
  {
    if IndexName in m {
      assert m.Keys == {IndexName};
    } else {
      assert m.Keys == {};
    }
  }

  class ModelManager<M> {
    var models: map<string, (M, int)>
    var cacheTimeout: int

    /** Only `"test_index"` is ever cached. */
    ghost predicate Valid()
      reads this
    {
      models.Keys <= {IndexName}
    }

    /** `__init__`: an empty cache and a one-hour timeout. */
    constructor ()
      ensures Valid()
      ensures models == map[] && cacheTimeout == DefaultTimeout
    {
      models := map[];
      cacheTimeout := DefaultTimeout;
    }

    /**
     * `get_model`: on a hit return the cached model and refresh its timestamp;
     * on a miss call `load` once and cache the result with timestamp `now`.
     * `loaded` reports whether the loader was called.
     */
    method GetModel(now: int, load: (string, string, string) -> M, device: string := DefaultDevice)
      returns (model: M, loaded: bool)
      requires Valid()
      modifies this
      ensures Valid()
      ensures cacheTimeout == old(cacheTimeout)
      ensures loaded <==> IndexName !in old(models)
      ensures !loaded ==> model == old(models)[IndexName].0
      ensures loaded ==> model == load(IndexName, IndexRoot, device)
      ensures models == old(models)[IndexName := (model, now)]
    {
      if IndexName in models {
        model := models[IndexName].0;
        models := models[IndexName := (model, now)];
        loaded := false;
        return;
      }
      model := load(IndexName, IndexRoot, device);
      loaded := true;
      models := models[IndexName := (model, now)];
    }

    /** `clear_cache`: collect the keys older than the timeout, then delete them one by one. */
    method ClearCache(now: int)
      requires Valid()
      modifies this
      ensures Valid()
      ensures cacheTimeout == old(cacheTimeout)
      ensures models == Unexpired(old(models), now, cacheTimeout)
    {
      var expired := set k | k in models && now - models[k].1 > cacheTimeout;
      var pending := expired;
      while pending != {}
        invariant pending <= expired
        invariant cacheTimeout == old(cacheTimeout)
        invariant models.Keys == old(models).Keys - (expired - pending)
        invariant forall k :: k in models ==> models[k] == old(models)[k]
        decreases pending
      {
        var k :| k in pending;
        models := models - {k};
        pending := pending - {k};
      }
      assert models.Keys == Unexpired(old(models), now, cacheTimeout).Keys;
    }
  }
}
