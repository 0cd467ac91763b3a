/** Deriving the desired state once per user spec (supervisor/reconciliation.go 834-852, 993-1071,
    supervisor/config_error.go 66-85): the cache against deriving on every tick, and what a config
    error leaves alone. */
module DeriveCache {
  import opened LifecycleFlags

  /** What a worker's derive returns. It depends on the spec alone. */
  datatype Outcome<D> = Derived(state: D) | ConfigError(message: string) | OtherError

  /** What the tick goes on with: a state, with the config error it still has to report, or nothing. */
  datatype Basis<D> = On(state: D, configError: Option<string>) | Fails

  datatype Cache<H, D> = Cache(lastHash: H, cached: Option<D>, logged: string)

  function Cached<S, H(==), D>(hash: S -> H, derive: S -> Outcome<D>, c: Cache<H, D>, spec: S): (Cache<H, D>, Basis<D>) {
    if c.cached.Some? && c.lastHash == hash(spec) then (c.(logged := ""), On(c.cached.value, None))
    else
      match derive(spec)
      case Derived(d) => (Cache(hash(spec), Some(d), ""), On(d, None))
      case OtherError => (c, Fails)
      case ConfigError(m) =>
        var noted := c.(logged := m);
        if c.cached.None? then (noted, Fails) else (noted, On(c.cached.value, Some(m)))
  }

  class Deriver<S, H(==), D> {
    var lastUserSpecHash: H
    var cachedDesiredState: Option<D>
    var lastConfigErrorLogged: string

    constructor (unset: H)
      ensures Now() == Cache(unset, None, "")
    {
      lastUserSpecHash, cachedDesiredState, lastConfigErrorLogged := unset, None, "";
    }

    function Now(): Cache<H, D>
      reads this
    {
      Cache(lastUserSpecHash, cachedDesiredState, lastConfigErrorLogged)
    }

    /** `logs` says whether a config error was logged: once per message until a good derive. */
    method DeriveDesiredStateCached(hash: S -> H, derive: S -> Outcome<D>, spec: S) returns (basis: Basis<D>, logs: bool)
      modifies this
      ensures (Now(), basis) == Cached(hash, derive, old(Now()), spec)
      ensures logs <==> && !(old(cachedDesiredState).Some? && old(lastUserSpecHash) == hash(spec))
                        && derive(spec).ConfigError? && derive(spec).message != old(lastConfigErrorLogged)
    {
      logs := false;
      var configError: Option<string> := None;
      var current := hash(spec);
      if lastUserSpecHash == current && cachedDesiredState.Some? {
        basis := On(cachedDesiredState.value, None);
      } else {
        var outcome := derive(spec);
        if outcome.Derived? {
          lastUserSpecHash, cachedDesiredState := current, Some(outcome.state);
          basis := On(outcome.state, None);
        } else {
          if outcome.ConfigError? {
            if outcome.message != lastConfigErrorLogged {
              lastConfigErrorLogged := outcome.message;
              logs := true;
            }
            configError := Some(outcome.message);
          }
          if configError.None? || cachedDesiredState.None? { return Fails, logs; }
          basis := On(cachedDesiredState.value, configError);
        }
      }
      if configError.None? { lastConfigErrorLogged := ""; }
    }
  }

  // ----- Deriving on every tick -----

  function Run<S, H(==), D>(hash: S -> H, derive: S -> Outcome<D>, unset: H, specs: seq<S>): Cache<H, D> {
    if specs == [] then Cache(unset, None, "")
    else Cached(hash, derive, Run(hash, derive, unset, specs[..|specs| - 1]), specs[|specs| - 1]).0
  }

  /** What the last tick of a sequence runs on, with the cache. */
  function LastBasis<S, H(==), D>(hash: S -> H, derive: S -> Outcome<D>, unset: H, specs: seq<S>): Basis<D>
    requires specs != []
  {
    Cached(hash, derive, Run(hash, derive, unset, specs[..|specs| - 1]), specs[|specs| - 1]).1
  }

  /** The state of the latest spec that derived. */
  function LastGood<S, D>(derive: S -> Outcome<D>, specs: seq<S>): Option<D> {
    if specs == [] then None
    else
      var outcome := derive(specs[|specs| - 1]);
      if outcome.Derived? then Some(outcome.state) else LastGood(derive, specs[..|specs| - 1])
  }

  /** What the last tick should run on: its own derive, or on a config error the last good one. */
  function Expected<S, D>(derive: S -> Outcome<D>, specs: seq<S>): Basis<D>
    requires specs != []
  {
    match derive(specs[|specs| - 1])
    case Derived(d) => On(d, None)
    case OtherError => Fails
    case ConfigError(m) =>
      var good := LastGood(derive, specs);
      if good.None? then Fails else On(good.value, Some(m))
  }

  /** The hash tells apart any spec that derives from all specs that derive differently. */
  ghost predicate Separates<S(!new), H, D>(hash: S -> H, derive: S -> Outcome<D>) {
    forall a, b :: hash(a) == hash(b) && derive(a).Derived? ==> derive(b) == derive(a)
  }

  ghost predicate Injective<S(!new), H>(hash: S -> H) {
    forall a, b :: hash(a) == hash(b) ==> a == b
  }

  /** The cache holds the last good state under the hash of a spec that derives to it. */
  ghost predicate Faithful<S(!new), H, D>(hash: S -> H, derive: S -> Outcome<D>, c: Cache<H, D>) {
    c.cached.Some? ==> exists s :: hash(s) == c.lastHash && derive(s) == Derived(c.cached.value)
  }

  lemma {:induction false} CacheHoldsLastGood<S(!new), H, D>(hash: S -> H, derive: S -> Outcome<D>, unset: H, specs: seq<S>)
    requires Separates(hash, derive)
    ensures var c := Run(hash, derive, unset, specs); Faithful(hash, derive, c) && c.cached == LastGood(derive, specs)
  {
    if specs != [] {
      var before, spec := specs[..|specs| - 1], specs[|specs| - 1];
      CacheHoldsLastGood(hash, derive, unset, before);
      var c := Run(hash, derive, unset, before);
      if c.cached.Some? && c.lastHash == hash(spec) {
        var s :| hash(s) == c.lastHash && derive(s) == Derived(c.cached.value);
        assert derive(spec) == derive(s);
      }
    }
  }

  lemma CacheRefines<S(!new), H, D>(hash: S -> H, derive: S -> Outcome<D>, unset: H, specs: seq<S>)
    requires Separates(hash, derive) && specs != []
    ensures LastBasis(hash, derive, unset, specs) == Expected(derive, specs)
  {
    var before, spec := specs[..|specs| - 1], specs[|specs| - 1];
    CacheHoldsLastGood(hash, derive, unset, before);
    var c := Run(hash, derive, unset, before);
    if c.cached.Some? && c.lastHash == hash(spec) {
      var s :| hash(s) == c.lastHash && derive(s) == Derived(c.cached.value);
      assert derive(spec) == derive(s);
    }
  }

  /** The cache gives every tick of every sequence of specs the state that deriving on every tick
      would, exactly when the hash separates specs that derive differently. */
  lemma CacheRefinesExactly<S(!new), H, D>(hash: S -> H, derive: S -> Outcome<D>, unset: H)
    ensures (forall specs :: specs != [] ==> LastBasis(hash, derive, unset, specs) == Expected(derive, specs))
            <==> Separates(hash, derive)
  {
    if Separates(hash, derive) {
      forall specs: seq<S> | specs != [] ensures LastBasis(hash, derive, unset, specs) == Expected(derive, specs) {
        CacheRefines(hash, derive, unset, specs);
      }
    } else {
      var a, b :| hash(a) == hash(b) && derive(a).Derived? && derive(b) != derive(a);
      Collision(hash, derive, unset, a, b);
    }
  }

  lemma Collision<S, H, D>(hash: S -> H, derive: S -> Outcome<D>, unset: H, a: S, b: S)
    requires hash(a) == hash(b) && derive(a).Derived? && derive(b) != derive(a)
    ensures LastBasis(hash, derive, unset, [a, b]) != Expected(derive, [a, b])
  {
    assert [a, b][..1] == [a] && [a][..0] == [];
    assert Run(hash, derive, unset, [a]) == Cache(hash(a), Some(derive(a).state), "");
    assert LastBasis(hash, derive, unset, [a, b]) == On(derive(a).state, None);
  }

  /** A collision-free hash separates everything. */
  lemma InjectiveSeparates<S(!new), H, D>(hash: S -> H, derive: S -> Outcome<D>)
    requires Injective(hash)
    ensures Separates(hash, derive)
  {
  }

  /** So with a collision-free hash every tick runs on what deriving on every tick would give it. */
  lemma CollisionFreeCacheRefines<S(!new), H, D>(hash: S -> H, derive: S -> Outcome<D>, unset: H, specs: seq<S>)
    requires Injective(hash) && specs != []
    ensures LastBasis(hash, derive, unset, specs) == Expected(derive, specs)
  {
    InjectiveSeparates(hash, derive);
    CacheRefines(hash, derive, unset, specs);
  }

  // ----- Whole ticks on the store -----

  /** The store's answers to one tick. */
  datatype Answers = Answers(loads: bool, saves: bool)

  /** The store after a tick: a good derive is saved, a config error only reads the flags. */
  function Stored<D>(store: Store<D>, id: Id, basis: Basis<D>, answers: Answers): Store<D> {
    if basis.Fails? then store
    else
      var op := if basis.configError.None? then SaveDerived(Doc(false, false, basis.state)) else LoadFlags;
      Performed(store, op, id, answers.loads, answers.saves)
  }

  /** A config error changes neither what is cached nor what is stored, and a failing derive neither. */
  lemma ErrorsChangeNothing<S, H, D>(
    hash: S -> H, derive: S -> Outcome<D>, c: Cache<H, D>, spec: S, store: Store<D>, id: Id, answers: Answers)
    ensures var (c', basis) := Cached(hash, derive, c, spec);
            basis.Fails? || basis.configError.Some?
            ==> c'.cached == c.cached && c'.lastHash == c.lastHash && Stored(store, id, basis, answers) == store
  {
  }

  function StoreAfter<S, H(==), D>(
    hash: S -> H, derive: S -> Outcome<D>, unset: H, specs: seq<S>, store: Store<D>, id: Id): Store<D>
  {
    if specs == [] then store
    else
      Stored(StoreAfter(hash, derive, unset, specs[..|specs| - 1], store, id), id,
             LastBasis(hash, derive, unset, specs), Answers(true, true))
  }

  /** With a store that answers, the stored state is the last good one, whatever errors came since,
      and carries the flags it had. */
  lemma {:induction false} StoredIsLastGood<S(!new), H, D>(
    hash: S -> H, derive: S -> Outcome<D>, unset: H, specs: seq<S>, store: Store<D>, id: Id)
    requires Separates(hash, derive)
    ensures var after := StoreAfter(hash, derive, unset, specs, store, id);
            var good := LastGood(derive, specs);
            && (good.None? ==> after == store)
            && (good.Some? ==> id in after && after[id].body == good.value)
            && Shutdown(after, id) == Shutdown(store, id) && Disabled(after, id) == Disabled(store, id)
  {
    if specs != [] {
      StoredIsLastGood(hash, derive, unset, specs[..|specs| - 1], store, id);
      CacheRefines(hash, derive, unset, specs);
    }
  }
}
