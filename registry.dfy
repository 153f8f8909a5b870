/**
 * The registries that map a chunk type code to the class handling it: the
 * parser registry of chunk_parsers.py and the chunk-class registry of
 * models.py follow the same rule, so both are instances of one class.
 */
module Registries {
  import opened Common

  /** The codes named by a run of registrations. */
  function CodesOf<V>(entries: seq<(Code, V)>): (codes: set<Code>)
    ensures forall i :: 0 <= i < |entries| ==> entries[i].0 in codes
    ensures forall c :: c in codes ==> exists i :: 0 <= i < |entries| && entries[i].0 == c
  {
    set i | 0 <= i < |entries| :: entries[i].0
  }

  /** No code of the run is registered already, and no code occurs twice in
      the run. */
  predicate FreshCodes<V>(keys: set<Code>, entries: seq<(Code, V)>)
  {
    (forall i :: 0 <= i < |entries| ==> entries[i].0 !in keys) &&
    (forall i, j :: 0 <= i < j < |entries| ==> entries[i].0 != entries[j].0)
  }

  /** A run is fresh when its first code is and the rest of the run is
      fresh once the first code is registered. */
  lemma FreshCodesFirst<V>(keys: set<Code>, entries: seq<(Code, V)>)
    requires |entries| > 0
    ensures FreshCodes(keys, entries) <==>
      entries[0].0 !in keys && FreshCodes(keys + {entries[0].0}, entries[1..])
  {
    if entries[0].0 !in keys && FreshCodes(keys + {entries[0].0}, entries[1..]) {
      forall i, j | 0 <= i < j < |entries| ensures entries[i].0 != entries[j].0 {
        if i > 0 { assert entries[i].0 == entries[1..][i - 1].0; }
        assert entries[j].0 == entries[1..][j - 1].0;
      }
    }
  }

  lemma CodesOfFirst<V>(entries: seq<(Code, V)>)
    requires |entries| > 0
    ensures CodesOf(entries) == {entries[0].0} + CodesOf(entries[1..])
  {
    forall c | c in CodesOf(entries) ensures c in {entries[0].0} + CodesOf(entries[1..]) {
      var i :| 0 <= i < |entries| && entries[i].0 == c;
      if i > 0 { assert entries[1..][i - 1].0 == c; }
    }
  }

  /** Registering `entries` one after another, as decorators run at import
      time: a code already present raises RuntimeError and ends the run. */
  function RegisterAll<V>(store: map<Code, V>, entries: seq<(Code, V)>): (r: Result<map<Code, V>>)
    ensures r.Ok? <==> FreshCodes(store.Keys, entries)
    ensures r.Err? ==> r.error == RuntimeError
    ensures r.Ok? ==> r.value.Keys == store.Keys + CodesOf(entries)
    ensures r.Ok? ==> forall c :: c in store ==> r.value[c] == store[c]
    ensures r.Ok? ==> forall i :: 0 <= i < |entries| ==> r.value[entries[i].0] == entries[i].1
    decreases |entries|
  {
    if |entries| == 0 then Ok(store)
    else
      FreshCodesFirst(store.Keys, entries);
      if entries[0].0 in store then Err(RuntimeError)
      else
        var rest := RegisterAll(store[entries[0].0 := entries[0].1], entries[1..]);
        CodesOfFirst(entries);
        assert store[entries[0].0 := entries[0].1].Keys == store.Keys + {entries[0].0};
        if rest.Ok? then
          assert forall i :: 1 <= i < |entries| ==> entries[i] == entries[1..][i - 1];
          assert rest.value[entries[0].0] == entries[0].1;
          rest
        else rest
  }

  /** A code-to-class table filled in by registration (a `_store` dict or
      the module-level `chunk_registry`). */
  class Registry<V> {
    var store: map<Code, V>

    constructor()
      ensures store == map[]
    {
      store := map[];
    }

    /** register / the `chunk` decorator: refuse a code that already has an
        entry, otherwise add it. */
    method Register(code: Code, v: V) returns (r: Outcome)
      modifies this
      ensures code in old(store) ==> r == Fail(RuntimeError) && store == old(store)
      ensures code !in old(store) ==> r == Pass && store == old(store)[code := v]
      ensures r.Pass? <==> RegisterAll(old(store), [(code, v)]).Ok?
    {
      if code in store {
        return Fail(RuntimeError);
      }
      store := store[code := v];
      r := Pass;
    }
  }

  /** A second registration under the same code fails, whatever the first
      one registered. */
  lemma SecondRegistrationFails<V>(store: map<Code, V>, code: Code, a: V, b: V)
    ensures RegisterAll(store, [(code, a), (code, b)]) == Err(RuntimeError)
  {
    assert !FreshCodes(store.Keys, [(code, a), (code, b)]) by {
      assert [(code, a), (code, b)][0].0 == [(code, a), (code, b)][1].0;
    }
  }
}
