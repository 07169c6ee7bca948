/** SessionFactoryCollection: a dictionary from factory name to session
    factory that upper-cases every key before touching the inner map, so
    that names are matched case-insensitively. */
module FactoryTable {
  import opened Common
  import opened Text

  class SessionFactoryCollection {
    /** The private inner Dictionary, keyed by upper-case names. */
    var factories: map<string, FactoryId>

    /** Every stored key is in upper case. */
    ghost predicate Valid()
      reads this
    {
      forall k :: k in factories ==> IsUpper(k)
    }

    constructor ()
      ensures Valid() && factories == map[]
    {
      factories := map[];
    }

    /** Indexer get: the factory stored under the upper-cased name; a missing key throws. */
    method Get(name: string) returns (r: Result<FactoryId>)
      ensures ToUpper(name) in factories ==> r == Success(factories[ToUpper(name)]) && r.value in Values()
      ensures ToUpper(name) !in factories ==> r == Failure(KeyNotFound(ToUpper(name)))
    {
      var key := ToUpper(name);
      if key !in factories {
        return Failure(KeyNotFound(key));
      }
      r := Success(factories[key]);
    }

    /** Indexer set: insert or overwrite, with no duplicate check. */
    method Set(name: string, factory: FactoryId)
      requires Valid()
      modifies this
      ensures Valid()
      ensures factories == old(factories)[ToUpper(name) := factory]
      ensures ContainsKey(name) && factory in Values()
      ensures Count() == old(Count()) + (if old(ContainsKey(name)) then 0 else 1)
    {
      factories := factories[ToUpper(name) := factory];
    }

    /** ContainsKey: whether the upper-cased name is stored. */
    function ContainsKey(key: string): bool
      reads this
    {
      ToUpper(key) in factories
    }

    /** Names that differ only in letter case address the same entry. */
    lemma ContainsKeyIgnoresCase(a: string, b: string)
      requires ToUpper(a) == ToUpper(b)
      ensures ContainsKey(a) == ContainsKey(b)
    {
    }

    /** A name and its upper-case form address the same entry. */
    lemma ContainsKeyOfUpper(key: string)
      ensures ContainsKey(ToUpper(key)) == ContainsKey(key)
    {
      ToUpperIdempotent(key);
    }

    /** Count: the number of stored entries. */
    function Count(): (n: nat)
      reads this
      requires Valid()
      ensures n == |Keys()|
    {
      |factories|
    }

    /** Keys: the stored (upper-case) names. */
    function Keys(): (ks: set<string>)
      reads this
      requires Valid()
      ensures forall k :: k in ks ==> IsUpper(k) && ContainsKey(k)
      ensures forall k :: ContainsKey(k) <==> ToUpper(k) in ks
    {
      forall k | k in factories ensures ContainsKey(k) {
        UpperIsFixed(k);
      }
      factories.Keys
    }

    /** Values: the stored factories. */
    function Values(): (vs: set<FactoryId>)
      reads this
      ensures forall v :: v in vs <==> exists k :: k in factories && factories[k] == v
    {
      factories.Values
    }

    /** Add: throws when the upper-cased name is present, otherwise inserts. */
    method Add(key: string, factory: FactoryId) returns (r: Outcome)
      requires Valid()
      modifies this
      ensures Valid()
      ensures old(ContainsKey(key)) ==> r == Fail(DuplicateKey(ToUpper(key))) && factories == old(factories)
      ensures !old(ContainsKey(key)) ==> r == Pass && factories == old(factories)[ToUpper(key) := factory]
      ensures r.Pass? <==> Count() == old(Count()) + 1
      ensures r.Pass? ==> factory in Values()
    {
      var k := ToUpper(key);
      if k in factories {
        return Fail(DuplicateKey(k));
      }
      factories := factories[k := factory];
      r := Pass;
    }

    /** Add of a key/value pair: the same as Add. */
    method AddPair(item: (string, FactoryId)) returns (r: Outcome)
      requires Valid()
      modifies this
      ensures Valid()
      ensures old(ContainsKey(item.0)) ==> r == Fail(DuplicateKey(ToUpper(item.0))) && factories == old(factories)
      ensures !old(ContainsKey(item.0)) ==> r == Pass && factories == old(factories)[ToUpper(item.0) := item.1]
      ensures r.Pass? <==> Count() == old(Count()) + 1
      ensures r.Pass? ==> item.1 in Values()
    {
      r := Add(item.0, item.1);
    }

    /** Remove: deletes the upper-cased key; says whether anything was deleted. */
    method Remove(key: string) returns (removed: bool)
      requires Valid()
      modifies this
      ensures Valid()
      ensures removed == old(ContainsKey(key))
      ensures factories == old(factories) - {ToUpper(key)}
      ensures !ContainsKey(key) && Count() == old(Count()) - (if removed then 1 else 0)
    {
      var k := ToUpper(key);
      removed := k in factories;
      ghost var before := factories;
      factories := factories - {k};
      assert factories.Keys == before.Keys - {k};
      if removed {
        assert before.Keys == factories.Keys + {k};
      }
    }

    /** TryGetValue: reports presence and hands back the stored factory. */
    method TryGetValue(key: string) returns (found: bool, value: Option<FactoryId>)
      ensures found <==> ContainsKey(key)
      ensures found ==> value == Some(factories[ToUpper(key)])
      ensures !found ==> value == None
    {
      var k := ToUpper(key);
      if k in factories {
        found, value := true, Some(factories[k]);
      } else {
        found, value := false, None;
      }
    }

    /** Contains of a pair: the key is present and the value is stored
        somewhere, not necessarily under that key. */
    function Contains(item: (string, FactoryId)): (b: bool)
      reads this
      ensures b <==> ContainsKey(item.0) && exists k :: k in factories && factories[k] == item.1
    {
      ToUpper(item.0) in factories && item.1 in factories.Values
    }

    /** Every stored entry is contained: Contains never misses a real pair. */
    lemma ContainsStoredPair(key: string)
      requires ContainsKey(key)
      ensures Contains((key, factories[ToUpper(key)]))
    {
    }

    /** Contains is not limited to stored pairs: a present key paired with a
        factory stored under another key is contained, although that key
        holds a different factory. */
    lemma ContainsMatchesValueUnderOtherKey(a: string, b: string)
      requires ContainsKey(a) && ContainsKey(b)
      requires factories[ToUpper(a)] != factories[ToUpper(b)]
      ensures Contains((a, factories[ToUpper(b)]))
    {
    }

    /** Remove of a pair: the Contains test, then removal by key. */
    method RemovePair(item: (string, FactoryId)) returns (removed: bool)
      requires Valid()
      modifies this
      ensures Valid()
      ensures removed == old(Contains(item))
      ensures factories == if removed then old(factories) - {ToUpper(item.0)} else old(factories)
      ensures Count() == old(Count()) - (if removed then 1 else 0)
    {
      if ContainsKey(item.0) && item.1 in factories.Values {
        removed := Remove(item.0);
      } else {
        removed := false;
      }
    }

    /** Clear: the table is left empty. */
    method Clear()
      requires Valid()
      modifies this
      ensures Valid() && factories == map[] && Count() == 0
    {
      factories := map[];
    }
  }

  /** Remove of a pair whose value is stored only under another key still
      deletes the entry under the pair's key, although that entry holds a
      different factory. */
  method RemovePairOfValueUnderOtherKey(t: SessionFactoryCollection, a: string, b: string) returns (removed: bool)
    requires t.Valid() && t.ContainsKey(a) && t.ContainsKey(b)
    requires t.factories[ToUpper(a)] != t.factories[ToUpper(b)]
    modifies t
    ensures removed && !t.ContainsKey(a)
    ensures t.factories == old(t.factories) - {ToUpper(a)}
  {
    t.ContainsMatchesValueUnderOtherKey(a, b);
    removed := t.RemovePair((a, t.factories[ToUpper(b)]));
  }
}
