/** Hibernator: the facade. It owns the alias map, the factory table and the
    active session registry, and coordinates session acquisition, teardown
    and transactions. The source's lazily created static singleton is one
    explicitly constructed object here; the registry strategy is chosen at
    construction (`inWebApp` stands for the HttpRuntime probe), and both
    registry objects exist, with `requireHttpModule` selecting the one in use. */
module Facade {
  import opened Common
  import opened Text
  import opened Handles
  import opened FactoryTable
  import opened ThreadScope
  import opened HttpScope
  import opened Aliases

  /** Which thread and request are current, and what every other thread and
      request holds. */
  type Others = (ThreadId, (map<ThreadId, map<string, SessionId>>, map<ThreadId, SessionStartMode>), RequestId, map<RequestId, ItemBag>)

  /** The mode OpenSession leaves behind: Unknown becomes Manual, any other stays. */
  function ManualIfUnknown(m: SessionStartMode): SessionStartMode
  {
    if m == Unknown then Manual else m
  }

  class Hibernator {
    const requireHttpModule: bool
    var httpModuleDefined: bool
    var isConfigured: bool
    var aliasMap: map<string, string>
    const factories: SessionFactoryCollection
    const threadStore: ThreadSessionCollection
    const httpStore: HttpSessionCollection
    /** The NHibernate sessions and transactions this facade has handed out. */
    const engine: Engine

    ghost function Repr(): set<object>
    {
      {this, factories, threadStore, httpStore, engine}
    }

    /** The registry object in use (SessionStorage). */
    ghost function Storage(): set<object>
    {
      if requireHttpModule then {httpStore} else {threadStore}
    }

    ghost predicate Valid()
      reads this, factories, engine
    {
      factories.Valid() && engine.Valid()
    }

    /** The current scope's name-to-session map. */
    function Stored(): map<string, SessionId>
      reads this, threadStore, httpStore
    {
      if requireHttpModule then httpStore.Map() else threadStore.Map()
    }

    /** The current scope's session start mode. */
    function Mode(): SessionStartMode
      reads this, threadStore, httpStore
    {
      if requireHttpModule then httpStore.Mode() else threadStore.Mode()
    }

    /** Which scope is current, and what every other scope holds. */
    ghost function Elsewhere(): Others
      reads this, threadStore, httpStore
    {
      (threadStore.current, threadStore.Elsewhere(), httpStore.current, httpStore.Elsewhere())
    }

    /** OpenSession's guard: a web application without OpenSessionInViewModule. */
    function ModuleMissing(): bool
      reads this
    {
      requireHttpModule && !httpModuleDefined
    }

    /** GetFactoryName: the registry key a name resolves to. */
    function GetFactoryName(name: string): string
      reads this, factories
    {
      Resolve(aliasMap, factories.factories.Keys, name)
    }

    /** HasOpenSession as a value: the resolved key is held in the current scope. */
    function HasOpen(name: string): bool
      reads this, factories, threadStore, httpStore
    {
      GetFactoryName(name) in Stored()
    }

    /** The private constructor with InitCollections and InitSessionStorage. */
    constructor (inWebApp: bool)
      ensures Valid() && fresh(factories) && fresh(threadStore) && fresh(httpStore) && fresh(engine)
      ensures requireHttpModule == inWebApp && !httpModuleDefined && !isConfigured
      ensures aliasMap == map[] && factories.factories == map[]
      ensures Stored() == map[] && Mode() == Unknown
      ensures engine.sessions == [] && engine.txns == []
    {
      requireHttpModule := inWebApp;
      httpModuleDefined := false;
      isConfigured := false;
      aliasMap := map[];
      factories := new SessionFactoryCollection();
      threadStore := new ThreadSessionCollection();
      httpStore := new HttpSessionCollection();
      engine := new Engine();
    }

    // ----- The ISessionCollection calls, sent to the registry in use -----

    method StoreContainsKey(key: string) returns (b: bool)
      modifies Storage()
      ensures b == (key in old(Stored()))
      ensures Stored() == old(Stored()) && Mode() == old(Mode()) && Elsewhere() == old(Elsewhere())
    {
      if requireHttpModule {
        b := httpStore.ContainsKey(key);
      } else {
        b := threadStore.ContainsKey(key);
      }
    }

    method StoreGet(key: string) returns (r: Result<SessionId>)
      modifies Storage()
      ensures key in old(Stored()) ==> r == Success(old(Stored())[key])
      ensures key !in old(Stored()) ==> r == Failure(SessionNotFound(key))
      ensures Stored() == old(Stored()) && Mode() == old(Mode()) && Elsewhere() == old(Elsewhere())
    {
      if requireHttpModule {
        r := httpStore.Get(key);
      } else {
        r := threadStore.Get(key);
      }
    }

    method StoreAdd(key: string, session: SessionId) returns (r: Outcome)
      modifies Storage()
      ensures key in old(Stored()) ==> r == Fail(DuplicateKey(key)) && Stored() == old(Stored())
      ensures key !in old(Stored()) ==> r == Pass && Stored() == old(Stored())[key := session]
      ensures Mode() == old(Mode()) && Elsewhere() == old(Elsewhere())
    {
      if requireHttpModule {
        r := httpStore.Add(key, session);
      } else {
        r := threadStore.Add(key, session);
      }
    }

    method StoreRemove(key: string)
      modifies Storage()
      ensures Stored() == old(Stored()) - {key}
      ensures Mode() == old(Mode()) && Elsewhere() == old(Elsewhere())
    {
      if requireHttpModule {
        httpStore.Remove(key);
      } else {
        threadStore.Remove(key);
      }
    }

    method StoreKeys() returns (ks: seq<string>)
      modifies Storage()
      ensures forall k :: k in ks <==> k in old(Stored())
      ensures forall i, j :: 0 <= i < j < |ks| ==> ks[i] != ks[j]
      ensures Stored() == old(Stored()) && Mode() == old(Mode()) && Elsewhere() == old(Elsewhere())
    {
      if requireHttpModule {
        ks := httpStore.Keys();
      } else {
        ks := threadStore.Keys();
      }
    }

    // ----- Mode and module flags -----

    /** GetSessionMode. */
    method GetSessionMode() returns (m: SessionStartMode)
      ensures m == Mode()
    {
      if requireHttpModule {
        m := httpStore.GetMode();
      } else {
        m := threadStore.GetMode();
      }
    }

    /** SetSessionMode: the current scope's mode, and nothing else, changes. */
    method SetSessionMode(m: SessionStartMode)
      modifies Storage()
      ensures Mode() == m && Stored() == old(Stored()) && Elsewhere() == old(Elsewhere())
    {
      if requireHttpModule {
        httpStore.SetMode(m);
      } else {
        threadStore.SetMode(m);
      }
    }

    /** GetHttpModuleDefined. */
    method GetHttpModuleDefined() returns (b: bool)
      ensures b == httpModuleDefined
    {
      b := httpModuleDefined;
    }

    /** SetHttpModuleDefined. */
    method SetHttpModuleDefined(b: bool)
      modifies this`httpModuleDefined
      ensures httpModuleDefined == b
    {
      httpModuleDefined := b;
    }

    // ----- Aliases -----

    /** AddAlias: binds `alias` only when it is not bound yet. */
    method AddAlias(alias: string, factory: string)
      modifies this`aliasMap
      ensures aliasMap == Bind(old(aliasMap), alias, factory)
      ensures alias in old(aliasMap) ==> aliasMap == old(aliasMap)
      ensures alias !in old(aliasMap) ==> aliasMap == old(aliasMap)[alias := factory]
    {
      if alias !in aliasMap {
        aliasMap := aliasMap[alias := factory];
      }
    }

    /** AddFactoryAliases(factoryName, aliases): each alias bound to the name, in order. */
    method AddFactoryAliasesFor(factoryName: string, aliases: seq<string>)
      modifies this`aliasMap
      ensures aliasMap == BindAll(old(aliasMap), Pairs(aliases, factoryName))
    {
      var i := 0;
      while i < |aliases|
        invariant 0 <= i <= |aliases|
        invariant aliasMap == BindAll(old(aliasMap), Pairs(aliases[..i], factoryName))
      {
        assert Pairs(aliases[..i + 1], factoryName)[..i] == Pairs(aliases[..i], factoryName);
        AddAlias(aliases[i], factoryName);
        i := i + 1;
      }
      assert aliases[..i] == aliases;
    }

    /** The body of AddFactoryAliases(string) for one ';'-separated piece. */
    method AddAliasPiece(piece: string)
      modifies this`aliasMap
      ensures aliasMap == BindAll(old(aliasMap), PiecePairs(piece))
    {
      var parts := Split(piece, ':');
      if |parts| == 2 {
        AddFactoryAliasesFor(parts[1], Split(parts[0], ','));
      }
    }

    /** AddFactoryAliases(string): parses "a[,a...]:name;..." and binds as AddAlias does. */
    method AddFactoryAliases(setting: string)
      modifies this`aliasMap
      ensures aliasMap == BindAll(old(aliasMap), ParseAliases(setting))
    {
      var pieces := Split(setting, ';');
      ghost var start := aliasMap;
      var i := 0;
      while i < |pieces|
        invariant 0 <= i <= |pieces|
        invariant aliasMap == BindAll(start, ParsePieces(pieces[..i]))
      {
        AddAliasPiece(pieces[i]);
        assert pieces[..i + 1][..i] == pieces[..i];
        assert ParsePieces(pieces[..i + 1]) == ParsePieces(pieces[..i]) + PiecePairs(pieces[i]);
        BindAllAppend(start, ParsePieces(pieces[..i]), PiecePairs(pieces[i]));
        i := i + 1;
      }
      assert pieces[..i] == pieces;
    }

    /** AddFactoryAliases(IDictionary): adds every entry whose alias is not bound yet. */
    method AddFactoryAliasMap(d: map<string, string>)
      modifies this`aliasMap
      ensures aliasMap == Merge(old(aliasMap), d)
    {
      var left := d.Keys;
      while left != {}
        invariant left <= d.Keys
        invariant aliasMap.Keys == old(aliasMap).Keys + (d.Keys - left)
        invariant forall k :: k in old(aliasMap) ==> aliasMap[k] == old(aliasMap)[k]
        invariant forall k :: k in d && k !in left && k !in old(aliasMap) ==> aliasMap[k] == d[k]
        decreases left
      {
        var k :| k in left;
        AddAlias(k, d[k]);
        left := left - {k};
      }
      assert aliasMap.Keys == Merge(old(aliasMap), d).Keys;
    }

    /** SetFactoryAliases(string): the map is replaced, then the setting is added. */
    method SetFactoryAliases(setting: string)
      modifies this`aliasMap
      ensures aliasMap == BindAll(map[], ParseAliases(setting))
    {
      aliasMap := map[];
      AddFactoryAliases(setting);
    }

    /** SetFactoryAliases(IDictionary): afterwards the alias map is exactly `d`. */
    method SetFactoryAliasMap(d: map<string, string>)
      modifies this`aliasMap
      ensures aliasMap == d
    {
      aliasMap := map[];
      AddFactoryAliasMap(d);
    }

    /** SetFactoryAliases(factoryName, aliases): only the new bindings remain. */
    method SetFactoryAliasesFor(factoryName: string, aliases: seq<string>)
      modifies this`aliasMap
      ensures aliasMap == BindAll(map[], Pairs(aliases, factoryName))
    {
      aliasMap := map[];
      AddFactoryAliasesFor(factoryName, aliases);
    }

    /** ConfigureCommon, minus the interceptor: runs once; a non-empty alias
        setting (HibernationSessionFactoryAliases) replaces the alias map. */
    method ConfigureCommon(aliasSetting: string)
      modifies this`aliasMap, this`isConfigured
      ensures isConfigured
      ensures old(isConfigured) ==> aliasMap == old(aliasMap)
      ensures !old(isConfigured) && aliasSetting == "" ==> aliasMap == old(aliasMap)
      ensures !old(isConfigured) && aliasSetting != "" ==> aliasMap == BindAll(map[], ParseAliases(aliasSetting))
    {
      if isConfigured {
        return;
      }
      if aliasSetting != "" {
        SetFactoryAliases(aliasSetting);
      }
      isConfigured := true;
    }

    // ----- Factory registration and lookup -----

    /** AddSessionFactory(factory, name, aliases): nothing happens when the
        name is registered in any letter case; otherwise the aliases are
        bound to the name as given, then the factory is stored. */
    method AddSessionFactory(factory: FactoryId, name: string, aliases: seq<string>)
      requires Valid()
      modifies this`aliasMap, factories
      ensures Valid()
      ensures old(factories.ContainsKey(name)) ==> aliasMap == old(aliasMap) && factories.factories == old(factories.factories)
      ensures !old(factories.ContainsKey(name)) ==>
                aliasMap == BindAll(old(aliasMap), Pairs(aliases, name))
                && factories.factories == old(factories.factories)[ToUpper(name) := factory]
    {
      if factories.ContainsKey(name) {
        return;
      }
      AddFactoryAliasesFor(name, aliases);
      var _ := factories.Add(name, factory);
    }

    /** AddSessionFactory(configuration, name, aliases, ...), the decision part:
        an empty name is replaced by the configuration's session_factory_name
        property (or stays empty); an already registered name stops here;
        otherwise the factory built from the configuration (`built`) is
        handed to the overload above. Returns whether a factory was built. */
    method AddConfiguredSessionFactory(name: string, sessionFactoryNameProperty: Option<string>,
                                       aliases: seq<string>, built: FactoryId) returns (didBuild: bool)
      requires Valid()
      modifies this`aliasMap, factories
      ensures Valid()
      ensures var n := if name != "" then name
                       else if sessionFactoryNameProperty.Some? then sessionFactoryNameProperty.value else "";
              && didBuild == !old(factories.ContainsKey(n))
              && (!didBuild ==> aliasMap == old(aliasMap) && factories.factories == old(factories.factories))
              && (didBuild ==> aliasMap == BindAll(old(aliasMap), Pairs(aliases, n))
                               && factories.factories == old(factories.factories)[ToUpper(n) := built])
    {
      var n := name;
      if n == "" {
        n := if sessionFactoryNameProperty.Some? then sessionFactoryNameProperty.value else "";
      }
      if factories.ContainsKey(n) {
        return false;
      }
      AddSessionFactory(built, n, aliases);
      didBuild := true;
    }

    /** GetSessionFactory: the factory under the resolved name; an unknown
        name resolves to "" and so reaches the default factory if there is one. */
    method GetSessionFactory(name: string) returns (r: Result<FactoryId>)
      ensures var key := ToUpper(GetFactoryName(name));
              && (key in factories.factories ==> r == Success(factories.factories[key]))
              && (key !in factories.factories ==> r == Failure(KeyNotFound(key)))
    {
      r := factories.Get(GetFactoryName(name));
    }

    // ----- Sessions -----

    /** The tail of OpenSession once the name is resolved to `fact`: the
        factory lookup, a new session, and its registration under `fact`.
        When `fact` is already registered in the scope, the registry's Add
        fails after the session was opened, leaving it open and unregistered. */
    method OpenAndRegister(fact: string) returns (r: Result<SessionId>)
      requires Valid()
      modifies Storage(), engine
      ensures Valid() && engine.txns == old(engine.txns)
      ensures Mode() == old(Mode()) && Elsewhere() == old(Elsewhere())
      ensures if !factories.ContainsKey(fact) then
                r == Failure(NoFactoryForName(fact)) && Stored() == old(Stored()) && engine.sessions == old(engine.sessions)
              else
                var id := |old(engine.sessions)|;
                && engine.sessions == old(engine.sessions) + [SessionHandle(factories.factories[ToUpper(fact)], true, None)]
                && (fact in old(Stored()) ==> r == Failure(DuplicateKey(fact)) && Stored() == old(Stored()))
                && (fact !in old(Stored()) ==> r == Success(id) && Stored() == old(Stored())[fact := id])
    {
      if !factories.ContainsKey(fact) {
        return Failure(NoFactoryForName(fact));
      }
      var factory := factories.Get(fact);
      var id := engine.OpenSession(factory.value);
      var added := StoreAdd(fact, id);
      if added.Fail? {
        return Failure(added.error);
      }
      r := Success(id);
    }

    /** OpenSession(factoryName, connection, interceptor): an Unknown mode
        becomes Manual first; then the HttpModule guard, and OpenAndRegister
        under the resolved name. */
    method OpenSessionOn(name: string) returns (r: Result<SessionId>)
      requires Valid()
      modifies Storage(), engine
      ensures Valid() && engine.txns == old(engine.txns)
      ensures Mode() == ManualIfUnknown(old(Mode())) && Elsewhere() == old(Elsewhere())
      ensures var fact := GetFactoryName(name);
              if ModuleMissing() then
                r == Failure(HttpModuleNotDefined) && Stored() == old(Stored()) && engine.sessions == old(engine.sessions)
              else if !factories.ContainsKey(fact) then
                r == Failure(NoFactoryForName(fact)) && Stored() == old(Stored()) && engine.sessions == old(engine.sessions)
              else
                var id := |old(engine.sessions)|;
                && engine.sessions == old(engine.sessions) + [SessionHandle(factories.factories[ToUpper(fact)], true, None)]
                && (fact in old(Stored()) ==> r == Failure(DuplicateKey(fact)) && Stored() == old(Stored()))
                && (fact !in old(Stored()) ==> r == Success(id) && Stored() == old(Stored())[fact := id])
    {
      var mode := GetSessionMode();
      if mode == Unknown {
        SetSessionMode(Manual);
      }
      if requireHttpModule && !httpModuleDefined {
        return Failure(HttpModuleNotDefined);
      }
      r := OpenAndRegister(GetFactoryName(name));
    }

    /** OpenSession(factoryName): the factory's connection is fetched first,
        so an unknown name fails with KeyNotFound before the mode is touched. */
    method OpenSession(name: string) returns (r: Result<SessionId>)
      requires Valid()
      modifies Storage(), engine
      ensures Valid() && engine.txns == old(engine.txns) && Elsewhere() == old(Elsewhere())
      ensures var fact := GetFactoryName(name);
              if !factories.ContainsKey(fact) then
                r == Failure(KeyNotFound(ToUpper(fact)))
                && Mode() == old(Mode()) && Stored() == old(Stored()) && engine.sessions == old(engine.sessions)
              else if ModuleMissing() then
                r == Failure(HttpModuleNotDefined) && Mode() == ManualIfUnknown(old(Mode()))
                && Stored() == old(Stored()) && engine.sessions == old(engine.sessions)
              else
                var id := |old(engine.sessions)|;
                && Mode() == ManualIfUnknown(old(Mode()))
                && engine.sessions == old(engine.sessions) + [SessionHandle(factories.factories[ToUpper(fact)], true, None)]
                && (fact in old(Stored()) ==> r == Failure(DuplicateKey(fact)) && Stored() == old(Stored()))
                && (fact !in old(Stored()) ==> r == Success(id) && Stored() == old(Stored())[fact := id])
    {
      var f := GetSessionFactory(name);
      if f.Failure? {
        return Failure(f.error);
      }
      r := OpenSessionOn(name);
    }

    /** GetSession: the scope's session under the resolved name, opened and
        registered on first use. */
    method GetSession(name: string) returns (r: Result<SessionId>)
      requires Valid()
      modifies Storage(), engine
      ensures Valid() && engine.txns == old(engine.txns) && Elsewhere() == old(Elsewhere())
      ensures var fact := GetFactoryName(name);
              if fact in old(Stored()) then
                r == Success(old(Stored())[fact])
                && Stored() == old(Stored()) && Mode() == old(Mode()) && engine.sessions == old(engine.sessions)
              else if !factories.ContainsKey(fact) then
                r == Failure(KeyNotFound(ToUpper(fact)))
                && Stored() == old(Stored()) && Mode() == old(Mode()) && engine.sessions == old(engine.sessions)
              else if ModuleMissing() then
                r == Failure(HttpModuleNotDefined) && Mode() == ManualIfUnknown(old(Mode()))
                && Stored() == old(Stored()) && engine.sessions == old(engine.sessions)
              else
                var id := |old(engine.sessions)|;
                && r == Success(id) && Stored() == old(Stored())[fact := id]
                && Mode() == ManualIfUnknown(old(Mode()))
                && engine.sessions == old(engine.sessions) + [SessionHandle(factories.factories[ToUpper(fact)], true, None)]
      ensures r.Success? ==> GetFactoryName(name) in Stored() && Stored()[GetFactoryName(name)] == r.value
    {
      var fact := GetFactoryName(name);
      var present := StoreContainsKey(fact);
      if !present {
        var openedNow := OpenSession(name);
        if openedNow.Failure? {
          return openedNow;
        }
      }
      r := StoreGet(fact);
    }

    /** HasOpenSession: whether the scope holds a session under the resolved
        name; nothing is opened or changed. */
    method HasOpenSession(name: string) returns (b: bool)
      modifies Storage()
      ensures b == old(HasOpen(name))
      ensures Stored() == old(Stored()) && Mode() == old(Mode()) && Elsewhere() == old(Elsewhere())
    {
      b := StoreContainsKey(GetFactoryName(name));
    }

    /** The body of CloseSession once the name is resolved: the session under
        `key`, if any, is closed when open and unregistered. */
    method CloseStoredKey(key: string)
      requires Valid()
      modifies Storage(), engine
      ensures Valid() && engine.txns == old(engine.txns)
      ensures Stored() == old(Stored()) - {key} && Mode() == old(Mode()) && Elsewhere() == old(Elsewhere())
      ensures key in old(Stored()) ==> engine.sessions == CloseAt(old(engine.sessions), old(Stored())[key])
      ensures key !in old(Stored()) ==> engine.sessions == old(engine.sessions)
    {
      var present := StoreContainsKey(key);
      if !present {
        return;
      }
      var got := StoreGet(key);
      var session := got.value;
      if engine.IsOpen(session) {
        engine.Close(session);
      } else {
        assert engine.sessions == CloseAt(engine.sessions, session);
      }
      StoreRemove(key);
    }

    /** CloseSession: closes and unregisters the session under the resolved name. */
    method CloseSession(name: string)
      requires Valid()
      modifies Storage(), engine
      ensures Valid() && engine.txns == old(engine.txns)
      ensures var fact := GetFactoryName(name);
              && Stored() == old(Stored()) - {fact} && Mode() == old(Mode()) && Elsewhere() == old(Elsewhere())
              && (fact in old(Stored()) ==> engine.sessions == CloseAt(old(engine.sessions), old(Stored())[fact]))
              && (fact !in old(Stored()) ==> engine.sessions == old(engine.sessions))
    {
      CloseStoredKey(GetFactoryName(name));
    }

    /** What a sweep keeps true: the scope holds the original map `m0` minus
        the keys removed so far, each removed key's session is closed, every
        other session open at the start (`s0`) is still open, and no session
        is open that was not open at the start. */
    ghost predicate SweepInvariant(m0: map<string, SessionId>, s0: seq<SessionHandle>, gone: set<string>)
      reads this, threadStore, httpStore, engine
    {
      && Stored() == m0 - gone
      && |engine.sessions| == |s0|
      && (forall k :: k in m0 && k in gone ==> !OpenIn(engine.sessions, m0[k]))
      && (forall id :: OpenIn(engine.sessions, id) ==> OpenIn(s0, id))
      && (forall id :: OpenIn(s0, id) && id !in SessionsUnder(m0, gone) ==> OpenIn(engine.sessions, id))
    }

    /** How far CloseAllSessions has got after the first `i` listed keys:
        the sweep invariant holds, the removed keys include the resolution of
        every key handled so far and lie within the swept set, and the alias
        map, the factory keys, the mode, the other scopes and the
        transactions are as they were. */
    ghost predicate SweepProgress(keys: seq<string>, i: int, al: map<string, string>, fk: set<string>,
                                  m0: map<string, SessionId>, s0: seq<SessionHandle>, gone: set<string>,
                                  mode0: SessionStartMode, others: Others, txns0: seq<TxState>)
      reads this, factories, threadStore, httpStore, engine
    {
      && 0 <= i <= |keys|
      && Valid() && engine.txns == txns0
      && SweepInvariant(m0, s0, gone)
      && gone <= Swept(al, fk, m0)
      && (forall j :: 0 <= j < i ==> Resolve(al, fk, keys[j]) in gone)
      && Mode() == mode0 && Elsewhere() == others
      && aliasMap == al && factories.factories.Keys == fk
    }

    /** CloseSession(keys[i]) as one step of CloseAllSessions. */
    method SweepSession(keys: seq<string>, i: int, ghost al: map<string, string>, ghost fk: set<string>,
                        ghost m0: map<string, SessionId>, ghost s0: seq<SessionHandle>, ghost gone: set<string>,
                        ghost mode0: SessionStartMode, ghost others: Others, ghost txns0: seq<TxState>)
      requires SweepProgress(keys, i, al, fk, m0, s0, gone, mode0, others, txns0) && i < |keys| && keys[i] in m0
      modifies Storage(), engine
      ensures SweepProgress(keys, i + 1, al, fk, m0, s0, gone + {Resolve(al, fk, keys[i])}, mode0, others, txns0)
    {
      ghost var prevStored, prevSessions := Stored(), engine.sessions;
      ghost var fact := Resolve(al, fk, keys[i]);
      SweptHas(al, fk, m0, keys[i]);
      CloseSession(keys[i]);
      SweepStep(m0, prevStored, fact, prevSessions, engine.sessions, s0, gone);
    }

    /** CloseStoredKey(key) as one step of CloseAllStoredSessions. */
    method SweepKey(key: string, ghost m0: map<string, SessionId>, ghost s0: seq<SessionHandle>, ghost gone: set<string>)
      requires Valid() && SweepInvariant(m0, s0, gone)
      modifies Storage(), engine
      ensures Valid() && engine.txns == old(engine.txns)
      ensures SweepInvariant(m0, s0, gone + {key})
      ensures Mode() == old(Mode()) && Elsewhere() == old(Elsewhere())
    {
      ghost var prevStored, prevSessions := Stored(), engine.sessions;
      CloseStoredKey(key);
      SweepStep(m0, prevStored, key, prevSessions, engine.sessions, s0, gone);
    }

    /** CloseAllSessions, as written: each stored key is handed to
        CloseSession, which resolves it again. A key that does not resolve to
        itself (an alias target not spelt in upper case, say) is skipped, so
        exactly the resolutions of the stored keys are closed and removed. */
    method CloseAllSessions()
      requires Valid()
      modifies Storage(), engine
      ensures Valid() && engine.txns == old(engine.txns) && |engine.sessions| == |old(engine.sessions)|
      ensures Stored() == old(Stored()) - Swept(aliasMap, factories.factories.Keys, old(Stored()))
      ensures Mode() == old(Mode()) && Elsewhere() == old(Elsewhere())
      ensures forall k :: k in old(Stored()) && k !in Stored() ==> !engine.IsOpen(old(Stored())[k])
      ensures forall id :: engine.IsOpen(id) ==> old(engine.IsOpen(id))
      ensures forall id :: old(engine.IsOpen(id)) && id !in SessionsUnder(old(Stored()), Swept(aliasMap, factories.factories.Keys, old(Stored()))) ==>
                engine.IsOpen(id)
    {
      ghost var m0, s0, al, fk := Stored(), engine.sessions, aliasMap, factories.factories.Keys;
      ghost var mode0, others, txns0 := Mode(), Elsewhere(), engine.txns;
      ghost var gone: set<string> := {};
      var keys := StoreKeys();
      var i := 0;
      while i < |keys|
        invariant SweepProgress(keys, i, al, fk, m0, s0, gone, mode0, others, txns0)
      {
        SweepSession(keys, i, al, fk, m0, s0, gone, mode0, others, txns0);
        gone := gone + {Resolve(al, fk, keys[i])};
        i := i + 1;
      }
      SweptCovered(al, fk, m0, keys, gone);
    }

    /** The corrected sweep: every stored key is closed and removed as it is,
        without resolving it again, so the scope ends up empty. */
    method CloseAllStoredSessions()
      requires Valid()
      modifies Storage(), engine
      ensures Valid() && engine.txns == old(engine.txns) && |engine.sessions| == |old(engine.sessions)|
      ensures Stored() == map[] && Mode() == old(Mode()) && Elsewhere() == old(Elsewhere())
      ensures forall k :: k in old(Stored()) ==> !engine.IsOpen(old(Stored())[k])
      ensures forall id :: engine.IsOpen(id) ==> old(engine.IsOpen(id))
      ensures forall id :: old(engine.IsOpen(id)) && id !in old(Stored()).Values ==> engine.IsOpen(id)
    {
      ghost var m0, s0 := Stored(), engine.sessions;
      ghost var gone: set<string> := {};
      var keys := StoreKeys();
      var i := 0;
      while i < |keys|
        invariant 0 <= i <= |keys|
        invariant Valid() && engine.txns == old(engine.txns)
        invariant SweepInvariant(m0, s0, gone)
        invariant forall j :: 0 <= j < i ==> keys[j] in gone
        invariant Mode() == old(Mode()) && Elsewhere() == old(Elsewhere())
      {
        SweepKey(keys[i], m0, s0, gone);
        gone := gone + {keys[i]};
        i := i + 1;
      }
      assert m0.Keys <= gone;
      assert SessionsUnder(m0, gone) <= m0.Values;
    }

    /** RestartSession: CloseSession, then OpenSession, on the same name. */
    method RestartSession(name: string) returns (r: Result<SessionId>)
      requires Valid()
      modifies Storage(), engine
      ensures Valid() && engine.txns == old(engine.txns) && Elsewhere() == old(Elsewhere())
      ensures var fact := GetFactoryName(name);
              && |engine.sessions| >= |old(engine.sessions)|
              && (fact in old(Stored()) ==>
                    engine.sessions[..|old(engine.sessions)|] == CloseAt(old(engine.sessions), old(Stored())[fact]))
              && (fact !in old(Stored()) ==> engine.sessions[..|old(engine.sessions)|] == old(engine.sessions))
              && (if !factories.ContainsKey(fact) then
                    r == Failure(KeyNotFound(ToUpper(fact))) && Stored() == old(Stored()) - {fact} && Mode() == old(Mode())
                  else if ModuleMissing() then
                    r == Failure(HttpModuleNotDefined) && Stored() == old(Stored()) - {fact}
                    && Mode() == ManualIfUnknown(old(Mode()))
                  else
                    r == Success(|old(engine.sessions)|) && Stored() == old(Stored())[fact := r.value]
                    && engine.IsOpen(r.value) && Mode() == ManualIfUnknown(old(Mode())))
      ensures var fact := GetFactoryName(name);
              var closed := if fact in old(Stored()) then CloseAt(old(engine.sessions), old(Stored())[fact]) else old(engine.sessions);
              engine.sessions == (if r.Success? then closed + [SessionHandle(factories.factories[ToUpper(fact)], true, None)] else closed)
    {
      ghost var m0, s0, mode0, fact := Stored(), engine.sessions, Mode(), GetFactoryName(name);
      CloseSession(name);
      ghost var closed := engine.sessions;
      assert Stored() == m0 - {fact} && fact !in Stored() && Mode() == mode0;
      assert fact in m0 ==> closed == CloseAt(s0, m0[fact]);
      assert fact !in m0 ==> closed == s0;
      r := OpenSession(name);
      assert GetFactoryName(name) == fact;
      assert engine.sessions[..|closed|] == closed && |closed| == |s0|;
      if r.Success? {
        assert (m0 - {fact})[fact := r.value] == m0[fact := r.value];
      }
    }

    /** BeginTransaction: an Unknown mode becomes AtuoTransactionScope before
        the session is fetched (so GetSession leaves it so), then a new
        transaction is begun on the scope's session under the name. */
    method BeginTransaction(name: string) returns (r: Result<TxId>)
      requires Valid()
      modifies Storage(), engine
      ensures Valid() && Elsewhere() == old(Elsewhere())
      ensures Mode() == (if old(Mode()) == Unknown then AtuoTransactionScope else old(Mode()))
      ensures r.Failure? ==> engine.txns == old(engine.txns)
      ensures r.Success? ==> r.value == |old(engine.txns)| && engine.txns == old(engine.txns) + [Pending]
      ensures r.Success? ==> var fact := GetFactoryName(name);
                fact in Stored() && engine.IsOpen(Stored()[fact]) && engine.CurrentTx(Stored()[fact]) == Some(r.value)
      ensures var fact := GetFactoryName(name);
              if fact in old(Stored()) then
                var session := old(Stored())[fact];
                && Stored() == old(Stored())
                && (old(engine.IsOpen(session)) ==>
                      && r.Success? && engine.CurrentTx(session) == Some(r.value)
                      && engine.sessions == old(engine.sessions)[session := old(engine.sessions)[session].(current := Some(r.value))])
                && (!old(engine.IsOpen(session)) ==> r == Failure(SessionClosed) && engine.sessions == old(engine.sessions))
              else if !factories.ContainsKey(fact) then
                r == Failure(KeyNotFound(ToUpper(fact))) && Stored() == old(Stored()) && engine.sessions == old(engine.sessions)
              else if ModuleMissing() then
                r == Failure(HttpModuleNotDefined) && Stored() == old(Stored()) && engine.sessions == old(engine.sessions)
              else
                var session := |old(engine.sessions)|;
                && r.Success? && Stored() == old(Stored())[fact := session]
                && engine.IsOpen(session) && engine.CurrentTx(session) == Some(r.value)
                && engine.sessions == old(engine.sessions) + [SessionHandle(factories.factories[ToUpper(fact)], true, Some(r.value))]
    {
      var mode := GetSessionMode();
      if mode == Unknown {
        SetSessionMode(AtuoTransactionScope);
      }
      var session :- GetSession(name);
      r := engine.Begin(session);
    }

    /** After a transaction ended on the session stored under `fact` in
        `m0`: in AtuoTransactionScope mode that session is closed and the key
        removed, in any other mode the scope and the sessions are as in `m0`
        and `s0`. */
    ghost predicate ClosedIfAuto(fact: string, m0: map<string, SessionId>, s0: seq<SessionHandle>)
      reads this, threadStore, httpStore, engine
    {
      && fact in m0
      && (Mode() == AtuoTransactionScope ==> Stored() == m0 - {fact} && engine.sessions == CloseAt(s0, m0[fact]))
      && (Mode() != AtuoTransactionScope ==> Stored() == m0 && engine.sessions == s0)
    }

    /** CommitTransaction and RollbackTransaction when the scope holds nothing
        under `fact` (state before: `m0`, `s0`, `t0`, `mode0`): GetSession
        fails with KeyNotFound or HttpModuleNotDefined, or opens and stores a
        session with no transaction, on which the commit or rollback then
        fails with TransactionNotActive. */
    ghost predicate NothingStoredOutcome(fact: string, m0: map<string, SessionId>, s0: seq<SessionHandle>,
                                         t0: seq<TxState>, mode0: SessionStartMode, r: Outcome)
      reads this, factories, threadStore, httpStore, engine
    {
      && engine.txns == t0
      && if !factories.ContainsKey(fact) then
           r == Fail(KeyNotFound(ToUpper(fact))) && Stored() == m0 && Mode() == mode0 && engine.sessions == s0
         else if ModuleMissing() then
           r == Fail(HttpModuleNotDefined) && Stored() == m0 && Mode() == ManualIfUnknown(mode0) && engine.sessions == s0
         else
           && r == Fail(TransactionNotActive) && Stored() == m0[fact := |s0|] && Mode() == ManualIfUnknown(mode0)
           && engine.sessions == s0 + [SessionHandle(factories.factories[ToUpper(fact)], true, None)]
    }

    /** The outcome of CommitTransaction on `fact` from the state `m0`, `s0`,
        `t0`, `mode0`: with a session stored, its pending current transaction
        is committed and ClosedIfAuto follows; a missing or finished
        transaction, or a refused commit, changes nothing. */
    ghost predicate CommitOutcome(fact: string, m0: map<string, SessionId>, s0: seq<SessionHandle>,
                                  t0: seq<TxState>, mode0: SessionStartMode, rejects: bool, r: Outcome)
      reads this, factories, threadStore, httpStore, engine
    {
      if fact in m0 then
        var tx := CurrentIn(s0, m0[fact]);
        && Mode() == mode0
        && if tx.None? || StateIn(t0, tx.value) != Pending || rejects then
             && r == Fail(if tx.Some? && StateIn(t0, tx.value) == Pending then CommitRejected else TransactionNotActive)
             && Stored() == m0 && engine.sessions == s0 && engine.txns == t0
           else
             && r == Pass && tx.value < |t0| && engine.txns == t0[tx.value := Committed]
             && ClosedIfAuto(fact, m0, s0)
      else
        NothingStoredOutcome(fact, m0, s0, t0, mode0, r)
    }

    /** The outcome of RollbackTransaction on `fact` from the state `m0`,
        `s0`, `t0`, `mode0`: with a session stored, its pending current
        transaction is rolled back and ClosedIfAuto follows; a missing or
        finished transaction changes nothing. */
    ghost predicate RollbackOutcome(fact: string, m0: map<string, SessionId>, s0: seq<SessionHandle>,
                                    t0: seq<TxState>, mode0: SessionStartMode, r: Outcome)
      reads this, factories, threadStore, httpStore, engine
    {
      if fact in m0 then
        var tx := CurrentIn(s0, m0[fact]);
        && Mode() == mode0
        && if tx.None? || StateIn(t0, tx.value) != Pending then
             && r == Fail(TransactionNotActive)
             && Stored() == m0 && engine.sessions == s0 && engine.txns == t0
           else
             && r == Pass && tx.value < |t0| && engine.txns == t0[tx.value := RolledBack]
             && ClosedIfAuto(fact, m0, s0)
      else
        NothingStoredOutcome(fact, m0, s0, t0, mode0, r)
    }

    /** CommitTransaction: commits the current transaction of the scope's
        session under the name, and in AtuoTransactionScope mode closes that
        session. A failed commit keeps what GetSession did (a session it
        opened stays registered and open) and nothing more. `rejects` stands
        for the database refusing the commit. */
    method CommitTransaction(name: string, rejects: bool) returns (r: Outcome)
      requires Valid()
      modifies Storage(), engine
      ensures Valid() && Elsewhere() == old(Elsewhere())
      ensures CommitOutcome(GetFactoryName(name), old(Stored()), old(engine.sessions), old(engine.txns), old(Mode()), rejects, r)
    {
      var got := GetSession(name);
      if got.Failure? {
        return Fail(got.error);
      }
      var committed := engine.Commit(got.value, rejects);
      if committed.Fail? {
        return committed;
      }
      var mode := GetSessionMode();
      if mode == AtuoTransactionScope {
        CloseSession(name);
      }
      r := Pass;
    }

    /** RollbackTransaction: rolls back the current transaction of the
        scope's session under the name, and in AtuoTransactionScope mode
        closes that session. */
    method RollbackTransaction(name: string) returns (r: Outcome)
      requires Valid()
      modifies Storage(), engine
      ensures Valid() && Elsewhere() == old(Elsewhere())
      ensures RollbackOutcome(GetFactoryName(name), old(Stored()), old(engine.sessions), old(engine.txns), old(Mode()), r)
    {
      var got := GetSession(name);
      if got.Failure? {
        return Fail(got.error);
      }
      var rolled := engine.Rollback(got.value);
      if rolled.Fail? {
        return rolled;
      }
      var mode := GetSessionMode();
      if mode == AtuoTransactionScope {
        CloseSession(name);
      }
      r := Pass;
    }
  }

  /** The keys CloseAllSessions removes: the resolutions of the stored keys. */
  function Swept(aliases: map<string, string>, keys: set<string>, stored: map<string, SessionId>): set<string>
  {
    set k | k in stored :: Resolve(aliases, keys, k)
  }

  /** The sessions `m` holds under the keys in `ks`. */
  function SessionsUnder(m: map<string, SessionId>, ks: set<string>): set<SessionId>
  {
    set k | k in m && k in ks :: m[k]
  }

  /** One step of a sweep: removing `fact` from a restriction `prev` of the
      original map `orig`, and closing its session, keeps every removed
      key's session closed, opens nothing, and closes no session held only
      under keys not yet removed (`gone` being those removed before). */
  lemma SweepStep(orig: map<string, SessionId>, prev: map<string, SessionId>, fact: string,
                  before: seq<SessionHandle>, after: seq<SessionHandle>, s0: seq<SessionHandle>, gone: set<string>)
    requires forall k :: k in prev ==> k in orig && prev[k] == orig[k]
    requires fact in prev ==> after == CloseAt(before, prev[fact])
    requires fact !in prev ==> after == before
    requires forall k :: k in orig && k !in prev ==> !OpenIn(before, orig[k])
    requires forall id :: OpenIn(s0, id) && id !in SessionsUnder(orig, gone) ==> OpenIn(before, id)
    ensures forall k :: k in orig && k !in prev - {fact} ==> !OpenIn(after, orig[k])
    ensures fact in orig ==> !OpenIn(after, orig[fact])
    ensures forall id :: OpenIn(after, id) ==> OpenIn(before, id)
    ensures forall id :: OpenIn(s0, id) && id !in SessionsUnder(orig, gone + {fact}) ==> OpenIn(after, id)
    ensures |after| == |before|
  {
    if fact in prev {
      assert orig[fact] in SessionsUnder(orig, gone + {fact});
    }
  }

  /** Once every listed key's resolution is gone, and the listed keys are the
      stored ones, exactly the swept keys are gone. */
  lemma SweptCovered(aliases: map<string, string>, keys: set<string>, stored: map<string, SessionId>,
                     listed: seq<string>, gone: set<string>)
    requires forall k :: k in listed <==> k in stored
    requires forall j :: 0 <= j < |listed| ==> Resolve(aliases, keys, listed[j]) in gone
    requires gone <= Swept(aliases, keys, stored)
    ensures gone == Swept(aliases, keys, stored)
  {
    forall k | k in Swept(aliases, keys, stored) ensures k in gone {
      var s :| s in stored && Resolve(aliases, keys, s) == k;
      var j :| 0 <= j < |listed| && listed[j] == s;
    }
  }

  lemma SweptHas(aliases: map<string, string>, keys: set<string>, stored: map<string, SessionId>, k: string)
    requires k in stored
    ensures Resolve(aliases, keys, k) in Swept(aliases, keys, stored)
  {
  }

  /** When every stored key resolves to itself, as the upper-case table keys
      and the default "" do, the sweep of CloseAllSessions empties the scope. */
  lemma {:induction false} SweepOfFixedKeysEmpties(aliases: map<string, string>, keys: set<string>, stored: map<string, SessionId>)
    requires forall k :: k in stored ==> Resolve(aliases, keys, k) == k
    ensures stored - Swept(aliases, keys, stored) == map[]
  {
    forall k | k in stored ensures k in Swept(aliases, keys, stored) {
      SweptHas(aliases, keys, stored, k);
    }
  }

  /** "reports" is not its own upper-case form. */
  lemma ReportsIsNotUpper()
    ensures ToUpper("reports") != "reports"
  {
    assert ToUpper("reports")[0] == 'R';
  }

  /** The values behind CloseAllSessions leaving a session open. Registering
      a factory as `target` with the alias `alias` binds `alias` to `target`
      and stores the factory under ToUpper(target). GetSession(alias) then
      stores its session (any `id`) under `target`. When `target` is not
      upper case, the sweep resolves it to ToUpper(target), so the swept set
      misses `target` and the scope keeps it. */
  lemma SweepMissesAliasTarget(alias: string, target: string, id: SessionId)
    requires alias != target && ToUpper(target) != target
    ensures var aliases, keys, stored := map[alias := target], {ToUpper(target)}, map[target := id];
            && BindAll(map[], Pairs([alias], target)) == aliases
            && Resolve(aliases, keys, alias) == target
            && Swept(aliases, keys, stored) == {ToUpper(target)}
            && stored - Swept(aliases, keys, stored) == stored
  {
    var aliases, keys, stored := map[alias := target], {ToUpper(target)}, map[target := id];
    assert Pairs([alias], target) == [(alias, target)];
    assert BindAll(map[], [(alias, target)]) == aliases by {
      assert [(alias, target)][..0] == [];
    }
    assert Swept(aliases, keys, stored) == {ToUpper(target)} by {
      forall k | k in stored ensures Resolve(aliases, keys, k) == ToUpper(target) {
        assert k == target;
      }
      SweptHas(aliases, keys, stored, target);
    }
  }
}
