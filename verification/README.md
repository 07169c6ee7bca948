# Hibernation session management, modelled in Dafny

Hibernation is a thin layer over NHibernate. It keeps a table of named
session factories and lets factory names be reached through aliases. Each
unit of work (a worker thread, or a web request) gets its own registry of
open sessions, keyed by resolved factory name, plus a "session start mode".
The `Hibernator` facade opens, fetches, restarts and closes sessions
through that registry and runs transactions on them. A
`HibernationTransaction` guard wraps one transaction and rolls it back on
disposal. A separate registry, `CustomLinqToHqlGeneratorFactory`, collects
custom LINQ-to-HQL generators and refuses a signature claimed twice.

The model is imperative wherever the source updates objects in place. Each
of these is a Dafny `class` with the source's state as fields:

- the facade;
- the factory table;
- the two session registries;
- the transaction guard;
- the generator registry.

Each method is proved against functions that describe the observable
state: the current scope's `Stored()` map and `Mode()`, the alias map,
the factory table, and the abstract NHibernate `Engine`. The rules that are
pure computation live in functions with their own lemmas:

- name resolution, alias binding and alias-setting parsing (`Aliases`);
- upper-casing and splitting (`Text`);
- the generator registry as a value (`HqlGenerators.Registry`).

Files:

- `common.dfy`: shared ids, errors, `Result`/`Outcome`, `SessionStartMode`.
- `text.dfy`: `String.ToUpper` (ASCII letters) and `String.Split` on one character.
- `handles.dfy`: NHibernate's `ISession`/`ITransaction` as an engine of handles.
- `factory_table.dfy`: `SessionFactoryCollection`.
- `thread_scope.dfy`: `ThreadSessionCollection`. Each `[ThreadStatic]` field is a map from thread id, with a current thread.
- `http_scope.dfy`: `HttpSessionCollection`. Each request's `HttpContext.Items` is an item bag, with a current request.
- `aliases.dfy`: `GetFactoryName`, `AddAlias` and the alias-setting grammar as functions.
- `hibernator.dfy`: the `Hibernator` facade.
- `guard.dfy`: `HibernationTransaction` and `Hibernator.Transaction`.
- `generators.dfy`: `CustomLinqToHqlGeneratorFactory`.
- `scenarios.dfy`: call sequences whose outcome follows from the contracts above.

Errors the source raises as exceptions are values of `Common.Error`,
returned in a `Result` or `Outcome`. The modelled conditions are:

- a missing dictionary key;
- a duplicate registry key;
- a missing HTTP module;
- an unknown factory;
- a closed session;
- an inactive transaction;
- a rejected commit;
- a duplicate generator signature.

Parameters stand for the environment:

- `inWebApp` is the `HttpRuntime` probe;
- `rejects` is the database refusing a commit;
- `built` is the factory that `BuildSessionFactory` returns;
- `types` is the list of generator types that reflection finds in an assembly.

Points of the code that the model follows closely:

- `HibernationTransaction` also has a public constructor that runs the same GetSession-then-BeginTransaction sequence as `Hibernator.Transaction` (`HibernationTransaction.cs:49-54`).
- The guard's disposal asks `HasOpenSession`, which tests for the registry key under the name, not `ISession.IsOpen` (`HibernationTransaction.cs:98`). It then rolls back whatever session the scope holds under that name, which need not be the guard's own (`Scenarios.StaleGuardDispose`).
- `Transaction` fetches the session before it begins the transaction (`Hibernator.cs:577`). An Unknown mode therefore becomes Manual rather than AtuoTransactionScope, and a later commit leaves the session open (`Scenarios.GuardedCycle`).
- `CloseAllSessions` hands each stored key to `CloseSession`, which resolves it again, so it can leave a session registered and open (first row of Findings).

## Model

| member | source | states |
|---|---|---|
| Text.ToUpper | Hibernation/Collections/SessionFactoryCollection.cs:16-31 | same length, each letter replaced by its capital position by position, result has no lower-case letter |
| Text.ToUpperIdempotent | Hibernation/Collections/SessionFactoryCollection.cs:28-31 | upper-casing an upper-cased key changes nothing |
| Text.UpperIsFixed | Hibernation/Hibernator.cs:1265-1266 | a string without lower-case letters is its own upper-case form |
| Text.Split | Hibernation/Hibernator.cs:1152-1159 | at least one piece, and no piece contains the separator |
| Text.JoinSplit | Hibernation/Hibernator.cs:1152 | joining the pieces of a split with the separator gives back the string |
| Text.SplitJoin | Hibernation/Hibernator.cs:1152-1159 | splitting a join of separator-free pieces gives back the pieces |
| Text.SplitWithoutSeparator | Hibernation/Hibernator.cs:1154-1157 | a string without the separator splits into itself alone |
| Text.SplitAfterPiece | Hibernation/Hibernator.cs:1152-1154 | splitting `x + sep + t` yields `x` followed by the split of `t` |
| Aliases.ResolveAlias | Hibernation/Hibernator.cs:1262-1263 | a bound alias resolves to its target verbatim, case-sensitively |
| Aliases.ResolveRegistered | Hibernation/Hibernator.cs:1265-1266 | an unbound name the table knows (any case) resolves to its upper-case form |
| Aliases.ResolveUnknownIsDefault | Hibernation/Hibernator.cs:1268 | an unbound, unregistered name resolves to "", which reaches a default factory registered under "" |
| Aliases.ResolveKeyIsFixed | Hibernation/Hibernator.cs:1257-1269 | a registered upper-case key that is not an alias resolves to itself |
| Aliases.BindAll | Hibernation/Hibernator.cs:1214-1223 | binding a list keeps every existing binding and adds exactly the listed aliases |
| Aliases.BindAllAppend | Hibernation/Hibernator.cs:1152-1163 | binding a concatenation equals binding the parts one after another |
| Aliases.FirstBindingWins | Hibernation/Hibernator.cs:1242-1243 | the first binding of a not-yet-bound alias is the one that stays, whatever follows |
| Aliases.Pairs | Hibernation/Hibernator.cs:1219-1222 | every alias of the list is paired with the one factory name, in order |
| Aliases.Merge | Hibernation/Hibernator.cs:1173-1182 | keys are the union, existing bindings win, new keys take the dictionary's value |
| Aliases.EntryRoundTrip | Hibernation/Hibernator.cs:1154-1162 | a well-formed "a,b:name" piece parses to exactly its alias/name pairs |
| Aliases.ParseRender | Hibernation/Hibernator.cs:1147-1164 | parsing the rendering of well-formed entries yields exactly their bindings, in order |
| Aliases.MalformedPieceBindsNothing | Hibernation/Hibernator.cs:1154-1157 | a piece binds something exactly when it splits on ':' into two parts (so "a" and "a:b:c" bind nothing) |
| FactoryTable.SessionFactoryCollection.constructor | Hibernation/Collections/SessionFactoryCollection.cs:11-14 | the table starts empty |
| FactoryTable.SessionFactoryCollection.Get | Hibernation/Collections/SessionFactoryCollection.cs:18-21 | the factory under the upper-cased name, which is among Values(), or KeyNotFound for that key |
| FactoryTable.SessionFactoryCollection.Set | Hibernation/Collections/SessionFactoryCollection.cs:22-25 | inserts or overwrites under the upper-cased name, keys stay upper case; the name is then present, the factory among Values(), and Count grows by one exactly when the name was new |
| FactoryTable.SessionFactoryCollection.ContainsKeyIgnoresCase | Hibernation/Collections/SessionFactoryCollection.cs:28-31 | names equal up to letter case are both present or both absent |
| FactoryTable.SessionFactoryCollection.ContainsKeyOfUpper | Hibernation/Collections/SessionFactoryCollection.cs:28-31 | a name and its upper-case form address the same entry |
| FactoryTable.SessionFactoryCollection.Count | Hibernation/Collections/SessionFactoryCollection.cs:33-39 | the count is the number of distinct upper-case keys; Add, Set, Remove, RemovePair and Clear each state how they change it |
| FactoryTable.SessionFactoryCollection.Keys | Hibernation/Collections/SessionFactoryCollection.cs:48-51 | every key is upper case and present; a name is present exactly when its upper-case form is a key |
| FactoryTable.SessionFactoryCollection.Values | Hibernation/Collections/SessionFactoryCollection.cs:63-66 | a factory is listed exactly when some key maps to it; Get, Set and Add state that the factory they return or store is listed |
| FactoryTable.SessionFactoryCollection.Add | Hibernation/Collections/SessionFactoryCollection.cs:43-46 | DuplicateKey and no change when the name is present in any case, otherwise exactly one entry added; it succeeds exactly when Count grows by one |
| FactoryTable.SessionFactoryCollection.AddPair | Hibernation/Collections/SessionFactoryCollection.cs:72-75 | the same outcome as Add on the pair's parts, with the same effect on Count and Values |
| FactoryTable.SessionFactoryCollection.Remove | Hibernation/Collections/SessionFactoryCollection.cs:53-56 | reports presence; only the upper-cased key is removed, the name is then absent, and Count drops by one exactly when it was present |
| FactoryTable.SessionFactoryCollection.TryGetValue | Hibernation/Collections/SessionFactoryCollection.cs:58-61 | found exactly when present, with the stored factory; None otherwise |
| FactoryTable.SessionFactoryCollection.Contains | Hibernation/Collections/SessionFactoryCollection.cs:82-85 | the key is present and the value is stored under some key, not necessarily that one |
| FactoryTable.SessionFactoryCollection.ContainsStoredPair | Hibernation/Collections/SessionFactoryCollection.cs:82-85 | every stored entry is contained, so Contains never misses a real pair |
| FactoryTable.SessionFactoryCollection.ContainsMatchesValueUnderOtherKey | Hibernation/Collections/SessionFactoryCollection.cs:84 | for every table, a present key paired with a factory stored only under another key is contained, although its own entry holds a different factory |
| FactoryTable.SessionFactoryCollection.RemovePair | Hibernation/Collections/SessionFactoryCollection.cs:97-102 | removes the key exactly when Contains holds, reports it, and Count drops by one exactly then |
| FactoryTable.SessionFactoryCollection.Clear | Hibernation/Collections/SessionFactoryCollection.cs:77-80 | the table is left empty |
| FactoryTable.RemovePairOfValueUnderOtherKey | Hibernation/Collections/SessionFactoryCollection.cs:97-102 | RemovePair of a present key with a factory stored under another key deletes the key's own, different entry |
| ThreadScope.ThreadSessionCollection.constructor | Hibernation/Collections/ThreadSessionCollection.cs:10-18 | every thread starts with no sessions and mode Unknown |
| ThreadScope.ThreadSessionCollection.EnterThread | Hibernation/Collections/ThreadSessionCollection.cs:10-11 | later calls act on the given thread's [ThreadStatic] fields |
| ThreadScope.ThreadSessionCollection.Touch | Hibernation/Collections/ThreadSessionCollection.cs:12-15 | the lazy creation of the thread's map changes nothing visible, here or in other threads |
| ThreadScope.ThreadSessionCollection.GetMode | Hibernation/Collections/ThreadSessionCollection.cs:40-43 | the current thread's mode, Unknown when never set |
| ThreadScope.ThreadSessionCollection.SetMode | Hibernation/Collections/ThreadSessionCollection.cs:44-47 | only the current thread's mode changes |
| ThreadScope.ThreadSessionCollection.Get | Hibernation/Collections/ThreadSessionCollection.cs:76-84 | the stored session, or SessionNotFound for a missing key; nothing changes |
| ThreadScope.ThreadSessionCollection.Add | Hibernation/Collections/ThreadSessionCollection.cs:86-89 | DuplicateKey and no change for a present key, otherwise exactly one entry added |
| ThreadScope.ThreadSessionCollection.Remove | Hibernation/Collections/ThreadSessionCollection.cs:91-94 | only that key is removed; absent keys are a no-op |
| ThreadScope.ThreadSessionCollection.ContainsKey | Hibernation/Collections/ThreadSessionCollection.cs:96-99 | exact, case-sensitive membership; nothing changes |
| ThreadScope.ThreadSessionCollection.SetItem | Hibernation/Collections/ThreadSessionCollection.cs:73 | inserts or overwrites without the duplicate check |
| ThreadScope.ThreadSessionCollection.Keys | Hibernation/Collections/ThreadSessionCollection.cs:20-26 | the stored keys, each exactly once |
| ThreadScope.WorkersAreIsolated | Hibernation/Collections/ThreadSessionCollection.cs:10-18 | an entry added on one thread is seen by another thread only if that thread already had it |
| HttpScope.HttpSessionCollection.constructor | Hibernation/Collections/HttpSessionCollection.cs:13-25 | no request holds sessions or a mode |
| HttpScope.HttpSessionCollection.EnterRequest | Hibernation/Collections/HttpSessionCollection.cs:17 | later calls act on the given request's HttpContext.Items |
| HttpScope.HttpSessionCollection.EndRequest | Hibernation/Collections/HttpSessionCollection.cs:17-21 | the ended request's bag is discarded, other requests keep theirs |
| HttpScope.HttpSessionCollection.PutBag | Hibernation/Collections/HttpSessionCollection.cs:21 | writing the current item bag leaves other requests alone |
| HttpScope.HttpSessionCollection.Sessions | Hibernation/Collections/HttpSessionCollection.cs:13-25 | the bag's map, created and stored on first access, with its contents unchanged |
| HttpScope.HttpSessionCollection.PutSessions | Hibernation/Collections/HttpSessionCollection.cs:85 | the current request's map becomes the given one, the mode is kept |
| HttpScope.HttpSessionCollection.GetMode | Hibernation/Collections/HttpSessionCollection.cs:47-55 | the stored mode item, Unknown when absent |
| HttpScope.HttpSessionCollection.SetMode | Hibernation/Collections/HttpSessionCollection.cs:56-59 | only the current request's mode changes |
| HttpScope.HttpSessionCollection.Get | Hibernation/Collections/HttpSessionCollection.cs:88-96 | the stored session, or SessionNotFound for a missing key; nothing changes |
| HttpScope.HttpSessionCollection.Add | Hibernation/Collections/HttpSessionCollection.cs:98-101 | DuplicateKey and no change for a present key, otherwise exactly one entry added |
| HttpScope.HttpSessionCollection.Remove | Hibernation/Collections/HttpSessionCollection.cs:103-106 | only that key is removed |
| HttpScope.HttpSessionCollection.ContainsKey | Hibernation/Collections/HttpSessionCollection.cs:108-111 | exact membership; nothing changes |
| HttpScope.HttpSessionCollection.SetItem | Hibernation/Collections/HttpSessionCollection.cs:85 | inserts or overwrites without the duplicate check |
| HttpScope.HttpSessionCollection.Keys | Hibernation/Collections/HttpSessionCollection.cs:27-33 | the stored keys, each exactly once |
| Handles.CloseAt | Hibernation/Hibernator.cs:341-342 | closing one handle leaves every other handle and every transaction link as it was |
| Handles.Engine.OpenSession | Hibernation/Hibernator.cs:214 | a new open handle with no transaction is appended, its id is fresh |
| Handles.Engine.Close | Hibernation/Hibernator.cs:342 | only that handle is closed |
| Handles.Engine.Begin | Hibernation/Hibernator.cs:440-443 | SessionClosed on a closed session, otherwise a fresh pending transaction becomes current |
| Handles.Engine.Commit | Hibernation/Hibernator.cs:478 | TransactionNotActive without a pending transaction, CommitRejected when refused, otherwise Committed |
| Handles.Engine.Rollback | Hibernation/Hibernator.cs:516 | TransactionNotActive without a pending transaction, otherwise RolledBack |
| Facade.Hibernator.constructor | Hibernation/Hibernator.cs:1275-1313 | empty aliases and factories, no sessions, mode Unknown, HTTP module required exactly in a web application |
| Facade.Hibernator.StoreContainsKey | Hibernation/Collections/ISessionCollection.cs:9 | the registry in use answers membership; nothing changes |
| Facade.Hibernator.StoreGet | Hibernation/Collections/ISessionCollection.cs:11 | the registry in use returns the stored session or SessionNotFound |
| Facade.Hibernator.StoreAdd | Hibernation/Collections/ISessionCollection.cs:10 | the registry in use adds one entry or reports DuplicateKey |
| Facade.Hibernator.StoreRemove | Hibernation/Collections/ISessionCollection.cs:12 | the registry in use drops only that key |
| Facade.Hibernator.StoreKeys | Hibernation/Collections/ISessionCollection.cs:14 | the stored keys of the registry in use, each once |
| Facade.Hibernator.GetSessionMode | Hibernation/Hibernator.cs:590-593 | the current scope's mode |
| Facade.Hibernator.SetSessionMode | Hibernation/Hibernator.cs:603-606 | only the current scope's mode changes |
| Facade.Hibernator.GetHttpModuleDefined | Hibernation/Hibernator.cs:614-617 | the module flag |
| Facade.Hibernator.SetHttpModuleDefined | Hibernation/Hibernator.cs:626-629 | the module flag becomes the argument |
| Facade.Hibernator.AddAlias | Hibernation/Hibernator.cs:1235-1244 | an unbound alias is added; a bound one is never overwritten |
| Facade.Hibernator.AddFactoryAliasesFor | Hibernation/Hibernator.cs:1214-1223 | the alias map becomes BindAll of the list, each alias bound to the name |
| Facade.Hibernator.AddAliasPiece | Hibernation/Hibernator.cs:1154-1162 | one piece of the setting binds exactly its parsed pairs, as AddAlias does |
| Facade.Hibernator.AddFactoryAliases | Hibernation/Hibernator.cs:1147-1164 | the alias map becomes BindAll of the parsed setting |
| Facade.Hibernator.AddFactoryAliasMap | Hibernation/Hibernator.cs:1173-1182 | the alias map becomes Merge of the dictionary |
| Facade.Hibernator.SetFactoryAliases | Hibernation/Hibernator.cs:1089-1093 | only the parsed setting's bindings remain |
| Facade.Hibernator.SetFactoryAliasMap | Hibernation/Hibernator.cs:1101-1105 | the alias map becomes exactly the dictionary |
| Facade.Hibernator.SetFactoryAliasesFor | Hibernation/Hibernator.cs:1132-1136 | only the list's bindings to the name remain |
| Facade.Hibernator.ConfigureCommon | Hibernation/Hibernator.cs:666-695 | runs once; a non-empty alias setting replaces the alias map, an empty one keeps it |
| Facade.Hibernator.AddSessionFactory | Hibernation/Hibernator.cs:1056-1070 | a name registered in any case changes nothing; otherwise its aliases are bound, then the factory is stored under the upper-cased name |
| Facade.Hibernator.AddConfiguredSessionFactory | Hibernation/Hibernator.cs:961-1024 | an empty name is replaced by session_factory_name; a factory is built and handed on exactly when that name is unregistered |
| Facade.Hibernator.GetSessionFactory | Hibernation/Hibernator.cs:66-75 | the factory under the upper-cased resolved name, or KeyNotFound for it |
| Facade.Hibernator.OpenAndRegister | Hibernation/Hibernator.cs:206-218 | NoFactoryForName for an unregistered name; otherwise a new open session, stored under the name, or DuplicateKey after the session was opened when the name is already stored |
| Facade.Hibernator.OpenSessionOn | Hibernation/Hibernator.cs:193-219 | mode Unknown becomes Manual first; then the module guard, the factory check, a new session; a key already stored fails with DuplicateKey after the session was opened |
| Facade.Hibernator.OpenSession | Hibernation/Hibernator.cs:142-145 | an unknown name fails with KeyNotFound before the mode is touched; otherwise as OpenSessionOn |
| Facade.Hibernator.GetSession | Hibernation/Hibernator.cs:242-252 | the stored session if any, without opening; otherwise OpenSession's outcome, and on success the session is stored under the resolved name |
| Facade.Hibernator.HasOpenSession | Hibernation/Hibernator.cs:301-308 | whether the resolved name is stored; nothing changes |
| Facade.Hibernator.CloseStoredKey | Hibernation/Hibernator.cs:336-344 | the key is removed and its session closed; nothing else changes |
| Facade.Hibernator.CloseSession | Hibernation/Hibernator.cs:329-345 | the resolved name is removed and its session closed, other sessions and transactions kept |
| Facade.Hibernator.SweepSession | Hibernation/Hibernator.cs:356-359 | one CloseSession call on the next listed key keeps the sweep's progress, with that key's resolution counted as removed |
| Facade.Hibernator.SweepKey | Hibernation/Hibernator.cs:336-344 | one key's removal keeps the sweep invariant |
| Facade.Hibernator.CloseAllSessions | Hibernation/Hibernator.cs:351-360 | exactly the resolutions of the stored keys are removed and their sessions closed, every other open session stays open, nothing is opened, the mode is kept |
| Facade.Hibernator.CloseAllStoredSessions | Hibernation/Hibernator.cs:351-360 | the scope ends empty, every session it held is closed, no session is opened, and every open session it did not hold stays open |
| Facade.Hibernator.RestartSession | Hibernation/Hibernator.cs:383-387 | the old session is closed, then OpenSession's outcome; the engine becomes the closed sessions plus exactly one new open handle on the name's factory on success, and no new handle on failure; on success the name holds that new session |
| Facade.Hibernator.BeginTransaction | Hibernation/Hibernator.cs:430-444 | mode Unknown becomes AtuoTransactionScope; on success a fresh pending transaction is current on the open stored session, or on the session GetSession opened, and every other session is as it was; SessionClosed, KeyNotFound and HttpModuleNotDefined leave the sessions and transactions unchanged |
| Facade.Hibernator.CommitTransaction | Hibernation/Hibernator.cs:471-482 | commits the pending current transaction of the stored session and closes it exactly in AtuoTransactionScope mode; a missing or finished transaction or a refused commit changes nothing; with nothing stored, GetSession's failure, or its new session stored with mode Unknown becoming Manual and then TransactionNotActive |
| Facade.Hibernator.RollbackTransaction | Hibernation/Hibernator.cs:509-520 | rolls back the pending current transaction of the stored session and closes it exactly in AtuoTransactionScope mode; a missing or finished transaction changes nothing; with nothing stored, as CommitTransaction |
| Facade.SweepStep | Hibernation/Hibernator.cs:356-359 | closing one more stored session keeps every removed key's session closed, opens nothing, and closes no session held only under keys still to come |
| Facade.SweptCovered | Hibernation/Hibernator.cs:356-359 | after visiting every stored key, the removed keys are exactly their resolutions |
| Facade.SweptHas | Hibernation/Hibernator.cs:358 | each stored key's resolution is among the swept keys |
| Facade.SweepOfFixedKeysEmpties | Hibernation/Hibernator.cs:351-360 | when every stored key resolves to itself, CloseAllSessions empties the scope |
| Facade.SweepMissesAliasTarget | Hibernation/Hibernator.cs:351-360 | for any alias and any target that is not its own upper-case form, registering the target with the alias binds the alias to it, and a scope holding the target has swept set {ToUpper(target)}, so the sweep keeps the target |
| Facade.ReportsIsNotUpper | Hibernation/Hibernator.cs:1265-1266 | "reports" differs from its upper-case form, so it is an instance of SweepMissesAliasTarget |
| Guard.HibernationTransaction.Wrap | Hibernation/HibernationTransaction.cs:56-61 | records the name, session and transaction |
| Guard.HibernationTransaction.Commit | Hibernation/HibernationTransaction.cs:70-81 | CommitTransaction's outcome, except that a refused commit of a pending transaction is followed by RollbackTransaction's outcome (rolled back, and closed in AtuoTransactionScope mode) and reported as CommitFailedRolledBack |
| Guard.HibernationTransaction.Rollback | Hibernation/HibernationTransaction.cs:86-89 | exactly RollbackTransaction's outcome under the remembered name |
| Guard.HibernationTransaction.Dispose | Hibernation/HibernationTransaction.cs:96-105 | when the name is stored and the guard's transaction is pending, exactly RollbackTransaction's outcome on the session now stored under the name; otherwise nothing changes |
| Guard.Transaction | Hibernation/Hibernator.cs:572-580 | GetSession then BeginTransaction, with the full new state per branch: a stored open session gets a fresh pending transaction and mode Unknown becomes AtuoTransactionScope; a stored closed session gives SessionClosed with that mode change only; KeyNotFound changes nothing; HttpModuleNotDefined sets Manual; otherwise a session is opened, stored and given the transaction, with mode Unknown becoming Manual; the public constructor at HibernationTransaction.cs:49-54 performs the same sequence |
| HqlGenerators.Absorb | Hibernation/CustomHqlGeneration/CustomLinqToHqlGeneratorFactory.cs:102-108 | signatures are appended in order up to the first one already claimed, which is reported; the earlier ones stay |
| HqlGenerators.AbsorbStep | Hibernation/CustomHqlGeneration/CustomLinqToHqlGeneratorFactory.cs:102-108 | the loop's outcome for a list follows from its outcome on the tail after the head was appended |
| HqlGenerators.AbsorbKeepsDistinct | Hibernation/CustomHqlGeneration/CustomLinqToHqlGeneratorFactory.cs:104-107 | the signature list never holds a repeat |
| HqlGenerators.AbsorbSucceedsIff | Hibernation/CustomHqlGeneration/CustomLinqToHqlGeneratorFactory.cs:102-108 | the loop succeeds exactly when old and new signatures together have no repeat |
| HqlGenerators.AddMethod | Hibernation/CustomHqlGeneration/CustomLinqToHqlGeneratorFactory.cs:99-109 | the generator is appended even when a signature is refused; success appends all its signatures; failure leaves the prefix before the duplicate |
| HqlGenerators.AddProperty | Hibernation/CustomHqlGeneration/CustomLinqToHqlGeneratorFactory.cs:115-125 | the same for property generators |
| HqlGenerators.AddMethodSucceedsIff | Hibernation/CustomHqlGeneration/CustomLinqToHqlGeneratorFactory.cs:99-109 | keeps the registry without repeats; succeeds exactly when no signature repeats |
| HqlGenerators.AddPropertySucceedsIff | Hibernation/CustomHqlGeneration/CustomLinqToHqlGeneratorFactory.cs:115-125 | the same for property generators |
| HqlGenerators.LoadKeepsWellFormed | Hibernation/CustomHqlGeneration/CustomLinqToHqlGeneratorFactory.cs:57-93 | loading an assembly never claims a signature twice |
| HqlGenerators.LoadOnlyAppends | Hibernation/CustomHqlGeneration/CustomLinqToHqlGeneratorFactory.cs:69-80 | loading only appends to each of the four lists |
| HqlGenerators.CheckedLoadClaimsProperties | Hibernation/CustomHqlGeneration/CustomLinqToHqlGeneratorFactory.cs:115-125 | a successful corrected load has claimed every property of every property generator it met |
| HqlGenerators.UncheckedLoadAcceptsDuplicateProperty | Hibernation/CustomHqlGeneration/CustomLinqToHqlGeneratorFactory.cs:77-79 | two property generators claiming one property are both accepted as written, while the corrected load refuses the second |
| HqlGenerators.CustomLinqToHqlGeneratorFactory.constructor | Hibernation/CustomHqlGeneration/CustomLinqToHqlGeneratorFactory.cs:34-37 | all four lists start empty |
| HqlGenerators.CustomLinqToHqlGeneratorFactory.Clear | Hibernation/CustomHqlGeneration/CustomLinqToHqlGeneratorFactory.cs:42-48 | all four lists are emptied |
| HqlGenerators.CustomLinqToHqlGeneratorFactory.AddMethodGenerator | Hibernation/CustomHqlGeneration/CustomLinqToHqlGeneratorFactory.cs:99-109 | the new state and outcome are AddMethod of the old state |
| HqlGenerators.CustomLinqToHqlGeneratorFactory.AddPropertyGenerator | Hibernation/CustomHqlGeneration/CustomLinqToHqlGeneratorFactory.cs:115-125 | the new state and outcome are AddProperty of the old state |
| HqlGenerators.CustomLinqToHqlGeneratorFactory.AddGeneratorsFromAssembly | Hibernation/CustomHqlGeneration/CustomLinqToHqlGeneratorFactory.cs:57-93 | the new state is the unchecked Load of the discovered types, stopping at the first refused method signature |
| HqlGenerators.CustomLinqToHqlGeneratorFactory.AddGeneratorsFromAssemblyChecked | Hibernation/CustomHqlGeneration/CustomLinqToHqlGeneratorFactory.cs:73-79 | the new state is the checked Load, with property generators going through AddPropertyGenerator |
| Scenarios.FetchTwice | Hibernation/Hibernator.cs:242-252 | a second GetSession under the same name returns the first one's session, and at most one session is opened |
| Scenarios.AutoScopeCycle | Hibernation/Hibernator.cs:430-482 | BeginTransaction then CommitTransaction in a fresh scope: AtuoTransactionScope mode, the commit succeeds, the session is closed and unregistered |
| Scenarios.GuardedCycle | Hibernation/Hibernator.cs:572-580 | Transaction then the guard's Commit in a fresh scope: Manual mode, the commit succeeds, the session stays registered and open |
| Scenarios.GuardThenClose | Hibernation/Hibernator.cs:329-345 | Transaction then CloseSession under one name: the name is unregistered and the guard's transaction is still pending |
| Scenarios.StaleGuardDispose | Hibernation/HibernationTransaction.cs:96-105 | disposing a guard whose session was closed and replaced under the same name rolls back the newer guard's transaction and leaves its own pending |
| Scenarios.OpenThroughAlias | Hibernation/Hibernator.cs:242-252 | AddSessionFactory(f, target, [alias]) then GetSession(alias) on empty tables: the alias is bound to the target, the factory is keyed ToUpper(target), and a new open session is stored under the target |
| Scenarios.AliasTargetSurvivesSweep | Hibernation/Hibernator.cs:351-360 | AddSessionFactory(f, target, [alias]), GetSession(alias), CloseAllSessions() with a target that is not upper case: the session stays registered under the target and open |
| Scenarios.ReportsSurvivesSweep | Hibernation/Hibernator.cs:351-360 | the same with AddSessionFactory(f, "reports", ["rpt"]): after CloseAllSessions, HasOpen("rpt") holds and the session is still open |

## Left out

- Null-argument checks (`ArgumentNullException`): Dafny values cannot be null, so these have no counterpart.
- The lazy `Configure()` call in `GetSessionFactory` (lines 71-72), the `Configure` overloads, configuration-file reading and the interceptor half of `ConfigureCommon`: these are file I/O and reflection. `ConfigureCommon` takes the alias setting as a parameter.
- The parts of `AddSessionFactory(configuration, ...)` that gather mapped assemblies, call `Assembly.Load` and build the factory: these are reflection and NHibernate calls. The factory it builds is a parameter, and `CustomLinqToHqlGeneratorFactory.Clear` followed by the assembly loads is modelled on its own.
- The connection, interceptor and isolation-level parameters of `OpenSession`, `BeginTransaction` and `Transaction`: they pass through to NHibernate unchanged. `GetConnection` is modelled only as the factory lookup it performs (`GetSessionFactory`).
- The parameterless overloads: each one calls its named overload with "".
- `GetStatelessSession`, `GetSessionFactoryCollection` and `SetSessionFactoryCollection`: they expose or replace NHibernate objects without session-registry logic.
- The lazily created static singletons and their locks: each is one constructed object, and concurrency is not modelled. Thread and request identity are explicit `current` fields.
- `Facade.Hibernator.CloseAllSessions` iterates over a snapshot of the keys. The source enumerates the live dictionary while `CloseSession` removes from it, which .NET may refuse with an exception.
- `Text.ToUpper`: only ASCII letters are upper-cased. Culture-specific case mapping is not modelled.
- Reflection over an assembly, `Activator.CreateInstance`, and the message built from a `ReflectionTypeLoadException`: an assembly is the list of generator types it yields.
- `Handles.Engine.Commit`: the engine does not refuse a commit on a closed session. A transaction whose session is closed can still be committed in the model.
- `Handles.Engine.Begin`: `BeginTransaction` on a closed session is modelled as the `SessionClosed` error.
- `Handles.Engine.Begin`: a second Begin on a session whose transaction is still pending yields a new transaction in the model. NHibernate's own handling of a nested begin is not part of this model; the model follows the "new unit of work" description at Hibernator.cs:416.
- `Facade.Hibernator.CommitTransaction`: a session without a transaction (a null `session.Transaction`) is modelled as `TransactionNotActive`, not as a null-reference failure.
- The definition of `SessionStartMode` is not part of this model. `Unknown` is taken to be its default value.
- `OpenSessionInViewModule`, `NHibernatorWrapper`, `HibernationException`, the configuration section classes and `HibernationLinqToHqlRegistry` are not part of this model.
- `SessionFactoryCollection.CopyTo`, `IsReadOnly` and the enumerators: they only pass through to the inner dictionary.

## Findings

| source | as written | input that shows it | evidently intended | confidence | as-written member | corrected member |
|---|---|---|---|---|---|---|
| Hibernation/Hibernator.cs:351-360 | each stored key is handed to `CloseSession`, which resolves it again through `GetFactoryName` | alias "rpt" bound to "reports", factory registered as "REPORTS"; `GetSession("rpt")` stores the session under "reports", and `CloseAllSessions` resolves "reports" to "REPORTS" and leaves it open and registered | close and remove every session the scope holds | high, not executed | Scenarios.ReportsSurvivesSweep | Facade.Hibernator.CloseAllStoredSessions |
| Hibernation/CustomHqlGeneration/CustomLinqToHqlGeneratorFactory.cs:77-79 | property generators are appended to `PropertyGenerators` directly, so their signatures are never checked or recorded | two property generators that both support "Length" are both accepted, and `PropertySignatures` stays empty | route them through `AddPropertyGenerator`, as method generators go through `AddMethodGenerator` | medium, not executed | HqlGenerators.UncheckedLoadAcceptsDuplicateProperty | HqlGenerators.CustomLinqToHqlGeneratorFactory.AddGeneratorsFromAssemblyChecked |
