/** Call sequences through the facade whose outcome follows from the
    contracts: a session is fetched once per scope and name, a transaction
    begun in an Unknown scope closes its session on commit, a guarded
    transaction leaves its session open, a stale guard's disposal acts on a
    newer guard's transaction, and CloseAllSessions can leave a session
    reached through an alias open. */
module Scenarios {
  import opened Common
  import opened Text
  import opened Aliases
  import opened Handles
  import opened Facade
  import opened Guard

  /** GetSession twice under one name in one scope: the second call hands
      back the first call's session and opens nothing more. */
  method FetchTwice(h: Hibernator, name: string) returns (first: Result<SessionId>, second: Result<SessionId>)
    requires h.Valid()
    modifies h.Storage(), h.engine
    ensures first.Success? ==> second == first
    ensures |h.engine.sessions| <= |old(h.engine.sessions)| + 1
  {
    first := h.GetSession(name);
    second := h.GetSession(name);
  }

  /** BeginTransaction then CommitTransaction in a fresh scope: the mode
      becomes AtuoTransactionScope, the commit succeeds, and the session it
      opened is closed and no longer registered. */
  method AutoScopeCycle(h: Hibernator, name: string) returns (begun: Result<TxId>, committed: Outcome)
    requires h.Valid() && h.Mode() == Unknown && !h.ModuleMissing()
    requires h.GetFactoryName(name) !in h.Stored() && h.factories.ContainsKey(h.GetFactoryName(name))
    modifies h.Storage(), h.engine
    ensures begun.Success? && committed == Pass
    ensures h.Mode() == AtuoTransactionScope
    ensures h.GetFactoryName(name) !in h.Stored()
    ensures h.engine.TxStateOf(begun.value) == Committed
    ensures !h.engine.IsOpen(|old(h.engine.sessions)|)
  {
    begun := h.BeginTransaction(name);
    committed := h.CommitTransaction(name, false);
  }

  /** Hibernator.Transaction then the guard's Commit in a fresh scope: the
      session is fetched before the transaction begins, so the mode becomes
      Manual and the committed session stays registered and open. */
  method GuardedCycle(h: Hibernator, name: string) returns (guard: Result<HibernationTransaction>, committed: Outcome)
    requires h.Valid() && h.Mode() == Unknown && !h.ModuleMissing()
    requires h.GetFactoryName(name) !in h.Stored() && h.factories.ContainsKey(h.GetFactoryName(name))
    modifies h.Storage(), h.engine
    ensures guard.Success? && committed == Pass
    ensures h.Mode() == Manual
    ensures h.GetFactoryName(name) in h.Stored() && h.Stored()[h.GetFactoryName(name)] == guard.value.session
    ensures h.engine.IsOpen(guard.value.session)
    ensures h.engine.TxStateOf(guard.value.transaction) == Committed
  {
    guard := Transaction(h, name);
    committed := guard.value.Commit(false);
  }

  /** The first half of StaleGuardDispose: a guard is created and its
      session closed, which leaves the guard's transaction pending and the
      name unregistered. */
  method GuardThenClose(h: Hibernator, name: string) returns (first: Result<HibernationTransaction>)
    requires h.Valid() && !h.ModuleMissing()
    requires h.GetFactoryName(name) !in h.Stored() && h.factories.ContainsKey(h.GetFactoryName(name))
    modifies h.Storage(), h.engine
    ensures h.Valid() && first.Success? && first.value.h == h && first.value.factoryName == name
    ensures h.GetFactoryName(name) !in h.Stored()
    ensures first.value.transaction == |h.engine.txns| - 1 && h.engine.TxStateOf(first.value.transaction) == Pending
  {
    first := Transaction(h, name);
    h.CloseSession(name);
  }

  /** Disposal acts on the name, not on the guard's own session: after the
      first guard's session is closed and a second guard opens a new one
      under the same name, disposing the first guard (whose transaction is
      still pending) rolls back the second guard's transaction and leaves
      its own untouched. */
  method StaleGuardDispose(h: Hibernator, name: string)
    returns (first: Result<HibernationTransaction>, second: Result<HibernationTransaction>, disposed: Outcome)
    requires h.Valid() && !h.ModuleMissing()
    requires h.GetFactoryName(name) !in h.Stored() && h.factories.ContainsKey(h.GetFactoryName(name))
    modifies h.Storage(), h.engine
    ensures first.Success? && second.Success? && disposed == Pass
    ensures first.value.transaction != second.value.transaction
    ensures h.engine.TxStateOf(second.value.transaction) == RolledBack
    ensures h.engine.TxStateOf(first.value.transaction) == Pending
  {
    first := GuardThenClose(h, name);
    second := Transaction(h, name);
    disposed := first.value.Dispose();
  }

  /** The setup of AliasTargetSurvivesSweep: the factory registered as
      `target` with the alias `alias`, then GetSession(alias), which stores
      a new open session under `target`. */
  method OpenThroughAlias(h: Hibernator, f: FactoryId, alias: string, target: string) returns (got: Result<SessionId>)
    requires h.Valid() && !h.ModuleMissing() && alias != target && ToUpper(target) != target
    requires h.aliasMap == map[] && h.factories.factories == map[] && h.Stored() == map[]
    modifies h`aliasMap, h.factories, h.Storage(), h.engine
    ensures h.Valid() && h.aliasMap == map[alias := target] && h.factories.factories == map[ToUpper(target) := f]
    ensures got.Success? && h.Stored() == map[target := got.value] && h.engine.IsOpen(got.value)
  {
    SweepMissesAliasTarget(alias, target, 0);
    h.AddSessionFactory(f, target, [alias]);
    assert h.GetFactoryName(alias) == target;
    got := h.GetSession(alias);
  }

  /** CloseAllSessions as written leaves a session open: with a factory
      registered under a name that is not upper case (`target`) and an alias
      for it, GetSession(alias) stores its session under `target`, which the
      sweep resolves to ToUpper(target) and so never closes. */
  method AliasTargetSurvivesSweep(h: Hibernator, f: FactoryId, alias: string, target: string) returns (got: Result<SessionId>)
    requires h.Valid() && !h.ModuleMissing() && alias != target && ToUpper(target) != target
    requires h.aliasMap == map[] && h.factories.factories == map[] && h.Stored() == map[]
    modifies h`aliasMap, h.factories, h.Storage(), h.engine
    ensures got.Success? && h.HasOpen(alias) && h.Stored() == map[target := got.value]
    ensures h.engine.IsOpen(got.value)
  {
    got := OpenThroughAlias(h, f, alias, target);
    ghost var m0 := h.Stored();
    SweepMissesAliasTarget(alias, target, got.value);
    assert h.factories.factories.Keys == {ToUpper(target)};
    ghost var sw := Swept(h.aliasMap, h.factories.factories.Keys, m0);
    assert SessionsUnder(m0, sw) == {};
    h.CloseAllSessions();
  }

  /** The instance of AliasTargetSurvivesSweep with the factory "reports"
      and the alias "rpt". */
  method ReportsSurvivesSweep(h: Hibernator, f: FactoryId) returns (got: Result<SessionId>)
    requires h.Valid() && !h.ModuleMissing()
    requires h.aliasMap == map[] && h.factories.factories == map[] && h.Stored() == map[]
    modifies h`aliasMap, h.factories, h.Storage(), h.engine
    ensures got.Success? && h.HasOpen("rpt") && h.Stored() == map["reports" := got.value]
    ensures h.engine.IsOpen(got.value)
  {
    ReportsIsNotUpper();
    got := AliasTargetSurvivesSweep(h, f, "rpt", "reports");
  }
}
