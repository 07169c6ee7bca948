/** HibernationTransaction: a scoped guard over one facade transaction. It
    remembers the factory name, the session and the transaction it was
    created with; commit, rollback and disposal go back through the facade
    under the remembered name. */
module Guard {
  import opened Common
  import opened Text
  import opened Handles
  import opened Facade

  class HibernationTransaction {
    const h: Hibernator
    const factoryName: string
    const session: SessionId
    const transaction: TxId

    /** The internal constructor: records its arguments and does nothing else. */
    constructor Wrap(h: Hibernator, factoryName: string, session: SessionId, transaction: TxId)
      ensures this.h == h && this.factoryName == factoryName
      ensures this.session == session && this.transaction == transaction
    {
      this.h := h;
      this.factoryName := factoryName;
      this.session := session;
      this.transaction := transaction;
    }

    /** Commit: CommitTransaction under the remembered name; when that fails,
        RollbackTransaction is attempted, and the commit failure is reported
        wrapped (or the rollback's own failure, if it fails too). Only a
        refused commit of a pending transaction reaches a state the commit
        alone would not: that transaction is then rolled back, and in
        AtuoTransactionScope mode its session is closed and unregistered. */
    method Commit(rejects: bool) returns (r: Outcome)
      requires h.Valid()
      modifies h.Storage(), h.engine
      ensures h.Valid() && h.Elsewhere() == old(h.Elsewhere())
      ensures var fact := h.GetFactoryName(factoryName);
              var m0, s0, t0, mode0 := old(h.Stored()), old(h.engine.sessions), old(h.engine.txns), old(h.Mode());
              if fact in m0 && rejects && CurrentIn(s0, m0[fact]).Some? && StateIn(t0, CurrentIn(s0, m0[fact]).value) == Pending then
                r == Fail(CommitFailedRolledBack(CommitRejected)) && h.RollbackOutcome(fact, m0, s0, t0, mode0, Pass)
              else
                h.CommitOutcome(fact, m0, s0, t0, mode0, rejects, r)
    {
      var committed := h.CommitTransaction(factoryName, rejects);
      if committed.Pass? {
        return Pass;
      }
      var rolled := h.RollbackTransaction(factoryName);
      if rolled.Fail? {
        return rolled;
      }
      r := Fail(CommitFailedRolledBack(committed.error));
    }

    /** Rollback: RollbackTransaction under the remembered name. */
    method Rollback() returns (r: Outcome)
      requires h.Valid()
      modifies h.Storage(), h.engine
      ensures h.Valid() && h.Elsewhere() == old(h.Elsewhere())
      ensures h.RollbackOutcome(h.GetFactoryName(factoryName), old(h.Stored()), old(h.engine.sessions),
                                old(h.engine.txns), old(h.Mode()), r)
    {
      r := h.RollbackTransaction(factoryName);
    }

    /** Dispose: when the scope still holds a session under the name and this
        guard's transaction was neither committed nor rolled back, the
        facade's RollbackTransaction runs on whatever session the scope now
        holds under the name, which need not be this guard's; otherwise
        nothing happens. */
    method Dispose() returns (r: Outcome)
      requires h.Valid()
      modifies h.Storage(), h.engine
      ensures h.Valid() && h.Elsewhere() == old(h.Elsewhere())
      ensures var fact := h.GetFactoryName(factoryName);
              if fact in old(h.Stored()) && old(h.engine.TxStateOf(transaction)) == Pending then
                h.RollbackOutcome(fact, old(h.Stored()), old(h.engine.sessions), old(h.engine.txns), old(h.Mode()), r)
              else
                && r == Pass && h.Stored() == old(h.Stored()) && h.Mode() == old(h.Mode())
                && h.engine.sessions == old(h.engine.sessions) && h.engine.txns == old(h.engine.txns)
      ensures var fact := h.GetFactoryName(factoryName);
              old(h.HasOpen(factoryName)) && old(h.engine.TxStateOf(transaction)) == Pending
              && old(h.Stored())[fact] == session && old(h.engine.CurrentTx(session)) == Some(transaction) ==>
                r == Pass && h.engine.TxStateOf(transaction) == RolledBack
                && h.engine.txns == old(h.engine.txns)[transaction := RolledBack]
    {
      var present := h.HasOpenSession(factoryName);
      if present && h.engine.TxStateOf(transaction) == Pending {
        r := h.RollbackTransaction(factoryName);
      } else {
        r := Pass;
      }
    }
  }

  /** Hibernator.Transaction(factoryName), and equally the public
      HibernationTransaction constructor: GetSession, then BeginTransaction,
      both under the name, wrapped in a new guard. Because GetSession runs
      first, a scope whose mode was Unknown and that held no session under
      the name ends up Manual, not AtuoTransactionScope. */
  method Transaction(h: Hibernator, name: string) returns (r: Result<HibernationTransaction>)
    requires h.Valid()
    modifies h.Storage(), h.engine
    ensures h.Valid() && h.Elsewhere() == old(h.Elsewhere())
    ensures r.Success? ==>
              && fresh(r.value) && r.value.h == h && r.value.factoryName == name
              && h.GetFactoryName(name) in h.Stored() && h.Stored()[h.GetFactoryName(name)] == r.value.session
              && h.engine.IsOpen(r.value.session)
              && h.engine.CurrentTx(r.value.session) == Some(r.value.transaction)
              && r.value.transaction == |old(h.engine.txns)| && h.engine.txns == old(h.engine.txns) + [Pending]
    ensures var fact := h.GetFactoryName(name);
            if fact in old(h.Stored()) then
              var session := old(h.Stored())[fact];
              && h.Stored() == old(h.Stored())
              && h.Mode() == (if old(h.Mode()) == Unknown then AtuoTransactionScope else old(h.Mode()))
              && (old(h.engine.IsOpen(session)) ==>
                    && r.Success? && r.value.session == session
                    && h.engine.sessions == old(h.engine.sessions)[session := old(h.engine.sessions)[session].(current := Some(r.value.transaction))])
              && (!old(h.engine.IsOpen(session)) ==>
                    r == Failure(SessionClosed) && h.engine.sessions == old(h.engine.sessions) && h.engine.txns == old(h.engine.txns))
            else if !h.factories.ContainsKey(fact) then
              && r == Failure(KeyNotFound(ToUpper(fact))) && h.Stored() == old(h.Stored()) && h.Mode() == old(h.Mode())
              && h.engine.sessions == old(h.engine.sessions) && h.engine.txns == old(h.engine.txns)
            else if h.ModuleMissing() then
              && r == Failure(HttpModuleNotDefined) && h.Stored() == old(h.Stored()) && h.Mode() == ManualIfUnknown(old(h.Mode()))
              && h.engine.sessions == old(h.engine.sessions) && h.engine.txns == old(h.engine.txns)
            else
              var session := |old(h.engine.sessions)|;
              && r.Success? && r.value.session == session
              && h.Stored() == old(h.Stored())[fact := session] && h.Mode() == ManualIfUnknown(old(h.Mode()))
              && h.engine.sessions == old(h.engine.sessions) + [SessionHandle(h.factories.factories[ToUpper(fact)], true, Some(r.value.transaction))]
  {
    var s :- h.GetSession(name);
    var tx :- h.BeginTransaction(name);
    var g := new HibernationTransaction.Wrap(h, name, s, tx);
    r := Success(g);
  }
}
