/** The NHibernate objects the core drives, reduced to abstract handles:
    an ISession is open or closed and knows its current ITransaction, and an
    ITransaction is pending, committed or rolled back. Handle ids are
    positions in the engine's tables, so a new handle is always fresh. */
module Handles {
  import opened Common

  /** ITransaction.WasCommitted / WasRolledBack, as one state. */
  datatype TxState = Pending | Committed | RolledBack

  /** An ISession: the factory that opened it, ISession.IsOpen, and
      ISession.Transaction (None before any transaction was begun). */
  datatype SessionHandle = SessionHandle(factory: FactoryId, isOpen: bool, current: Option<TxId>)

  /** The session table after ISession.Close on `id`: only that handle is
      closed, every other handle and every transaction link is kept. */
  function CloseAt(sessions: seq<SessionHandle>, id: SessionId): (r: seq<SessionHandle>)
    ensures |r| == |sessions|
    ensures forall j :: 0 <= j < |r| ==> r[j].isOpen == (sessions[j].isOpen && j != id)
    ensures forall j :: 0 <= j < |r| ==> r[j].current == sessions[j].current && r[j].factory == sessions[j].factory
  {
    if id < |sessions| then sessions[id := sessions[id].(isOpen := false)] else sessions
  }

  /** Whether handle `id` names an open session of the table. */
  function OpenIn(sessions: seq<SessionHandle>, id: SessionId): bool
  {
    id < |sessions| && sessions[id].isOpen
  }

  /** ISession.Transaction of handle `id` in a session table. */
  function CurrentIn(sessions: seq<SessionHandle>, id: SessionId): Option<TxId>
  {
    if id < |sessions| then sessions[id].current else None
  }

  /** The state of a transaction in a transaction table; ids never handed
      out read as Pending. */
  function StateIn(txns: seq<TxState>, tx: TxId): TxState
  {
    if tx < |txns| then txns[tx] else Pending
  }

  class Engine {
    var sessions: seq<SessionHandle>
    var txns: seq<TxState>

    /** Every session's current transaction exists. */
    ghost predicate Valid()
      reads this
    {
      forall id :: 0 <= id < |sessions| && sessions[id].current.Some? ==> sessions[id].current.value < |txns|
    }

    constructor ()
      ensures Valid() && sessions == [] && txns == []
    {
      sessions := [];
      txns := [];
    }

    function IsOpen(id: SessionId): bool
      reads this
    {
      OpenIn(sessions, id)
    }

    function CurrentTx(id: SessionId): Option<TxId>
      reads this
    {
      CurrentIn(sessions, id)
    }

    function TxStateOf(tx: TxId): TxState
      reads this
    {
      StateIn(txns, tx)
    }

    /** ISessionFactory.OpenSession: a new open session with no transaction. */
    method OpenSession(factory: FactoryId) returns (id: SessionId)
      requires Valid()
      modifies this
      ensures Valid()
      ensures id == |old(sessions)| && sessions == old(sessions) + [SessionHandle(factory, true, None)]
      ensures txns == old(txns)
    {
      id := |sessions|;
      sessions := sessions + [SessionHandle(factory, true, None)];
    }

    /** ISession.Close. */
    method Close(id: SessionId)
      requires Valid()
      modifies this
      ensures Valid()
      ensures sessions == CloseAt(old(sessions), id)
      ensures txns == old(txns)
    {
      if id < |sessions| {
        sessions := sessions[id := sessions[id].(isOpen := false)];
      }
    }

    /** ISession.BeginTransaction: fails on a closed session, otherwise a
        fresh pending transaction becomes the session's current one. */
    method Begin(id: SessionId) returns (r: Result<TxId>)
      requires Valid()
      modifies this
      ensures Valid()
      ensures !old(IsOpen(id)) ==> r == Failure(SessionClosed) && sessions == old(sessions) && txns == old(txns)
      ensures old(IsOpen(id)) ==> r == Success(|old(txns)|) && txns == old(txns) + [Pending]
                                  && sessions == old(sessions)[id := old(sessions)[id].(current := Some(r.value))]
    {
      if !IsOpen(id) {
        return Failure(SessionClosed);
      }
      var tx := |txns|;
      txns := txns + [Pending];
      sessions := sessions[id := sessions[id].(current := Some(tx))];
      r := Success(tx);
    }

    /** ISession.Transaction.Commit(): fails unless the current transaction is
        pending; `rejects` stands for the database refusing the commit, which
        leaves the transaction neither committed nor rolled back. */
    method Commit(id: SessionId, rejects: bool) returns (r: Outcome)
      requires Valid()
      modifies this
      ensures Valid() && sessions == old(sessions)
      ensures old(CurrentTx(id)).None? ==> r == Fail(TransactionNotActive) && txns == old(txns)
      ensures old(CurrentTx(id)).Some? ==>
        var tx := old(CurrentTx(id)).value;
        if old(TxStateOf(tx)) != Pending then r == Fail(TransactionNotActive) && txns == old(txns)
        else if rejects then r == Fail(CommitRejected) && txns == old(txns)
        else r == Pass && txns == old(txns)[tx := Committed]
    {
      var cur := CurrentTx(id);
      if cur.None? || TxStateOf(cur.value) != Pending {
        return Fail(TransactionNotActive);
      }
      if rejects {
        return Fail(CommitRejected);
      }
      txns := txns[cur.value := Committed];
      r := Pass;
    }

    /** ISession.Transaction.Rollback(): fails unless the current transaction is pending. */
    method Rollback(id: SessionId) returns (r: Outcome)
      requires Valid()
      modifies this
      ensures Valid() && sessions == old(sessions)
      ensures old(CurrentTx(id)).None? ==> r == Fail(TransactionNotActive) && txns == old(txns)
      ensures old(CurrentTx(id)).Some? ==>
        var tx := old(CurrentTx(id)).value;
        if old(TxStateOf(tx)) != Pending then r == Fail(TransactionNotActive) && txns == old(txns)
        else r == Pass && txns == old(txns)[tx := RolledBack]
    {
      var cur := CurrentTx(id);
      if cur.None? || TxStateOf(cur.value) != Pending {
        return Fail(TransactionNotActive);
      }
      txns := txns[cur.value := RolledBack];
      r := Pass;
    }
  }
}
