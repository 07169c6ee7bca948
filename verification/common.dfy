/** Values shared by every part of the Hibernation model: handle ids,
    the session start mode, and the error taxonomy with its Result types. */
module Common {

  /** An NHibernate ISessionFactory, seen only through its identity. */
  type FactoryId = nat
  /** An NHibernate ISession handle, seen only through its identity. */
  type SessionId = nat
  /** An NHibernate ITransaction handle, seen only through its identity. */
  type TxId = nat

  /** How the first session of a scope was started. The source spells the
      third value AtuoTransactionScope; the model keeps that spelling.
      Unknown is taken to be the enum's default value. */
  datatype SessionStartMode = Unknown | Manual | AtuoTransactionScope | HttpRequest

  /** The exceptions the core raises or lets through. */
  datatype Error =
    | KeyNotFound(key: string)                 // Dictionary indexer on a missing key
    | DuplicateKey(key: string)                // Dictionary.Add on a present key
    | SessionNotFound(key: string)             // "No SessionFactory found with that name."
    | HttpModuleNotDefined                     // OpenSession without OpenSessionInViewModule
    | NoFactoryForName(name: string)           // OpenSession on an unregistered resolved name
    | SessionClosed                            // BeginTransaction on a closed ISession
    | TransactionNotActive                     // commit or rollback with nothing begun
    | CommitRejected                           // the database refused the commit
    | CommitFailedRolledBack(inner: Error)     // the guard's wrapped commit failure
    | DuplicateSignature(signature: string)    // a generator signature added twice

  datatype Result<T> = Success(value: T) | Failure(error: Error) {
    predicate IsFailure() { Failure? }
    function PropagateFailure<U>(): Result<U>
      requires Failure?
    {
      Failure(error)
    }
    function Extract(): T
      requires Success?
    {
      value
    }
  }

  datatype Outcome = Pass | Fail(error: Error) {
    predicate IsFailure() { Fail? }
    function PropagateFailure(): Outcome
      requires Fail?
    {
      this
    }
  }

  datatype Option<T> = None | Some(value: T)

  /** Updating or removing key `k` leaves the rest of a map as it was. */
  lemma MapOutside<K, V>(m: map<K, V>, k: K, v: V)
    ensures m[k := v] - {k} == m - {k}
    ensures (m - {k}) - {k} == m - {k}
  {
    assert (m[k := v] - {k}).Keys == (m - {k}).Keys;
  }

  /** Reading another key through a map with `k` removed. */
  lemma MapOutsideAt<K, V>(m: map<K, V>, m': map<K, V>, k: K, j: K)
    requires m - {k} == m' - {k} && j != k
    ensures j in m <==> j in m'
    ensures j in m ==> m[j] == m'[j]
  {
    assert j in m <==> j in m - {k};
    assert j in m' <==> j in m' - {k};
    if j in m {
      assert (m - {k})[j] == m[j];
      assert (m' - {k})[j] == m'[j];
    }
  }
}
