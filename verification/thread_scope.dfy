/** ThreadSessionCollection: the worker-local session registry. Its session
    map and start mode are [ThreadStatic], so each worker thread has its own
    pair; the model keeps one entry per thread id and a `current` thread on
    whose behalf every operation runs. The session map of a thread is
    created lazily on first access; a thread whose mode was never set reads
    the enum's default, Unknown. */
module ThreadScope {
  import opened Common

  type ThreadId = nat

  class ThreadSessionCollection {
    var current: ThreadId
    /** [ThreadStatic] sessions: absent until the thread first touches it. */
    var sessions: map<ThreadId, map<string, SessionId>>
    /** [ThreadStatic] sessionStartMode: absent means the default value. */
    var modes: map<ThreadId, SessionStartMode>

    constructor ()
      ensures sessions == map[] && modes == map[] && Map() == map[] && Mode() == Unknown
    {
      current := 0;
      sessions := map[];
      modes := map[];
    }

    /** The session map the current thread sees. */
    function Map(): map<string, SessionId>
      reads this
    {
      if current in sessions then sessions[current] else map[]
    }

    /** The start mode the current thread sees. */
    function Mode(): SessionStartMode
      reads this
    {
      if current in modes then modes[current] else Unknown
    }

    /** What other threads see: nothing here may change it. */
    ghost function Elsewhere(): (map<ThreadId, map<string, SessionId>>, map<ThreadId, SessionStartMode>)
      reads this
    {
      (sessions - {current}, modes - {current})
    }

    /** Later operations run on thread `t`. */
    method EnterThread(t: ThreadId)
      modifies this`current
      ensures current == t
    {
      current := t;
    }

    /** The Sessions property: creates the current thread's map on first use. */
    method Touch()
      modifies this`sessions
      ensures current in sessions
      ensures Map() == old(Map()) && Elsewhere() == old(Elsewhere())
    {
      if current !in sessions {
        MapOutside(sessions, current, map[]);
        sessions := sessions[current := map[]];
      }
    }

    /** SessionMode get. */
    method GetMode() returns (m: SessionStartMode)
      ensures m == Mode()
    {
      m := if current in modes then modes[current] else Unknown;
    }

    /** SessionMode set: only the current thread's mode changes. */
    method SetMode(m: SessionStartMode)
      modifies this`modes
      ensures Mode() == m && Map() == old(Map()) && Elsewhere() == old(Elsewhere())
    {
      MapOutside(modes, current, m);
      modes := modes[current := m];
    }

    /** Get: throws when the key is absent, otherwise the stored handle. */
    method Get(key: string) returns (r: Result<SessionId>)
      modifies this`sessions
      ensures key in old(Map()) ==> r == Success(old(Map())[key])
      ensures key !in old(Map()) ==> r == Failure(SessionNotFound(key))
      ensures Map() == old(Map()) && Elsewhere() == old(Elsewhere())
    {
      Touch();
      if key !in sessions[current] {
        return Failure(SessionNotFound(key));
      }
      r := Success(sessions[current][key]);
    }

    /** Add: throws on a duplicate key, otherwise inserts exactly one entry. */
    method Add(key: string, session: SessionId) returns (r: Outcome)
      modifies this`sessions
      ensures key in old(Map()) ==> r == Fail(DuplicateKey(key)) && Map() == old(Map())
      ensures key !in old(Map()) ==> r == Pass && Map() == old(Map())[key := session]
      ensures Mode() == old(Mode()) && Elsewhere() == old(Elsewhere())
    {
      Touch();
      if key in sessions[current] {
        return Fail(DuplicateKey(key));
      }
      var updated: map<string, SessionId> := sessions[current][key := session];
      MapOutside(sessions, current, updated);
      sessions := sessions[current := updated];
      r := Pass;
    }

    /** Remove: deletes only `key`; a no-op when it is absent. */
    method Remove(key: string)
      modifies this`sessions
      ensures Map() == old(Map()) - {key}
      ensures Mode() == old(Mode()) && Elsewhere() == old(Elsewhere())
    {
      Touch();
      MapOutside(sessions, current, sessions[current] - {key});
      sessions := sessions[current := sessions[current] - {key}];
    }

    /** ContainsKey: exact, case-sensitive membership. */
    method ContainsKey(key: string) returns (b: bool)
      modifies this`sessions
      ensures b == (key in old(Map()))
      ensures Map() == old(Map()) && Elsewhere() == old(Elsewhere())
    {
      Touch();
      b := key in sessions[current];
    }

    /** Indexer set: inserts or overwrites, without Add's duplicate check. */
    method SetItem(key: string, session: SessionId)
      modifies this`sessions
      ensures Map() == old(Map())[key := session]
      ensures Mode() == old(Mode()) && Elsewhere() == old(Elsewhere())
    {
      Touch();
      var updated: map<string, SessionId> := sessions[current][key := session];
      MapOutside(sessions, current, updated);
      sessions := sessions[current := updated];
    }

    /** Keys: the current thread's stored names, each once. */
    method Keys() returns (ks: seq<string>)
      modifies this`sessions
      ensures forall k :: k in ks <==> k in old(Map())
      ensures forall i, j :: 0 <= i < j < |ks| ==> ks[i] != ks[j]
      ensures Map() == old(Map()) && Elsewhere() == old(Elsewhere())
    {
      Touch();
      var left := sessions[current].Keys;
      ks := [];
      while left != {}
        invariant left <= Map().Keys
        invariant forall k :: k in ks <==> k in Map() && k !in left
        invariant forall i, j :: 0 <= i < j < |ks| ==> ks[i] != ks[j]
        decreases left
      {
        var k :| k in left;
        ks := ks + [k];
        left := left - {k};
      }
    }
  }

  /** Workers do not share entries: what one thread adds is invisible to another. */
  method WorkersAreIsolated(store: ThreadSessionCollection, a: ThreadId, b: ThreadId, key: string, s: SessionId)
    returns (seenByB: bool)
    requires a != b
    modifies store
    ensures !seenByB <==> key !in old(if b in store.sessions then store.sessions[b] else map[])
  {
    store.EnterThread(b);
    ghost var before := store.Map();
    store.EnterThread(a);
    var _ := store.Add(key, s);
    MapOutsideAt(old(store.sessions), store.sessions, a, b);
    store.EnterThread(b);
    assert store.Map() == before;
    seenByB := store.ContainsKey(key);
  }
}
