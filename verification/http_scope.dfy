/** HttpSessionCollection: the request-local session registry. Its session
    map and start mode live in the current request's item bag
    (HttpContext.Current.Items) under the keys "Hibernation.Session" and
    "Hibernation.StartMode"; the model keeps one bag per request id and a
    `current` request on whose behalf every operation runs. */
module HttpScope {
  import opened Common

  type RequestId = nat

  const SessionItemKey := "Hibernation.Session"
  const StartModeItemKey := "Hibernation.StartMode"

  /** The two entries of a request's item bag this registry uses: the value
      under SessionItemKey and the value under StartModeItemKey (None: no item). */
  datatype ItemBag = ItemBag(sessionMap: Option<map<string, SessionId>>, startMode: Option<SessionStartMode>)

  const EmptyBag := ItemBag(None, None)

  class HttpSessionCollection {
    var current: RequestId
    /** The item bags of the live requests; a missing bag is an empty one. */
    var items: map<RequestId, ItemBag>

    constructor ()
      ensures items == map[] && Map() == map[] && Mode() == Unknown
    {
      current := 0;
      items := map[];
    }

    /** The current request's bag. */
    function Bag(): ItemBag
      reads this
    {
      if current in items then items[current] else EmptyBag
    }

    /** The session map the current request sees. */
    function Map(): map<string, SessionId>
      reads this
    {
      if Bag().sessionMap.Some? then Bag().sessionMap.value else map[]
    }

    /** SessionMode get: the stored value, or Unknown when nothing is stored. */
    function Mode(): SessionStartMode
      reads this
    {
      if Bag().startMode.Some? then Bag().startMode.value else Unknown
    }

    /** What other requests see: nothing here may change it. */
    ghost function Elsewhere(): map<RequestId, ItemBag>
      reads this
    {
      items - {current}
    }

    /** Later operations run within request `r`. */
    method EnterRequest(r: RequestId)
      modifies this`current
      ensures current == r
    {
      current := r;
    }

    /** The request ends and its context, item bag included, is discarded. */
    method EndRequest()
      modifies this`items
      ensures items == old(items) - {current}
      ensures Map() == map[] && Mode() == Unknown && Elsewhere() == old(Elsewhere())
    {
      MapOutside(items, current, EmptyBag);
      items := items - {current};
    }

    /** Writes the current request's bag, leaving other requests alone. */
    method PutBag(bag: ItemBag)
      modifies this`items
      ensures Bag() == bag && Elsewhere() == old(Elsewhere())
    {
      MapOutside(items, current, bag);
      items := items[current := bag];
    }

    /** The _sessions property: the map stored in the bag, created and
        stored on first access and reused afterwards. */
    method Sessions() returns (m: map<string, SessionId>)
      modifies this`items
      ensures Bag().sessionMap == Some(m) && m == old(Map())
      ensures Mode() == old(Mode()) && Elsewhere() == old(Elsewhere())
    {
      var bag := Bag();
      if bag.sessionMap.None? {
        bag := bag.(sessionMap := Some(map[]));
        PutBag(bag);
      }
      m := bag.sessionMap.value;
    }

    /** Stores a new session map in the current bag. */
    method PutSessions(m: map<string, SessionId>)
      modifies this`items
      ensures Map() == m && Mode() == old(Mode()) && Elsewhere() == old(Elsewhere())
    {
      PutBag(Bag().(sessionMap := Some(m)));
    }

    /** SessionMode get. */
    method GetMode() returns (m: SessionStartMode)
      ensures m == Mode()
    {
      var stored := Bag().startMode;
      if stored.Some? {
        return stored.value;
      }
      m := Unknown;
    }

    /** SessionMode set: overwrites the stored value. */
    method SetMode(m: SessionStartMode)
      modifies this`items
      ensures Mode() == m && Map() == old(Map()) && Elsewhere() == old(Elsewhere())
    {
      PutBag(Bag().(startMode := Some(m)));
    }

    /** Get: throws when the key is absent, otherwise the stored handle. */
    method Get(key: string) returns (r: Result<SessionId>)
      modifies this`items
      ensures key in old(Map()) ==> r == Success(old(Map())[key])
      ensures key !in old(Map()) ==> r == Failure(SessionNotFound(key))
      ensures Map() == old(Map()) && Mode() == old(Mode()) && Elsewhere() == old(Elsewhere())
    {
      var m := Sessions();
      if key !in m {
        return Failure(SessionNotFound(key));
      }
      r := Success(m[key]);
    }

    /** Add: throws on a duplicate key, otherwise inserts exactly one entry. */
    method Add(key: string, session: SessionId) returns (r: Outcome)
      modifies this`items
      ensures key in old(Map()) ==> r == Fail(DuplicateKey(key)) && Map() == old(Map())
      ensures key !in old(Map()) ==> r == Pass && Map() == old(Map())[key := session]
      ensures Mode() == old(Mode()) && Elsewhere() == old(Elsewhere())
    {
      var m := Sessions();
      if key in m {
        return Fail(DuplicateKey(key));
      }
      PutSessions(m[key := session]);
      r := Pass;
    }

    /** Remove: deletes only `key`; a no-op when it is absent. */
    method Remove(key: string)
      modifies this`items
      ensures Map() == old(Map()) - {key}
      ensures Mode() == old(Mode()) && Elsewhere() == old(Elsewhere())
    {
      var m := Sessions();
      PutSessions(m - {key});
    }

    /** ContainsKey: exact, case-sensitive membership. */
    method ContainsKey(key: string) returns (b: bool)
      modifies this`items
      ensures b == (key in old(Map()))
      ensures Map() == old(Map()) && Mode() == old(Mode()) && Elsewhere() == old(Elsewhere())
    {
      var m := Sessions();
      b := key in m;
    }

    /** Indexer set: inserts or overwrites, without Add's duplicate check. */
    method SetItem(key: string, session: SessionId)
      modifies this`items
      ensures Map() == old(Map())[key := session]
      ensures Mode() == old(Mode()) && Elsewhere() == old(Elsewhere())
    {
      var m := Sessions();
      PutSessions(m[key := session]);
    }

    /** Keys: the current request's stored names, each once. */
    method Keys() returns (ks: seq<string>)
      modifies this`items
      ensures forall k :: k in ks <==> k in old(Map())
      ensures forall i, j :: 0 <= i < j < |ks| ==> ks[i] != ks[j]
      ensures Map() == old(Map()) && Mode() == old(Mode()) && Elsewhere() == old(Elsewhere())
    {
      var m := Sessions();
      var left := m.Keys;
      ks := [];
      while left != {}
        invariant left <= m.Keys
        invariant forall k :: k in ks <==> k in m && k !in left
        invariant forall i, j :: 0 <= i < j < |ks| ==> ks[i] != ks[j]
        decreases left
      {
        var k :| k in left;
        ks := ks + [k];
        left := left - {k};
      }
    }
  }
}
