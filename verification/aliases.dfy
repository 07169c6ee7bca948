/** The alias rules of the facade, as functions on values: how a name is
    resolved (GetFactoryName), how aliases are bound (AddAlias never
    overwrites, so the first binding wins), and how the setting string
    "alias[,alias...]:factory;..." is parsed into bindings. */
module Aliases {
  import opened Common
  import opened Text

  /** GetFactoryName: an alias yields its bound name verbatim; otherwise a
      registered factory name yields its upper-case form; otherwise "".
      `keys` are the factory table's (upper-case) keys. */
  function Resolve(aliases: map<string, string>, keys: set<string>, name: string): string
  {
    if name in aliases then aliases[name]
    else if ToUpper(name) in keys then ToUpper(name)
    else ""
  }

  /** Case-sensitive alias lookup: a bound alias resolves to its target as
      stored, even when another spelling of it is bound elsewhere. */
  lemma ResolveAlias(aliases: map<string, string>, keys: set<string>, name: string)
    requires name in aliases
    ensures Resolve(aliases, keys, name) == aliases[name]
  {
  }

  /** An unbound name that the table knows resolves to the table's key for it,
      whatever its letter case. */
  lemma ResolveRegistered(aliases: map<string, string>, keys: set<string>, name: string)
    requires name !in aliases && ToUpper(name) in keys
    ensures Resolve(aliases, keys, name) == ToUpper(name)
    ensures IsUpper(Resolve(aliases, keys, name))
  {
  }

  /** An unbound, unregistered name resolves to "", the default factory's
      key: when a default factory is registered, lookups reach it. */
  lemma ResolveUnknownIsDefault(aliases: map<string, string>, keys: set<string>, name: string)
    requires name !in aliases && ToUpper(name) !in keys
    ensures Resolve(aliases, keys, name) == ""
    ensures "" in keys ==> ToUpper(Resolve(aliases, keys, name)) in keys
  {
  }

  /** A registered upper-case key that is not itself an alias resolves to itself. */
  lemma ResolveKeyIsFixed(aliases: map<string, string>, keys: set<string>, k: string)
    requires k in keys && IsUpper(k) && k !in aliases
    ensures Resolve(aliases, keys, k) == k
  {
    UpperIsFixed(k);
  }

  /** AddAlias on values: binds only an alias that is not yet bound. */
  function Bind(m: map<string, string>, alias: string, target: string): map<string, string>
  {
    if alias in m then m else m[alias := target]
  }

  /** The aliases named by a list of bindings. */
  function AliasesOf(pairs: seq<(string, string)>): set<string>
  {
    set i | 0 <= i < |pairs| :: pairs[i].0
  }

  /** AddAlias applied to each binding in order. Existing bindings are kept,
      and exactly the listed aliases are added. */
  function BindAll(m: map<string, string>, pairs: seq<(string, string)>): (r: map<string, string>)
    ensures forall k :: k in m ==> k in r && r[k] == m[k]
    ensures r.Keys == m.Keys + AliasesOf(pairs)
    decreases |pairs|
  {
    if pairs == [] then m
    else
      var n := |pairs| - 1;
      assert AliasesOf(pairs) == AliasesOf(pairs[..n]) + {pairs[n].0};
      Bind(BindAll(m, pairs[..n]), pairs[n].0, pairs[n].1)
  }

  /** Binding a concatenation is binding its parts one after the other. */
  lemma {:induction false} BindAllAppend(m: map<string, string>, a: seq<(string, string)>, b: seq<(string, string)>)
    ensures BindAll(m, a + b) == BindAll(BindAll(m, a), b)
    decreases |b|
  {
    if b == [] {
      assert a + b == a;
    } else {
      var n := |b| - 1;
      assert (a + b)[..|a + b| - 1] == a + b[..n];
      assert (a + b)[|a + b| - 1] == b[n];
      BindAllAppend(m, a, b[..n]);
    }
  }

  /** The first binding of an alias that was not bound before is the one that stays. */
  lemma {:induction false} FirstBindingWins(m: map<string, string>, pairs: seq<(string, string)>, i: nat)
    requires i < |pairs| && pairs[i].0 !in m
    requires forall j :: 0 <= j < i ==> pairs[j].0 != pairs[i].0
    ensures pairs[i].0 in BindAll(m, pairs) && BindAll(m, pairs)[pairs[i].0] == pairs[i].1
    decreases |pairs|
  {
    var n := |pairs| - 1;
    var prefix := BindAll(m, pairs[..n]);
    if i == n {
      assert pairs[i].0 !in AliasesOf(pairs[..n]);
      assert pairs[i].0 !in prefix;
    } else {
      FirstBindingWins(m, pairs[..n], i);
    }
  }

  /** AddFactoryAliases(factoryName, aliases): each alias bound to the one name. */
  function Pairs(aliases: seq<string>, target: string): (ps: seq<(string, string)>)
    ensures |ps| == |aliases|
    ensures forall i :: 0 <= i < |ps| ==> ps[i] == (aliases[i], target)
  {
    seq(|aliases|, i requires 0 <= i < |aliases| => (aliases[i], target))
  }

  /** AddFactoryAliases(IDictionary) on values: every key of `d` that is not
      yet bound is added with its value; existing bindings are kept. */
  function Merge(m: map<string, string>, d: map<string, string>): (r: map<string, string>)
    ensures r.Keys == m.Keys + d.Keys
    ensures forall k :: k in m ==> r[k] == m[k]
    ensures forall k :: k in d && k !in m ==> r[k] == d[k]
  {
    map k | k in m.Keys + d.Keys :: if k in m then m[k] else d[k]
  }

  /** One ';'-separated piece of the setting: split on ':'; a piece with other
      than exactly two parts binds nothing, otherwise each ','-separated alias
      on the left is bound to the right-hand name, without trimming. */
  function PiecePairs(piece: string): seq<(string, string)>
  {
    var parts := Split(piece, ':');
    if |parts| != 2 then [] else Pairs(Split(parts[0], ','), parts[1])
  }

  /** The bindings of several pieces, in order. */
  function ParsePieces(pieces: seq<string>): seq<(string, string)>
    decreases |pieces|
  {
    if pieces == [] then []
    else ParsePieces(pieces[..|pieces| - 1]) + PiecePairs(pieces[|pieces| - 1])
  }

  /** AddFactoryAliases(string): the bindings the setting string denotes, in order. */
  function ParseAliases(setting: string): seq<(string, string)>
  {
    ParsePieces(Split(setting, ';'))
  }

  // ----- Round trip: rendering alias entries and parsing them back -----

  /** One group "a1,a2,...:factory" of the setting grammar. */
  datatype AliasEntry = AliasEntry(aliases: seq<string>, target: string)

  predicate NoDelimiters(s: string)
  {
    ';' !in s && ':' !in s && ',' !in s
  }

  /** An entry that the grammar can express: at least one alias, and no
      delimiter inside any alias or the target. */
  predicate WellFormed(e: AliasEntry)
  {
    |e.aliases| >= 1 && NoDelimiters(e.target)
    && forall i :: 0 <= i < |e.aliases| ==> NoDelimiters(e.aliases[i])
  }

  function RenderEntry(e: AliasEntry): string
  {
    Join(e.aliases, ',') + [':'] + e.target
  }

  function RenderPieces(entries: seq<AliasEntry>): (ps: seq<string>)
    ensures |ps| == |entries|
    ensures forall i :: 0 <= i < |ps| ==> ps[i] == RenderEntry(entries[i])
  {
    seq(|entries|, i requires 0 <= i < |entries| => RenderEntry(entries[i]))
  }

  /** The setting string for a list of entries. */
  function Render(entries: seq<AliasEntry>): string
  {
    Join(RenderPieces(entries), ';')
  }

  /** The bindings a list of entries stands for, in order. */
  function Expand(entries: seq<AliasEntry>): seq<(string, string)>
    decreases |entries|
  {
    if entries == [] then []
    else Expand(entries[..|entries| - 1]) + Pairs(entries[|entries| - 1].aliases, entries[|entries| - 1].target)
  }

  /** Joining pieces that avoid a character other than the separator avoids it too. */
  lemma {:induction false} JoinAvoids(pieces: seq<string>, sep: char, c: char)
    requires c != sep
    requires forall i :: 0 <= i < |pieces| ==> c !in pieces[i]
    ensures c !in Join(pieces, sep)
    decreases |pieces|
  {
    if |pieces| > 1 {
      JoinAvoids(pieces[1..], sep, c);
    }
  }

  /** A well-formed entry parses back to its own bindings. */
  lemma EntryRoundTrip(e: AliasEntry)
    requires WellFormed(e)
    ensures ';' !in RenderEntry(e)
    ensures PiecePairs(RenderEntry(e)) == Pairs(e.aliases, e.target)
  {
    var left := Join(e.aliases, ',');
    JoinAvoids(e.aliases, ',', ':');
    JoinAvoids(e.aliases, ',', ';');
    SplitAfterPiece(left, ':', e.target);
    SplitWithoutSeparator(e.target, ':');
    assert Split(RenderEntry(e), ':') == [left, e.target];
    SplitJoin(e.aliases, ',');
  }

  lemma {:induction false} PiecesRoundTrip(entries: seq<AliasEntry>)
    requires forall i :: 0 <= i < |entries| ==> WellFormed(entries[i])
    ensures ParsePieces(RenderPieces(entries)) == Expand(entries)
    decreases |entries|
  {
    if entries != [] {
      var n := |entries| - 1;
      var ps := RenderPieces(entries);
      assert ps[..n] == RenderPieces(entries[..n]);
      assert ParsePieces(ps) == ParsePieces(ps[..n]) + PiecePairs(ps[n]);
      PiecesRoundTrip(entries[..n]);
      EntryRoundTrip(entries[n]);
      assert Expand(entries) == Expand(entries[..n]) + Pairs(entries[n].aliases, entries[n].target);
    }
  }

  /** Parsing the rendering of well-formed entries yields exactly their
      bindings, in order. */
  lemma ParseRender(entries: seq<AliasEntry>)
    requires forall i :: 0 <= i < |entries| ==> WellFormed(entries[i])
    ensures ParseAliases(Render(entries)) == Expand(entries)
  {
    if entries == [] {
      assert Split("", ';') == [""];
      assert [""][..0] == [];
      assert Split("", ':') == [""];
    } else {
      forall i | 0 <= i < |entries| ensures ';' !in RenderPieces(entries)[i] {
        EntryRoundTrip(entries[i]);
      }
      SplitJoin(RenderPieces(entries), ';');
      PiecesRoundTrip(entries);
    }
  }

  /** A piece binds something exactly when it splits on ':' into two parts;
      "a", "a:b:c" and "::" bind nothing. */
  lemma MalformedPieceBindsNothing(piece: string)
    ensures PiecePairs(piece) == [] <==> |Split(piece, ':')| != 2
    ensures ':' !in piece ==> PiecePairs(piece) == []
  {
  }
}
