/** classes/game_id_cache.cs: resolving game names to Twitch game ids through the id cache
    table, with the remote lookup (`ParseGameName`) passed in as a function. */
module GameIdCache {
  import opened Common
  import opened Utils
  import opened GuildConfigHandler

  // ---------------------------------------------------------------------------
  // String.Trim()
  // ---------------------------------------------------------------------------

  /** `Char.IsWhiteSpace`: the characters with the Unicode White_Space property. */
  predicate IsWhiteSpace(c: char)
  {
    || ('\U{0009}' <= c <= '\U{000D}') || c == ' ' || c == '\U{0085}' || c == '\U{00A0}'
    || c == '\U{1680}' || ('\U{2000}' <= c <= '\U{200A}') || c == '\U{2028}' || c == '\U{2029}'
    || c == '\U{202F}' || c == '\U{205F}' || c == '\U{3000}'
  }

  function TrimLeadingWhiteSpace(s: string): (r: string)
  {
    if s != [] && IsWhiteSpace(s[0]) then TrimLeadingWhiteSpace(s[1..]) else s
  }

  function TrimTrailingWhiteSpace(s: string): (r: string)
  {
    if s != [] && IsWhiteSpace(s[|s| - 1]) then TrimTrailingWhiteSpace(s[..|s| - 1]) else s
  }

  /** `s.Trim()`: white space dropped from both ends. */
  function TrimWhiteSpace(s: string): string
  {
    TrimTrailingWhiteSpace(TrimLeadingWhiteSpace(s))
  }

  /** `TrimStart()` keeps a suffix that does not begin with white space, and drops only
      white space. */
  lemma {:induction false} LeadingDropsWhiteSpace(s: string)
    ensures var r := TrimLeadingWhiteSpace(s);
            && |r| <= |s| && r == s[|s| - |r|..]
            && (r == [] || !IsWhiteSpace(r[0]))
            && forall i :: 0 <= i < |s| - |r| ==> IsWhiteSpace(s[i])
  {
    if s != [] && IsWhiteSpace(s[0]) {
      LeadingDropsWhiteSpace(s[1..]);
      var r := TrimLeadingWhiteSpace(s);
      assert s[1..][|s| - 1 - |r|..] == s[|s| - |r|..];
      forall i | 1 <= i < |s| - |r| ensures IsWhiteSpace(s[i]) {
        assert s[i] == s[1..][i - 1];
      }
    }
  }

  /** `TrimEnd()` keeps a prefix that does not end with white space, and drops only white
      space. */
  lemma {:induction false} TrailingDropsWhiteSpace(s: string)
    ensures var r := TrimTrailingWhiteSpace(s);
            && |r| <= |s| && r == s[..|r|]
            && (r == [] || !IsWhiteSpace(r[|r| - 1]))
            && forall i :: |r| <= i < |s| ==> IsWhiteSpace(s[i])
  {
    if s != [] && IsWhiteSpace(s[|s| - 1]) {
      TrailingDropsWhiteSpace(s[..|s| - 1]);
      var r := TrimTrailingWhiteSpace(s);
      assert s[..|s| - 1][..|r|] == s[..|r|];
    }
  }

  /** The trimmed name is a slice of the original with white space at neither end, and only
      white space was dropped. */
  lemma TrimWhiteSpaceIsSlice(s: string)
    ensures var r := TrimWhiteSpace(s);
            var lo := |s| - |TrimLeadingWhiteSpace(s)|;
            && (r == [] || (!IsWhiteSpace(r[0]) && !IsWhiteSpace(r[|r| - 1])))
            && 0 <= lo && lo + |r| <= |s| && r == s[lo..lo + |r|]
            && (forall i :: 0 <= i < lo ==> IsWhiteSpace(s[i]))
            && (forall i :: lo + |r| <= i < |s| ==> IsWhiteSpace(s[i]))
  {
    var l := TrimLeadingWhiteSpace(s);
    var r := TrimTrailingWhiteSpace(l);
    var lo := |s| - |l|;
    LeadingDropsWhiteSpace(s);
    TrailingDropsWhiteSpace(l);
    assert l == s[lo..] && r == l[..|r|];
    assert r == s[lo..lo + |r|] by {
      assert s[lo..][..|r|] == s[lo..lo + |r|];
    }
    forall i | lo + |r| <= i < |s| ensures IsWhiteSpace(s[i]) {
      assert s[i] == l[i - lo];
    }
    if r != [] {
      assert r[0] == l[0];
    }
  }

  /** Trimming twice is trimming once. */
  lemma TrimWhiteSpaceIdempotent(s: string)
    ensures TrimWhiteSpace(TrimWhiteSpace(s)) == TrimWhiteSpace(s)
  {
    var r := TrimWhiteSpace(s);
    TrimWhiteSpaceIsSlice(s);
    assert TrimLeadingWhiteSpace(r) == r;
    assert TrimTrailingWhiteSpace(r) == r;
  }

  // ---------------------------------------------------------------------------
  // The operations `Parse` submits and the casts it applies
  // ---------------------------------------------------------------------------

  /** The `exists` operation: a Contains for a row with the trimmed name and no id. The
      null `id` of the source is the empty text here. */
  function ContainsNameOp(identifier: string, formatted: string): DBOperation<GameIdPair>
  {
    DBOperation(identifier, Contains, GameIdPair(formatted, ""), Null)
  }

  /** `exists.opType = Retrieve`: the same record resubmitted. `DBOperation` is a struct
      passed by value, so the worker filled in the result of its own copy and the caller's
      record still has a null result. */
  function RetrieveNameOp(identifier: string, formatted: string): DBOperation<GameIdPair>
  {
    DBOperation(identifier, Retrieve, GameIdPair(formatted, ""), Null)
  }

  /** The `insert` operation: the trimmed name with the id the lookup found. */
  function InsertPairOp(identifier: string, formatted: string, id: string): DBOperation<GameIdPair>
  {
    DBOperation(identifier, Insert, GameIdPair(formatted, id), Null)
  }

  /** `(string)result`: null casts to null; a boxed row or bool throws `InvalidCastException`. */
  function CastToString(result: OpResult<GameIdPair>): (r: Result<Option<string>, Failure>)
    ensures r.Ok? <==> result.Null?
    ensures r.Ok? ==> r.value.None?
    ensures r.Err? ==> r.error == InvalidCastException
  {
    match result
    case Null => Ok(None)
    case Row(_) => Err(InvalidCastException)
    case Flag(_) => Err(InvalidCastException)
  }

  /** A row found in the cache never comes back as an id: the cast of the row fails. */
  lemma CacheHitNeverYieldsId(pair: GameIdPair)
    ensures CastToString(Row(pair)) == Err(InvalidCastException)
  {
  }

  // ---------------------------------------------------------------------------
  // What `Parse` and `ParseGameNames` do when nothing else is queued on the table
  // ---------------------------------------------------------------------------

  /** The outcome of one `Parse` and the cache table afterwards. */
  datatype Resolved = Resolved(result: Result<Option<string>, Failure>, store: map<string, GameIdPair>)

  /** `Parse` against a table with no other work queued: a cached name ends in the failing
      cast of its row; an uncached name is looked up remotely, and a found id is inserted
      under the trimmed name and returned; an id not found gives null and inserts nothing. */
  function ResolveQuietly(store: map<string, GameIdPair>, gameName: string, lookup: string -> Option<string>): (r: Resolved)
  {
    var formatted := TrimWhiteSpace(gameName);
    if formatted in store then Resolved(Err(InvalidCastException), store)
    else match lookup(formatted)
      case None => Resolved(Ok(None), store)
      case Some(id) => Resolved(Ok(Some(id)), store[formatted := GameIdPair(formatted, id)])
  }

  /** The outcome of `ParseGameNames` over a list and the table afterwards. */
  datatype ResolvedAll = ResolvedAll(result: Result<seq<string>, Failure>, store: map<string, GameIdPair>)

  /** The names resolved one after another, left to right; the first failure ends the run and
      is the outcome; otherwise the outcome is the ids found, in order. */
  function ResolveAll(store: map<string, GameIdPair>, names: seq<string>, lookup: string -> Option<string>): (r: ResolvedAll)
    ensures r.result.Ok? ==> |r.result.value| <= |names|
    decreases |names|
  {
    if names == [] then ResolvedAll(Ok([]), store)
    else ResolveNext(ResolveAll(store, names[..|names| - 1], lookup), names[|names| - 1], lookup)
  }

  /** One more name after a run: nothing happens once the run has failed. */
  function ResolveNext(prev: ResolvedAll, name: string, lookup: string -> Option<string>): (r: ResolvedAll)
    ensures prev.result.Ok? && r.result.Ok? ==> |r.result.value| <= |prev.result.value| + 1
  {
    if prev.result.Err? then prev
    else
      var step := ResolveQuietly(prev.store, name, lookup);
      if step.result.Err? then ResolvedAll(Err(step.result.error), step.store)
      else ResolvedAll(Ok(prev.result.value + OptionToSeq(step.result.value)), step.store)
  }

  /** A name that resolves without failing was not cached, was looked up, and is cached
      afterwards exactly when the lookup found an id; other rows are kept. */
  lemma ResolveQuietlyOk(store: map<string, GameIdPair>, name: string, lookup: string -> Option<string>)
    ensures Keeps(store, ResolveQuietly(store, name, lookup).store)
    ensures var q := ResolveQuietly(store, name, lookup);
            var formatted := TrimWhiteSpace(name);
            && (q.result.Ok? <==> formatted !in store)
            && (q.result.Ok? ==> q.result.value == lookup(formatted))
            && (q.result.Ok? && lookup(formatted).Some? ==>
                  formatted in q.store && q.store[formatted] == GameIdPair(formatted, lookup(formatted).value))
  {
  }

  function OptionToSeq(o: Option<string>): (s: seq<string>)
  {
    if o.Some? then [o.value] else []
  }

  /** Once a prefix of the names has failed, the whole run has failed the same way. */
  lemma {:induction false} ResolveAllFailureSticks(store: map<string, GameIdPair>, names: seq<string>, n: nat, lookup: string -> Option<string>)
    requires n <= |names| && ResolveAll(store, names[..n], lookup).result.Err?
    ensures ResolveAll(store, names, lookup) == ResolveAll(store, names[..n], lookup)
    decreases |names| - n
  {
    if n < |names| {
      var longer := names[..n + 1];
      assert longer[..n] == names[..n];
      ResolveAllFailureSticks(store, names, n + 1, lookup);
    } else {
      assert names[..n] == names;
    }
  }

  /** Every row of `small` is in `big`, unchanged. */
  predicate Keeps(small: map<string, GameIdPair>, big: map<string, GameIdPair>)
  {
    forall k :: k in small ==> k in big && big[k] == small[k]
  }

  /** The remote lookup of every name, trimmed, in list order. */
  function Lookups(names: seq<string>, lookup: string -> Option<string>): (r: seq<Option<string>>)
    ensures |r| == |names|
  {
    if names == [] then [] else Lookups(names[..|names| - 1], lookup) + [lookup(TrimWhiteSpace(names[|names| - 1]))]
  }

  /** The rows already cached stay cached, unchanged, through a run. */
  lemma {:induction false} ResolveAllKeepsCache(store: map<string, GameIdPair>, names: seq<string>, lookup: string -> Option<string>)
    ensures Keeps(store, ResolveAll(store, names, lookup).store)
    decreases |names|
  {
    if names != [] {
      var prev := ResolveAll(store, names[..|names| - 1], lookup);
      ResolveAllKeepsCache(store, names[..|names| - 1], lookup);
      ResolveQuietlyOk(prev.store, names[|names| - 1], lookup);
    }
  }

  /** A run that succeeds returns the ids the lookup found, in the order of the names, and
      leaves out the names it found nothing for. */
  lemma {:induction false} ResolvedIdsAreLookups(store: map<string, GameIdPair>, names: seq<string>, lookup: string -> Option<string>)
    requires ResolveAll(store, names, lookup).result.Ok?
    ensures ResolveAll(store, names, lookup).result.value == Somes(Lookups(names, lookup))
    decreases |names|
  {
    if names != [] {
      var init := names[..|names| - 1];
      var last := names[|names| - 1];
      var prev := ResolveAll(store, init, lookup);
      assert prev.result.Ok?;
      ResolvedIdsAreLookups(store, init, lookup);
      ResolveQuietlyOk(prev.store, last, lookup);
      SomesAppend(Lookups(init, lookup), lookup(TrimWhiteSpace(last)));
    }
  }

  /** After a run that succeeds, every name the lookup resolved is cached, under its trimmed
      text, with the id found. */
  lemma {:induction false} ResolvedNamesAreCached(store: map<string, GameIdPair>, names: seq<string>, lookup: string -> Option<string>)
    requires ResolveAll(store, names, lookup).result.Ok?
    ensures var after := ResolveAll(store, names, lookup).store;
            forall k :: 0 <= k < |names| && lookup(TrimWhiteSpace(names[k])).Some? ==>
              var name := TrimWhiteSpace(names[k]);
              name in after && after[name] == GameIdPair(name, lookup(name).value)
    decreases |names|
  {
    if names != [] {
      var init := names[..|names| - 1];
      var prev := ResolveAll(store, init, lookup);
      assert prev.result.Ok?;
      ResolvedNamesAreCached(store, init, lookup);
      ResolveQuietlyOk(prev.store, names[|names| - 1], lookup);
      var after := ResolveAll(store, names, lookup).store;
      forall k | 0 <= k < |names| - 1 && lookup(TrimWhiteSpace(names[k])).Some?
        ensures var name := TrimWhiteSpace(names[k]);
                name in after && after[name] == GameIdPair(name, lookup(name).value)
      {
        assert names[k] == init[k];
      }
    }
  }

  /** A name that appears twice in one list, and whose first occurrence the lookup resolves,
      is cached by the first occurrence and fails the whole list at the second. */
  lemma RepeatedNameFails(store: map<string, GameIdPair>, name: string, id: string, lookup: string -> Option<string>)
    requires TrimWhiteSpace(name) !in store && lookup(TrimWhiteSpace(name)) == Some(id)
    ensures ResolveAll(store, [name, name], lookup).result == Err(InvalidCastException)
  {
    assert [name, name][..1] == [name];
    assert [name][..0] == [];
    var empty := ResolveAll(store, [], lookup);
    ResolveQuietlyOk(store, name, lookup);
    var first := ResolveAll(store, [name], lookup);
    assert first == ResolveNext(empty, name, lookup);
    assert TrimWhiteSpace(name) in first.store;
  }

  // ---------------------------------------------------------------------------
  // GameNameIdCache
  // ---------------------------------------------------------------------------

  class GameNameIdCache {
    /** `context`: the id-cache half of the shared `ContextWrapper`. */
    const cache: Broker<string, GameIdPair>

    /** The cache table is keyed by the game name. */
    ghost predicate Valid()
      reads this, cache
    {
      cache.Valid() && forall p: GameIdPair :: cache.keyOf(p) == p.name
    }

    constructor (context: ContextWrapper)
      requires context.idCache.keyOf == ((p: GameIdPair) => p.name)
      ensures cache == context.idCache
    {
      cache := context.idCache;
    }

    /** `await context.DoOperation(op)`: submit and wait for the first executed operation
        with the same identifier. With nothing else queued and the worker free, that is
        `op` itself, applied to the table. */
    method Run(op: DBOperation<GameIdPair>) returns (answer: Option<DBOperation<GameIdPair>>)
      requires Valid()
      modifies cache
      ensures Valid()
      ensures |cache.waiters| == |old(cache.waiters)| + 1 && KeepsWaiters(old(cache.waiters), cache.waiters)
      ensures cache.waiters[|old(cache.waiters)|].identifier == op.identifier
      ensures answer == cache.waiters[|old(cache.waiters)|].answer
      ensures old(cache.pending) == [] && !old(cache.handling) ==>
                var e := Execute(cache.keyOf, old(cache.store), op);
                && cache.pending == [] && cache.store == e.store
                && (e.faulted ==> answer.None? && cache.handling)
                && (!e.faulted ==> answer == Some(e.executed) && !cache.handling)
    {
      var ticket := cache.DoOperation(op);
      answer := cache.Await(ticket);
    }

    /** The cache-hit branch of `Parse`: resubmit the record as a Retrieve and cast what
        comes back to text. With nothing else queued, a stored row makes the cast fail; a
        name not stored leaves the result null (the `First` exception is swallowed), and
        null casts to no id. */
    method ParseHit(identifier: string, formatted: string)
      returns (r: Result<Option<string>, Failure>)
      requires Valid()
      modifies cache
      ensures Valid()
      ensures var before := |old(cache.waiters)|;
              && |cache.waiters| == before + 1 && KeepsWaiters(old(cache.waiters), cache.waiters)
              && cache.waiters[before].identifier == identifier
              && (cache.waiters[before].answer.None? ==> r == Err(NeverCompletes))
              && (cache.waiters[before].answer.Some? ==> r == CastToString(cache.waiters[before].answer.value.result))
      ensures old(cache.pending) == [] && !old(cache.handling) ==>
                && (formatted in old(cache.store) ==> r == Err(InvalidCastException))
                && (formatted !in old(cache.store) ==> r == Ok(None))
                && cache.store == old(cache.store) && cache.pending == [] && !cache.handling
    {
      var fetched := Run(RetrieveNameOp(identifier, formatted));
      if fetched.None? {
        return Err(NeverCompletes);
      }
      return CastToString(fetched.value.result);
    }

    /** The cache-miss branch of `Parse`: look the name up remotely; insert and return a
        found id, return null otherwise. */
    method ParseMiss(identifier: string, formatted: string, lookup: string -> Option<string>)
      returns (r: Result<Option<string>, Failure>)
      requires Valid()
      modifies cache
      ensures Valid()
      ensures var before := |old(cache.waiters)|;
              && KeepsWaiters(old(cache.waiters), cache.waiters)
              && (lookup(formatted).None? ==> r == Ok(None) && |cache.waiters| == before)
              && (lookup(formatted).Some? ==>
                    && |cache.waiters| == before + 1
                    && cache.waiters[before].identifier == identifier
                    && (cache.waiters[before].answer.None? ==> r == Err(NeverCompletes))
                    && (cache.waiters[before].answer.Some? ==> r == Ok(lookup(formatted))))
      ensures old(cache.pending) == [] && !old(cache.handling) && formatted !in old(cache.store) ==>
                && r == Ok(lookup(formatted)) && cache.pending == [] && !cache.handling
                && cache.store == if lookup(formatted).Some?
                                  then old(cache.store)[formatted := GameIdPair(formatted, lookup(formatted).value)]
                                  else old(cache.store)
    {
      var parsed := lookup(formatted);
      if parsed.Some? {
        var done := Run(InsertPairOp(identifier, formatted, parsed.value));
        if done.None? {
          return Err(NeverCompletes);
        }
        return Ok(parsed);
      }
      return Ok(None);
    }

    /** `Parse`: trim the name and ask the cache whether it holds it; on a hit, resubmit
        the same record as a Retrieve and cast its result to text; on a miss, look the name
        up remotely and, when an id comes back, insert it and return it. Every operation
        carries `identifier`, and an await whose worker has stopped never completes. */
    method Parse(gameName: string, identifier: string, lookup: string -> Option<string>)
      returns (r: Result<Option<string>, Failure>)
      requires Valid()
      modifies cache
      ensures Valid()
      ensures var before := |old(cache.waiters)|;
              && before < |cache.waiters| <= before + 2 && KeepsWaiters(old(cache.waiters), cache.waiters)
              && (forall i :: before <= i < |cache.waiters| ==> cache.waiters[i].identifier == identifier)
      ensures var before := |old(cache.waiters)|;
              cache.waiters[before].answer.None? ==> r == Err(NeverCompletes) && |cache.waiters| == before + 1
      ensures var before := |old(cache.waiters)|;
              var waiters := cache.waiters;
              var formatted := TrimWhiteSpace(gameName);
              waiters[before].answer.Some? ==>
                var seen := CastToBool(waiters[before].answer.value.result);
                && (seen.Err? ==> r == Err(seen.error) && |waiters| == before + 1)
                && (seen == Ok(true) ==>
                      |waiters| == before + 2
                      && (waiters[before + 1].answer.None? ==> r == Err(NeverCompletes))
                      && (waiters[before + 1].answer.Some? ==>
                            r == CastToString(waiters[before + 1].answer.value.result)))
                && (seen == Ok(false) && lookup(formatted).None? ==>
                      r == Ok(None) && |waiters| == before + 1)
                && (seen == Ok(false) && lookup(formatted).Some? ==>
                      |waiters| == before + 2
                      && (waiters[before + 1].answer.None? ==> r == Err(NeverCompletes))
                      && (waiters[before + 1].answer.Some? ==> r == Ok(lookup(formatted))))
      ensures old(cache.pending) == [] && !old(cache.handling) ==>
                var q := ResolveQuietly(old(cache.store), gameName, lookup);
                r == q.result && cache.store == q.store && cache.pending == [] && !cache.handling
    {
      var formatted := TrimWhiteSpace(gameName);
      var answer := Run(ContainsNameOp(identifier, formatted));
      if answer.None? {
        return Err(NeverCompletes);
      }
      var seen := CastToBool(answer.value.result);
      if seen.Err? {
        return Err(seen.error);
      }
      if seen.value {
        r := ParseHit(identifier, formatted);
      } else {
        r := ParseMiss(identifier, formatted, lookup);
      }
    }

    /** One turn of the loop in `ParseGameNames`: the `i`-th name is parsed under the
        list's identifier and a found id is appended to the ids so far; with nothing else
        queued the run so far advances by one name. */
    method ParseNth(list: seq<string>, i: nat, identifier: string, lookup: string -> Option<string>,
                    result: seq<string>, ghost quiet: bool, ghost start: map<string, GameIdPair>, ghost from: nat)
      returns (parsed: Result<Option<string>, Failure>, grown: seq<string>)
      requires Valid() && i < |list|
      requires from <= |cache.waiters|
      requires forall j :: from <= j < |cache.waiters| ==> cache.waiters[j].identifier == identifier
      requires quiet ==> && ResolveAll(start, list[..i], lookup) == ResolvedAll(Ok(result), cache.store)
                         && cache.pending == [] && !cache.handling
      modifies cache
      ensures Valid()
      ensures from <= |cache.waiters|
      ensures forall j :: from <= j < |cache.waiters| ==> cache.waiters[j].identifier == identifier
      ensures quiet ==> && cache.pending == [] && !cache.handling
                        && ResolveAll(start, list[..i + 1], lookup)
                             == ResolvedAll(if parsed.Err? then Err(parsed.error) else Ok(grown), cache.store)
      ensures parsed.Ok? ==> grown == result + OptionToSeq(parsed.value) && |grown| <= |result| + 1
    {
      ghost var prev := ResolvedAll(Ok(result), cache.store);
      ghost var before := cache.waiters;
      parsed := Parse(list[i], identifier, lookup);
      assert list[..i + 1][..i] == list[..i];
      forall j | from <= j < |cache.waiters|
        ensures cache.waiters[j].identifier == identifier
      {
        if j < |before| {
          assert cache.waiters[j].identifier == before[j].identifier;
        }
      }
      grown := result;
      if parsed.Ok? && parsed.value.Some? {
        grown := result + [parsed.value.value];
      }
      assert parsed.Ok? ==> grown == result + OptionToSeq(parsed.value);
    }

    /** `ParseGameNames`: null stays null; otherwise the names are parsed by `ParseList`. */
    method ParseGameNames(names: Option<seq<string>>, lookup: string -> Option<string>)
      returns (r: Result<Option<seq<string>>, Failure>)
      requires Valid()
      modifies cache
      ensures Valid()
      ensures names.None? ==> r == Ok(None) && cache.waiters == old(cache.waiters)
      ensures names.Some? && r.Ok? ==> r.value.Some? && |r.value.value| <= |names.value|
      ensures forall i :: |old(cache.waiters)| <= i < |cache.waiters| ==>
                cache.waiters[i].identifier == NamesFingerprint(names.value)
      ensures names.Some? && old(cache.pending) == [] && !old(cache.handling) ==>
                var q := ResolveAll(old(cache.store), names.value, lookup);
                && cache.store == q.store
                && (q.result.Ok? ==> r == Ok(Some(q.result.value)))
                && (q.result.Err? ==> r == Err(q.result.error))
    {
      if names.None? {
        return Ok(None);
      }
      var ids := ParseList(names.value, lookup);
      if ids.Err? {
        return Err(ids.error);
      }
      return Ok(Some(ids.value));
    }

    /** The loop of `ParseGameNames`: every name is parsed in turn under the fingerprint of
        the whole list, the ids found are collected in order, and the first exception ends
        the call. With nothing else queued, the outcome and the cache are those of
        `ResolveAll`. */
    method ParseList(list: seq<string>, lookup: string -> Option<string>) returns (r: Result<seq<string>, Failure>)
      requires Valid()
      modifies cache
      ensures Valid()
      ensures r.Ok? ==> |r.value| <= |list|
      ensures forall i :: |old(cache.waiters)| <= i < |cache.waiters| ==>
                cache.waiters[i].identifier == NamesFingerprint(list)
      ensures old(cache.pending) == [] && !old(cache.handling) ==>
                ResolveAll(old(cache.store), list, lookup) == ResolvedAll(r, cache.store)
    {
      var result: seq<string> := [];
      ghost var quiet := cache.pending == [] && !cache.handling;
      for i := 0 to |list|
        invariant Valid()
        invariant |result| <= i
        invariant |old(cache.waiters)| <= |cache.waiters|
        invariant forall j :: |old(cache.waiters)| <= j < |cache.waiters| ==>
                    cache.waiters[j].identifier == NamesFingerprint(list)
        invariant quiet ==>
                    && ResolveAll(old(cache.store), list[..i], lookup) == ResolvedAll(Ok(result), cache.store)
                    && cache.pending == [] && !cache.handling
      {
        var identifier := CreateHashOfNames(list);
        var parsed, grown := ParseNth(list, i, identifier, lookup, result, quiet, old(cache.store), |old(cache.waiters)|);
        if parsed.Err? {
          if quiet {
            ResolveAllFailureSticks(old(cache.store), list, i + 1, lookup);
          }
          return Err(parsed.error);
        }
        result := grown;
      }
      assert list[..|list|] == list;
      return Ok(result);
    }
  }
}
