/** classes/stream-handler.cs: the query string of a poll, the token refresh decision and
    flag, and the dispatch tick that drains the request queue. */
module StreamHandler {
  import opened Common
  import opened Structs
  import opened Utils
  import opened CustomQueue

  // ---------------------------------------------------------------------------
  // DeserializeGrabRequest (stream-handler.cs:138-154)
  // ---------------------------------------------------------------------------

  /** The six keys of the dictionary `DeserializeGrabRequest` fills and `CreateURLParams` reads. */
  datatype Param = After | Before | First | GameIds | UserIds | UserLogins

  /** The text of each key in the source. */
  function KeyText(key: Param): string
  {
    match key
    case After => "after"
    case Before => "before"
    case First => "first"
    case GameIds => "game_ids"
    case UserIds => "user_ids"
    case UserLogins => "user_logins"
  }

  /** The text a request contributes under each key: the field itself, `first` as decimal
      text, each list joined with ';'; null fields contribute nothing. */
  function FieldText(request: StreamGrabRequest, key: Param): Option<string>
  {
    match key
    case After => request.after
    case Before => request.before
    case First => FirstText(request.first)
    case GameIds => JoinedList(request.game_ids)
    case UserIds => JoinedList(request.user_ids)
    case UserLogins => JoinedList(request.user_logins)
  }

  /** The dictionary `DeserializeGrabRequest` fills: one entry per non-null field. */
  function GrabRequestDict(request: StreamGrabRequest): map<Param, string>
  {
    map key | key in {After, Before, First, GameIds, UserIds, UserLogins} && FieldText(request, key).Some?
      :: FieldText(request, key).value
  }

  function Lookup(dict: map<Param, string>, key: Param): Option<string>
  {
    if key in dict then Some(dict[key]) else None
  }

  /** The dictionary has a key exactly when the request's field is non-null, and holds the
      field's text there. */
  lemma GrabRequestDictEntries(request: StreamGrabRequest, key: Param)
    ensures Lookup(GrabRequestDict(request), key) == FieldText(request, key)
    ensures key in GrabRequestDict(request) <==> match key
      case After => request.after.Some?
      case Before => request.before.Some?
      case First => request.first.Some?
      case GameIds => request.game_ids.Some?
      case UserIds => request.user_ids.Some?
      case UserLogins => request.user_logins.Some?
  {
  }

  /** Two dictionaries that answer every lookup alike are the same dictionary. */
  lemma DictByLookups(d1: map<Param, string>, d2: map<Param, string>)
    requires forall key :: Lookup(d1, key) == Lookup(d2, key)
    ensures d1 == d2
  {
    forall key | key in d1 ensures key in d2 && d1[key] == d2[key] {
      assert Lookup(d1, key) == Lookup(d2, key);
    }
    forall key | key in d2 ensures key in d1 {
      assert Lookup(d1, key) == Lookup(d2, key);
    }
  }

  /** One `if (field != null) dict.Add(key, text);` step. */
  method AddIfPresent(dict: map<Param, string>, key: Param, text: Option<string>) returns (extended: map<Param, string>)
    ensures extended == if text.Some? then dict[key := text.value] else dict
  {
    extended := dict;
    if text.Some? {
      extended := extended[key := text.value];
    }
  }

  /** `dict` holds the request's entries for the keys in `done` and nothing else. */
  ghost predicate FilledFor(dict: map<Param, string>, request: StreamGrabRequest, done: set<Param>)
  {
    && (forall key :: key in done ==> Lookup(dict, key) == FieldText(request, key))
    && (forall key :: key !in done ==> key !in dict)
  }

  lemma FillOne(dict: map<Param, string>, request: StreamGrabRequest, done: set<Param>, key: Param)
    requires FilledFor(dict, request, done) && key !in done
    ensures var text := FieldText(request, key);
            FilledFor(if text.Some? then dict[key := text.value] else dict, request, done + {key})
  {
    var text := FieldText(request, key);
    var next := if text.Some? then dict[key := text.value] else dict;
    forall k | k in done + {key}
      ensures Lookup(next, k) == FieldText(request, k)
    {
      if k != key {
        assert Lookup(next, k) == Lookup(dict, k);
      }
    }
    forall k | k !in done + {key}
      ensures k !in next
    {
      assert k !in dict;
    }
  }

  /** Filled for all six keys is the request's dictionary. */
  lemma FilledForAll(dict: map<Param, string>, request: StreamGrabRequest)
    requires FilledFor(dict, request, {After, Before, First, GameIds, UserIds, UserLogins})
    ensures forall key :: Lookup(dict, key) == FieldText(request, key)
    ensures dict == GrabRequestDict(request)
  {
    forall key ensures Lookup(dict, key) == FieldText(request, key) {
      assert key in {After, Before, First, GameIds, UserIds, UserLogins} by {
        match key
        case After =>
        case Before =>
        case First =>
        case GameIds =>
        case UserIds =>
        case UserLogins =>
      }
    }
    forall key ensures Lookup(dict, key) == Lookup(GrabRequestDict(request), key) {
      GrabRequestDictEntries(request, key);
    }
    DictByLookups(dict, GrabRequestDict(request));
  }

  /** The first three `dict.Add` steps of `DeserializeGrabRequest`: after, before, first. */
  method AddScalars(request: StreamGrabRequest) returns (dict: map<Param, string>)
    ensures FilledFor(dict, request, {After, Before, First})
  {
    dict := map[];
    FillOne(dict, request, {}, After);
    dict := AddIfPresent(dict, After, request.after);
    FillOne(dict, request, {After}, Before);
    dict := AddIfPresent(dict, Before, request.before);
    FillOne(dict, request, {After, Before}, First);
    dict := AddIfPresent(dict, First, FirstText(request.first));
  }

  /** The last three `dict.Add` steps: each list joined with ';'. */
  method AddLists(scalars: map<Param, string>, request: StreamGrabRequest) returns (dict: map<Param, string>)
    requires FilledFor(scalars, request, {After, Before, First})
    ensures FilledFor(dict, request, {After, Before, First, GameIds, UserIds, UserLogins})
  {
    dict := scalars;
    FillOne(dict, request, {After, Before, First}, GameIds);
    var gameIds := JoinIfPresent(request.game_ids);
    dict := AddIfPresent(dict, GameIds, gameIds);
    FillOne(dict, request, {After, Before, First, GameIds}, UserIds);
    var userIds := JoinIfPresent(request.user_ids);
    dict := AddIfPresent(dict, UserIds, userIds);
    FillOne(dict, request, {After, Before, First, GameIds, UserIds}, UserLogins);
    var userLogins := JoinIfPresent(request.user_logins);
    dict := AddIfPresent(dict, UserLogins, userLogins);
  }

  /** `DeserializeGrabRequest`: `dict.Add` for each non-null field in turn. */
  method DeserializeGrabRequest(request: StreamGrabRequest) returns (dict: map<Param, string>)
    ensures forall key :: Lookup(dict, key) == FieldText(request, key)
    ensures dict == GrabRequestDict(request)
  {
    dict := AddScalars(request);
    dict := AddLists(dict, request);
    FilledForAll(dict, request);
  }

  // ---------------------------------------------------------------------------
  // CreateURLParams (stream-handler.cs:156-218)
  // ---------------------------------------------------------------------------

  /** What the foreach over one list accumulates: "&" and a `name=value` pair per element. */
  function Prefixed(prefix: string, values: seq<string>): string
  {
    if values == [] then "" else Prefixed(prefix, values[..|values| - 1]) + "&" + (prefix + values[|values| - 1])
  }

  /** One list's parameters: the accumulated pairs with '&' trimmed from both ends. */
  function ParamGroup(prefix: string, values: seq<string>): string
  {
    Trim('&', Prefixed(prefix, values))
  }

  /** `name=value` for every value, in order. */
  function Pairs(prefix: string, values: seq<string>): (r: seq<string>)
    ensures |r| == |values| && forall i :: 0 <= i < |values| ==> r[i] == prefix + values[i]
  {
    seq(|values|, i requires 0 <= i < |values| => prefix + values[i])
  }

  /** A single `name=value` entry when the value is present. */
  function OptionalPair(prefix: string, value: Option<string>): seq<string>
  {
    if value.Some? then [prefix + value.value] else []
  }

  /** The group of a list value when it is present, after re-expanding it with `Split(';')`. */
  function OptionalGroup(prefix: string, list: Option<string>): seq<string>
  {
    if list.Some? then [ParamGroup(prefix, Split(';', list.value))] else []
  }

  /** `queries` as `CreateURLParams` builds it: after, before, first, then the game, user-id
      and user-login groups. */
  function Queries(dict: map<Param, string>): seq<string>
  {
    OptionalPair("after=", Lookup(dict, After))
    + OptionalPair("before=", Lookup(dict, Before))
    + OptionalPair("first=", Lookup(dict, First))
    + OptionalGroup("game_id=", Lookup(dict, GameIds))
    + OptionalGroup("user_id=", Lookup(dict, UserIds))
    + OptionalGroup("user_login=", Lookup(dict, UserLogins))
  }

  /** The URL query component: "?" and the queries joined with '&', '&' trimmed from both ends.
      It always starts with '?', and what follows neither begins nor ends with '&'. */
  function UrlParams(dict: map<Param, string>): (r: string)
    ensures |r| >= 1 && r[0] == '?'
    ensures |r| > 1 ==> r[1] != '&' && r[|r| - 1] != '&'
  {
    var joined := Trim('&', Interleaved('&', Queries(dict)));
    assert ("?" + joined)[1..] == joined;
    "?" + joined
  }

  /** A request whose fields are all null gives exactly "?". */
  lemma EmptyRequestQuery(request: StreamGrabRequest)
    requires request.after.None? && request.before.None? && request.first.None?
    requires request.game_ids.None? && request.user_ids.None? && request.user_logins.None?
    ensures UrlParams(GrabRequestDict(request)) == "?"
  {
    assert GrabRequestDict(request) == map[];
    assert Queries(map[]) == [];
  }

  /** A list value whose re-expansion gives back its elements and whose last pair does not
      end with '&': non-empty, first and last element non-empty, no ';' inside an element,
      and the last element not ending with '&'. */
  predicate ExpandsCleanly(list: seq<string>)
  {
    && list != [] && list[0] != "" && list[|list| - 1] != ""
    && (forall k :: 0 <= k < |list| ==> ';' !in list[k])
    && EndsWithoutAmp(list[|list| - 1])
  }

  predicate EndsWithoutAmp(s: string)
  {
    s == [] || s[|s| - 1] != '&'
  }

  /** The pairs a present list contributes. */
  function ListPairs(prefix: string, list: Option<seq<string>>): seq<string>
  {
    if list.Some? then Pairs(prefix, list.value) else []
  }

  /** Every `name=value` pair of the query, in the order the source emits them. */
  function ExpectedPairs(request: StreamGrabRequest): seq<string>
  {
    OptionalPair("after=", request.after)
    + OptionalPair("before=", request.before)
    + OptionalPair("first=", FirstText(request.first))
    + ListPairs("game_id=", request.game_ids)
    + ListPairs("user_id=", request.user_ids)
    + ListPairs("user_login=", request.user_logins)
  }

  /** The requests whose query is exactly their pairs joined with '&'. */
  predicate QueryReady(request: StreamGrabRequest)
  {
    && (request.after.Some? ==> EndsWithoutAmp(request.after.value))
    && (request.before.Some? ==> EndsWithoutAmp(request.before.value))
    && (request.game_ids.Some? ==> ExpandsCleanly(request.game_ids.value))
    && (request.user_ids.Some? ==> ExpandsCleanly(request.user_ids.value))
    && (request.user_logins.Some? ==> ExpandsCleanly(request.user_logins.value))
  }

  lemma {:induction false} PrefixedIsLeadingAmp(prefix: string, values: seq<string>)
    requires values != []
    ensures Prefixed(prefix, values) == "&" + Interleaved('&', Pairs(prefix, values))
  {
    var init := values[..|values| - 1];
    var pairs := Pairs(prefix, values);
    assert pairs[..|pairs| - 1] == Pairs(prefix, init);
    if init != [] {
      PrefixedIsLeadingAmp(prefix, init);
    } else {
      assert Prefixed(prefix, init) == "";
    }
  }

  /** A list's group is its pairs joined with '&' when the name is non-empty, does not begin
      with '&', and the last pair does not end with '&'. */
  lemma ParamGroupIsPairs(prefix: string, values: seq<string>)
    requires values != [] && prefix != [] && prefix[0] != '&'
    requires EndsWithoutAmp(prefix + values[|values| - 1])
    ensures ParamGroup(prefix, values) == Interleaved('&', Pairs(prefix, values))
  {
    var pairs := Pairs(prefix, values);
    var v := Interleaved('&', pairs);
    PrefixedIsLeadingAmp(prefix, values);
    InterleavedStartsWithFirst('&', pairs);
    assert (prefix + values[0])[0] == prefix[0];
    InterleavedEndsWithLast('&', pairs);
    assert Prefixed(prefix, values)[1..] == v;
    assert TrimStart('&', Prefixed(prefix, values)) == TrimStart('&', v);
    TrimUntouched('&', v);
  }

  /** Replacing a trailing group by its own pairs does not change the joined text. */
  lemma SpliceGroup(a: seq<string>, b: seq<string>, pairs: seq<string>)
    requires Interleaved('&', a) == Interleaved('&', b) && (a == [] <==> b == [])
    requires pairs != []
    ensures Interleaved('&', a + [Interleaved('&', pairs)]) == Interleaved('&', b + pairs)
    ensures a + [Interleaved('&', pairs)] != [] && b + pairs != []
  {
    var a' := a + [Interleaved('&', pairs)];
    assert a'[..|a'| - 1] == a;
    if b != [] {
      InterleavedAppend('&', b, pairs);
    } else {
      assert b + pairs == pairs;
    }
  }

  /** The group a present list yields, once joined and split again, is its pairs joined with '&'. */
  lemma ListGroupIsPairs(prefix: string, list: seq<string>)
    requires ExpandsCleanly(list) && prefix != [] && prefix[0] != '&' && prefix[|prefix| - 1] == '='
    ensures OptionalGroup(prefix, JoinedList(Some(list))) == [Interleaved('&', Pairs(prefix, list))]
  {
    SplitJoinRoundTrip(';', list);
    ValuePairEnds(prefix, list[|list| - 1]);
    ParamGroupIsPairs(prefix, list);
  }

  /** Appending an optional list group keeps the joined text equal to that of the pairs. */
  lemma SpliceOptionalGroup(a: seq<string>, b: seq<string>, prefix: string, list: Option<seq<string>>)
    requires Interleaved('&', a) == Interleaved('&', b) && (a == [] <==> b == [])
    requires list.Some? ==> ExpandsCleanly(list.value)
    requires prefix != [] && prefix[0] != '&' && prefix[|prefix| - 1] == '='
    ensures var a' := a + OptionalGroup(prefix, JoinedList(list));
            var b' := b + ListPairs(prefix, list);
            Interleaved('&', a') == Interleaved('&', b') && (a' == [] <==> b' == [])
  {
    if list.Some? {
      ListGroupIsPairs(prefix, list.value);
      SpliceGroup(a, b, Pairs(prefix, list.value));
    } else {
      assert a + OptionalGroup(prefix, JoinedList(list)) == a;
      assert b + ListPairs(prefix, list) == b;
    }
  }

  /** The query of a request lists one `name=value` pair per present scalar field and per
      list element, in the order after, before, first, game_id, user_id, user_login, joined
      with '&' and preceded by '?'. */
  lemma QueryIsPairsInOrder(request: StreamGrabRequest)
    requires QueryReady(request)
    ensures UrlParams(GrabRequestDict(request)) == "?" + Interleaved('&', ExpectedPairs(request))
  {
    QueriesOfRequest(request);
    var scalars := OptionalPair("after=", request.after)
                   + OptionalPair("before=", request.before)
                   + OptionalPair("first=", FirstText(request.first));
    var q1 := scalars + OptionalGroup("game_id=", JoinedList(request.game_ids));
    var p1 := scalars + ListPairs("game_id=", request.game_ids);
    SpliceOptionalGroup(scalars, scalars, "game_id=", request.game_ids);
    var q2 := q1 + OptionalGroup("user_id=", JoinedList(request.user_ids));
    var p2 := p1 + ListPairs("user_id=", request.user_ids);
    SpliceOptionalGroup(q1, p1, "user_id=", request.user_ids);
    var q3 := q2 + OptionalGroup("user_login=", JoinedList(request.user_logins));
    var p3 := p2 + ListPairs("user_login=", request.user_logins);
    SpliceOptionalGroup(q2, p2, "user_login=", request.user_logins);
    assert Queries(GrabRequestDict(request)) == q3;
    assert ExpectedPairs(request) == p3;
    TrimmedPairs(request);
  }

  /** The queries of a request's dictionary, read straight off the request's fields. */
  lemma QueriesOfRequest(request: StreamGrabRequest)
    ensures Queries(GrabRequestDict(request))
            == OptionalPair("after=", request.after)
               + OptionalPair("before=", request.before)
               + OptionalPair("first=", FirstText(request.first))
               + OptionalGroup("game_id=", JoinedList(request.game_ids))
               + OptionalGroup("user_id=", JoinedList(request.user_ids))
               + OptionalGroup("user_login=", JoinedList(request.user_logins))
  {
    var dict := GrabRequestDict(request);
    GrabRequestDictEntries(request, After);
    GrabRequestDictEntries(request, Before);
    GrabRequestDictEntries(request, First);
    GrabRequestDictEntries(request, GameIds);
    GrabRequestDictEntries(request, UserIds);
    GrabRequestDictEntries(request, UserLogins);
  }

  /** The joined pairs neither begin nor end with '&', so the final trim keeps them whole. */
  lemma TrimmedPairs(request: StreamGrabRequest)
    requires QueryReady(request)
    ensures Trim('&', Interleaved('&', ExpectedPairs(request))) == Interleaved('&', ExpectedPairs(request))
  {
    var pairs := ExpectedPairs(request);
    if pairs != [] {
      FirstPairStarts(request);
      LastPairEnds(request);
    }
    TrimKeepsCleanPairs(pairs);
  }

  /** Pairs that neither open nor close with '&' survive the trim of their join. */
  lemma TrimKeepsCleanPairs(pairs: seq<string>)
    requires pairs != [] ==> pairs[0] != "" && pairs[0][0] != '&'
    requires pairs != [] ==> var last := pairs[|pairs| - 1]; last != "" && last[|last| - 1] != '&'
    ensures Trim('&', Interleaved('&', pairs)) == Interleaved('&', pairs)
  {
    if pairs != [] {
      InterleavedStartsWithFirst('&', pairs);
      InterleavedEndsWithLast('&', pairs);
    }
    TrimUntouched('&', Interleaved('&', pairs));
  }

  lemma FirstPairStarts(request: StreamGrabRequest)
    requires QueryReady(request) && ExpectedPairs(request) != []
    ensures var pairs := ExpectedPairs(request);
            pairs[0] != "" && pairs[0][0] != '&'
  {
    var after := OptionalPair("after=", request.after);
    var before := OptionalPair("before=", request.before);
    var first := OptionalPair("first=", FirstText(request.first));
    var games := ListPairs("game_id=", request.game_ids);
    var users := ListPairs("user_id=", request.user_ids);
    var logins := ListPairs("user_login=", request.user_logins);
    OptionalPairStarts("after=", request.after);
    OptionalPairStarts("before=", request.before);
    OptionalPairStarts("first=", FirstText(request.first));
    ListPairsStart("game_id=", request.game_ids);
    ListPairsStart("user_id=", request.user_ids);
    ListPairsStart("user_login=", request.user_logins);
    SixStartClean(after, before, first, games, users, logins);
  }

  lemma SixStartClean(a: seq<string>, b: seq<string>, c: seq<string>, d: seq<string>, e: seq<string>, f: seq<string>)
    requires StartClean(a) && StartClean(b) && StartClean(c) && StartClean(d) && StartClean(e) && StartClean(f)
    ensures StartClean(a + b + c + d + e + f)
  {
    StartCleanConcat(a, b);
    StartCleanConcat(a + b, c);
    StartCleanConcat(a + b + c, d);
    StartCleanConcat(a + b + c + d, e);
    StartCleanConcat(a + b + c + d + e, f);
  }

  /** Every pair is non-empty and none begins with '&'. */
  ghost predicate StartClean(pairs: seq<string>)
  {
    forall i :: 0 <= i < |pairs| ==> pairs[i] != "" && pairs[i][0] != '&'
  }

  lemma StartCleanConcat(a: seq<string>, b: seq<string>)
    requires StartClean(a) && StartClean(b)
    ensures StartClean(a + b)
  {
    forall i | 0 <= i < |a + b| ensures (a + b)[i] != "" && (a + b)[i][0] != '&' {
      if i >= |a| {
        assert (a + b)[i] == b[i - |a|];
      }
    }
  }

  lemma OptionalPairStarts(prefix: string, value: Option<string>)
    requires prefix != [] && prefix[0] != '&'
    ensures StartClean(OptionalPair(prefix, value))
  {
    if value.Some? {
      assert (prefix + value.value)[0] == prefix[0];
    }
  }

  lemma ListPairsStart(prefix: string, list: Option<seq<string>>)
    requires prefix != [] && prefix[0] != '&'
    ensures StartClean(ListPairs(prefix, list))
  {
    if list.Some? {
      forall i | 0 <= i < |list.value| ensures (prefix + list.value[i])[0] == prefix[0] {
      }
    }
  }

  lemma LastPairEnds(request: StreamGrabRequest)
    requires QueryReady(request) && ExpectedPairs(request) != []
    ensures var pairs := ExpectedPairs(request);
            var last := pairs[|pairs| - 1];
            last != "" && last[|last| - 1] != '&'
  {
    var after := OptionalPair("after=", request.after);
    var before := OptionalPair("before=", request.before);
    var first := OptionalPair("first=", FirstText(request.first));
    var games := ListPairs("game_id=", request.game_ids);
    var users := ListPairs("user_id=", request.user_ids);
    var logins := ListPairs("user_login=", request.user_logins);
    OptionalPairEnds("after=", request.after);
    OptionalPairEnds("before=", request.before);
    FirstOptionEnds(request.first);
    ListPairsEnd("game_id=", request.game_ids);
    ListPairsEnd("user_id=", request.user_ids);
    ListPairsEnd("user_login=", request.user_logins);
    SixEndClean(after, before, first, games, users, logins);
  }

  lemma SixEndClean(a: seq<string>, b: seq<string>, c: seq<string>, d: seq<string>, e: seq<string>, f: seq<string>)
    requires EndClean(a) && EndClean(b) && EndClean(c) && EndClean(d) && EndClean(e) && EndClean(f)
    ensures EndClean(a + b + c + d + e + f)
  {
    EndCleanConcat(a, b);
    EndCleanConcat(a + b, c);
    EndCleanConcat(a + b + c, d);
    EndCleanConcat(a + b + c + d, e);
    EndCleanConcat(a + b + c + d + e, f);
  }

  lemma FirstOptionEnds(first: Option<int>)
    ensures EndClean(OptionalPair("first=", FirstText(first)))
  {
    if first.Some? {
      FirstPairEnds(first.value);
    }
  }

  /** The last pair, when there is one, is non-empty and does not end with '&'. */
  ghost predicate EndClean(pairs: seq<string>)
  {
    pairs != [] ==> pairs[|pairs| - 1] != "" && pairs[|pairs| - 1][|pairs[|pairs| - 1]| - 1] != '&'
  }

  lemma EndCleanConcat(a: seq<string>, b: seq<string>)
    requires EndClean(a) && EndClean(b)
    ensures EndClean(a + b)
  {
    if b != [] {
      assert (a + b)[|a + b| - 1] == b[|b| - 1];
    } else {
      assert a + b == a;
    }
  }

  lemma OptionalPairEnds(prefix: string, value: Option<string>)
    requires prefix != [] && prefix[|prefix| - 1] == '='
    requires value.Some? ==> EndsWithoutAmp(value.value)
    ensures EndClean(OptionalPair(prefix, value))
  {
    if value.Some? {
      ValuePairEnds(prefix, value.value);
    }
  }

  lemma ListPairsEnd(prefix: string, list: Option<seq<string>>)
    requires prefix != []
    requires list.Some? ==> ExpandsCleanly(list.value)
    ensures EndClean(ListPairs(prefix, list))
  {
    if list.Some? {
      LastOfList(prefix, list.value);
    }
  }

  /** `first=` followed by a number ends with its last digit. */
  lemma FirstPairEnds(n: int)
    ensures var pair := "first=" + IntToString(n);
            pair != "" && pair[|pair| - 1] != '&'
  {
    var digits := NatToString(if n < 0 then -n else n);
    var pair := "first=" + IntToString(n);
    if n < 0 {
      assert pair == ("first=" + "-") + digits;
    }
    assert pair[|pair| - 1] == digits[|digits| - 1];
  }

  lemma ValuePairEnds(prefix: string, value: string)
    requires prefix != [] && prefix[|prefix| - 1] == '=' && EndsWithoutAmp(value)
    ensures var pair := prefix + value;
            pair != "" && pair[|pair| - 1] != '&'
  {
    var pair := prefix + value;
    if value == [] {
      assert pair == prefix;
    } else {
      assert pair[|pair| - 1] == value[|value| - 1];
    }
  }

  lemma LastOfList(prefix: string, list: seq<string>)
    requires ExpandsCleanly(list) && prefix != []
    ensures var ps := Pairs(prefix, list);
            ps != [] && ps[|ps| - 1] != "" && ps[|ps| - 1][|ps[|ps| - 1]| - 1] != '&'
  {
    var last := list[|list| - 1];
    assert Pairs(prefix, list)[|list| - 1] == prefix + last;
    assert (prefix + last)[|prefix + last| - 1] == last[|last| - 1];
  }

  /** The query of `first = 100` and one game id: `?first=100&game_id=509658`. */
  lemma QueryExample(request: StreamGrabRequest)
    requires request == StreamGrabRequest(1, None, None, Some(["509658"]), Some(100), None, None)
    ensures UrlParams(GrabRequestDict(request)) == "?" + ("first=" + "100") + "&" + ("game_id=" + "509658")
  {
    ExampleIsReady(request);
    QueryIsPairsInOrder(request);
    ExamplePairs(request);
    TwoPairs("first=" + "100", "game_id=" + "509658");
  }

  lemma TwoPairs(a: string, b: string)
    ensures "?" + Interleaved('&', [a, b]) == "?" + a + "&" + b
  {
    assert [a, b][..1] == [a];
  }

  lemma ExampleIsReady(request: StreamGrabRequest)
    requires request == StreamGrabRequest(1, None, None, Some(["509658"]), Some(100), None, None)
    ensures QueryReady(request)
  {
    assert ';' !in "509658";
  }

  lemma ExamplePairs(request: StreamGrabRequest)
    requires request == StreamGrabRequest(1, None, None, Some(["509658"]), Some(100), None, None)
    ensures ExpectedPairs(request) == ["first=" + "100", "game_id=" + "509658"]
  {
    HundredText();
  }

  lemma HundredText()
    ensures IntToString(100) == "100"
  {
    assert NatToString(10) == "10";
  }

  /** A non-null but empty list still yields its parameter, with an empty value. */
  lemma EmptyListYieldsEmptyParam(request: StreamGrabRequest)
    requires request.after.None? && request.before.None? && request.first.None?
    requires request.game_ids == Some([]) && request.user_ids.None? && request.user_logins.None?
    ensures UrlParams(GrabRequestDict(request)) == "?" + "game_id="
  {
    EmptyListQueries(request);
    SingleQuery(GrabRequestDict(request), "game_id=");
  }

  /** A lone query that does not touch '&' at either end is the whole query text. */
  lemma SingleQuery(dict: map<Param, string>, text: string)
    requires Queries(dict) == [text]
    requires text != [] && text[0] != '&' && text[|text| - 1] != '&'
    ensures UrlParams(dict) == "?" + text
  {
    TrimUntouched('&', text);
  }

  /** A request with only an empty game-id list fills only the game-id entry, with "". */
  lemma OnlyGameIdsInDict(request: StreamGrabRequest)
    requires request.after.None? && request.before.None? && request.first.None?
    requires request.game_ids == Some([]) && request.user_ids.None? && request.user_logins.None?
    ensures var dict := GrabRequestDict(request);
            && Lookup(dict, After).None? && Lookup(dict, Before).None? && Lookup(dict, First).None?
            && Lookup(dict, GameIds) == Some("")
            && Lookup(dict, UserIds).None? && Lookup(dict, UserLogins).None?
  {
    GrabRequestDictEntries(request, After);
    GrabRequestDictEntries(request, Before);
    GrabRequestDictEntries(request, First);
    GrabRequestDictEntries(request, GameIds);
    GrabRequestDictEntries(request, UserIds);
    GrabRequestDictEntries(request, UserLogins);
  }

  lemma EmptyListQueries(request: StreamGrabRequest)
    requires request.after.None? && request.before.None? && request.first.None?
    requires request.game_ids == Some([]) && request.user_ids.None? && request.user_logins.None?
    ensures Queries(GrabRequestDict(request)) == ["game_id="]
  {
    var dict := GrabRequestDict(request);
    OnlyGameIdsInDict(request);
    EmptyValueGroup("game_id=");
    var after := OptionalPair("after=", Lookup(dict, After));
    var before := OptionalPair("before=", Lookup(dict, Before));
    var first := OptionalPair("first=", Lookup(dict, First));
    var games := OptionalGroup("game_id=", Lookup(dict, GameIds));
    var users := OptionalGroup("user_id=", Lookup(dict, UserIds));
    var logins := OptionalGroup("user_login=", Lookup(dict, UserLogins));
    assert Queries(dict) == after + before + first + games + users + logins;
    assert after == [] && before == [] && first == [] && users == [] && logins == [];
    OnlyFourthPart(after, before, first, games, users, logins);
  }

  lemma OnlyFourthPart<T>(a: seq<T>, b: seq<T>, c: seq<T>, d: seq<T>, e: seq<T>, f: seq<T>)
    requires a == [] && b == [] && c == [] && e == [] && f == []
    ensures a + b + c + d + e + f == d
  {
    assert a + b + c == [];
  }

  lemma EmptyValueGroup(prefix: string)
    requires prefix != [] && prefix[0] != '&' && prefix[|prefix| - 1] != '&'
    ensures OptionalGroup(prefix, Some("")) == [prefix]
  {
    var pieces := Split(';', "");
    assert pieces == [""];
    var amp := Prefixed(prefix, pieces);
    assert amp == "&" + prefix by {
      assert pieces[..0] == [];
      assert Prefixed(prefix, pieces[..0]) == "";
      assert prefix + pieces[0] == prefix;
      assert amp == "" + "&" + prefix;
    }
    assert TrimStart('&', amp) == prefix by {
      assert amp[1..] == prefix;
    }
    assert TrimEnd('&', prefix) == prefix;
  }

  /** One list's foreach loop: append "&" and the pair per element, then trim '&'. */
  method AppendListParams(prefix: string, values: seq<string>) returns (query: string)
    ensures query == ParamGroup(prefix, values)
  {
    query := "";
    for i := 0 to |values|
      invariant query == Prefixed(prefix, values[..i])
    {
      query := query + "&";
      query := query + (prefix + values[i]);
      assert values[..i + 1][..i] == values[..i];
    }
    assert values[..|values|] == values;
    query := Trim('&', query);
  }

  /** One `if (value != null) queries = [.. queries, $"name={value}"];` step. */
  method AppendPairIfPresent(queries: seq<string>, prefix: string, value: Option<string>) returns (extended: seq<string>)
    ensures extended == queries + OptionalPair(prefix, value)
  {
    extended := queries;
    if value.Some? {
      extended := extended + [prefix + value.value];
    }
  }

  /** One `if (list != null) { split, loop, trim; queries = [.. queries, query]; }` step. */
  method AppendGroupIfPresent(queries: seq<string>, prefix: string, list: Option<string>) returns (extended: seq<string>)
    ensures extended == queries + OptionalGroup(prefix, list)
  {
    extended := queries;
    if list.Some? {
      var values := Split(';', list.value);
      var query := AppendListParams(prefix, values);
      extended := extended + [query];
    }
  }

  /** `CreateURLParams`. */
  method CreateURLParams(dict: map<Param, string>) returns (baseString: string)
    ensures baseString == UrlParams(dict)
  {
    baseString := "?";
    var gameIdList := Lookup(dict, GameIds);
    var userIdList := Lookup(dict, UserIds);
    var userLoginList := Lookup(dict, UserLogins);
    var after := Lookup(dict, After);
    var before := Lookup(dict, Before);
    var first := Lookup(dict, First);
    var queries: seq<string> := [];
    queries := AppendPairIfPresent(queries, "after=", after);
    assert queries == OptionalPair("after=", after);
    queries := AppendPairIfPresent(queries, "before=", before);
    queries := AppendPairIfPresent(queries, "first=", first);
    queries := AppendGroupIfPresent(queries, "game_id=", gameIdList);
    queries := AppendGroupIfPresent(queries, "user_id=", userIdList);
    queries := AppendGroupIfPresent(queries, "user_login=", userLoginList);
    assert queries == Queries(dict);
    var queryString := Interleaved('&', queries);
    baseString := baseString + Trim('&', queryString);
  }

  /** `DeserializeIntoParams`. */
  method DeserializeIntoParams(request: StreamGrabRequest) returns (result: string)
    ensures result == UrlParams(GrabRequestDict(request))
  {
    var dict := DeserializeGrabRequest(request);
    result := CreateURLParams(dict);
  }

  // ---------------------------------------------------------------------------
  // TwitchRefresh branch rule (stream-handler.cs:16-30)
  // ---------------------------------------------------------------------------

  /** What one run of `TwitchRefresh` starts. */
  datatype RefreshAction = Validate | Refresh | Wait

  /** A zero expiry means no token has been validated yet; an expiry at or before `now`
      (Unix milliseconds) means the token must be refreshed; otherwise nothing is done. */
  function RefreshChoice(expiry: int, now: int): (action: RefreshAction)
  {
    if expiry == 0 then Validate
    else if now >= expiry then Refresh
    else Wait
  }

  /** `UtcNow.AddSeconds(expires_in).ToUnixTimeMilliseconds()`, with `now` in milliseconds. */
  function ExpiryAfter(now: int, expiresIn: int): int
  {
    now + expiresIn * 1000
  }

  /** Exactly one of the three branches is taken, and which one depends only on whether the
      expiry is unset and on whether it has passed. */
  lemma RefreshChoiceCases(expiry: int, now: int)
    ensures RefreshChoice(expiry, now) == Validate <==> expiry == 0
    ensures RefreshChoice(expiry, now) == Refresh <==> expiry != 0 && now >= expiry
    ensures RefreshChoice(expiry, now) == Wait <==> expiry != 0 && now < expiry
  {
  }

  /** Once a token with a positive lifetime has been accepted at a time after the epoch, later
      runs leave it alone until its lifetime has passed, and refresh it from then on; they
      never validate again. */
  lemma AcceptedTokenLifetime(now: int, expiresIn: int, later: int)
    requires now >= 0 && expiresIn > 0
    ensures later < ExpiryAfter(now, expiresIn) ==> RefreshChoice(ExpiryAfter(now, expiresIn), later) == Wait
    ensures later >= ExpiryAfter(now, expiresIn) ==> RefreshChoice(ExpiryAfter(now, expiresIn), later) == Refresh
    ensures ExpiryAfter(now, expiresIn) > now
  {
  }

  // ---------------------------------------------------------------------------
  // Token responses and the result of a poll, as the HTTP layer hands them over
  // ---------------------------------------------------------------------------

  /** The body of the validate endpoint: either it has a `status` (the token is invalid) or it
      carries the client id and the remaining lifetime in seconds. */
  datatype ValidationResponse = TokenRejected | TokenAccepted(client_id: string, expires_in: int)

  /** The answer of the token endpoint: success with new tokens and lifetime, or any failure. */
  datatype RefreshResponse = RefreshFailed | Refreshed(access_token: string, refresh_token: string, expires_in: int)

  /** The answer of the streams endpoint: success with the parsed streams, or an error whose
      body may carry a `message`. */
  datatype GrabResponse = GrabSucceeded(streams: StreamResponse) | GrabFailed(message: Option<string>)

  /** The message that makes `HandleGrabRequest` start a token refresh. */
  const TokenMismatch := "Client ID and OAuth token do not match"

  /** The request URL of one poll. */
  const StreamsEndpoint := "https://api.twitch.tv/helix/streams"

  /** What one tick of `StartHandling` did. */
  datatype TickOutcome =
    | Idle
    | Broadcast(url: string, hash: string, streams: StreamResponse)
    | RefreshStarted(url: string)
    | ErrorLogged(url: string)

  /** How `HandleGrabRequest` reacts to the answer of one poll: a success raises
      `StreamsGrabbed` with the request's hash, the token-mismatch message starts a refresh,
      anything else is logged. */
  function GrabOutcome(url: string, hash: string, response: GrabResponse): (outcome: TickOutcome)
    ensures outcome != Idle && outcome.url == url
    ensures outcome.Broadcast? <==> response.GrabSucceeded?
    ensures outcome.Broadcast? ==> outcome.hash == hash && outcome.streams == response.streams
    ensures outcome.RefreshStarted? <==> response == GrabFailed(Some(TokenMismatch))
  {
    match response
    case GrabSucceeded(streams) => Broadcast(url, hash, streams)
    case GrabFailed(message) =>
      if message == Some(TokenMismatch) then RefreshStarted(url) else ErrorLogged(url)
  }

  // ---------------------------------------------------------------------------
  // The handler's state: request queue, token expiry and the refresh flag
  // ---------------------------------------------------------------------------

  class StreamHandler {
    /** `queue`: the pending poll requests. */
    const queue: UniqueQueue
    /** `twitch_token_expiry`, Unix milliseconds; 0 until the first validation. */
    var expiry: int
    /** `isRefreshing`: set for the whole of a token refresh. */
    var isRefreshing: bool
    /** The mutable part of the handler's configuration. */
    var clientId: string
    var oauthToken: string
    var refreshToken: string

    ghost predicate Valid()
      reads this, queue
    {
      queue.Valid()
    }

    constructor (clientId: string, oauthToken: string, refreshToken: string)
      ensures Valid() && fresh(queue)
      ensures queue.queue == [] && expiry == 0 && !isRefreshing
      ensures this.clientId == clientId && this.oauthToken == oauthToken && this.refreshToken == refreshToken
    {
      queue := new UniqueQueue();
      expiry := 0;
      isRefreshing := false;
      this.clientId := clientId;
      this.oauthToken := oauthToken;
      this.refreshToken := refreshToken;
    }

    /** `AddRequest`: enqueue and hand back the request's hash. */
    method AddRequest(request: StreamGrabRequest) returns (hash: string)
      requires Valid()
      modifies queue
      ensures Valid()
      ensures hash == Fingerprint(request)
      ensures queue.queue == if old(request in queue.members) then old(queue.queue) else old(queue.queue) + [request]
    {
      hash := queue.Enqueue(request);
    }

    /** `HasRequestForGuild`: whether some queued request belongs to the guild. */
    method HasRequestForGuild(guildId: ULong) returns (b: bool)
      requires Valid()
      ensures b <==> exists i :: 0 <= i < |queue.queue| && queue.queue[i].guild_id == guildId
    {
      b := queue.ContainsMatching((item: StreamGrabRequest) => item.guild_id == guildId);
    }

    /** One run of `TwitchRefresh` at time `now`: a refresh is started at once, a validation
        is left to complete when its answer arrives. */
    method TwitchRefresh(now: int) returns (action: RefreshAction)
      modifies this
      ensures action == RefreshChoice(old(expiry), now)
      ensures isRefreshing == (old(isRefreshing) || action == Refresh)
      ensures expiry == old(expiry) && clientId == old(clientId)
      ensures oauthToken == old(oauthToken) && refreshToken == old(refreshToken)
    {
      if expiry == 0 {
        action := Validate;
      } else if now >= expiry {
        action := Refresh;
        BeginRefresh();
      } else {
        action := Wait;
      }
    }

    /** The rest of `DoValidation` once the validate endpoint has answered at time `now`: a
        rejected token starts a refresh; an accepted one updates the client id and the expiry. */
    method CompleteValidation(response: ValidationResponse, now: int)
      modifies this
      ensures response.TokenRejected? ==>
                isRefreshing && expiry == old(expiry) && clientId == old(clientId)
      ensures response.TokenAccepted? ==>
                isRefreshing == old(isRefreshing) && clientId == response.client_id
                && expiry == ExpiryAfter(now, response.expires_in)
      ensures oauthToken == old(oauthToken) && refreshToken == old(refreshToken)
    {
      match response
      case TokenRejected =>
        BeginRefresh();
      case TokenAccepted(client, expiresIn) =>
        if client != clientId {
          clientId := client;
        }
        expiry := ExpiryAfter(now, expiresIn);
    }

    /** The start of `DoRefresh`: the flag goes up before the request is sent. */
    method BeginRefresh()
      modifies this
      ensures isRefreshing
      ensures expiry == old(expiry) && clientId == old(clientId)
      ensures oauthToken == old(oauthToken) && refreshToken == old(refreshToken)
    {
      isRefreshing := true;
    }

    /** The end of `DoRefresh` once the token endpoint has answered at time `now`: new tokens
        and expiry on success, nothing on failure, and the flag comes down either way. */
    method CompleteRefresh(response: RefreshResponse, now: int)
      modifies this
      ensures !isRefreshing && clientId == old(clientId)
      ensures response.Refreshed? ==>
                oauthToken == response.access_token && refreshToken == response.refresh_token
                && expiry == ExpiryAfter(now, response.expires_in)
      ensures response.RefreshFailed? ==>
                oauthToken == old(oauthToken) && refreshToken == old(refreshToken) && expiry == old(expiry)
    {
      if response.Refreshed? {
        oauthToken := response.access_token;
        refreshToken := response.refresh_token;
        expiry := ExpiryAfter(now, response.expires_in);
      }
      isRefreshing := false;
    }

    /** One iteration of `StartHandling` after its delay: when the queue is non-empty and no
        refresh is running, the oldest request is taken off the queue, polled through `fetch`
        and its answer handled; otherwise nothing happens. */
    method Tick(fetch: string -> GrabResponse) returns (outcome: TickOutcome)
      requires Valid()
      modifies this, queue
      ensures Valid()
      ensures old(queue.queue) == [] || old(isRefreshing) ==>
                outcome == Idle && queue.queue == old(queue.queue) && isRefreshing == old(isRefreshing)
      ensures old(queue.queue) != [] && !old(isRefreshing) ==>
                var front := old(queue.queue)[0];
                var url := StreamsEndpoint + UrlParams(GrabRequestDict(front));
                && outcome == GrabOutcome(url, Fingerprint(front), fetch(url))
                && queue.queue == old(queue.queue)[1..]
                && isRefreshing == outcome.RefreshStarted?
      ensures expiry == old(expiry) && clientId == old(clientId)
      ensures oauthToken == old(oauthToken) && refreshToken == old(refreshToken)
    {
      if queue.Count() != 0 && !isRefreshing {
        DistinctElementsCount(queue.queue);
        var dequeued := queue.Dequeue();
        var item := dequeued.value;
        var query := DeserializeIntoParams(item.item);
        var url := StreamsEndpoint + query;
        var response := fetch(url);
        outcome := GrabOutcome(url, item.hash, response);
        if outcome.RefreshStarted? {
          BeginRefresh();
        }
      } else {
        DistinctElementsCount(queue.queue);
        outcome := Idle;
      }
    }
  }

  /** A refresh holds back the dispatch: a tick while the flag is up leaves the request
      queued, and the first tick after the refresh completes polls it. */
  method RefreshHoldsDispatch(request: StreamGrabRequest, fetch: string -> GrabResponse, now: int)
    returns (held: TickOutcome, released: TickOutcome)
    ensures held == Idle
    ensures var url := StreamsEndpoint + UrlParams(GrabRequestDict(request));
            released == GrabOutcome(url, Fingerprint(request), fetch(url))
  {
    var handler := new StreamHandler("client", "token", "refresh");
    var _ := handler.AddRequest(request);
    handler.BeginRefresh();
    held := handler.Tick(fetch);
    handler.CompleteRefresh(RefreshFailed, now);
    released := handler.Tick(fetch);
  }
}
