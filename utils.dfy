/** classes/utils.cs: `Join`, the canonical input of both `CreateHash` overloads,
    and the .NET string primitives the core leans on (`Trim(char)`, `Split(char)`,
    `ToString()` of an integer). */
module Utils {
  import opened Common
  import opened Structs

  // ---------------------------------------------------------------------------
  // String.Trim(char), String.Split(char), Int32/UInt64.ToString()
  // ---------------------------------------------------------------------------

  /** `s.TrimStart(c)`: drop every leading `c`. */
  function TrimStart(c: char, s: string): (r: string)
    ensures |r| <= |s| && r == s[|s| - |r|..]
    ensures r == [] || r[0] != c
    ensures forall i :: 0 <= i < |s| - |r| ==> s[i] == c
  {
    if s != [] && s[0] == c then TrimStart(c, s[1..]) else s
  }

  /** `s.TrimEnd(c)`: drop every trailing `c`. */
  function TrimEnd(c: char, s: string): (r: string)
    ensures |r| <= |s| && r == s[..|r|]
    ensures r == [] || r[|r| - 1] != c
    ensures forall i :: |r| <= i < |s| ==> s[i] == c
  {
    if s != [] && s[|s| - 1] == c then TrimEnd(c, s[..|s| - 1]) else s
  }

  /** `s.Trim(c)`: drop `c` from both ends; what is left neither begins nor ends with `c`. */
  function Trim(c: char, s: string): (r: string)
    ensures |r| <= |s|
    ensures r == [] || (r[0] != c && r[|r| - 1] != c)
  {
    TrimEnd(c, TrimStart(c, s))
  }

  /** Trimming leaves a text that has `c` at neither end alone. */
  lemma {:induction false} TrimUntouched(c: char, s: string)
    requires s != [] ==> s[0] != c && s[|s| - 1] != c
    ensures Trim(c, s) == s
  {
  }

  /** Position of the first `c` in `s`. */
  function IndexOf(c: char, s: string): (i: nat)
    requires c in s
    ensures i < |s| && s[i] == c && c !in s[..i]
  {
    if s[0] == c then 0
    else
      assert c in s[1..] by { var k :| 0 <= k < |s| && s[k] == c; assert s[1..][k - 1] == c; }
      var j := IndexOf(c, s[1..]);
      assert s[..j + 1] == [s[0]] + s[1..][..j];
      j + 1
  }

  /** `s.Split(c)`: every piece between separators, empty pieces included,
      so an empty text splits into one empty piece. */
  function Split(c: char, s: string): (parts: seq<string>)
    ensures |parts| >= 1
    ensures forall k :: 0 <= k < |parts| ==> c !in parts[k]
    decreases |s|
  {
    if c !in s then [s]
    else
      var i := IndexOf(c, s);
      [s[..i]] + Split(c, s[i + 1..])
  }

  function DigitChar(d: nat): char
    requires d < 10
  {
    ('0' as int + d) as char
  }

  /** Decimal text of a natural number, as `UInt64.ToString()` writes it. */
  function NatToString(n: nat): (s: string)
    ensures |s| >= 1 && (n >= 10 ==> |s| >= 2) && (n < 10 ==> |s| == 1)
    ensures s[|s| - 1] == DigitChar(n % 10)
  {
    if n < 10 then [DigitChar(n)] else NatToString(n / 10) + [DigitChar(n % 10)]
  }

  /** Different numbers have different decimal texts. */
  lemma {:induction false} NatToStringInjective(a: nat, b: nat)
    requires NatToString(a) == NatToString(b)
    ensures a == b
  {
    var sa, sb := NatToString(a), NatToString(b);
    assert DigitChar(a % 10) == DigitChar(b % 10);
    if a >= 10 && b >= 10 {
      assert sa[..|sa| - 1] == NatToString(a / 10);
      assert sb[..|sb| - 1] == NatToString(b / 10);
      NatToStringInjective(a / 10, b / 10);
    }
  }

  /** Decimal text of an integer, as `Int32.ToString()` writes it. */
  function IntToString(n: int): string
  {
    if n < 0 then "-" + NatToString(-n) else NatToString(n)
  }

  // ---------------------------------------------------------------------------
  // Join (utils.cs:9-19)
  // ---------------------------------------------------------------------------

  /** What `Join`'s loop has accumulated after `items`: each item followed by `sep`. */
  function Terminated(sep: char, items: seq<string>): string
  {
    if items == [] then "" else Terminated(sep, items[..|items| - 1]) + items[|items| - 1] + [sep]
  }

  /** The value `Join` returns: the items, each followed by `sep`, with `sep` trimmed from both ends. */
  function Joined(sep: char, items: seq<string>): (r: string)
    ensures items == [] ==> r == ""
    ensures r == [] || (r[0] != sep && r[|r| - 1] != sep)
  {
    Trim(sep, Terminated(sep, items))
  }

  /** `Utils.Join`: append item and separator in turn, then trim the separator. */
  method Join(sep: char, items: seq<string>) returns (output: string)
    ensures output == Joined(sep, items)
  {
    output := "";
    for i := 0 to |items|
      invariant output == Terminated(sep, items[..i])
    {
      output := output + items[i];
      output := output + [sep];
      assert items[..i + 1][..i] == items[..i];
    }
    assert items[..|items|] == items;
    output := Trim(sep, output);
  }

  /** The items with one `sep` between neighbours, none at the ends. */
  function Interleaved(sep: char, items: seq<string>): string
  {
    if items == [] then ""
    else if |items| == 1 then items[0]
    else Interleaved(sep, items[..|items| - 1]) + [sep] + items[|items| - 1]
  }

  /** The loop's text is the interleaving followed by one separator. */
  lemma {:induction false} TerminatedIsInterleavedPlusSep(sep: char, items: seq<string>)
    requires items != []
    ensures Terminated(sep, items) == Interleaved(sep, items) + [sep]
  {
    if |items| > 1 {
      var init := items[..|items| - 1];
      TerminatedIsInterleavedPlusSep(sep, init);
    } else {
      assert items[..0] == [];
    }
  }

  /** First character of an interleaving whose first item is non-empty. */
  lemma {:induction false} InterleavedStartsWithFirst(sep: char, items: seq<string>)
    requires items != [] && items[0] != ""
    ensures Interleaved(sep, items) != [] && Interleaved(sep, items)[0] == items[0][0]
  {
    if |items| > 1 {
      var init := items[..|items| - 1];
      assert init[0] == items[0];
      InterleavedStartsWithFirst(sep, init);
    }
  }

  /** Last character of an interleaving whose last item is non-empty. */
  lemma InterleavedEndsWithLast(sep: char, items: seq<string>)
    requires items != [] && items[|items| - 1] != ""
    ensures var v := Interleaved(sep, items);
            var last := items[|items| - 1];
            v != [] && v[|v| - 1] == last[|last| - 1]
  {
  }

  /** Interleaving two non-empty runs puts one separator between their interleavings. */
  lemma {:induction false} InterleavedAppend(sep: char, a: seq<string>, b: seq<string>)
    requires a != [] && b != []
    ensures Interleaved(sep, a + b) == Interleaved(sep, a) + [sep] + Interleaved(sep, b)
    decreases |b|
  {
    var ab := a + b;
    assert ab[..|ab| - 1] == a + b[..|b| - 1];
    if |b| > 1 {
      InterleavedAppend(sep, a, b[..|b| - 1]);
    } else {
      assert ab[..|ab| - 1] == a;
    }
  }

  /** When the first and last items are non-empty and no item holds `sep`,
      `Join` gives exactly the interleaving: the trim only removes the final separator. */
  lemma JoinedIsInterleaved(sep: char, items: seq<string>)
    requires items != [] && items[0] != "" && items[|items| - 1] != ""
    requires forall k :: 0 <= k < |items| ==> sep !in items[k]
    ensures Joined(sep, items) == Interleaved(sep, items)
  {
    var t := Terminated(sep, items);
    var v := Interleaved(sep, items);
    TerminatedIsInterleavedPlusSep(sep, items);
    InterleavedStartsWithFirst(sep, items);
    assert v[0] != sep by { assert items[0][0] in items[0]; }
    assert TrimStart(sep, t) == t;
    assert t[..|t| - 1] == v;
    var last := items[|items| - 1];
    assert v[|v| - 1] == last[|last| - 1] by {
      if |items| > 1 {
        assert v == Interleaved(sep, items[..|items| - 1]) + [sep] + last;
      }
    }
    assert last[|last| - 1] in last;
    assert TrimEnd(sep, t) == TrimEnd(sep, v);
    assert TrimEnd(sep, v) == v;
  }

  /** `Split` undoes the interleaving of items that do not contain the separator. */
  lemma {:induction false} SplitInterleaved(sep: char, items: seq<string>)
    requires items != []
    requires forall k :: 0 <= k < |items| ==> sep !in items[k]
    ensures Split(sep, Interleaved(sep, items)) == items
  {
    if |items| > 1 {
      var init := items[..|items| - 1];
      var last := items[|items| - 1];
      SplitInterleaved(sep, init);
      SplitAppend(sep, Interleaved(sep, init), last);
      assert init + [last] == items;
    }
  }

  /** The first separator of `s + t` is the first of `s` when `s` has one. */
  lemma IndexOfPrefix(c: char, s: string, t: string)
    requires c in s
    ensures c in s + t && IndexOf(c, s + t) == IndexOf(c, s)
  {
    var u := s + t;
    var j := IndexOf(c, s);
    assert u[j] == c;
    var i := IndexOf(c, u);
  }

  /** Without a separator in `s`, the first separator of `s + [c] + t` is the one after `s`. */
  lemma IndexOfAfter(c: char, s: string, t: string)
    requires c !in s
    ensures c in s + [c] + t && IndexOf(c, s + [c] + t) == |s|
  {
    var u := s + [c] + t;
    assert u[|s|] == c;
    var i := IndexOf(c, u);
  }

  /** Appending one more separated piece adds one more part at the end of the split. */
  lemma {:induction false} SplitAppend(sep: char, s: string, last: string)
    requires sep !in last
    ensures Split(sep, s + [sep] + last) == Split(sep, s) + [last]
    decreases |s|
  {
    var u := s + [sep] + last;
    if sep in s {
      var j := IndexOf(sep, s);
      IndexOfPrefix(sep, s, [sep] + last);
      assert s + ([sep] + last) == u;
      assert u[..j] == s[..j];
      assert u[j + 1..] == s[j + 1..] + [sep] + last;
      SplitAppend(sep, s[j + 1..], last);
    } else {
      IndexOfAfter(sep, s, last);
      assert u[..|s|] == s;
      assert u[|s| + 1..] == last;
    }
  }

  /** Round trip: splitting the joined items on the separator gives the items back,
      provided none holds the separator and the first and last are non-empty. */
  lemma SplitJoinRoundTrip(sep: char, items: seq<string>)
    requires items != [] && items[0] != "" && items[|items| - 1] != ""
    requires forall k :: 0 <= k < |items| ==> sep !in items[k]
    ensures Split(sep, Joined(sep, items)) == items
  {
    JoinedIsInterleaved(sep, items);
    SplitInterleaved(sep, items);
  }

  /** An empty item in front is lost: the trim eats its separator. */
  lemma {:induction false} JoinDropsLeadingEmpty(sep: char, items: seq<string>)
    ensures Joined(sep, [""] + items) == Joined(sep, items)
  {
    TerminatedConsEmpty(sep, items);
  }

  lemma {:induction false} TerminatedConsEmpty(sep: char, items: seq<string>)
    ensures Terminated(sep, [""] + items) == [sep] + Terminated(sep, items)
  {
    if items != [] {
      var init := items[..|items| - 1];
      assert ([""] + items)[..|items|] == [""] + init;
      TerminatedConsEmpty(sep, init);
    }
  }

  /** An empty item at the end is lost as well. */
  lemma {:induction false} JoinDropsTrailingEmpty(sep: char, items: seq<string>)
    ensures Joined(sep, items + [""]) == Joined(sep, items)
  {
    var t := Terminated(sep, items);
    assert (items + [""])[..|items|] == items;
    assert Terminated(sep, items + [""]) == t + [sep];
    TrimStartAppend(sep, t);
  }

  lemma {:induction false} TrimStartAppend(c: char, t: string)
    ensures TrimEnd(c, TrimStart(c, t + [c])) == TrimEnd(c, TrimStart(c, t))
    decreases |t|
  {
    if t != [] && t[0] == c {
      assert (t + [c])[1..] == t[1..] + [c];
      TrimStartAppend(c, t[1..]);
    } else if t != [] {
      assert TrimStart(c, t + [c]) == t + [c];
      assert (t + [c])[..|t|] == t;
    }
  }

  /** A non-null but empty list still joins to the empty text, which splits into one empty piece. */
  lemma EmptyListSplitsToOneEmptyPiece(sep: char)
    ensures Split(sep, Joined(sep, [])) == [""]
  {
  }

  // ---------------------------------------------------------------------------
  // CreateHash (utils.cs:21-48)
  // ---------------------------------------------------------------------------

  /** `$"{label}:{value}"` when the field is present; nothing when it is null. */
  function Labelled(prefix: string, value: Option<string>): string
  {
    if value.Some? then prefix + value.value else ""
  }

  function JoinedList(list: Option<seq<string>>): Option<string>
  {
    if list.Some? then Some(Joined(';', list.value)) else None
  }

  function FirstText(first: Option<int>): Option<string>
  {
    if first.Some? then Some(IntToString(first.value)) else None
  }

  /** The text the request overload of `CreateHash` digests: the present fields, each with
      its label, in the order after, before, first, game_ids, user_ids, user_logins. */
  function CanonicalInput(item: StreamGrabRequest): string
  {
    Labelled("after:", item.after)
    + Labelled("before:", item.before)
    + Labelled("first:", FirstText(item.first))
    + Labelled("game_ids:", JoinedList(item.game_ids))
    + Labelled("user_ids:", JoinedList(item.user_ids))
    + Labelled("user_logins:", JoinedList(item.user_logins))
  }

  /** The digest of a canonical input. The source computes an MD5 digest and then calls
      `ToString()` on the byte array (see `DotNetDigest`); the evidently intended value is
      a text that identifies the input, and the model uses the input itself for it. */
  function Digest(input: string): string
  {
    input
  }

  /** Two inputs share a digest exactly when they are the same input. */
  lemma DigestIdentifiesInput(a: string, b: string)
    ensures Digest(a) == Digest(b) <==> a == b
  {
  }

  /** `byte[].ToString()` as .NET runs it: `Object.ToString` gives the type name,
      whatever bytes the MD5 digest produced. */
  function DotNetDigest(input: string): string
  {
    "System.Byte[]"
  }

  /** As written, two requests that differ in every filter field still get the same fingerprint. */
  lemma DotNetDigestCollides()
    ensures var a := StreamGrabRequest(1, None, None, Some(["1"]), None, None, None);
            var b := StreamGrabRequest(1, Some(["1"]), None, None, None, None, None);
            CanonicalInput(a) != CanonicalInput(b)
            && DotNetDigest(CanonicalInput(a)) == DotNetDigest(CanonicalInput(b))
  {
    var a := StreamGrabRequest(1, None, None, Some(["1"]), None, None, None);
    var b := StreamGrabRequest(1, Some(["1"]), None, None, None, None, None);
    assert CanonicalInput(a)[0] == 'g';
    assert CanonicalInput(b)[0] == 'u';
  }

  /** Fingerprint of a request (the request overload of `CreateHash`). */
  function Fingerprint(item: StreamGrabRequest): string
  {
    Digest(CanonicalInput(item))
  }

  /** Fingerprint of a list of names (the array overload of `CreateHash`). */
  function NamesFingerprint(items: seq<string>): string
  {
    Digest(Joined(';', items))
  }

  /** `guild_id` never reaches the canonical input: requests that differ only in the guild
      share their fingerprint. */
  lemma FingerprintIgnoresGuild(item: StreamGrabRequest, guild: ULong)
    ensures Fingerprint(item.(guild_id := guild)) == Fingerprint(item)
  {
  }

  /** Two requests share a fingerprint exactly when their canonical inputs agree. */
  lemma FingerprintMatchesCanonicalInput(a: StreamGrabRequest, b: StreamGrabRequest)
    ensures Fingerprint(a) == Fingerprint(b) <==> CanonicalInput(a) == CanonicalInput(b)
  {
    DigestIdentifiesInput(CanonicalInput(a), CanonicalInput(b));
  }

  /** `CreateHash(string[])`: digest of the names joined with ';'. */
  method CreateHashOfNames(items: seq<string>) returns (hash: string)
    ensures hash == NamesFingerprint(items)
  {
    var inputString := Join(';', items);
    hash := Digest(inputString);
  }

  /** One `if (field != null) inputString += $"name:{field}";` step of `CreateHash`. */
  method AppendIfPresent(inputString: string, prefix: string, value: Option<string>) returns (extended: string)
    ensures extended == inputString + Labelled(prefix, value)
  {
    extended := inputString;
    if value.Some? {
      extended := extended + (prefix + value.value);
    }
  }

  /** `Join(';', list)` for a list that may be null. */
  method JoinIfPresent(list: Option<seq<string>>) returns (joined: Option<string>)
    ensures joined == JoinedList(list)
  {
    joined := None;
    if list.Some? {
      var text := Join(';', list.value);
      joined := Some(text);
    }
  }

  /** `CreateHash(StreamGrabRequest)`: the canonical input is built by successive appends. */
  method CreateHash(item: StreamGrabRequest) returns (hash: string)
    ensures hash == Fingerprint(item)
  {
    var inputString := "";
    inputString := AppendIfPresent(inputString, "after:", item.after);
    assert inputString == Labelled("after:", item.after);
    inputString := AppendIfPresent(inputString, "before:", item.before);
    inputString := AppendIfPresent(inputString, "first:", FirstText(item.first));
    var gameIds := JoinIfPresent(item.game_ids);
    inputString := AppendIfPresent(inputString, "game_ids:", gameIds);
    var userIds := JoinIfPresent(item.user_ids);
    inputString := AppendIfPresent(inputString, "user_ids:", userIds);
    var userLogins := JoinIfPresent(item.user_logins);
    inputString := AppendIfPresent(inputString, "user_logins:", userLogins);
    hash := Digest(inputString);
  }
}
