/** The navigation index over the body registry: case-insensitive
    substring suggestions and exact-name lookup. */
module Search {
  import opened Scene
  import opened JsText

  /** Suggestions are capped at ten. */
  const MaxSuggestions: nat := 10

  /** A registry body offered for the already lower-cased query `lowerQuery`:
      it has a truthy name whose lower-cased form contains the query. */
  predicate Matches(d: UserData, lowerQuery: string)
  {
    Named(d) && Includes(ToLower(d.name.value), lowerQuery)
  }

  /** The names of all matching bodies, in registry order. */
  function AllMatches(registry: seq<UserData>, lowerQuery: string): (r: seq<string>)
    ensures |r| <= |registry|
  {
    if registry == [] then []
    else (if Matches(registry[0], lowerQuery) then [registry[0].name.value] else [])
         + AllMatches(registry[1..], lowerQuery)
  }

  /** Matching distributes over concatenation of registries: the matches of
      bodies registered earlier come first, in their own order. Together with
      the single-body case of `AllMatchesOne` this determines `AllMatches`. */
  lemma {:induction false} AllMatchesAppend(a: seq<UserData>, b: seq<UserData>, lowerQuery: string)
    ensures AllMatches(a + b, lowerQuery) == AllMatches(a, lowerQuery) + AllMatches(b, lowerQuery)
  {
    if a != [] {
      assert (a + b)[1..] == a[1..] + b;
      AllMatchesAppend(a[1..], b, lowerQuery);
    } else {
      assert a + b == b;
    }
  }

  lemma AllMatchesOne(d: UserData, lowerQuery: string)
    ensures AllMatches([d], lowerQuery) == if Matches(d, lowerQuery) then [d.name.value] else []
  {
    assert [d][1..] == [];
  }

  /** A name is a match exactly when some registry body with that name matches. */
  lemma {:induction false} AllMatchesMembers(registry: seq<UserData>, lowerQuery: string, n: string)
    ensures n in AllMatches(registry, lowerQuery) <==>
            exists j :: 0 <= j < |registry| && Matches(registry[j], lowerQuery) && registry[j].name.value == n
  {
    if registry != [] {
      AllMatchesMembers(registry[1..], lowerQuery, n);
      if exists j :: 0 <= j < |registry[1..]| && Matches(registry[1..][j], lowerQuery) && registry[1..][j].name.value == n {
        var j :| 0 <= j < |registry[1..]| && Matches(registry[1..][j], lowerQuery) && registry[1..][j].name.value == n;
        assert registry[j + 1] == registry[1..][j];
      }
      if exists j :: 0 <= j < |registry| && Matches(registry[j], lowerQuery) && registry[j].name.value == n {
        var j :| 0 <= j < |registry| && Matches(registry[j], lowerQuery) && registry[j].name.value == n;
        if j > 0 { assert registry[1..][j - 1] == registry[j]; }
      }
    }
  }

  /** The suggestion list of `handleSearch` for `query`. */
  function Suggestions(registry: seq<UserData>, query: string): (r: seq<string>)
    ensures query == [] ==> r == []
    ensures |r| <= MaxSuggestions
  {
    if |query| > 0 then
      var all := AllMatches(registry, ToLower(query));
      if |all| <= MaxSuggestions then all else all[..MaxSuggestions]
    else []
  }

  /** A non-empty query yields the first (at most ten) matches in registry
      order, and all of them when there are no more than ten. */
  lemma SuggestionsArePrefix(registry: seq<UserData>, query: string)
    requires query != []
    ensures var all := AllMatches(registry, ToLower(query));
            var r := Suggestions(registry, query);
            r == all[..|r|] && |r| == if |all| < MaxSuggestions then |all| else MaxSuggestions
  {
  }

  /** Every suggestion is the truthy name of a registry body whose lower-cased
      name contains the lower-cased query. */
  lemma {:induction false} SuggestionsSound(registry: seq<UserData>, query: string, n: string)
    requires n in Suggestions(registry, query)
    ensures exists j :: 0 <= j < |registry| && Named(registry[j]) && registry[j].name.value == n &&
              Includes(ToLower(n), ToLower(query))
  {
    var all := AllMatches(registry, ToLower(query));
    assert n in all;
    AllMatchesMembers(registry, ToLower(query), n);
  }

  /** Every matching body is suggested unless ten matching bodies come
      before it in the registry. */
  lemma SuggestionsComplete(registry: seq<UserData>, query: string, j: nat)
    requires query != [] && j < |registry|
    requires Matches(registry[j], ToLower(query))
    requires |AllMatches(registry[..j], ToLower(query))| < MaxSuggestions
    ensures registry[j].name.value in Suggestions(registry, query)
  {
    var lq := ToLower(query);
    var d, rest := registry[j], registry[j + 1..];
    assert registry == registry[..j] + ([d] + rest);
    AllMatchesAppend(registry[..j], [d] + rest, lq);
    AllMatchesAppend([d], rest, lq);
    AllMatchesOne(d, lq);
    var before := AllMatches(registry[..j], lq);
    var all := AllMatches(registry, lq);
    assert all == before + ([d.name.value] + AllMatches(rest, lq));
    var k := |before|;
    assert all[k] == d.name.value;
    var r := Suggestions(registry, query);
    assert r == if |all| <= MaxSuggestions then all else all[..MaxSuggestions];
    assert r[k] == all[k];
  }

  /** Registering more bodies never displaces earlier suggestions: the names
      suggested before an append are a prefix of those suggested after. */
  lemma AppendKeepsSuggestions(a: seq<UserData>, b: seq<UserData>, query: string)
    ensures var before, after := Suggestions(a, query), Suggestions(a + b, query);
            |before| <= |after| && after[..|before|] == before
  {
    if query != [] {
      AllMatchesAppend(a, b, ToLower(query));
    }
  }

  /** `celestialBodiesRef.current.find(obj => obj.userData.name === name)`:
      the index of the first body whose name is exactly `name`
      (case-sensitive), or None if there is none. */
  function FindByName(registry: seq<UserData>, name: string): (r: Option<nat>)
    ensures r.Some? ==> r.value < |registry| && registry[r.value].name == Some(name)
    ensures r.Some? ==> forall j :: 0 <= j < r.value ==> registry[j].name != Some(name)
    ensures r.None? ==> forall j :: 0 <= j < |registry| ==> registry[j].name != Some(name)
  {
    if registry == [] then None
    else if registry[0].name == Some(name) then Some(0)
    else match FindByName(registry[1..], name)
      case None => None
      case Some(k) => Some(k + 1)
  }

  /** Every one of `names` is the name of some registered body. */
  predicate AllFound(registry: seq<UserData>, names: seq<string>)
  {
    forall k :: 0 <= k < |names| ==> FindByName(registry, names[k]).Some?
  }

  /** Registering more bodies never changes where a name that is already
      found leads: the first body with that name stays the first. */
  lemma FindByNameAppend(a: seq<UserData>, b: seq<UserData>, name: string)
    requires FindByName(a, name).Some?
    ensures FindByName(a + b, name) == FindByName(a, name)
  {
    var k := FindByName(a, name).value;
    assert (a + b)[k] == a[k];
    assert forall j :: 0 <= j < k ==> (a + b)[j] == a[j];
  }

  /** Confirming a search navigates to the first suggestion: when the list
      is not empty, the lookup of its first entry finds a body, and that
      body matches the query. */
  lemma FirstSuggestionIsFound(registry: seq<UserData>, query: string)
    requires Suggestions(registry, query) != []
    ensures var target := FindByName(registry, Suggestions(registry, query)[0]);
            target.Some? && Matches(registry[target.value], ToLower(query))
  {
    var n := Suggestions(registry, query)[0];
    SuggestionsSound(registry, query, n);
    var j :| 0 <= j < |registry| && Named(registry[j]) && registry[j].name.value == n &&
              Includes(ToLower(n), ToLower(query));
    assert registry[j].name == Some(n);
  }
}
