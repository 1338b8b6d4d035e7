/**
 * The hat token map: tokens keyed by hat style and character, one token list per
 * document (registered with the range updater so that token ranges follow edits),
 * and a snapshot of the map taken at the start of each spoken phrase, driven by the
 * version of the "pre-phrase" signal.
 */
module NavigationMap {
  import opened Wrappers
  import opened Strings
  import opened Geometry
  import opened Descriptors

  /** A decorated token: the editor and document it lies in, its range and its text. */
  datatype Token = Token(editor: EditorId, documentUri: string, range: Range, text: string)

  /** The map key of a hat: the style name, ".", then the character. */
  function GetKey(hatStyle: HatStyleName, character: string): (key: string)
    ensures |key| == |StyleName(hatStyle)| + 1 + |character|
    ensures key[..|StyleName(hatStyle)|] == StyleName(hatStyle)
    ensures key[|StyleName(hatStyle)|] == '.'
  {
    StyleName(hatStyle) + "." + character
  }

  /**
   * Reads a key back into style text and character: the first two "."-separated
   * pieces, an empty second piece standing for the character ".". A key without
   * "." has no second piece, and reading its length fails.
   */
  function SplitKey(key: string): (r: Result<(string, string)>)
    ensures r.Err? <==> '.' !in key
    ensures r.Ok? ==> '.' !in r.value.0 && |r.value.1| > 0
  {
    var pieces := Split(key, '.');
    if '.' !in key then
      // `split` gives the key alone, and the missing second piece has no length
      Err(MissingValue)
    else
      assert |pieces| >= 2 by {
        var i := IndexOf(key, '.').value;
        assert pieces == [key[..i]] + Split(key[i + 1..], '.');
      }
      Ok((pieces[0], if pieces[1] == "" then "." else pieces[1]))
  }

  /**
   * A key made from a style and a single character reads back as that style's name
   * and that character, the character "." included, and the style name parses back
   * to the style.
   */
  lemma KeyRoundTrip(hatStyle: HatStyleName, character: string)
    requires |character| == 1
    ensures SplitKey(GetKey(hatStyle, character)) == Ok((StyleName(hatStyle), character))
    ensures ParseStyleName(SplitKey(GetKey(hatStyle, character)).value.0) == Some(hatStyle)
  {
    var name := StyleName(hatStyle);
    StyleNameRoundTrip(hatStyle);
    SplitFirstPiece(name, character, '.');
    assert GetKey(hatStyle, character) == name + ['.'] + character;
    if character == "." {
      SplitFirstPiece("", "", '.');
      assert character == "" + ['.'] + "";
      SplitWithoutSeparator("", '.');
    } else {
      assert '.' !in character;
      SplitWithoutSeparator(character, '.');
    }
  }

  /** Distinct (style, character) pairs with single characters never share a key. */
  lemma KeysDistinct(h1: HatStyleName, c1: string, h2: HatStyleName, c2: string)
    requires |c1| == 1 && |c2| == 1
    requires GetKey(h1, c1) == GetKey(h2, c2)
    ensures h1 == h2 && c1 == c2
  {
    KeyRoundTrip(h1, c1);
    KeyRoundTrip(h2, c2);
  }

  /**
   * One map of hats to tokens. `documentTokenLists` holds the tokens added for each
   * document; `registrations` records, in order, every document whose token list was
   * registered with the range updater, and `deregistered` every deregistration
   * performed. `epochStart` marks where the registrations of the current token
   * lists begin.
   */
  class IndividualHatMap {
    var tokens: map<string, Token>
    var documentTokenLists: map<string, seq<Token>>
    var registrations: seq<string>
    var deregistered: seq<string>
    ghost var epochStart: nat

    ghost predicate Valid()
      reads this
    {
      RegisteredOnce() && TokensListed()
    }

    /** Every current token list is registered exactly once since it was created. */
    ghost predicate RegisteredOnce()
      reads this
    {
      RegisteredOnceIn(documentTokenLists.Keys, registrations, epochStart)
    }

    /** Every token of the map is in its document's list. */
    ghost predicate TokensListed()
      reads this
    {
      ListedIn(tokens, documentTokenLists)
    }

    /** Every listed token belongs to its list's document and is a value of `m`. */
    ghost predicate ListsDrawnFrom(m: map<string, Token>)
      reads this
    {
      DrawnFrom(documentTokenLists, m)
    }

    constructor ()
      ensures Valid()
      ensures tokens == map[] && documentTokenLists == map[]
      ensures registrations == [] && deregistered == []
    {
      tokens := map[];
      documentTokenLists := map[];
      registrations := [];
      deregistered := [];
      epochStart := 0;
    }

    /** The token under a hat, if there is one. */
    function GetToken(hatStyle: HatStyleName, character: string): (t: Option<Token>)
      reads this
      ensures t.Some? <==> GetKey(hatStyle, character) in tokens
      ensures t.Some? ==> t.value == tokens[GetKey(hatStyle, character)]
    {
      var key := GetKey(hatStyle, character);
      if key in tokens then Some(tokens[key]) else None
    }

    /**
     * The token list of a document, created and registered on first use; an existing
     * list is returned as it is, so each list is registered at most once.
     */
    method GetDocumentTokenList(uri: string) returns (list: seq<Token>)
      requires Valid()
      modifies this
      ensures Valid()
      ensures tokens == old(tokens) && deregistered == old(deregistered)
      ensures uri in old(documentTokenLists) ==>
                list == old(documentTokenLists)[uri] && unchanged(this)
      ensures uri !in old(documentTokenLists) ==>
                list == [] && documentTokenLists == old(documentTokenLists)[uri := []] &&
                registrations == old(registrations) + [uri]
      ensures uri in documentTokenLists
    {
      if uri in documentTokenLists {
        list := documentTokenLists[uri];
      } else {
        list := [];
        documentTokenLists := documentTokenLists[uri := list];
        registrations := registrations + [uri];
        assert registrations[epochStart..] == old(registrations)[epochStart..] + [uri];
      }
    }

    /** Binds the key to the token and appends the token to its document's list. */
    method AddTokenByKey(key: string, token: Token)
      requires Valid()
      modifies this
      ensures Valid()
      ensures tokens == old(tokens)[key := token]
      ensures documentTokenLists == Appended(old(documentTokenLists), token)
      ensures token.documentUri in old(documentTokenLists) ==> registrations == old(registrations)
      ensures token.documentUri !in old(documentTokenLists) ==>
                registrations == old(registrations) + [token.documentUri]
      ensures deregistered == old(deregistered)
    {
      var uri := token.documentUri;
      ghost var oldTokens, oldLists := tokens, documentTokenLists;
      var list := GetDocumentTokenList(uri);
      ghost var lists := documentTokenLists;
      tokens := tokens[key := token];
      documentTokenLists := documentTokenLists[uri := list + [token]];
      AppendAfterLookup(oldLists, lists, list, token);
      ListedInAppend(oldTokens, oldLists, key, token);
      assert documentTokenLists.Keys == lists.Keys;
    }

    /** After adding, the hat reads back as the new token, replacing any earlier one. */
    method AddToken(hatStyle: HatStyleName, character: string, token: Token)
      requires Valid()
      modifies this
      ensures Valid()
      ensures GetToken(hatStyle, character) == Some(token)
      ensures tokens == old(tokens)[GetKey(hatStyle, character) := token]
      ensures documentTokenLists == Appended(old(documentTokenLists), token)
      ensures token.documentUri in old(documentTokenLists) ==> registrations == old(registrations)
      ensures token.documentUri !in old(documentTokenLists) ==>
                registrations == old(registrations) + [token.documentUri]
      ensures deregistered == old(deregistered)
    {
      AddTokenByKey(GetKey(hatStyle, character), token);
    }

    /**
     * Empties the key map and the token lists and runs every deregistration recorded
     * so far. The deregistration list itself is kept, so a later clear runs them again.
     */
    method Clear()
      requires Valid()
      modifies this
      ensures Valid()
      ensures tokens == map[] && documentTokenLists == map[]
      ensures registrations == old(registrations)
      ensures deregistered == old(deregistered) + old(registrations)
    {
      tokens := map[];
      documentTokenLists := map[];
      deregistered := deregistered + registrations;
      epochStart := |registrations|;
    }

    /** Runs every deregistration recorded so far. */
    method Dispose()
      requires Valid()
      modifies this
      ensures Valid()
      ensures tokens == old(tokens) && documentTokenLists == old(documentTokenLists)
      ensures registrations == old(registrations)
      ensures deregistered == old(deregistered) + old(registrations)
    {
      deregistered := deregistered + registrations;
    }

    /** One step of `Clone`: adds an entry of `source` that is not yet copied. */
    method CopyEntry(key: string, token: Token, ghost source: map<string, Token>)
      requires Valid() && ListsDrawnFrom(source) && documentTokenLists.Keys == UrisOf(tokens)
      requires key !in tokens && key in source && source[key] == token
      modifies this
      ensures Valid() && ListsDrawnFrom(source) && documentTokenLists.Keys == UrisOf(tokens)
      ensures tokens == old(tokens)[key := token] && deregistered == old(deregistered)
    {
      UrisOfAdd(tokens, key, token);
      DrawnFromAppend(documentTokenLists, token, source);
      AddTokenByKey(key, token);
    }

    /**
     * A new map holding a copy of every entry. Its token lists hold exactly the
     * tokens of the entries, so tokens that an entry no longer refers to are dropped.
     */
    method Clone() returns (ret: IndividualHatMap)
      requires Valid()
      ensures fresh(ret) && ret.Valid()
      ensures ret.tokens == tokens
      ensures ret.documentTokenLists.Keys == UrisOf(tokens)
      ensures ret.ListsDrawnFrom(tokens)
      ensures ret.deregistered == []
    {
      ret := new IndividualHatMap();
      var remaining := tokens.Keys;
      while remaining != {}
        invariant remaining <= tokens.Keys
        invariant ret.Valid() && ret.deregistered == []
        invariant forall k :: k in ret.tokens <==> k in tokens && k !in remaining
        invariant forall k :: k in ret.tokens ==> ret.tokens[k] == tokens[k]
        invariant ret.documentTokenLists.Keys == UrisOf(ret.tokens)
        invariant ret.ListsDrawnFrom(tokens)
        decreases remaining
      {
        var key :| key in remaining;
        var token := tokens[key];
        ret.CopyEntry(key, token, tokens);
        remaining := remaining - {key};
      }
      assert ret.tokens == tokens;
    }
  }

  ghost predicate DrawnFrom(lists: map<string, seq<Token>>, m: map<string, Token>) {
    forall u, t :: u in lists && t in lists[u] ==> t.documentUri == u && t in m.Values
  }

  /** The token lists once `token` is appended to its document's list, created empty if missing. */
  function Appended(lists: map<string, seq<Token>>, token: Token): (r: map<string, seq<Token>>)
    ensures r.Keys == lists.Keys + {token.documentUri}
  {
    var u := token.documentUri;
    lists[u := (if u in lists then lists[u] else []) + [token]]
  }

  /** The documents `uris` are those registered from `epochStart` on, each once. */
  ghost predicate RegisteredOnceIn(uris: set<string>, registrations: seq<string>, epochStart: nat) {
    && epochStart <= |registrations|
    && (forall i, j :: epochStart <= i < j < |registrations| ==> registrations[i] != registrations[j])
    && (forall u :: u in uris <==> u in registrations[epochStart..])
  }

  /** Appending to the list that the lookup found or created is appending to the lists before the lookup. */
  lemma AppendAfterLookup(before: map<string, seq<Token>>, after: map<string, seq<Token>>, list: seq<Token>,
                          token: Token)
    requires token.documentUri in before ==> list == before[token.documentUri] && after == before
    requires token.documentUri !in before ==> list == [] && after == before[token.documentUri := []]
    ensures after[token.documentUri := list + [token]] == Appended(before, token)
  {
    if token.documentUri !in before {
      assert list + [token] == [token];
    }
  }

  /** Every token of `tokens` is in the list of its document. */
  ghost predicate ListedIn(tokens: map<string, Token>, lists: map<string, seq<Token>>) {
    forall k :: k in tokens ==> tokens[k].documentUri in lists && tokens[k] in lists[tokens[k].documentUri]
  }

  /** Binding a key to a token and appending the token to its list keeps every token listed. */
  lemma ListedInAppend(tokens: map<string, Token>, lists: map<string, seq<Token>>, key: string, token: Token)
    requires ListedIn(tokens, lists)
    ensures ListedIn(tokens[key := token], Appended(lists, token))
  {
    var t, l := tokens[key := token], Appended(lists, token);
    forall k | k in t
      ensures t[k].documentUri in l && t[k] in l[t[k].documentUri]
    {
      if k != key && t[k].documentUri == token.documentUri {
        assert t[k] in lists[token.documentUri];
      }
    }
  }

  lemma DrawnFromAppend(lists: map<string, seq<Token>>, token: Token, m: map<string, Token>)
    requires DrawnFrom(lists, m) && token in m.Values
    ensures DrawnFrom(Appended(lists, token), m)
  {
  }

  /** The documents the tokens of a map lie in. */
  ghost function UrisOf(m: map<string, Token>): set<string> {
    set k | k in m :: m[k].documentUri
  }

  lemma UrisOfAdd(m: map<string, Token>, key: string, token: Token)
    requires key !in m
    ensures UrisOf(m[key := token]) == UrisOf(m) + {token.documentUri}
  {
    assert m[key := token][key].documentUri == token.documentUri;
    forall u | u in UrisOf(m)
      ensures u in UrisOf(m[key := token])
    {
      var k :| k in m && m[k].documentUri == u;
      assert m[key := token][k] == m[k];
    }
  }

  /**
   * The hat map of the editor: the active map that hats are allocated into, the
   * snapshot taken at the start of the current phrase, whether a pre-phrase signal
   * exists, and the signal version last seen.
   */
  class NavigationMap {
    var activeMap: IndividualHatMap
    var mapSnapshot: IndividualHatMap?
    var hasSignal: bool
    var lastSignalVersion: Option<string>

    ghost predicate Valid()
      reads this, activeMap, mapSnapshot
    {
      && activeMap.Valid()
      && activeMap != mapSnapshot
      && (mapSnapshot != null ==> mapSnapshot.Valid())
    }

    constructor (hasSignal: bool)
      ensures Valid() && fresh(activeMap)
      ensures activeMap.tokens == map[] && mapSnapshot == null
      ensures this.hasSignal == hasSignal && lastSignalVersion == None
    {
      activeMap := new IndividualHatMap();
      mapSnapshot := null;
      this.hasSignal := hasSignal;
      lastSignalVersion := None;
    }

    /** Disposes the previous snapshot, if any, and replaces it with a clone of the active map. */
    method TakeSnapshot()
      requires Valid()
      modifies this, mapSnapshot
      ensures Valid()
      ensures activeMap == old(activeMap) && hasSignal == old(hasSignal)
      ensures lastSignalVersion == old(lastSignalVersion)
      ensures mapSnapshot != null && fresh(mapSnapshot) && mapSnapshot.tokens == activeMap.tokens
      ensures old(mapSnapshot) != null ==>
                old(mapSnapshot).deregistered == old(mapSnapshot.deregistered) + old(mapSnapshot.registrations)
    {
      if mapSnapshot != null {
        mapSnapshot.Dispose();
      }
      mapSnapshot := activeMap.Clone();
    }

    /**
     * With a signal present, a new version (`newSignalVersion`, which the signal
     * reports) is recorded even when it is absent, and a snapshot is taken only for
     * a present version. An unchanged version, or no signal, changes nothing.
     */
    method MaybeTakeSnapshot(newSignalVersion: Option<string>)
      requires Valid()
      modifies this, mapSnapshot
      ensures Valid()
      ensures activeMap == old(activeMap) && hasSignal == old(hasSignal)
      ensures activeMap.tokens == old(activeMap.tokens)
      ensures !hasSignal || newSignalVersion == old(lastSignalVersion) ==>
                lastSignalVersion == old(lastSignalVersion) && mapSnapshot == old(mapSnapshot)
      ensures hasSignal && newSignalVersion != old(lastSignalVersion) ==>
                lastSignalVersion == newSignalVersion
      ensures hasSignal && newSignalVersion != old(lastSignalVersion) && newSignalVersion.None? ==>
                mapSnapshot == old(mapSnapshot)
      ensures hasSignal && newSignalVersion != old(lastSignalVersion) && newSignalVersion.Some? ==>
                mapSnapshot != null && fresh(mapSnapshot) && mapSnapshot.tokens == activeMap.tokens
    {
      if hasSignal {
        if newSignalVersion != lastSignalVersion {
          lastSignalVersion := newSignalVersion;
          if newSignalVersion.Some? {
            TakeSnapshot();
          }
        }
      }
    }

    /**
     * The map commands read from: after the snapshot check, the snapshot when one is
     * requested, a signal version has been seen and a snapshot exists; otherwise the
     * active map.
     */
    method GetIndividualMap(useSnapshot: bool, newSignalVersion: Option<string>) returns (m: IndividualHatMap)
      requires Valid()
      modifies this, mapSnapshot
      ensures Valid()
      ensures activeMap == old(activeMap)
      ensures useSnapshot && lastSignalVersion.Some? && mapSnapshot != null ==> m == mapSnapshot
      ensures !(useSnapshot && lastSignalVersion.Some? && mapSnapshot != null) ==> m == activeMap
    {
      MaybeTakeSnapshot(newSignalVersion);
      if useSnapshot {
        if lastSignalVersion.None? {
          return activeMap;
        }
        if mapSnapshot == null {
          return activeMap;
        }
        return mapSnapshot;
      }
      return activeMap;
    }

    /** Disposes the active map and, when there is one, the snapshot; their entries stay. */
    method Dispose()
      requires Valid()
      modifies activeMap, mapSnapshot
      ensures Valid()
      ensures activeMap.tokens == old(activeMap.tokens)
      ensures activeMap.deregistered == old(activeMap.deregistered) + old(activeMap.registrations)
      ensures mapSnapshot != null ==>
                mapSnapshot.tokens == old(mapSnapshot.tokens) &&
                mapSnapshot.deregistered == old(mapSnapshot.deregistered) + old(mapSnapshot.registrations)
    {
      activeMap.Dispose();
      if mapSnapshot != null {
        mapSnapshot.Dispose();
      }
    }
  }
}
