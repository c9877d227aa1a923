/** The expiring cache of table metadata responses, keyed by request URL. */
module MetadataCache {
  import opened Basics
  import opened Paths

  // ----- the key -------------------------------------------------------------------------------------

  /** `IRCEndpointBuilder`; `query` is the encoded parameter part, the same for every table of a catalog. */
  class EndpointBuilder {
    var host: string
    var version: string
    var prefix: string
    var pathComponents: seq<string>
    var query: string

    constructor (host: string, version: string, prefix: string, query: string)
      ensures this.host == host && this.version == version && this.prefix == prefix && this.query == query
      ensures pathComponents == []
    {
      this.host, this.version, this.prefix, this.query := host, version, prefix, query;
      pathComponents := [];
    }

    method AddPathComponent(component: string)
      modifies this`pathComponents
      ensures pathComponents == WithComponent(old(pathComponents), component)
    {
      if component != "" {
        pathComponents := pathComponents + [component];
      }
    }

    method GetURL() returns (ret: string)
      ensures ret == UrlOf(host, version, prefix, pathComponents, query)
    {
      ret := host;
      if version != "" {
        ret := ret + "/" + version;
      }
      if prefix != "" {
        ret := ret + "/" + prefix;
      }
      assert ret == BaseOf(host, version, prefix);
      ghost var start := BaseOf(host, version, prefix);
      ConcatNil(start);
      for i := 0 to |pathComponents|
        invariant ret == start + Slashed(pathComponents[..i])
      {
        hide Slashed, BaseOf;
        SlashedSnoc(pathComponents, i);
        ConcatAssoc(start, Slashed(pathComponents[..i]), "/" + pathComponents[i]);
        ret := ret + ("/" + pathComponents[i]);
      }
      assert pathComponents[..|pathComponents|] == pathComponents;
      ret := ret + query;
    }
  }

  function WithComponent(components: seq<string>, component: string): seq<string> {
    if component == "" then components else components + [component]
  }

  /** Every component after its own slash. */
  function Slashed(components: seq<string>): string {
    if components == [] then "" else ("/" + components[0]) + Slashed(components[1..])
  }

  lemma {:induction false} SlashedConcat(a: seq<string>, b: seq<string>)
    ensures Slashed(a + b) == Slashed(a) + Slashed(b)
  {
    if a == [] {
      ConcatNil(b);
      ConcatNil(Slashed(b));
    } else {
      ConcatHead(a, b);
      SlashedConcat(a[1..], b);
      ConcatAssoc("/" + a[0], Slashed(a[1..]), Slashed(b));
    }
  }

  lemma SlashedSnoc(components: seq<string>, i: nat)
    requires i < |components|
    ensures Slashed(components[..i + 1]) == Slashed(components[..i]) + ("/" + components[i])
  {
    TakeSnoc(components, i);
    SlashedConcat(components[..i], [components[i]]);
    SlashedOne(components[i]);
  }

  lemma SlashedOne(component: string)
    ensures Slashed([component]) == "/" + component
  {
    ConcatNil("/" + component);
  }

  function BaseOf(host: string, version: string, prefix: string): string {
    var versioned := if version == "" then host else host + "/" + version;
    if prefix == "" then versioned else versioned + "/" + prefix
  }

  function UrlOf(host: string, version: string, prefix: string, components: seq<string>, query: string): string {
    BaseOf(host, version, prefix) + Slashed(components) + query
  }

  /** The URL is the host, then version, prefix and components, those that are not empty, each after its own
      slash, then the parameters. */
  lemma UrlSegments(host: string, version: string, prefix: string, components: seq<string>, query: string)
    ensures UrlOf(host, version, prefix, components, query) ==
            host + Slashed(WithComponent(WithComponent([], version), prefix) + components) + query
  {
    hide Slashed;
    var front := WithComponent(WithComponent([], version), prefix);
    SlashedConcat(front, components);
    BaseSegments(host, version, prefix);
    ConcatAssoc(host, Slashed(front), Slashed(components));
  }

  lemma BaseSegments(host: string, version: string, prefix: string)
    ensures BaseOf(host, version, prefix) == host + Slashed(WithComponent(WithComponent([], version), prefix))
  {
    SlashedOne(version);
    SlashedOne(prefix);
    SlashedConcat([version], [prefix]);
    ConcatNil(host);
    ConcatAssoc(host, "/", version);
    ConcatAssoc(host, "/", prefix);
    ConcatAssoc(host + "/" + version, "/", prefix);
    ConcatAssoc(host, "/" + version, "/" + prefix);
  }

  /** What is fixed for a catalog: its base URL, with the components a hosted catalog adds, and its prefix. */
  datatype Catalog = Catalog(host: string, version: string, base: seq<string>, prefix: string, query: string)

  /** The key of a table's metadata. */
  function Key(cat: Catalog, schema: string, table: string): string {
    var front := WithComponent(WithComponent(cat.base, cat.prefix), "namespaces");
    UrlOf(cat.host, cat.version, "", WithComponent(WithComponent(WithComponent(front, schema), "tables"), table), cat.query)
  }

  /** The part of the key that depends on the table. */
  function TablePath(schema: string, table: string): string {
    Slashed(WithComponent(WithComponent(WithComponent([], schema), "tables"), table))
  }

  lemma KeyParts(cat: Catalog, schema: string, table: string)
    ensures Key(cat, schema, table) ==
            UrlOf(cat.host, cat.version, "", WithComponent(WithComponent(cat.base, cat.prefix), "namespaces"), "") +
            TablePath(schema, table) + cat.query
  {
    hide Slashed;
    var front := WithComponent(WithComponent(cat.base, cat.prefix), "namespaces");
    var own := WithComponent(WithComponent(WithComponent([], schema), "tables"), table);
    assert WithComponent(WithComponent(WithComponent(front, schema), "tables"), table) == front + own;
    SlashedConcat(front, own);
    ConcatAssoc(BaseOf(cat.host, cat.version, ""), Slashed(front), Slashed(own));
    ConcatNil(BaseOf(cat.host, cat.version, "") + Slashed(front));
  }

  /** Two tables of a catalog have the same key exactly when their own parts of it are the same text. */
  lemma KeyEqualIff(cat: Catalog, schema: string, table: string, schema': string, table': string)
    ensures Key(cat, schema, table) == Key(cat, schema', table') <==> TablePath(schema, table) == TablePath(schema', table')
  {
    hide Key, TablePath, UrlOf;
    KeyParts(cat, schema, table);
    KeyParts(cat, schema', table');
    var front := UrlOf(cat.host, cat.version, "", WithComponent(WithComponent(cat.base, cat.prefix), "namespaces"), "");
    SuffixCancel(front + TablePath(schema, table), front + TablePath(schema', table'), cat.query);
    ConcatCancel(front, TablePath(schema, table), TablePath(schema', table'));
  }

  lemma SuffixCancel<T>(a: seq<T>, b: seq<T>, c: seq<T>)
    ensures a + c == b + c <==> a == b
  {
    if a + c == b + c {
      assert |a| == |b|;
      assert a == (a + c)[..|a|] && b == (b + c)[..|b|];
    }
  }

  /** Another table with the same key. */
  predicate Rivals(schema: string, table: string, schema': string, table': string) {
    (schema, table) != (schema', table') && TablePath(schema, table) == TablePath(schema', table')
  }

  const TABLES: string := "/tables/"

  /** What follows `namespaces/` in the key of a table with names. */
  function NamedText(schema: string, table: string): string {
    schema + (TABLES + table)
  }

  lemma TablePathText(schema: string, table: string)
    requires schema != "" && table != ""
    ensures TablePath(schema, table) == "/" + NamedText(schema, table)
  {
    hide Slashed;
    assert WithComponent(WithComponent(WithComponent([], schema), "tables"), table) == [schema, "tables", table];
    SlashedThree(schema, table);
  }

  lemma SlashedThree(schema: string, table: string)
    ensures Slashed([schema, "tables", table]) == "/" + NamedText(schema, table)
  {
    assert [schema, "tables", table][1..] == ["tables", table] && ["tables", table][1..] == [table];
    SlashedOne(table);
    assert "/" + "tables" + ("/" + table) == "/tables/" + table;
    assert "/" + schema + ("/tables/" + table) == "/" + (schema + ("/tables/" + table));
  }

  lemma NamedRivals(schema: string, table: string, schema': string, table': string)
    requires schema != "" && table != "" && schema' != "" && table' != ""
    ensures Rivals(schema, table, schema', table') <==>
            (schema, table) != (schema', table') && NamedText(schema, table) == NamedText(schema', table')
  {
    hide TablePath, NamedText;
    TablePathText(schema, table);
    TablePathText(schema', table');
    ConcatCancel("/", NamedText(schema, table), NamedText(schema', table'));
  }

  /** `text` can be cut at position `i` into a schema name, `/tables/` and a table name. */
  predicate CutsAt(text: string, i: nat) {
    0 < i && i + |TABLES| < |text| && OccursAt(text, TABLES, i)
  }

  /** The only such cut is between the two names themselves. */
  predicate CutsOnce(schema: string, table: string) {
    forall i | 0 <= i < |NamedText(schema, table)| && CutsAt(NamedText(schema, table), i) :: i == |schema|
  }

  lemma CutParts(text: string, i: nat)
    requires CutsAt(text, i)
    ensures text == NamedText(text[..i], text[i + |TABLES|..]) && text[..i] != "" && text[i + |TABLES|..] != ""
  {
    assert text[i..i + |TABLES|] == TABLES;
    SplitInThree(text, i, i + |TABLES|);
  }

  lemma NamedCuts(schema: string, table: string)
    requires schema != "" && table != ""
    ensures CutsAt(NamedText(schema, table), |schema|)
    ensures NamedText(schema, table)[..|schema|] == schema
    ensures NamedText(schema, table)[|schema| + |TABLES|..] == table
  {
  }

  /** A table has a key of its own, among tables with names, exactly when its text can be cut only once. */
  lemma OwnKeyIff(schema: string, table: string)
    requires schema != "" && table != ""
    ensures (forall schema', table' | schema' != "" && table' != "" :: !Rivals(schema', table', schema, table)) <==>
            CutsOnce(schema, table)
  {
    hide Rivals, NamedText, OccursAt;
    var text := NamedText(schema, table);
    if CutsOnce(schema, table) {
      forall schema', table' | schema' != "" && table' != "" ensures !Rivals(schema', table', schema, table) {
        NamedRivals(schema', table', schema, table);
        NamedCuts(schema, table);
        NamedCuts(schema', table');
      }
    } else {
      var i :| 0 <= i < |text| && CutsAt(text, i) && i != |schema|;
      CutParts(text, i);
      NamedRivals(text[..i], text[i + |TABLES|..], schema, table);
    }
  }

  /** Two schema names without a slash tell their tables apart, whatever the table names hold. */
  lemma PlainSchemasDiffer(schema: string, table: string, schema': string, table': string)
    requires schema != "" && table != "" && schema' != "" && table' != ""
    requires '/' !in schema && '/' !in schema'
    ensures !Rivals(schema, table, schema', table')
  {
    NamedRivals(schema, table, schema', table');
    if NamedText(schema, table) == NamedText(schema', table') {
      FirstSlash(schema, TABLES + table, schema', TABLES + table');
      NamedCuts(schema, table);
      NamedCuts(schema', table');
    }
  }

  lemma FirstSlash(a: string, rest: string, b: string, rest': string)
    requires '/' !in a && '/' !in b && rest != "" && rest' != "" && rest[0] == '/' == rest'[0]
    requires a + rest == b + rest'
    ensures a == b
  {
    if a != "" && b != "" {
      ConcatHead(a, rest);
      ConcatHead(b, rest');
      FirstSlash(a[1..], rest, b[1..], rest');
    } else {
      assert (a + rest)[0] == (b + rest')[0];
    }
  }

  /** Without a slash in either name the table has a key of its own. */
  lemma NoSlashCutsOnce(schema: string, table: string)
    requires '/' !in schema && '/' !in table
    ensures CutsOnce(schema, table)
  {
    var text := NamedText(schema, table);
    forall i | 0 <= i < |text| && CutsAt(text, i) ensures i == |schema| {
      assert text[i + 0] == TABLES[0] && text[i + 7] == TABLES[7];
      SlashesOf(schema, table, i);
      SlashesOf(schema, table, i + 7);
    }
  }

  lemma SlashesOf(schema: string, table: string, i: nat)
    requires '/' !in schema && '/' !in table && i < |NamedText(schema, table)| && NamedText(schema, table)[i] == '/'
    ensures i == |schema| || i == |schema| + 7
  {
    if |schema| <= i < |schema| + |TABLES| {
      assert NamedText(schema, table)[i] == TABLES[i - |schema|];
    }
  }

  /** A slash in a name can make two tables share a key. */
  lemma SlashCollides(cat: Catalog)
    ensures Key(cat, "a/tables/b", "c") == Key(cat, "a", "b/tables/c")
  {
    hide Key, TablePath;
    KeyEqualIff(cat, "a/tables/b", "c", "a", "b/tables/c");
    TablePathText("a/tables/b", "c");
    TablePathText("a", "b/tables/c");
    assert NamedText("a/tables/b", "c") == NamedText("a", "b/tables/c");
  }

  /** Left out, an empty name can as well. */
  lemma EmptyCollides(cat: Catalog)
    ensures Key(cat, "", "tables") == Key(cat, "tables", "")
  {
    hide Key;
    KeyEqualIff(cat, "", "tables", "tables", "");
    assert WithComponent(WithComponent(WithComponent([], ""), "tables"), "tables") ==
           WithComponent(WithComponent(WithComponent([], "tables"), "tables"), "");
  }

  // ----- the cache ---------------------------------------------------------------------------------------

  /** A response of the catalog; `expiresAt` is there when its config carries a session-token expiry. */
  datatype Response = Response(body: string, expiresAt: Option<int>)

  datatype CacheValue = CacheValue(data: Response, expiresAt: int)

  /** A metadata request that went to the catalog, and its answer. */
  datatype Fetch = Fetch(schema: string, table: string, response: Response)

  /** The cache a sequence of fetches leaves. */
  function CacheAfter(cat: Catalog, fetches: seq<Fetch>): map<string, CacheValue> {
    if fetches == [] then map[]
    else
      var last := fetches[|fetches| - 1];
      Stored(CacheAfter(cat, fetches[..|fetches| - 1]), Key(cat, last.schema, last.table), last.response)
  }

  function Stored(cache: map<string, CacheValue>, url: string, response: Response): map<string, CacheValue> {
    match response.expiresAt
    case None => cache
    case Some(expiresAt) => cache[url := CacheValue(response, expiresAt)]
  }

  /** The most recent response for a table that carried an expiry. */
  function LastExpiring(fetches: seq<Fetch>, schema: string, table: string): Option<CacheValue> {
    if fetches == [] then None
    else
      var last := fetches[|fetches| - 1];
      if last.schema == schema && last.table == table && last.response.expiresAt.Some?
      then Some(CacheValue(last.response, last.response.expiresAt.value))
      else LastExpiring(fetches[..|fetches| - 1], schema, table)
  }

  /** No fetch was for another table with the same key. */
  predicate NoRivals(fetches: seq<Fetch>, schema: string, table: string) {
    forall i | 0 <= i < |fetches| :: !Rivals(fetches[i].schema, fetches[i].table, schema, table)
  }

  function Cached(cat: Catalog, fetches: seq<Fetch>, schema: string, table: string): Option<CacheValue> {
    var cache, url := CacheAfter(cat, fetches), Key(cat, schema, table);
    if url in cache then Some(cache[url]) else None
  }

  /** Over any history without a rival, what is cached under a table's key is that table's most recent
      expiring response. */
  lemma {:induction false} CachedIsLastExpiring(cat: Catalog, fetches: seq<Fetch>, schema: string, table: string)
    requires NoRivals(fetches, schema, table)
    ensures Cached(cat, fetches, schema, table) == LastExpiring(fetches, schema, table)
  {
    hide Key, TablePath;
    if fetches != [] {
      var last := fetches[|fetches| - 1];
      CachedIsLastExpiring(cat, fetches[..|fetches| - 1], schema, table);
      KeyEqualIff(cat, last.schema, last.table, schema, table);
    }
  }

  predicate Named(fetches: seq<Fetch>) {
    forall i | 0 <= i < |fetches| :: fetches[i].schema != "" && fetches[i].table != ""
  }

  /** The cache answers for a table with that table's own responses over every history of tables with
      names, exactly when the table's text can be cut only once. */
  lemma CacheAgreesIff(cat: Catalog, schema: string, table: string)
    requires schema != "" && table != ""
    ensures (forall fetches | Named(fetches) :: Cached(cat, fetches, schema, table) == LastExpiring(fetches, schema, table)) <==>
            CutsOnce(schema, table)
  {
    hide Cached, LastExpiring, CutsOnce, Rivals;
    OwnKeyIff(schema, table);
    if CutsOnce(schema, table) {
      forall fetches | Named(fetches) ensures Cached(cat, fetches, schema, table) == LastExpiring(fetches, schema, table) {
        CachedIsLastExpiring(cat, fetches, schema, table);
      }
    } else {
      var schema', table' :| schema' != "" && table' != "" && Rivals(schema', table', schema, table);
      RivalAnswers(cat, schema, table, schema', table');
      assert Named([Fetch(schema', table', Response("", Some(0)))]);
    }
  }

  /** One response for a rival is served as the table's own. */
  lemma RivalAnswers(cat: Catalog, schema: string, table: string, schema': string, table': string)
    requires Rivals(schema', table', schema, table)
    ensures var fetches := [Fetch(schema', table', Response("", Some(0)))];
            Cached(cat, fetches, schema, table).Some? && LastExpiring(fetches, schema, table).None?
  {
    hide Key, TablePath;
    var fetches := [Fetch(schema', table', Response("", Some(0)))];
    assert fetches[..|fetches| - 1] == [];
    KeyEqualIff(cat, schema', table', schema, table);
    assert LastExpiring([], schema, table).None?;
  }

  /** The answer when `cached` is what the cache holds for a table: the cached response as long as it
      has not expired, an error if it expires between the two readings of the clock, else a fresh one. */
  predicate Serves(cached: Option<CacheValue>, nowHas: int, nowGet: int, answer: Response, r: Option<Response>, fromCache: bool) {
    if cached.Some? && nowHas < cached.value.expiresAt
    then fromCache && r == if nowGet < cached.value.expiresAt then Some(cached.value.data) else None
    else !fromCache && r == Some(answer)
  }

  class CatalogClient {
    const catalog: Catalog
    var metadataCache: map<string, CacheValue>
    ghost var fetches: seq<Fetch>

    ghost predicate Valid()
      reads this
    {
      metadataCache == CacheAfter(catalog, fetches)
    }

    constructor (catalog: Catalog)
      ensures Valid() && this.catalog == catalog && fetches == []
    {
      this.catalog := catalog;
      metadataCache, fetches := map[], [];
    }

    method HasCachedValue(url: string, now: int) returns (cached: bool)
      ensures cached <==> url in metadataCache && now < metadataCache[url].expiresAt
    {
      cached := url in metadataCache && now < metadataCache[url].expiresAt;
    }

    /** Throws when there is no value or it has expired. */
    method GetCachedValue(url: string, now: int) returns (r: Option<Response>)
      ensures r == if url in metadataCache && now < metadataCache[url].expiresAt then Some(metadataCache[url].data) else None
    {
      r := None;
      if url in metadataCache {
        if now < metadataCache[url].expiresAt {
          r := Some(metadataCache[url].data);
        }
      }
    }

    method SetCachedValue(url: string, value: Response)
      modifies this`metadataCache
      ensures metadataCache == Stored(old(metadataCache), url, value)
    {
      match value.expiresAt {
        case None =>
        case Some(expiresAt) => metadataCache := metadataCache[url := CacheValue(value, expiresAt)];
      }
    }

    method BuildUrl(schema: string, table: string) returns (url: string)
      ensures url == Key(catalog, schema, table)
    {
      hide UrlOf;
      var builder := new EndpointBuilder(catalog.host, catalog.version, "", catalog.query);
      builder.pathComponents := catalog.base;
      builder.AddPathComponent(catalog.prefix);
      builder.AddPathComponent("namespaces");
      builder.AddPathComponent(schema);
      builder.AddPathComponent("tables");
      builder.AddPathComponent(table);
      url := builder.GetURL();
    }

    /** Fetches the metadata; `answer` is what the catalog replies. */
    method GetTableMetadata(schema: string, table: string, answer: Response) returns (r: Response)
      requires Valid()
      modifies this
      ensures Valid() && r == answer
      ensures fetches == old(fetches) + [Fetch(schema, table, answer)]
    {
      var url := BuildUrl(schema, table);
      SetCachedValue(url, answer);
      fetches := fetches + [Fetch(schema, table, answer)];
      assert fetches[..|fetches| - 1] == old(fetches);
      r := answer;
    }

    /** `nowHas` and `nowGet` are the two readings of the clock, which may step back. */
    method GetTableMetadataCached(schema: string, table: string, nowHas: int, nowGet: int, answer: Response)
      returns (r: Option<Response>)
      requires Valid()
      modifies this
      ensures Valid()
      ensures Serves(Cached(catalog, old(fetches), schema, table), nowHas, nowGet, answer, r, fetches == old(fetches))
      ensures NoRivals(old(fetches), schema, table) ==>
                Serves(LastExpiring(old(fetches), schema, table), nowHas, nowGet, answer, r, fetches == old(fetches))
      ensures fetches == old(fetches) || fetches == old(fetches) + [Fetch(schema, table, answer)]
    {
      hide Key, CacheAfter;
      var url := BuildUrl(schema, table);
      if NoRivals(fetches, schema, table) {
        CachedIsLastExpiring(catalog, fetches, schema, table);
      }
      var cached := HasCachedValue(url, nowHas);
      if cached {
        r := GetCachedValue(url, nowGet);
      } else {
        var fetched := GetTableMetadata(schema, table, answer);
        r := Some(fetched);
      }
    }
  }
}
