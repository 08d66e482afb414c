/** The server core: the pool registry and the insight list kept by the
    database manager, and the tool and resource handlers of the chat-insight
    server. Database round trips are parameters: `execute(db, query)` is the
    rows a query fetches on database `db`, and `showTables(db)` is the first
    column of `SHOW TABLES` there. */
module Server {
  import opened Results
  import opened Text
  import Cli
  import InsightMemo

  /** A connection pool: a fresh identity per creation, opened on one database. */
  datatype Pool = Pool(id: nat, db: string)

  /** A column value as the dictionary cursor returns it. */
  datatype Value = Null | Number(n: int) | Chars(s: string)

  /** One fetched row: column name to value. */
  type Row = map<string, Value>

  datatype ServerError = NotASelectQuery | UnknownResourcePath(path: string)

  /** The only path the memo resource serves. */
  const MEMO_PATH := "memo_insights"
  /** The reply of `append_insight`. */
  const INSIGHT_ADDED := "洞察已添加到备忘录"
  /** The scheme of the memo resource's URI template `memo://{path}`. */
  const MEMO_SCHEME := "memo://"
  /** The URI under which the memo is served. */
  const MEMO_URI := MEMO_SCHEME + MEMO_PATH
  /** The URI `append_insight` announces as updated, as the code spells it. */
  const ANNOUNCED_AS_WRITTEN := "memo://insights"

  /** The path the template `memo://{path}` binds for a URI, or an error for
      a URI outside the template. */
  function TemplatePath(uri: string): (r: Result<string, ServerError>)
    ensures r.Ok? <==> StartsWith(uri, MEMO_SCHEME)
    ensures r.Ok? ==> uri == MEMO_SCHEME + r.value
  {
    if StartsWith(uri, MEMO_SCHEME) then Ok(uri[|MEMO_SCHEME|..])
    else Err(UnknownResourcePath(uri))
  }

  /** Every path, put behind the scheme, is bound back by the template. */
  lemma TemplateBindsPath(path: string)
    ensures TemplatePath(MEMO_SCHEME + path) == Ok(path)
  {
    assert (MEMO_SCHEME + path)[..|MEMO_SCHEME|] == MEMO_SCHEME;
    assert (MEMO_SCHEME + path)[|MEMO_SCHEME|..] == path;
  }

  /** The announced URI binds the path `insights`, which the memo resource
      refuses: a client that re-reads the announced resource gets an error. */
  lemma AnnouncedUriAsWrittenIsRefused()
    ensures ANNOUNCED_AS_WRITTEN == MEMO_SCHEME + "insights"
    ensures TemplatePath(ANNOUNCED_AS_WRITTEN) == Ok("insights")
    ensures "insights" != MEMO_PATH
  {
    TemplateBindsPath("insights");
  }

  /** The databases a `get_pool` argument names: its comma-separated pieces,
      or the argument itself when it has no comma. */
  function DbNameParts(dbName: string): (parts: seq<string>)
    ensures |parts| >= 1
  {
    if ',' in dbName then Split(dbName, ',') else [dbName]
  }

  /** The pieces are comma-free, one more than the commas, and join back
      into the argument. */
  lemma DbNamePartsShape(dbName: string)
    ensures var parts := DbNameParts(dbName);
            && |parts| == multiset(dbName)[','] + 1
            && Join(parts, ',') == dbName
            && forall i :: 0 <= i < |parts| ==> ',' !in parts[i]
  {
    if ',' in dbName {
      SplitCount(dbName, ',');
      JoinSplit(dbName, ',');
    }
  }

  /** The database whose pool `get_pool` returns: the last piece. */
  function Target(dbName: string): string {
    var parts := DbNameParts(dbName);
    parts[|parts| - 1]
  }

  /** The distinct elements of a sequence. */
  function Elements(s: seq<string>): set<string> {
    set p | p in s
  }

  function PartSet(dbName: string): set<string> {
    Elements(DbNameParts(dbName))
  }

  /** Every database named by a list of `get_pool` arguments. */
  function AllParts(names: seq<string>): set<string>
    decreases |names|
  {
    if names == [] then {} else PartSet(names[0]) + AllParts(names[1..])
  }

  lemma {:induction false} AllPartsAppend(a: seq<string>, b: seq<string>)
    ensures AllParts(a + b) == AllParts(a) + AllParts(b)
    decreases |a|
  {
    if a == [] {
      assert a + b == b;
    } else {
      assert (a + b)[0] == a[0] && (a + b)[1..] == a[1..] + b;
      AllPartsAppend(a[1..], b);
    }
  }

  lemma AllPartsStep(names: seq<string>, i: nat)
    requires i < |names|
    ensures AllParts(names[..i + 1]) == AllParts(names[..i]) + PartSet(names[i])
  {
    assert names[..i + 1] == names[..i] + [names[i]];
    AllPartsAppend(names[..i], [names[i]]);
  }

  /** A `get_pool` call adds at most as many pools as its argument has
      pieces. */
  lemma {:induction false} PoolCountBound(before: set<string>, dbName: string)
    ensures |before + PartSet(dbName)| <= |before| + |DbNameParts(dbName)|
  {
    SeqSetBound(DbNameParts(dbName));
    assert |before + PartSet(dbName)| <= |before| + |PartSet(dbName)| by {
      UnionBound(before, PartSet(dbName));
    }
  }

  lemma {:induction false} SeqSetBound(s: seq<string>)
    ensures |Elements(s)| <= |s|
    decreases |s|
  {
    if s != [] {
      SeqSetBound(s[1..]);
      assert Elements(s) == {s[0]} + Elements(s[1..]);
    }
  }

  lemma {:induction false} UnionBound(a: set<string>, b: set<string>)
    ensures |a + b| <= |a| + |b|
    decreases |b|
  {
    if b != {} {
      var x :| x in b;
      UnionBound(a, b - {x});
      assert a + b == (a + (b - {x})) + {x};
    }
  }

  lemma PrefixSetStep(s: seq<string>, i: nat)
    requires i < |s|
    ensures Elements(s[..i + 1]) == Elements(s[..i]) + {s[i]}
  {
    assert s[..i + 1] == s[..i] + [s[i]];
  }

  /** A name without a comma is a single database, queried as itself. */
  lemma PlainNameIsItsOwnTarget(dbName: string)
    requires ',' !in dbName
    ensures DbNameParts(dbName) == [dbName] && Target(dbName) == dbName
  {
  }

  /** Names validated for cross-database mode from a command-line string are
      each a single database, queried as itself. */
  lemma ValidatedCrossDbNamesArePlain(s: string)
    requires Cli.ValidateDbNames(Cli.Str(s), Cli.CROSS_DB).Ok?
    ensures var names := Cli.ValidateDbNames(Cli.Str(s), Cli.CROSS_DB).value.names;
            forall i :: 0 <= i < |names| ==> DbNameParts(names[i]) == [names[i]] && Target(names[i]) == names[i]
  {
    var names := Cli.ValidateDbNames(Cli.Str(s), Cli.CROSS_DB).value.names;
    Cli.CrossDbNamesHaveNoComma(s);
    forall i | 0 <= i < |names|
      ensures DbNameParts(names[i]) == [names[i]] && Target(names[i]) == names[i]
    {
      PlainNameIsItsOwnTarget(names[i]);
    }
  }

  /** With comma-free names, the databases opened are exactly the names. */
  lemma {:induction false} AllPartsOfPlainNames(names: seq<string>)
    requires forall i :: 0 <= i < |names| ==> ',' !in names[i]
    ensures AllParts(names) == Elements(names)
    decreases |names|
  {
    if names != [] {
      PlainNameIsItsOwnTarget(names[0]);
      AllPartsOfPlainNames(names[1..]);
      assert Elements(names) == {names[0]} + Elements(names[1..]);
    }
  }

  /** A comma-joined name opens a pool per piece but dispatches to the last. */
  lemma JoinedNameTargetsLastPiece(first: string, rest: string)
    requires ',' !in first
    ensures DbNameParts(first + [','] + rest) == [first] + Split(rest, ',')
    ensures Target(first + [','] + rest) == Target(rest)
  {
    JoinedNameParts(first, rest);
    var pieces := Split(rest, ',');
    assert DbNameParts(rest) == pieces by {
      if ',' !in rest {
        SplitWithoutSep(rest, ',');
      }
    }
    assert ([first] + pieces)[|pieces|] == pieces[|pieces| - 1];
  }

  lemma JoinedNameParts(first: string, rest: string)
    requires ',' !in first
    ensures DbNameParts(first + [','] + rest) == [first] + Split(rest, ',')
  {
    var s := first + [','] + rest;
    assert s[|first|] == ',';
    SplitWithoutSep(first, ',');
    SplitAppend(first, rest, ',');
  }

  /** `read_query`'s gate: the stripped, upper-cased text starts with SELECT. */
  predicate IsReadQuery(query: string) {
    StartsWith(Upper(Strip(query)), "SELECT")
  }

  /** The gate looks only at the leading text: trailing whitespace plays no
      part. */
  lemma ReadGateIgnoresTrailing(query: string)
    ensures IsReadQuery(query) <==> StartsWith(Upper(TrimLeft(query)), "SELECT")
  {
    var t := TrimLeft(query);
    var r := TrimRight(t);
    UpperOfPrefix(t, |r|);
    if StartsWith(Upper(t), "SELECT") {
      SelectPrefixIsNotSpace(t);
      TrimRightKeeps(t, 5);
    }
    PrefixAgreement(Upper(r), Upper(t), "SELECT");
  }

  lemma UpperOfPrefix(s: string, n: nat)
    requires n <= |s|
    ensures Upper(s[..n]) == Upper(s)[..n]
  {
  }

  lemma SelectPrefixIsNotSpace(t: string)
    requires StartsWith(Upper(t), "SELECT")
    ensures |t| >= 6 && !IsSpace(t[5])
  {
    assert Upper(t)[5] == 'T';
  }

  /** Two texts, one a prefix of the other and long enough, agree on a prefix. */
  lemma PrefixAgreement(a: string, b: string, p: string)
    requires |a| <= |b| && a == b[..|a|]
    requires StartsWith(b, p) ==> |p| <= |a|
    ensures StartsWith(a, p) <==> StartsWith(b, p)
  {
    if |p| <= |a| {
      assert a[..|p|] == b[..|p|];
    }
  }

  /** Whatever follows a leading SELECT, the gate admits it, a second
      statement included: the check is a prefix check only. */
  lemma ReadGateIsPrefixOnly(rest: string)
    ensures IsReadQuery("SELECT" + rest)
  {
    var q := "SELECT" + rest;
    assert TrimLeft(q) == q;
    assert Upper(q)[..6] == "SELECT";
    ReadGateIgnoresTrailing(q);
  }

  /** The rows `read_query` collects: for each configured name in order, the
      rows its query fetches on the database of the pool that name resolves to. */
  function Gather(names: seq<string>, query: string,
                  execute: (string, string) -> seq<Row>): seq<Row>
    decreases |names|
  {
    if names == [] then [] else execute(Target(names[0]), query) + Gather(names[1..], query, execute)
  }

  lemma {:induction false} GatherAppend(a: seq<string>, b: seq<string>, query: string,
                                        execute: (string, string) -> seq<Row>)
    ensures Gather(a + b, query, execute) == Gather(a, query, execute) + Gather(b, query, execute)
    decreases |a|
  {
    if a == [] {
      assert a + b == b;
    } else {
      assert (a + b)[0] == a[0] && (a + b)[1..] == a[1..] + b;
      GatherAppend(a[1..], b, query, execute);
    }
  }

  lemma GatherStep(names: seq<string>, i: nat, query: string, execute: (string, string) -> seq<Row>)
    requires i < |names|
    ensures Gather(names[..i + 1], query, execute)
            == Gather(names[..i], query, execute) + execute(Target(names[i]), query)
  {
    assert names[..i + 1] == names[..i] + [names[i]];
    GatherAppend(names[..i], [names[i]], query, execute);
  }

  /** The result is each name's rows in configured order: the rows fetched
      on the target database of `names[i]` sit after those of every earlier
      name and before those of every later one. */
  lemma {:induction false} GatherConcatenatesInOrder(names: seq<string>, query: string,
                                                     execute: (string, string) -> seq<Row>, i: nat)
    requires i < |names|
    ensures Gather(names, query, execute)
            == Gather(names[..i], query, execute) + execute(Target(names[i]), query)
               + Gather(names[i + 1..], query, execute)
  {
    assert names == names[..i] + [names[i]] + names[i + 1..];
    GatherAppend(names[..i] + [names[i]], names[i + 1..], query, execute);
    GatherAppend(names[..i], [names[i]], query, execute);
  }

  /** `db + "." + table` for every table of one database. */
  function Qualify(dbName: string, tables: seq<string>): set<string> {
    set t | t in tables :: dbName + "." + t
  }

  /** What `list_tables` collects: each configured name as prefix of the
      tables of the database its pool resolves to. */
  function Listing(names: seq<string>, showTables: string -> seq<string>): set<string>
    decreases |names|
  {
    if names == [] then {} else Qualify(names[0], showTables(Target(names[0]))) + Listing(names[1..], showTables)
  }

  lemma {:induction false} ListingAppend(a: seq<string>, b: seq<string>, showTables: string -> seq<string>)
    ensures Listing(a + b, showTables) == Listing(a, showTables) + Listing(b, showTables)
    decreases |a|
  {
    if a == [] {
      assert a + b == b;
    } else {
      assert (a + b)[0] == a[0] && (a + b)[1..] == a[1..] + b;
      ListingAppend(a[1..], b, showTables);
    }
  }

  lemma ListingStep(names: seq<string>, i: nat, showTables: string -> seq<string>)
    requires i < |names|
    ensures Listing(names[..i + 1], showTables)
            == Listing(names[..i], showTables) + Qualify(names[i], showTables(Target(names[i])))
  {
    assert names[..i + 1] == names[..i] + [names[i]];
    ListingAppend(names[..i], [names[i]], showTables);
  }

  /** A listed name is a configured name, a dot and a table of that name's
      database, and every such name is listed. */
  lemma {:induction false} ListingMembers(names: seq<string>, showTables: string -> seq<string>, x: string)
    ensures x in Listing(names, showTables) <==>
            exists i :: 0 <= i < |names| && x in Qualify(names[i], showTables(Target(names[i])))
    decreases |names|
  {
    if names != [] {
      ListingMembers(names[1..], showTables, x);
      if x in Listing(names[1..], showTables) {
        var i :| 0 <= i < |names[1..]| && x in Qualify(names[1..][i], showTables(Target(names[1..][i])));
        assert names[1..][i] == names[i + 1];
      }
      if exists i :: 0 <= i < |names| && x in Qualify(names[i], showTables(Target(names[i]))) {
        var i :| 0 <= i < |names| && x in Qualify(names[i], showTables(Target(names[i])));
        if i > 0 {
          assert names[1..][i - 1] == names[i];
        }
      }
    }
  }

  /** For a database name without a dot, the listed name splits back at its
      first dot into that database name. */
  lemma QualifiedNameSplitsBack(dbName: string, table: string)
    requires '.' !in dbName
    ensures Split(dbName + "." + table, '.')[0] == dbName
  {
    SplitWithoutSep(dbName, '.');
    SplitAppend(dbName, table, '.');
  }

  /** How many pools a pass over `parts` creates when `keys` already have
      one: a piece counts when neither `keys` nor an earlier piece has it. */
  function Creations(parts: seq<string>, keys: set<string>): nat
    decreases |parts|
  {
    if parts == [] then 0
    else
      var init := parts[..|parts| - 1];
      Creations(init, keys) + (if parts[|parts| - 1] in keys + Elements(init) then 0 else 1)
  }

  /** The pools a pass creates are exactly the names it adds: one per piece
      not yet a key, however often it is repeated. */
  lemma {:induction false} CreationsCountNewKeys(parts: seq<string>, keys: set<string>)
    ensures Creations(parts, keys) == |(keys + Elements(parts)) - keys|
    decreases |parts|
  {
    if parts == [] {
      assert (keys + Elements(parts)) - keys == {};
    } else {
      var init, last := parts[..|parts| - 1], parts[|parts| - 1];
      CreationsCountNewKeys(init, keys);
      assert parts == init + [last];
      assert Elements(parts) == Elements(init) + {last};
      NewKeysGrow(keys, Elements(init), last);
    }
  }

  lemma NewKeysGrow(keys: set<string>, seen: set<string>, name: string)
    ensures |(keys + (seen + {name})) - keys|
            == |(keys + seen) - keys| + (if name in keys + seen then 0 else 1)
  {
    var before := (keys + seen) - keys;
    if name in keys + seen {
      assert (keys + (seen + {name})) - keys == before;
    } else {
      assert (keys + (seen + {name})) - keys == before + {name};
    }
  }

  lemma CreationsStep(parts: seq<string>, i: nat, keys: set<string>)
    requires i < |parts|
    ensures Creations(parts[..i + 1], keys)
            == Creations(parts[..i], keys) + (if parts[i] in keys + Elements(parts[..i]) then 0 else 1)
  {
    assert parts[..i + 1][..i] == parts[..i];
  }

  /** A pass over names that all have pools creates none. */
  lemma KnownPartsCreateNothing(parts: seq<string>, keys: set<string>)
    requires Elements(parts) <= keys
    ensures Creations(parts, keys) == 0
  {
    CreationsCountNewKeys(parts, keys);
    assert (keys + Elements(parts)) - keys == {};
  }

  /** How many pools a pass of `get_pool` calls over `names` creates when
      `keys` already have one. */
  function CreationsOver(names: seq<string>, keys: set<string>): nat
    decreases |names|
  {
    if names == [] then 0
    else
      var init := names[..|names| - 1];
      CreationsOver(init, keys) + Creations(DbNameParts(names[|names| - 1]), keys + AllParts(init))
  }

  lemma CreationsOverStep(names: seq<string>, i: nat, keys: set<string>)
    requires i < |names|
    ensures CreationsOver(names[..i + 1], keys)
            == CreationsOver(names[..i], keys) + Creations(DbNameParts(names[i]), keys + AllParts(names[..i]))
  {
    assert names[..i + 1][..i] == names[..i];
  }

  /** The pools a pass of `get_pool` calls creates are exactly the names it
      adds: one per database not yet known, however many calls name it. */
  lemma {:induction false} CreationsOverCountNewKeys(names: seq<string>, keys: set<string>)
    ensures CreationsOver(names, keys) == |(keys + AllParts(names)) - keys|
    decreases |names|
  {
    if names == [] {
      assert (keys + AllParts(names)) - keys == {};
    } else {
      var n := |names| - 1;
      assert names[..n] == names[..|names| - 1];
      CreationsOverCountNewKeys(names[..n], keys);
      CreationsCountNewKeys(DbNameParts(names[n]), keys + AllParts(names[..n]));
      AllPartsStep(names, n);
      assert names[..n + 1] == names;
      NewKeysChain(keys, AllParts(names[..n]), PartSet(names[n]));
    }
  }

  /** New keys over two growth steps are those of the first plus those of
      the second. */
  lemma NewKeysChain(keys: set<string>, first: set<string>, second: set<string>)
    ensures |(keys + (first + second)) - keys|
            == |(keys + first) - keys| + |((keys + first) + second) - (keys + first)|
  {
    var x, y := (keys + first) - keys, ((keys + first) + second) - (keys + first);
    assert (keys + (first + second)) - keys == x + y;
    assert x * y == {};
  }

  /** The database manager: pools keyed by database name, created on first
      use and never replaced, and the append-only list of insights. */
  class DatabaseManager {
    var pools: map<string, Pool>
    var insights: seq<string>
    /** How many pools have been created: the identity of the next one. */
    var created: nat

    /** Each pool is opened on the database it is stored under (so no two
        names share a pool) and was created before the count was taken. */
    ghost predicate Valid()
      reads this
    {
      forall name | name in pools :: pools[name].db == name && pools[name].id < created
    }

    constructor ()
      ensures Valid() && pools == map[] && insights == [] && created == 0
    {
      pools := map[];
      insights := [];
      created := 0;
    }

    /** The body of `get_pool`'s loop: create a pool for `name` unless it
        already has one. */
    method EnsurePool(name: string)
      requires Valid()
      modifies this`pools, this`created
      ensures Valid()
      ensures name in old(pools) ==> pools == old(pools) && created == old(created)
      ensures name !in old(pools) ==> pools == old(pools)[name := Pool(old(created), name)]
                                      && created == old(created) + 1
    {
      if name !in pools {
        pools := pools[name := Pool(created, name)];
        created := created + 1;
      }
    }

    /** `get_pool`: make sure every piece of `dbName` has a pool, creating
        only the missing ones, and return the pool of the last piece. */
    method GetPool(dbName: string) returns (pool: Pool)
      requires Valid()
      modifies this`pools, this`created
      ensures Valid()
      ensures pools.Keys == old(pools.Keys) + PartSet(dbName)
      ensures forall name | name in old(pools) :: pools[name] == old(pools[name])
      ensures forall name | name in pools && name !in old(pools) :: old(created) <= pools[name].id
      ensures old(created) <= created <= old(created) + |DbNameParts(dbName)|
      ensures created == old(created) + Creations(DbNameParts(dbName), old(pools.Keys))
      ensures pool == pools[Target(dbName)] && pool.db == Target(dbName)
    {
      var parts := DbNameParts(dbName);
      var i := 0;
      while i < |parts|
        invariant 0 <= i <= |parts|
        invariant Valid()
        invariant pools.Keys == old(pools.Keys) + Elements(parts[..i])
        invariant forall name | name in old(pools) :: pools[name] == old(pools[name])
        invariant old(created) <= created <= old(created) + i
        invariant created == old(created) + Creations(parts[..i], old(pools.Keys))
        invariant forall name | name in pools && name !in old(pools) :: old(created) <= pools[name].id
      {
        EnsurePool(parts[i]);
        CreationsStep(parts, i, old(pools.Keys));
        PrefixSetStep(parts, i);
        i := i + 1;
      }
      assert parts[..i] == parts;
      pool := pools[parts[|parts| - 1]];
    }
  }

  /** The chat-insight server: the configured database names and table, and
      the handlers the protocol layer dispatches to. */
  class ChatInsightServer {
    const mode: string
    const dbNames: seq<string>
    const tableName: string
    const ssePath: string
    const manager: DatabaseManager

    /** The configured names are normalised to a list: a single string
        becomes a one-element list. */
    constructor (mode: string, dbNames: Cli.DbNames, tableName: string, ssePath: string)
      ensures this.dbNames == if dbNames.One? then [dbNames.name] else dbNames.names
      ensures this.mode == mode && this.tableName == tableName && this.ssePath == ssePath
      ensures fresh(manager) && manager.Valid() && manager.pools == map[] && manager.insights == []
    {
      this.mode := mode;
      this.dbNames := if dbNames.One? then [dbNames.name] else dbNames.names;
      this.tableName := tableName;
      this.ssePath := ssePath;
      manager := new DatabaseManager();
    }

    /** Start-up: open a pool for every configured name before serving. */
    method Start()
      requires manager.Valid()
      modifies manager`pools, manager`created
      ensures manager.Valid()
      ensures manager.pools.Keys == old(manager.pools.Keys) + AllParts(dbNames)
      ensures forall name | name in old(manager.pools) :: manager.pools[name] == old(manager.pools[name])
      ensures manager.created == old(manager.created) + CreationsOver(dbNames, old(manager.pools.Keys))
    {
      var i := 0;
      while i < |dbNames|
        invariant 0 <= i <= |dbNames|
        invariant manager.Valid()
        invariant manager.pools.Keys == old(manager.pools.Keys) + AllParts(dbNames[..i])
        invariant forall name | name in old(manager.pools) :: manager.pools[name] == old(manager.pools[name])
        invariant manager.created == old(manager.created) + CreationsOver(dbNames[..i], old(manager.pools.Keys))
      {
        var _ := manager.GetPool(dbNames[i]);
        AllPartsStep(dbNames, i);
        CreationsOverStep(dbNames, i, old(manager.pools.Keys));
        i := i + 1;
      }
      assert dbNames[..i] == dbNames;
    }

    /** The memo resource: only `memo_insights` is served, as the rendered memo. */
    method Resource(path: string) returns (r: Result<string, ServerError>)
      ensures r.Ok? <==> path == MEMO_PATH
      ensures r.Ok? ==> r.value == InsightMemo.Render(manager.insights)
      ensures r.Err? ==> r.error == UnknownResourcePath(path)
    {
      if path == [] || path != MEMO_PATH {
        return Err(UnknownResourcePath(path));
      }
      return Ok(InsightMemo.Render(manager.insights));
    }

    /** `read_query`: refuse anything but a SELECT before touching a pool;
        otherwise run the query on each configured name's pool in order and
        concatenate the rows. */
    method ReadQuery(query: string, execute: (string, string) -> seq<Row>)
      returns (r: Result<seq<Row>, ServerError>)
      requires manager.Valid()
      modifies manager`pools, manager`created
      ensures manager.Valid()
      ensures r.Ok? <==> IsReadQuery(query)
      ensures r.Err? ==> r.error == NotASelectQuery
                         && manager.pools == old(manager.pools) && manager.created == old(manager.created)
      ensures r.Ok? ==> r.value == Gather(dbNames, query, execute)
      ensures r.Ok? ==> manager.pools.Keys == old(manager.pools.Keys) + AllParts(dbNames)
      ensures r.Ok? ==> manager.created == old(manager.created) + CreationsOver(dbNames, old(manager.pools.Keys))
      ensures forall name | name in old(manager.pools) :: manager.pools[name] == old(manager.pools[name])
    {
      if !IsReadQuery(query) {
        return Err(NotASelectQuery);
      }
      var results := CollectRows(query, execute);
      return Ok(results);
    }

    /** The loop of `read_query`: each configured name's rows, in order. */
    method CollectRows(query: string, execute: (string, string) -> seq<Row>)
      returns (results: seq<Row>)
      requires manager.Valid()
      modifies manager`pools, manager`created
      ensures manager.Valid()
      ensures results == Gather(dbNames, query, execute)
      ensures manager.pools.Keys == old(manager.pools.Keys) + AllParts(dbNames)
      ensures forall name | name in old(manager.pools) :: manager.pools[name] == old(manager.pools[name])
      ensures manager.created == old(manager.created) + CreationsOver(dbNames, old(manager.pools.Keys))
    {
      results := [];
      var i := 0;
      while i < |dbNames|
        invariant 0 <= i <= |dbNames|
        invariant manager.Valid()
        invariant results == Gather(dbNames[..i], query, execute)
        invariant manager.pools.Keys == old(manager.pools.Keys) + AllParts(dbNames[..i])
        invariant forall name | name in old(manager.pools) :: manager.pools[name] == old(manager.pools[name])
        invariant manager.created == old(manager.created) + CreationsOver(dbNames[..i], old(manager.pools.Keys))
      {
        var pool := manager.GetPool(dbNames[i]);
        results := results + execute(pool.db, query);
        GatherStep(dbNames, i, query, execute);
        AllPartsStep(dbNames, i);
        CreationsOverStep(dbNames, i, old(manager.pools.Keys));
        i := i + 1;
      }
      assert dbNames[..i] == dbNames;
    }

    /** `list_tables`: every configured name, a dot and each table its pool's
        database lists, gathered into one set. */
    method ListTables(showTables: string -> seq<string>) returns (tables: set<string>)
      requires manager.Valid()
      modifies manager`pools, manager`created
      ensures manager.Valid()
      ensures tables == Listing(dbNames, showTables)
      ensures manager.pools.Keys == old(manager.pools.Keys) + AllParts(dbNames)
      ensures forall name | name in old(manager.pools) :: manager.pools[name] == old(manager.pools[name])
      ensures manager.created == old(manager.created) + CreationsOver(dbNames, old(manager.pools.Keys))
    {
      tables := {};
      var i := 0;
      while i < |dbNames|
        invariant 0 <= i <= |dbNames|
        invariant manager.Valid()
        invariant tables == Listing(dbNames[..i], showTables)
        invariant manager.pools.Keys == old(manager.pools.Keys) + AllParts(dbNames[..i])
        invariant forall name | name in old(manager.pools) :: manager.pools[name] == old(manager.pools[name])
        invariant manager.created == old(manager.created) + CreationsOver(dbNames[..i], old(manager.pools.Keys))
      {
        var pool := manager.GetPool(dbNames[i]);
        tables := tables + Qualify(dbNames[i], showTables(pool.db));
        ListingStep(dbNames, i, showTables);
        AllPartsStep(dbNames, i);
        CreationsOverStep(dbNames, i, old(manager.pools.Keys));
        i := i + 1;
      }
      assert dbNames[..i] == dbNames;
    }

    /** `append_insight`: add the insight at the end of the list, leaving the
        pools untouched, and announce the memo resource as updated. The
        announced URI binds the path the memo resource serves. */
    method AppendInsight(insight: string) returns (reply: string, announced: string)
      modifies manager`insights
      ensures manager.insights == old(manager.insights) + [insight]
      ensures reply == INSIGHT_ADDED
      ensures TemplatePath(announced) == Ok(MEMO_PATH)
    {
      manager.insights := manager.insights + [insight];
      announced := MEMO_URI;
      TemplateBindsPath(MEMO_PATH);
      reply := INSIGHT_ADDED;
    }
  }
}
