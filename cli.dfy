/** The command-line validation done by the package entry point before the
    server starts: database names per mode, the table name, and the SSE
    port and path. */
module Cli {
  import opened Results
  import opened Text

  /** The kinds of Python value the validators tell apart with `isinstance`. */
  datatype Arg = Str(s: string) | List(items: seq<string>) | OtherValue

  /** Validated database names: one string in single-database mode, a list
      in cross-database mode. */
  datatype DbNames = One(name: string) | Many(names: seq<string>)

  /** The `ValueError`s the validators raise, one per message. */
  datatype CliError =
    | DbNamesNotStringOrList
    | EmptyDbName
    | TooFewDbNames
    | DbNameNotString
    | TableNameNotString
    | EmptyTableName
    | PortOutOfRange
    | SsePathWithoutLeadingSlash
    | SsePathWithoutSseSuffix

  const CROSS_DB := "cross_db"
  const SSE := "sse"
  const MIN_PORT := 1024
  const MAX_PORT := 65535

  function StripEach(names: seq<string>): (r: seq<string>)
    ensures |r| == |names|
    ensures forall i :: 0 <= i < |names| ==> r[i] == Strip(names[i])
  {
    seq(|names|, i requires 0 <= i < |names| => Strip(names[i]))
  }

  /** The names cross-database validation checks: the comma-separated pieces
      of a string, or the elements of a list, each stripped. */
  function CrossDbCandidates(dbNames: Arg): Result<seq<string>, CliError> {
    match dbNames
    case Str(s) => Ok(StripEach(Split(s, ',')))
    case List(items) => Ok(StripEach(items))
    case OtherValue => Err(DbNamesNotStringOrList)
  }

  predicate HasEmptyName(names: seq<string>) {
    exists i :: 0 <= i < |names| && names[i] == []
  }

  /** `validate_db_names`. In cross-database mode every name is stripped and
      must be non-empty, and there must be at least two; the emptiness check
      comes first. In any other mode the argument must be a string, and it is
      returned as it is. */
  function ValidateDbNames(dbNames: Arg, mode: string): (r: Result<DbNames, CliError>)
    ensures mode == CROSS_DB && r.Ok? ==>
              r.value.Many? && |r.value.names| >= 2
              && forall i :: 0 <= i < |r.value.names| ==> r.value.names[i] != []
    ensures mode != CROSS_DB ==> (r.Ok? <==> dbNames.Str?)
    ensures mode != CROSS_DB && r.Ok? ==> r.value == One(dbNames.s)
    ensures mode != CROSS_DB && !dbNames.Str? ==> r == Err(DbNameNotString)
  {
    if mode == CROSS_DB then
      match CrossDbCandidates(dbNames)
      case Err(e) => Err(e)
      case Ok(names) =>
        if HasEmptyName(names) then Err(EmptyDbName)
        else if |names| < 2 then Err(TooFewDbNames)
        else Ok(Many(names))
    else if dbNames.Str? then Ok(One(dbNames.s))
    else Err(DbNameNotString)
  }

  /** Cross-database names come out stripped: validating them again as a
      list gives them back unchanged. */
  lemma CrossDbNamesAreStripped(dbNames: Arg)
    requires ValidateDbNames(dbNames, CROSS_DB).Ok?
    ensures var names := ValidateDbNames(dbNames, CROSS_DB).value.names;
            ValidateDbNames(List(names), CROSS_DB) == Ok(Many(names))
  {
    var names := ValidateDbNames(dbNames, CROSS_DB).value.names;
    var raw := if dbNames.Str? then Split(dbNames.s, ',') else dbNames.items;
    forall i | 0 <= i < |names| ensures Strip(names[i]) == names[i] {
      assert names[i] == Strip(raw[i]);
      StripIdempotent(raw[i]);
    }
    assert StripEach(names) == names;
  }

  /** Cross-database names given as one string: success exactly when there
      is a comma and no piece is blank; then the names are the stripped
      pieces, one more than there are commas. */
  lemma CrossDbFromString(s: string)
    ensures var r := ValidateDbNames(Str(s), CROSS_DB);
            var pieces := Split(s, ',');
            && (r.Ok? <==> multiset(s)[','] >= 1
                           && forall i :: 0 <= i < |pieces| ==> !AllSpace(pieces[i]))
            && (r.Ok? ==> && |r.value.names| == multiset(s)[','] + 1
                          && forall i :: 0 <= i < |pieces| ==> r.value.names[i] == Strip(pieces[i]))
  {
    SplitCount(s, ',');
    var pieces := Split(s, ',');
    var names := StripEach(pieces);
    forall i | 0 <= i < |pieces| ensures names[i] == [] <==> AllSpace(pieces[i]) {
      assert names[i] == Strip(pieces[i]);
    }
  }

  /** A blank name is reported before a short list: whatever the count,
      cross-database validation fails with the empty-name error. */
  lemma EmptyNameReportedFirst(dbNames: Arg, i: nat)
    requires CrossDbCandidates(dbNames).Ok?
    requires i < |CrossDbCandidates(dbNames).value|
    requires CrossDbCandidates(dbNames).value[i] == []
    ensures ValidateDbNames(dbNames, CROSS_DB) == Err(EmptyDbName)
  {
  }

  /** A single non-blank name is too few for cross-database mode. */
  lemma SingleNameIsTooFew(name: string)
    requires ',' !in name && !AllSpace(name)
    ensures ValidateDbNames(Str(name), CROSS_DB) == Err(TooFewDbNames)
  {
    SplitWithoutSep(name, ',');
    var names := StripEach([name]);
    assert names[0] == Strip(name);
    assert |names| == 1;
  }

  /** An empty piece between two commas is reported even when there are
      enough names. */
  lemma EmptyPieceIsRejected(first: string, rest: string)
    requires ',' !in first
    ensures ValidateDbNames(Str(first + ",," + rest), CROSS_DB) == Err(EmptyDbName)
  {
    var s := first + ",," + rest;
    assert s == first + [','] + ([] + [','] + rest);
    SplitWithoutSep(first, ',');
    SplitWithoutSep([], ',');
    SplitAppend([], rest, ',');
    SplitAppend(first, [] + [','] + rest, ',');
    assert Split(s, ',')[1] == [];
    assert CrossDbCandidates(Str(s)).value[1] == Strip([]);
  }

  /** Two comma-free, non-blank names around a comma are accepted, each
      stripped. */
  lemma TwoNamesAreAccepted(first: string, second: string)
    requires ',' !in first && ',' !in second
    requires !AllSpace(first) && !AllSpace(second)
    ensures ValidateDbNames(Str(first + [','] + second), CROSS_DB)
            == Ok(Many([Strip(first), Strip(second)]))
  {
    TwoPieces(first, second);
    NoBlankOfTwo(first, second);
  }

  lemma NoBlankOfTwo(first: string, second: string)
    requires !AllSpace(first) && !AllSpace(second)
    ensures !HasEmptyName([Strip(first), Strip(second)])
  {
    var names := [Strip(first), Strip(second)];
    assert names[0] != [] && names[1] != [];
  }

  lemma TwoPieces(first: string, second: string)
    requires ',' !in first && ',' !in second
    ensures CrossDbCandidates(Str(first + [','] + second)) == Ok([Strip(first), Strip(second)])
  {
    var s := first + [','] + second;
    SplitTwo(first, second);
    StripTwo(first, second);
    assert CrossDbCandidates(Str(s)) == Ok(StripEach(Split(s, ',')));
  }

  lemma StripTwo(first: string, second: string)
    ensures StripEach([first, second]) == [Strip(first), Strip(second)]
  {
    var r := StripEach([first, second]);
    assert r[0] == Strip(first);
    assert r[1] == Strip(second);
  }

  lemma SplitTwo(first: string, second: string)
    requires ',' !in first && ',' !in second
    ensures Split(first + [','] + second, ',') == [first, second]
  {
    SplitWithoutSep(first, ',');
    SplitWithoutSep(second, ',');
    SplitAppend(first, second, ',');
  }

  /** Cross-database names given as a list keep their number and order,
      each stripped; any other kind of value is refused. */
  lemma CrossDbFromList(dbNames: Arg)
    ensures dbNames.OtherValue? ==>
              ValidateDbNames(dbNames, CROSS_DB) == Err(DbNamesNotStringOrList)
    ensures dbNames.List? ==>
              (ValidateDbNames(dbNames, CROSS_DB).Ok? <==>
                 |dbNames.items| >= 2 && forall i :: 0 <= i < |dbNames.items| ==> !AllSpace(dbNames.items[i]))
    ensures dbNames.List? && |dbNames.items| < 2
            && (forall i :: 0 <= i < |dbNames.items| ==> !AllSpace(dbNames.items[i])) ==>
              ValidateDbNames(dbNames, CROSS_DB) == Err(TooFewDbNames)
    ensures dbNames.List? && ValidateDbNames(dbNames, CROSS_DB).Ok? ==>
              var names := ValidateDbNames(dbNames, CROSS_DB).value.names;
              |names| == |dbNames.items|
              && forall i :: 0 <= i < |names| ==> names[i] == Strip(dbNames.items[i])
  {
    if dbNames.List? {
      var names := StripEach(dbNames.items);
      forall i | 0 <= i < |names| ensures names[i] == [] <==> AllSpace(dbNames.items[i]) {
        assert names[i] == Strip(dbNames.items[i]);
      }
    }
  }

  /** Names validated from a string never contain a comma. */
  lemma CrossDbNamesHaveNoComma(s: string)
    requires ValidateDbNames(Str(s), CROSS_DB).Ok?
    ensures forall i :: 0 <= i < |ValidateDbNames(Str(s), CROSS_DB).value.names| ==>
              ',' !in ValidateDbNames(Str(s), CROSS_DB).value.names[i]
  {
    var pieces := Split(s, ',');
    var names := ValidateDbNames(Str(s), CROSS_DB).value.names;
    forall i | 0 <= i < |names| ensures ',' !in names[i] {
      StripKeepsAbsence(pieces[i], ',');
    }
  }

  /** `validate_table_name`: a string that is not blank, returned stripped. */
  function ValidateTableName(tableName: Arg): (r: Result<string, CliError>)
    ensures r.Ok? <==> tableName.Str? && !AllSpace(tableName.s)
    ensures r.Ok? ==> r.value != [] && r.value == Strip(tableName.s)
    ensures !tableName.Str? ==> r == Err(TableNameNotString)
    ensures tableName.Str? && AllSpace(tableName.s) ==> r == Err(EmptyTableName)
  {
    if !tableName.Str? then Err(TableNameNotString)
    else if Strip(tableName.s) == [] then Err(EmptyTableName)
    else Ok(Strip(tableName.s))
  }

  /** A validated table name passes validation again unchanged. */
  lemma TableNameIdempotent(tableName: Arg)
    requires ValidateTableName(tableName).Ok?
    ensures ValidateTableName(Str(ValidateTableName(tableName).value)) == ValidateTableName(tableName)
  {
    StripIdempotent(tableName.s);
  }

  /** The SSE checks of the entry point: with transport `sse` the port must
      lie in 1024..65535 and the path must start with `/` and end with `/sse`;
      other transports are not checked. The first failing check is reported. */
  function ValidateSse(transport: string, port: int, ssePath: string): (r: Outcome<CliError>)
    ensures r.Pass? <==> transport != SSE
                         || (MIN_PORT <= port <= MAX_PORT
                             && StartsWith(ssePath, "/") && EndsWith(ssePath, "/sse"))
    ensures r == Fail(PortOutOfRange) <==> transport == SSE && !(MIN_PORT <= port <= MAX_PORT)
    ensures transport == SSE && MIN_PORT <= port <= MAX_PORT && !StartsWith(ssePath, "/") ==>
              r == Fail(SsePathWithoutLeadingSlash)
    ensures transport == SSE && MIN_PORT <= port <= MAX_PORT
            && StartsWith(ssePath, "/") && !EndsWith(ssePath, "/sse") ==>
              r == Fail(SsePathWithoutSseSuffix)
  {
    if transport == SSE then
      if !(MIN_PORT <= port <= MAX_PORT) then Fail(PortOutOfRange)
      else if !StartsWith(ssePath, "/") then Fail(SsePathWithoutLeadingSlash)
      else if !EndsWith(ssePath, "/sse") then Fail(SsePathWithoutSseSuffix)
      else Pass
    else Pass
  }

  /** The validated settings the server is started with. */
  datatype Config = Config(mode: string, dbNames: DbNames, tableName: string,
                           transport: string, port: int, ssePath: string)

  /** The validation part of the entry point: database names, then the table
      name, then the SSE settings; the first failure is reported. `--db` and
      `--table` always arrive as strings. */
  function ValidateArgs(mode: string, db: string, table: string,
                        transport: string, port: int, ssePath: string): (r: Result<Config, CliError>)
    ensures r.Ok? <==> ValidateDbNames(Str(db), mode).Ok? && ValidateTableName(Str(table)).Ok?
                       && ValidateSse(transport, port, ssePath).Pass?
    ensures ValidateDbNames(Str(db), mode).Err? ==> r == Err(ValidateDbNames(Str(db), mode).error)
    ensures ValidateDbNames(Str(db), mode).Ok? && ValidateTableName(Str(table)).Err? ==>
              r == Err(ValidateTableName(Str(table)).error)
    ensures ValidateDbNames(Str(db), mode).Ok? && ValidateTableName(Str(table)).Ok?
            && ValidateSse(transport, port, ssePath).Fail? ==>
              r == Err(ValidateSse(transport, port, ssePath).error)
    ensures r.Ok? ==> r.value == Config(mode, ValidateDbNames(Str(db), mode).value,
                                       ValidateTableName(Str(table)).value, transport, port, ssePath)
  {
    match ValidateDbNames(Str(db), mode)
    case Err(e) => Err(e)
    case Ok(names) =>
      match ValidateTableName(Str(table))
      case Err(e) => Err(e)
      case Ok(name) =>
        match ValidateSse(transport, port, ssePath)
        case Fail(e) => Err(e)
        case Pass => Ok(Config(mode, names, name, transport, port, ssePath))
  }
}
