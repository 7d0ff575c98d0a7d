/**
 * The spreadsheet exchange of menus: the template written for the food catalogue, and
 * the import of a sheet of (menu, food, grams for group 1, grams for group 2) rows
 * into the menu store.
 */
module ExcelMinutas {
  import opened Wrappers
  import Text
  import Numbers
  import Models

  /** `HEADERS`: the first row of the template sheet. */
  const Headers: seq<string> := ["minuta", "alimento", "gramos_grupo_1", "gramos_grupo_2"]

  // ---------------------------------------------------------------------------
  // Cells and rows

  /** A cell value as the workbook reader returns it: empty, text, or a number. */
  datatype Cell = Blank | TextCell(s: string) | Number(d: Numbers.Decimal)

  /** Python truthiness of a cell value. */
  predicate Truthy(c: Cell) {
    match c
    case Blank => false
    case TextCell(s) => s != []
    case Number(d) => Numbers.Value(d) != 0.0
  }

  /** `str(value)`: an empty cell reads as "None". */
  function Str(c: Cell): string {
    match c
    case Blank => "None"
    case TextCell(s) => s
    case Number(d) => Numbers.Render(d)
  }

  /** `str(value or "")`. */
  function NameText(c: Cell): string {
    if Truthy(c) then Str(c) else ""
  }

  /** `(row + (None,) * 4)[:4]`: a row cut or padded with empty cells to four cells. */
  function PadRow(row: seq<Cell>): (cells: seq<Cell>)
    ensures |cells| == 4
    ensures forall i :: 0 <= i < 4 ==> cells[i] == if i < |row| then row[i] else Blank
  {
    (row + [Blank, Blank, Blank, Blank])[..4]
  }

  /** No cell of the four is truthy. */
  predicate BlankRow(cells: seq<Cell>)
    requires |cells| == 4
  {
    !(Truthy(cells[0]) || Truthy(cells[1]) || Truthy(cells[2]) || Truthy(cells[3]))
  }

  /** `float(str(value).replace(",", "."))`. */
  function ParseGrams(c: Cell): Option<real> {
    Numbers.ParseDecimal(Models.CommaToPoint(Str(c)))
  }

  /** A row that is not blank and names both a menu and a food. */
  predicate HasNames(cells: seq<Cell>)
    requires |cells| == 4
  {
    !BlankRow(cells) && !Models.AllSpace(NameText(cells[0])) && !Models.AllSpace(NameText(cells[1]))
  }

  /** Both grams cells read as numbers. */
  predicate GramsRead(cells: seq<Cell>)
    requires |cells| == 4
  {
    ParseGrams(cells[2]).Some? && ParseGrams(cells[3]).Some?
  }

  /** Both grams cells read as numbers above zero. */
  predicate GramsPositive(cells: seq<Cell>)
    requires |cells| == 4
  {
    GramsRead(cells) && ParseGrams(cells[2]).value > 0.0 && ParseGrams(cells[3]).value > 0.0
  }

  /** The errors that abort an import, each naming the sheet row it was raised on. */
  datatype ImportError =
    | MissingNames(row: int)                     // "Fila {idx}: 'minuta' y 'alimento' son obligatorios."
    | InvalidGrams(row: int, alimento: string)   // "Fila {idx}: gramos inválidos para '{alimento}'."
    | NonPositiveGrams(row: int)                 // "Fila {idx}: los gramos deben ser mayores a 0."

  /** What a row asks of the store once it has been read. */
  datatype RowAction =
    | Skip
    | UnknownFood(alimento: string)
    | Upsert(minuta: string, foodId: int, g1: real, g2: real)

  /**
   * The reading of sheet row `idx`: a blank row is skipped; a row without a menu or a
   * food name, or whose grams are not numbers, or not above zero, aborts; a food not in
   * `alimentos` (keyed by lower-cased normalised name) is reported; any other row
   * upserts its grams for the named menu.
   */
  function ClassifyRow(alimentos: map<string, int>, idx: int, row: seq<Cell>): (r: Result<RowAction, ImportError>)
    ensures r.Err? ==> r.error.row == idx
    ensures r == Ok(Skip) <==> BlankRow(PadRow(row))
    ensures r == Err(MissingNames(idx)) <==>
      !BlankRow(PadRow(row)) &&
      (Models.AllSpace(NameText(PadRow(row)[0])) || Models.AllSpace(NameText(PadRow(row)[1])))
    ensures r.Ok? && r.value.UnknownFood? ==>
      r.value.alimento == Models.NormalizeName(NameText(PadRow(row)[1])) &&
      r.value.alimento != [] && Text.Lower(r.value.alimento) !in alimentos
    ensures r.Ok? && r.value.Upsert? ==>
      && r.value.minuta == Models.NormalizeName(NameText(PadRow(row)[0])) && r.value.minuta != []
      && Models.CanonicalName(NameText(PadRow(row)[1])) in alimentos
      && r.value.foodId == alimentos[Models.CanonicalName(NameText(PadRow(row)[1]))]
      && ParseGrams(PadRow(row)[2]) == Some(r.value.g1) && r.value.g1 > 0.0
      && ParseGrams(PadRow(row)[3]) == Some(r.value.g2) && r.value.g2 > 0.0
  {
    var cells := PadRow(row);
    if BlankRow(cells) then Ok(Skip)
    else
      var minutaName := Models.NormalizeName(NameText(cells[0]));
      var alimentoName := Models.NormalizeName(NameText(cells[1]));
      Models.NormalizeNameFacts(NameText(cells[0]));
      Models.NormalizeNameFacts(NameText(cells[1]));
      if minutaName == [] || alimentoName == [] then Err(MissingNames(idx))
      else
        var g1, g2 := ParseGrams(cells[2]), ParseGrams(cells[3]);
        if g1.None? || g2.None? then Err(InvalidGrams(idx, alimentoName))
        else if g1.value <= 0.0 || g2.value <= 0.0 then Err(NonPositiveGrams(idx))
        else
          var key := Text.Lower(alimentoName);
          if key !in alimentos then Ok(UnknownFood(alimentoName))
          else Ok(Upsert(minutaName, alimentos[key], g1.value, g2.value))
  }

  /**
   * Which outcome a named row gets, each exactly when its case holds: grams that are not
   * numbers abort naming the food, whether or not the food is known; grams not above zero
   * abort; otherwise the food is reported when unknown and upserted when known.
   */
  lemma ClassifyRowOutcomes(alimentos: map<string, int>, idx: int, row: seq<Cell>)
    ensures ClassifyRow(alimentos, idx, row) == Err(InvalidGrams(idx, Models.NormalizeName(NameText(PadRow(row)[1])))) <==>
      HasNames(PadRow(row)) && !GramsRead(PadRow(row))
    ensures ClassifyRow(alimentos, idx, row) == Err(NonPositiveGrams(idx)) <==>
      HasNames(PadRow(row)) && GramsRead(PadRow(row)) && !GramsPositive(PadRow(row))
    ensures ClassifyRow(alimentos, idx, row).Ok? && ClassifyRow(alimentos, idx, row).value.UnknownFood? <==>
      HasNames(PadRow(row)) && GramsPositive(PadRow(row))
      && Models.CanonicalName(NameText(PadRow(row)[1])) !in alimentos
    ensures ClassifyRow(alimentos, idx, row).Ok? && ClassifyRow(alimentos, idx, row).value.Upsert? <==>
      HasNames(PadRow(row)) && GramsPositive(PadRow(row))
      && Models.CanonicalName(NameText(PadRow(row)[1])) in alimentos
  {
    if !HasNames(PadRow(row)) {
      ClassifyUnnamed(alimentos, idx, row);
    } else if !GramsRead(PadRow(row)) {
      ClassifyBadGrams(alimentos, idx, row);
    } else if !GramsPositive(PadRow(row)) {
      ClassifyNotPositive(alimentos, idx, row);
    } else {
      ClassifyPositive(alimentos, idx, row);
    }
  }

  /** A row without both names is skipped or aborts for the missing names. */
  lemma ClassifyUnnamed(alimentos: map<string, int>, idx: int, row: seq<Cell>)
    requires !HasNames(PadRow(row))
    ensures ClassifyRow(alimentos, idx, row) == Ok(Skip) || ClassifyRow(alimentos, idx, row) == Err(MissingNames(idx))
  {
    Models.NormalizeNameFacts(NameText(PadRow(row)[0]));
    Models.NormalizeNameFacts(NameText(PadRow(row)[1]));
  }

  /** A named row whose grams do not both read as numbers aborts naming its food. */
  lemma ClassifyBadGrams(alimentos: map<string, int>, idx: int, row: seq<Cell>)
    requires HasNames(PadRow(row)) && !GramsRead(PadRow(row))
    ensures ClassifyRow(alimentos, idx, row) == Err(InvalidGrams(idx, Models.NormalizeName(NameText(PadRow(row)[1]))))
  {
    Models.NormalizeNameFacts(NameText(PadRow(row)[0]));
    Models.NormalizeNameFacts(NameText(PadRow(row)[1]));
  }

  /** A named row whose grams read but are not both above zero aborts. */
  lemma ClassifyNotPositive(alimentos: map<string, int>, idx: int, row: seq<Cell>)
    requires HasNames(PadRow(row)) && GramsRead(PadRow(row)) && !GramsPositive(PadRow(row))
    ensures ClassifyRow(alimentos, idx, row) == Err(NonPositiveGrams(idx))
  {
    Models.NormalizeNameFacts(NameText(PadRow(row)[0]));
    Models.NormalizeNameFacts(NameText(PadRow(row)[1]));
  }

  /** A named row with grams above zero is upserted when its food is known, reported otherwise. */
  lemma ClassifyPositive(alimentos: map<string, int>, idx: int, row: seq<Cell>)
    requires HasNames(PadRow(row)) && GramsPositive(PadRow(row))
    ensures ClassifyRow(alimentos, idx, row).Ok?
    ensures ClassifyRow(alimentos, idx, row).value.Upsert? <==> Models.CanonicalName(NameText(PadRow(row)[1])) in alimentos
    ensures ClassifyRow(alimentos, idx, row).value.UnknownFood? <==> Models.CanonicalName(NameText(PadRow(row)[1])) !in alimentos
  {
    Models.NormalizeNameFacts(NameText(PadRow(row)[0]));
    Models.NormalizeNameFacts(NameText(PadRow(row)[1]));
    ClassifyPositiveValue(alimentos, idx, row);
  }

  lemma ClassifyPositiveValue(alimentos: map<string, int>, idx: int, row: seq<Cell>)
    requires !BlankRow(PadRow(row))
    requires Models.NormalizeName(NameText(PadRow(row)[0])) != [] && Models.NormalizeName(NameText(PadRow(row)[1])) != []
    requires ParseGrams(PadRow(row)[2]).Some? && ParseGrams(PadRow(row)[3]).Some?
    requires ParseGrams(PadRow(row)[2]).value > 0.0 && ParseGrams(PadRow(row)[3]).value > 0.0
    ensures ClassifyRow(alimentos, idx, row) ==
      if Models.CanonicalName(NameText(PadRow(row)[1])) in alimentos then
        Ok(Upsert(Models.NormalizeName(NameText(PadRow(row)[0])),
                  alimentos[Models.CanonicalName(NameText(PadRow(row)[1]))],
                  ParseGrams(PadRow(row)[2]).value, ParseGrams(PadRow(row)[3]).value))
      else Ok(UnknownFood(Models.NormalizeName(NameText(PadRow(row)[1]))))
  {
  }

  /** An empty cell reads as "None", which is not a number. */
  lemma BlankNotNumber()
    ensures ParseGrams(Blank) == None
  {
    assert Models.CommaToPoint("None") == "None";
    Numbers.ParseDecimalRejects("None");
  }

  /** A named row whose first grams cell is empty aborts: "None" is not a number. */
  lemma EmptyGramsAbort(alimentos: map<string, int>, idx: int, minuta: string, alimento: string, g: Cell)
    requires !Models.AllSpace(minuta) && !Models.AllSpace(alimento)
    ensures ClassifyRow(alimentos, idx, [TextCell(minuta), TextCell(alimento), Blank, g])
         == Err(InvalidGrams(idx, Models.NormalizeName(alimento)))
  {
    var row := [TextCell(minuta), TextCell(alimento), Blank, g];
    NamedRowFacts(row, minuta, alimento);
    BlankNotNumber();
  }

  /** A named row cut short before its second grams cell aborts the same way. */
  lemma ShortRowAbort(alimentos: map<string, int>, idx: int, minuta: string, alimento: string, g: Cell)
    requires !Models.AllSpace(minuta) && !Models.AllSpace(alimento)
    ensures ClassifyRow(alimentos, idx, [TextCell(minuta), TextCell(alimento), g])
         == Err(InvalidGrams(idx, Models.NormalizeName(alimento)))
  {
    var row := [TextCell(minuta), TextCell(alimento), g];
    NamedRowFacts(row, minuta, alimento);
    BlankNotNumber();
  }

  lemma NamedRowFacts(row: seq<Cell>, minuta: string, alimento: string)
    requires |row| >= 2 && row[0] == TextCell(minuta) && row[1] == TextCell(alimento)
    requires !Models.AllSpace(minuta) && !Models.AllSpace(alimento)
    ensures !BlankRow(PadRow(row))
    ensures NameText(PadRow(row)[0]) == minuta && NameText(PadRow(row)[1]) == alimento
    ensures Models.NormalizeName(minuta) != [] && Models.NormalizeName(alimento) != []
  {
    assert minuta != [] && alimento != [];
    Models.NormalizeNameFacts(minuta);
    Models.NormalizeNameFacts(alimento);
  }

  /** A numeric grams cell is read as its exact value, whatever its sign. */
  lemma NumberCellGrams(d: Numbers.Decimal)
    ensures ParseGrams(Number(d)) == Some(Numbers.Value(d))
  {
    var s := Numbers.Render(d);
    Models.RenderNoComma(d);
    assert Models.CommaToPoint(s) == s;
    Numbers.RenderRoundTrip(d);
  }

  // ---------------------------------------------------------------------------
  // The store the import writes to

  /** A listed row of the food or menu table: its id and its name. */
  datatype NamedRow = NamedRow(id: int, nombre: string)

  /**
   * `{normalize_name(r["nombre"]).lower(): r["id"] for r in rows}`: every canonical name
   * maps to the id of the last row that has it.
   */
  function IndexByName(rows: seq<NamedRow>): map<string, int> {
    if rows == [] then map[]
    else IndexByName(rows[..|rows| - 1])[Models.CanonicalName(rows[|rows| - 1].nombre) := rows[|rows| - 1].id]
  }

  /** The index holds the canonical name of every row. */
  lemma {:induction false} IndexByNameHasAll(rows: seq<NamedRow>)
    ensures forall i :: 0 <= i < |rows| ==> Models.CanonicalName(rows[i].nombre) in IndexByName(rows)
  {
    if rows != [] {
      var init := rows[..|rows| - 1];
      IndexByNameHasAll(init);
      forall i | 0 <= i < |rows| - 1
        ensures Models.CanonicalName(rows[i].nombre) in IndexByName(rows)
      {
        assert rows[i] == init[i];
      }
    }
  }

  /** Each key of the index maps to the id of a row with that canonical name. */
  lemma {:induction false} IndexByNameIds(rows: seq<NamedRow>)
    ensures forall key :: key in IndexByName(rows) ==>
      exists i :: 0 <= i < |rows| && Models.CanonicalName(rows[i].nombre) == key && IndexByName(rows)[key] == rows[i].id
  {
    if rows != [] {
      var init := rows[..|rows| - 1];
      var last := |rows| - 1;
      IndexByNameIds(init);
      var index := IndexByName(rows);
      forall key | key in index
        ensures exists i :: 0 <= i < |rows| && Models.CanonicalName(rows[i].nombre) == key && index[key] == rows[i].id
      {
        if key == Models.CanonicalName(rows[last].nombre) {
          assert index[key] == rows[last].id;
        } else {
          assert key in IndexByName(init);
          var i :| 0 <= i < |init| && Models.CanonicalName(init[i].nombre) == key && IndexByName(init)[key] == init[i].id;
          assert rows[i] == init[i];
        }
      }
    }
  }

  /** The later of two rows with the same canonical name wins. */
  lemma {:induction false} IndexByNameLastWins(rows: seq<NamedRow>, i: nat)
    requires i < |rows|
    requires forall j :: i < j < |rows| ==> Models.CanonicalName(rows[j].nombre) != Models.CanonicalName(rows[i].nombre)
    ensures Models.CanonicalName(rows[i].nombre) in IndexByName(rows)
    ensures IndexByName(rows)[Models.CanonicalName(rows[i].nombre)] == rows[i].id
  {
    if i < |rows| - 1 {
      var init := rows[..|rows| - 1];
      IndexByNameLastWins(init, i);
    }
  }

  /** The menu table and the menu items, as the import sees and changes them. */
  datatype Store = Store(menus: seq<NamedRow>, items: map<(int, int), (real, real)>, nextMenuId: int)

  /** The import's counters and its list of foods not found. */
  datatype Summary = Summary(
    rowsProcessed: nat,
    minutasCreated: nat,
    minutasUpdated: nat,
    itemsUpserted: nat,
    unknownFoods: seq<string>)

  /** Where the import stands: its summary, its menu index and the store. */
  datatype Progress = Progress(summary: Summary, minutas: map<string, int>, store: Store)

  /** An unknown food is listed, unless it already is. */
  function NoteUnknown(p: Progress, name: string): Progress {
    if name in p.summary.unknownFoods then p
    else p.(summary := p.summary.(unknownFoods := p.summary.unknownFoods + [name]))
  }

  /**
   * An upsert row finds its menu by lower-cased name, creating and indexing it when
   * absent, stores the grams under (menu, food) and counts the row.
   */
  function UpsertRow(p: Progress, minuta: string, foodId: int, g1: real, g2: real): (r: Progress)
    ensures r.minutas.Keys == p.minutas.Keys + {Text.Lower(minuta)}
    ensures forall key :: key in p.minutas ==> r.minutas[key] == p.minutas[key]
    ensures Text.Lower(minuta) !in p.minutas ==>
      && r.minutas[Text.Lower(minuta)] == p.store.nextMenuId
      && r.store.menus == p.store.menus + [NamedRow(p.store.nextMenuId, minuta)]
      && r.summary.minutasCreated == p.summary.minutasCreated + 1
    ensures Text.Lower(minuta) in p.minutas ==>
      r.store.menus == p.store.menus && r.summary.minutasUpdated == p.summary.minutasUpdated + 1
    ensures r.store.items == p.store.items[(r.minutas[Text.Lower(minuta)], foodId) := (g1, g2)]
    ensures r.summary.rowsProcessed == p.summary.rowsProcessed + 1
  {
    var key := Text.Lower(minuta);
    var s := p.summary.(itemsUpserted := p.summary.itemsUpserted + 1, rowsProcessed := p.summary.rowsProcessed + 1);
    if key !in p.minutas then
      var id := p.store.nextMenuId;
      Progress(
        s.(minutasCreated := s.minutasCreated + 1),
        p.minutas[key := id],
        Store(p.store.menus + [NamedRow(id, minuta)], p.store.items[(id, foodId) := (g1, g2)], id + 1))
    else
      var id := p.minutas[key];
      Progress(
        s.(minutasUpdated := s.minutasUpdated + 1),
        p.minutas,
        p.store.(items := p.store.items[(id, foodId) := (g1, g2)]))
  }

  /** The effect of one read row on the import's progress. */
  function Apply(p: Progress, action: RowAction): Progress {
    match action
    case Skip => p
    case UnknownFood(name) => NoteUnknown(p, name)
    case Upsert(minuta, foodId, g1, g2) => UpsertRow(p, minuta, foodId, g1, g2)
  }

  /** The result of reading one row. */
  type Read = Result<RowAction, ImportError>

  /** Every data row read in turn; the first is sheet row 2. */
  function ReadRows(alimentos: map<string, int>, rows: seq<seq<Cell>>): (results: seq<Read>)
    ensures |results| == |rows|
  {
    if rows == [] then []
    else ReadRows(alimentos, rows[..|rows| - 1]) + [ClassifyRow(alimentos, |rows| + 1, rows[|rows| - 1])]
  }

  /** The progress after some rows, and the error that stopped them, if any. */
  datatype Outcome = Outcome(progress: Progress, error: Option<ImportError>)

  /** Read rows are applied in order until one is an error; what earlier rows wrote stays written. */
  function Run(start: Progress, results: seq<Read>): Outcome {
    if results == [] then Outcome(start, None)
    else
      var before := Run(start, results[..|results| - 1]);
      if before.error.Some? then before
      else
        match results[|results| - 1]
        case Err(e) => Outcome(before.progress, Some(e))
        case Ok(action) => Outcome(Apply(before.progress, action), None)
  }

  /** The progress before any row: zero counters, the menu index snapshot, the store as found. */
  function Start(store: Store): Progress {
    Progress(Summary(0, 0, 0, 0, []), IndexByName(store.menus), store)
  }

  /** `import_minutas` on the data rows, with `foods` the food table and `store` as found. */
  function Import(foods: seq<NamedRow>, store: Store, rows: seq<seq<Cell>>): Outcome {
    Run(Start(store), ReadRows(IndexByName(foods), rows))
  }

  // ---------------------------------------------------------------------------
  // Properties of the import

  /** The counters agree after every applied row. */
  predicate CountersAgree(s: Summary) {
    s.rowsProcessed == s.itemsUpserted == s.minutasCreated + s.minutasUpdated
  }

  predicate NoDuplicates(names: seq<string>) {
    forall i, j :: 0 <= i < j < |names| ==> names[i] != names[j]
  }

  /**
   * What every prefix of the import keeps, relative to where it started: the counters
   * agree, the unknown foods are listed once each, the menu index only grows (a cached
   * id is never replaced), and each created menu is one new key of the index and one
   * new row appended to the menu table.
   */
  predicate Keeps(start: Progress, p: Progress) {
    && CountersAgree(p.summary)
    && NoDuplicates(p.summary.unknownFoods)
    && (forall key :: key in start.minutas ==> key in p.minutas && p.minutas[key] == start.minutas[key])
    && p.summary.minutasCreated >= start.summary.minutasCreated
    && |p.minutas.Keys| == |start.minutas.Keys| + p.summary.minutasCreated - start.summary.minutasCreated
    && |p.store.menus| == |start.store.menus| + p.summary.minutasCreated - start.summary.minutasCreated
    && p.store.menus[..|start.store.menus|] == start.store.menus
  }

  lemma AddKeyCard(m: map<string, int>, key: string, v: int)
    requires key !in m
    ensures |m[key := v].Keys| == |m.Keys| + 1
  {
    assert m[key := v].Keys == m.Keys + {key};
  }

  lemma UpsertKeeps(start: Progress, p: Progress, minuta: string, foodId: int, g1: real, g2: real)
    requires Keeps(start, p)
    ensures Keeps(start, UpsertRow(p, minuta, foodId, g1, g2))
  {
    var key := Text.Lower(minuta);
    if key !in p.minutas {
      AddKeyCard(p.minutas, key, p.store.nextMenuId);
      var menus := p.store.menus + [NamedRow(p.store.nextMenuId, minuta)];
      assert menus[..|start.store.menus|] == p.store.menus[..|start.store.menus|];
    }
  }

  lemma ApplyKeeps(start: Progress, p: Progress, action: RowAction)
    requires Keeps(start, p)
    ensures Keeps(start, Apply(p, action))
  {
    match action
    case Skip =>
    case UnknownFood(name) =>
    case Upsert(minuta, foodId, g1, g2) =>
      UpsertKeeps(start, p, minuta, foodId, g1, g2);
  }

  /**
   * However the import ends: the counters agree, no unknown food is listed twice, the
   * snapshot's menu ids are kept, and `minutas_created` is both the number of new menu
   * keys and the number of new menu rows.
   */
  lemma {:induction false} RunKeeps(start: Progress, results: seq<Read>)
    requires Keeps(start, start)
    ensures Keeps(start, Run(start, results).progress)
  {
    if results != [] {
      var before := Run(start, results[..|results| - 1]);
      RunKeeps(start, results[..|results| - 1]);
      if before.error.None? && results[|results| - 1].Ok? {
        ApplyKeeps(start, before.progress, results[|results| - 1].value);
      }
    }
  }

  lemma ImportKeeps(foods: seq<NamedRow>, store: Store, rows: seq<seq<Cell>>)
    ensures Keeps(Start(store), Import(foods, store, rows).progress)
  {
    var s := Start(store);
    assert s.store.menus[..|s.store.menus|] == s.store.menus;
    RunKeeps(s, ReadRows(IndexByName(foods), rows));
  }

  /** The snapshot the import starts from keeps itself. */
  lemma StartKeeps(store: Store)
    ensures Keeps(Start(store), Start(store))
  {
    assert Start(store).store.menus[..|Start(store).store.menus|] == Start(store).store.menus;
  }

  /** A progress that some start keeps also keeps itself. */
  lemma KeepsSelf(start: Progress, p: Progress)
    requires Keeps(start, p)
    ensures Keeps(p, p)
  {
    assert p.store.menus[..|p.store.menus|] == p.store.menus;
  }

  /** Running two stretches of rows one after the other is running them together. */
  lemma {:induction false} RunAppend(start: Progress, a: seq<Read>, b: seq<Read>)
    ensures Run(start, a + b) ==
      if Run(start, a).error.Some? then Run(start, a) else Run(Run(start, a).progress, b)
  {
    if b == [] {
      assert a + b == a;
    } else {
      var init := b[..|b| - 1];
      RunAppend(start, a, init);
      assert (a + b)[..|a + b| - 1] == a + init;
    }
  }

  /**
   * Every later point of a run keeps every earlier one: in particular a menu id created
   * by one row is the id later rows with the same key write to.
   */
  lemma RunPrefixesKeep(start: Progress, results: seq<Read>, j: nat, k: nat)
    requires Keeps(start, start) && j <= k <= |results|
    ensures Keeps(Run(start, results[..j]).progress, Run(start, results[..k]).progress)
  {
    assert results[..k] == results[..j] + results[j..k];
    RunAppend(start, results[..j], results[j..k]);
    RunKeeps(start, results[..j]);
    KeepsSelf(start, Run(start, results[..j]).progress);
    RunKeeps(Run(start, results[..j]).progress, results[j..k]);
  }

  /** The import after `k` rows keeps what it had after `j <= k` rows. */
  lemma ImportPrefixesKeep(foods: seq<NamedRow>, store: Store, rows: seq<seq<Cell>>, j: nat, k: nat)
    requires j <= k <= |rows|
    ensures Keeps(Import(foods, store, rows[..j]).progress, Import(foods, store, rows[..k]).progress)
  {
    StartPrefixesKeep(store, ReadRows(IndexByName(foods), rows[..k]), j, k);
    ImportAsRunPrefix(foods, store, rows, j, k);
  }

  /** Two prefixes of a run from the snapshot: the later keeps the earlier. */
  lemma StartPrefixesKeep(store: Store, results: seq<Read>, j: nat, k: nat)
    requires j <= k <= |results|
    ensures Keeps(Run(Start(store), results[..j]).progress, Run(Start(store), results[..k]).progress)
  {
    StartKeeps(store);
    RunPrefixesKeep(Start(store), results, j, k);
  }

  /** The imports of two prefixes of the rows are two prefixes of one run. */
  lemma ImportAsRunPrefix(foods: seq<NamedRow>, store: Store, rows: seq<seq<Cell>>, j: nat, k: nat)
    requires j <= k <= |rows|
    ensures Import(foods, store, rows[..j]).progress == Run(Start(store), ReadRows(IndexByName(foods), rows[..k])[..j]).progress
    ensures Import(foods, store, rows[..k]).progress == Run(Start(store), ReadRows(IndexByName(foods), rows[..k])[..k]).progress
  {
    ReadRowsPrefix(IndexByName(foods), rows[..k], j);
    assert rows[..k][..j] == rows[..j];
    assert ReadRows(IndexByName(foods), rows[..k])[..k] == ReadRows(IndexByName(foods), rows[..k]);
  }

  /** The menu key a row action looks up: the lower-cased menu name of an upsert. */
  function ActionKeys(action: RowAction): set<string> {
    if action.Upsert? then {Text.Lower(action.minuta)} else {}
  }

  /** The menu keys of every row read as an upsert. */
  function UpsertKeys(results: seq<Read>): set<string> {
    if results == [] then {}
    else
      UpsertKeys(results[..|results| - 1])
      + (if results[|results| - 1].Ok? then ActionKeys(results[|results| - 1].value) else {})
  }

  /** A row action adds its menu key, if any, to the index, and no other key. */
  lemma ApplyKeys(p: Progress, action: RowAction)
    ensures Apply(p, action).minutas.Keys == p.minutas.Keys + ActionKeys(action)
  {
  }

  /** A run that did not stop has indexed exactly the start's keys and those of its upserts. */
  lemma {:induction false} RunMenuKeys(start: Progress, results: seq<Read>)
    ensures Run(start, results).error.None? ==>
      Run(start, results).progress.minutas.Keys == start.minutas.Keys + UpsertKeys(results)
  {
    if results != [] {
      RunMenuKeys(start, results[..|results| - 1]);
      if Run(start, results[..|results| - 1]).error.None? && results[|results| - 1].Ok? {
        ApplyKeys(Run(start, results[..|results| - 1]).progress, results[|results| - 1].value);
      }
    }
  }

  /**
   * After an import, the menu index holds the snapshot's keys and the lower-cased menu
   * name of each upsert row before the stop (of every upsert row, when nothing stopped
   * it), and no other key.
   */
  lemma ImportMenuKeys(foods: seq<NamedRow>, store: Store, rows: seq<seq<Cell>>)
    ensures Import(foods, store, rows).error.None? ==>
      Import(foods, store, rows).progress.minutas.Keys
        == IndexByName(store.menus).Keys + UpsertKeys(ReadRows(IndexByName(foods), rows))
    ensures Import(foods, store, rows).error.Some? ==>
      exists k :: 0 <= k < |rows|
        && Import(foods, store, rows).error.value.row == k + 2
        && Import(foods, store, rows).progress.minutas.Keys
             == IndexByName(store.menus).Keys + UpsertKeys(ReadRows(IndexByName(foods), rows[..k]))
  {
    RunMenuKeys(Start(store), ReadRows(IndexByName(foods), rows));
    if Import(foods, store, rows).error.Some? {
      ImportStopsAtError(foods, store, rows);
      var k :| 0 <= k < |rows|
        && Import(foods, store, rows[..k]).error.None?
        && Import(foods, store, rows).error.value.row == k + 2
        && Import(foods, store, rows).progress == Import(foods, store, rows[..k]).progress;
      RunMenuKeys(Start(store), ReadRows(IndexByName(foods), rows[..k]));
    }
  }

  lemma ReadRowsAppend(alimentos: map<string, int>, rows: seq<seq<Cell>>, row: seq<Cell>)
    ensures ReadRows(alimentos, rows + [row]) == ReadRows(alimentos, rows) + [ClassifyRow(alimentos, |rows| + 2, row)]
  {
    assert (rows + [row])[..|rows|] == rows;
  }

  /** Reading a prefix of the rows gives the same prefix of results. */
  lemma {:induction false} ReadRowsPrefix(alimentos: map<string, int>, rows: seq<seq<Cell>>, k: nat)
    requires k <= |rows|
    ensures ReadRows(alimentos, rows)[..k] == ReadRows(alimentos, rows[..k])
  {
    if k < |rows| {
      var init := rows[..|rows| - 1];
      ReadRowsPrefix(alimentos, init, k);
      assert init[..k] == rows[..k];
      assert ReadRows(alimentos, rows)[..k] == ReadRows(alimentos, init)[..k];
    } else {
      assert rows[..k] == rows;
    }
  }

  /** The result at position `k` is the reading of sheet row `k + 2`. */
  lemma {:induction false} ReadRowsAt(alimentos: map<string, int>, rows: seq<seq<Cell>>, k: nat)
    requires k < |rows|
    ensures ReadRows(alimentos, rows)[k] == ClassifyRow(alimentos, k + 2, rows[k])
  {
    if k < |rows| - 1 {
      var init := rows[..|rows| - 1];
      ReadRowsAt(alimentos, init, k);
      assert init[k] == rows[k];
    }
  }

  /** A row that reads as blank changes nothing, wherever it stands. */
  lemma BlankRowSkipped(foods: seq<NamedRow>, store: Store, rows: seq<seq<Cell>>, row: seq<Cell>)
    requires BlankRow(PadRow(row))
    ensures Import(foods, store, rows + [row]) == Import(foods, store, rows)
  {
    var alimentos := IndexByName(foods);
    var results := ReadRows(alimentos, rows + [row]);
    ReadRowsAppend(alimentos, rows, row);
    assert results[..|results| - 1] == ReadRows(alimentos, rows);
  }

  /** A row whose food is unknown writes nothing to the store and counts nothing. */
  lemma UnknownFoodWritesNothing(p: Progress, name: string)
    ensures Apply(p, UnknownFood(name)).store == p.store
    ensures Apply(p, UnknownFood(name)).minutas == p.minutas
    ensures Apply(p, UnknownFood(name)).summary == p.summary.(unknownFoods := Apply(p, UnknownFood(name)).summary.unknownFoods)
    ensures Apply(p, UnknownFood(name)).summary.unknownFoods
         == if name in p.summary.unknownFoods then p.summary.unknownFoods else p.summary.unknownFoods + [name]
  {
  }

  /** A stopped run stopped at its first error, keeping what the rows before it did. */
  lemma {:induction false} RunStopsAtError(start: Progress, results: seq<Read>)
    requires Run(start, results).error.Some?
    ensures exists k :: (0 <= k < |results|
      && Run(start, results[..k]).error.None?
      && results[k] == Err(Run(start, results).error.value)
      && Run(start, results).progress == Run(start, results[..k]).progress)
  {
    var init := results[..|results| - 1];
    var before := Run(start, init);
    if before.error.Some? {
      RunStopsAtError(start, init);
      var k :| 0 <= k < |init|
        && Run(start, init[..k]).error.None?
        && init[k] == Err(before.error.value)
        && before.progress == Run(start, init[..k]).progress;
      assert init[..k] == results[..k];
    } else {
      assert results[..|results| - 1] == init;
    }
  }

  /**
   * An import that aborts does so at sheet row `k + 2`, the first row whose reading fails,
   * with that row's error, and leaves the store as the rows before it left it: nothing
   * is rolled back.
   */
  lemma ImportStopsAtError(foods: seq<NamedRow>, store: Store, rows: seq<seq<Cell>>)
    requires Import(foods, store, rows).error.Some?
    ensures exists k :: (0 <= k < |rows|
      && Import(foods, store, rows[..k]).error.None?
      && ClassifyRow(IndexByName(foods), k + 2, rows[k]) == Err(Import(foods, store, rows).error.value)
      && Import(foods, store, rows).error.value.row == k + 2
      && Import(foods, store, rows).progress == Import(foods, store, rows[..k]).progress)
  {
    RunStopsAtError(Start(store), ReadRows(IndexByName(foods), rows));
    var k :| 0 <= k < |ReadRows(IndexByName(foods), rows)|
      && Run(Start(store), ReadRows(IndexByName(foods), rows)[..k]).error.None?
      && ReadRows(IndexByName(foods), rows)[k] == Err(Run(Start(store), ReadRows(IndexByName(foods), rows)).error.value)
      && Run(Start(store), ReadRows(IndexByName(foods), rows)).progress
         == Run(Start(store), ReadRows(IndexByName(foods), rows)[..k]).progress;
    ReadRowsPrefix(IndexByName(foods), rows, k);
    ReadRowsAt(IndexByName(foods), rows, k);
  }

  /** One more read row, after a prefix that has not stopped. */
  lemma RunStep(start: Progress, results: seq<Read>, i: nat)
    requires i < |results| && Run(start, results[..i]).error.None?
    ensures Run(start, results[..i + 1]) == match results[i]
      case Err(e) => Outcome(Run(start, results[..i]).progress, Some(e))
      case Ok(action) => Outcome(Apply(Run(start, results[..i]).progress, action), None)
  {
    assert results[..i + 1][..i] == results[..i];
  }

  /** Once a prefix has stopped, the whole run ends as that prefix did. */
  lemma {:induction false} RunErrorSticks(start: Progress, results: seq<Read>, n: nat)
    requires n <= |results| && Run(start, results[..n]).error.Some?
    ensures Run(start, results) == Run(start, results[..n])
    decreases |results| - n
  {
    if n < |results| {
      assert results[..n + 1][..n] == results[..n];
      RunErrorSticks(start, results, n + 1);
    } else {
      assert results[..n] == results;
    }
  }

  // ---------------------------------------------------------------------------
  // The menu store and the import loop

  /** The store behind the `models` calls the import makes. */
  class MenuBook {
    /** `list_alimentos()`: the food table, read only here. */
    var foods: seq<NamedRow>
    /** `list_minutas()`: the menu table. */
    var menus: seq<NamedRow>
    /** The grams of each (menu id, food id) pair, one entry per pair. */
    var items: map<(int, int), (real, real)>
    var nextMenuId: int

    /** Menu ids lie below the next id to hand out. */
    ghost predicate Valid()
      reads this
    {
      forall i :: 0 <= i < |menus| ==> menus[i].id < nextMenuId
    }

    function State(): Store
      reads this
    {
      Store(menus, items, nextMenuId)
    }

    constructor (foods: seq<NamedRow>, menus: seq<NamedRow>, nextMenuId: int)
      requires forall i :: 0 <= i < |menus| ==> menus[i].id < nextMenuId
      ensures Valid() && this.foods == foods && this.menus == menus
      ensures items == map[] && this.nextMenuId == nextMenuId
    {
      this.foods, this.menus, this.items, this.nextMenuId := foods, menus, map[], nextMenuId;
    }

    /** `create_minuta`: a new menu row under a fresh id. */
    method CreateMenu(nombre: string) returns (id: int)
      requires Valid()
      modifies this`menus, this`nextMenuId
      ensures Valid()
      ensures id == old(nextMenuId) && nextMenuId == id + 1
      ensures menus == old(menus) + [NamedRow(id, nombre)]
      ensures forall i :: 0 <= i < |old(menus)| ==> old(menus)[i].id != id
    {
      id := nextMenuId;
      menus := menus + [NamedRow(id, nombre)];
      nextMenuId := nextMenuId + 1;
    }

    /** `add_or_update_item`: the one entry of (menu, food) now holds these grams. */
    method AddOrUpdateItem(minutaId: int, alimentoId: int, g1: real, g2: real)
      modifies this`items
      ensures items == old(items)[(minutaId, alimentoId) := (g1, g2)]
    {
      items := items[(minutaId, alimentoId) := (g1, g2)];
    }
  }

  /**
   * The body of the import loop for a row that has been read: the unknown food is
   * listed, or the menu is found or created and the item upserted.
   */
  method ApplyRow(book: MenuBook, summary: Summary, minutas: map<string, int>, action: RowAction)
    returns (nextSummary: Summary, nextMinutas: map<string, int>)
    requires book.Valid()
    modifies book
    ensures book.Valid() && book.foods == old(book.foods)
    ensures Progress(nextSummary, nextMinutas, book.State()) == Apply(Progress(summary, minutas, old(book.State())), action)
  {
    nextSummary, nextMinutas := summary, minutas;
    match action {
      case Skip =>
      case UnknownFood(name) =>
        if name !in summary.unknownFoods {
          nextSummary := summary.(unknownFoods := summary.unknownFoods + [name]);
        }
      case Upsert(minutaName, alimentoId, g1, g2) =>
        var key := Text.Lower(minutaName);
        var minutaId;
        if key !in minutas {
          minutaId := book.CreateMenu(minutaName);
          nextMinutas := minutas[key := minutaId];
          nextSummary := nextSummary.(minutasCreated := nextSummary.minutasCreated + 1);
        } else {
          minutaId := minutas[key];
          nextSummary := nextSummary.(minutasUpdated := nextSummary.minutasUpdated + 1);
        }
        book.AddOrUpdateItem(minutaId, alimentoId, g1, g2);
        nextSummary := nextSummary.(itemsUpserted := nextSummary.itemsUpserted + 1);
        nextSummary := nextSummary.(rowsProcessed := nextSummary.rowsProcessed + 1);
    }
  }

  /**
   * `import_minutas` over the data rows of the sheet (sheet rows 2 onwards). The
   * store ends as `Import` says, whether the import succeeds or aborts, and the result
   * is the summary or the error that stopped it.
   */
  method ImportMinutas(book: MenuBook, rows: seq<seq<Cell>>) returns (r: Result<Summary, ImportError>)
    requires book.Valid()
    modifies book
    ensures book.Valid() && book.foods == old(book.foods)
    ensures book.State() == Import(old(book.foods), old(book.State()), rows).progress.store
    ensures r == match Import(old(book.foods), old(book.State()), rows).error
                 case None => Ok(Import(old(book.foods), old(book.State()), rows).progress.summary)
                 case Some(e) => Err(e)
  {
    var summary := Summary(0, 0, 0, 0, []);
    var alimentos := IndexByName(book.foods);
    var minutas := IndexByName(book.menus);
    ghost var start := Start(book.State());
    ghost var results := ReadRows(alimentos, rows);
    var i := 0;
    while i < |rows|
      invariant 0 <= i <= |rows|
      invariant book.Valid() && book.foods == old(book.foods)
      invariant Run(start, results[..i]) == Outcome(Progress(summary, minutas, book.State()), None)
    {
      RunStep(start, results, i);
      var action := ClassifyRow(alimentos, i + 2, rows[i]);
      ReadRowsAt(alimentos, rows, i);
      if action.Err? {
        RunErrorSticks(start, results, i + 1);
        return Err(action.error);
      }
      summary, minutas := ApplyRow(book, summary, minutas, action.value);
      i := i + 1;
    }
    assert results[..|rows|] == results;
    r := Ok(summary);
  }

  // ---------------------------------------------------------------------------
  // The template

  /** Python's `<=` on strings: lexicographic order of code points. */
  predicate LexLe(a: string, b: string)
    decreases |a|
  {
    a == [] || (b != [] && (a[0] < b[0] || (a[0] == b[0] && LexLe(a[1..], b[1..]))))
  }

  lemma {:induction false} LexLeTotal(a: string, b: string)
    ensures LexLe(a, b) || LexLe(b, a)
    decreases |a|
  {
    if a != [] && b != [] && a[0] == b[0] {
      LexLeTotal(a[1..], b[1..]);
    }
  }

  lemma {:induction false} LexLeTrans(a: string, b: string, c: string)
    requires LexLe(a, b) && LexLe(b, c)
    ensures LexLe(a, c)
    decreases |a|
  {
    if a != [] && b != [] && c != [] && a[0] == b[0] == c[0] {
      LexLeTrans(a[1..], b[1..], c[1..]);
    }
  }

  /** Ordered by lower-cased name. */
  predicate SortedByLower(names: seq<string>) {
    forall i, j :: 0 <= i < j < |names| ==> LexLe(Text.Lower(names[i]), Text.Lower(names[j]))
  }

  /** `x` placed after every name of `names` whose lower-cased form is not above its own. */
  function InsertByLower(x: string, names: seq<string>): (r: seq<string>)
    ensures multiset(r) == multiset(names) + multiset{x}
  {
    if names == [] then [x]
    else if !LexLe(Text.Lower(names[0]), Text.Lower(x)) then [x] + names
    else
      assert names == [names[0]] + names[1..];
      [names[0]] + InsertByLower(x, names[1..])
  }

  lemma {:induction false} InsertByLowerSorted(x: string, names: seq<string>)
    requires SortedByLower(names)
    ensures SortedByLower(InsertByLower(x, names))
  {
    if names != [] {
      if !LexLe(Text.Lower(names[0]), Text.Lower(x)) {
        LexLeTotal(Text.Lower(names[0]), Text.Lower(x));
        forall j | 0 <= j < |names|
          ensures LexLe(Text.Lower(x), Text.Lower(names[j]))
        {
          if j > 0 {
            LexLeTrans(Text.Lower(x), Text.Lower(names[0]), Text.Lower(names[j]));
          }
        }
      } else {
        InsertByLowerSorted(x, names[1..]);
        var r := InsertByLower(x, names[1..]);
        forall k | 0 <= k < |r|
          ensures LexLe(Text.Lower(names[0]), Text.Lower(r[k]))
        {
          assert r[k] in multiset(r);
          assert r[k] == x || r[k] in multiset(names[1..]);
          if r[k] != x {
            var j :| 0 <= j < |names[1..]| && names[1..][j] == r[k];
            assert names[j + 1] == r[k];
          }
        }
      }
    }
  }

  /** `sorted(names, key=lambda x: x.lower())`: the names, reordered by lower-cased form. */
  function SortByLower(names: seq<string>): (r: seq<string>)
    ensures multiset(r) == multiset(names) && SortedByLower(r)
  {
    if names == [] then []
    else
      var rest := SortByLower(names[..|names| - 1]);
      InsertByLowerSorted(names[|names| - 1], rest);
      assert names == names[..|names| - 1] + [names[|names| - 1]];
      InsertByLower(names[|names| - 1], rest)
  }

  /** The names of the listed foods, in listing order. */
  function Names(foods: seq<NamedRow>): (names: seq<string>)
    ensures |names| == |foods|
  {
    seq(|foods|, k requires 0 <= k < |foods| => foods[k].nombre)
  }

  /** One template row per name: an empty menu, the name, empty grams. */
  function TemplateRows(names: seq<string>): (rows: seq<seq<string>>)
    ensures |rows| == |names|
  {
    seq(|names|, k requires 0 <= k < |names| => ["", names[k], "", ""])
  }

  /** The second column of some rows ("" where a row is shorter). */
  function Column(rows: seq<seq<string>>): (column: seq<string>)
    ensures |column| == |rows|
  {
    seq(|rows|, k requires 0 <= k < |rows| => if |rows[k]| >= 2 then rows[k][1] else "")
  }

  lemma ColumnOfTemplate(names: seq<string>)
    ensures Column(TemplateRows(names)) == names
  {
  }

  lemma TemplateRowsPrefix(names: seq<string>, i: nat)
    requires i < |names|
    ensures TemplateRows(names[..i + 1]) == TemplateRows(names[..i]) + [["", names[i], "", ""]]
  {
  }

  /**
   * The rows `export_template` appends to the "Minutas" sheet: `HEADERS`, then one row
   * with an empty menu, the food's name and empty grams for each food, in order of
   * lower-cased name.
   */
  method ExportTemplate(foods: seq<NamedRow>) returns (sheet: seq<seq<string>>)
    ensures |sheet| == |foods| + 1 && sheet[0] == Headers
    ensures forall k :: 1 <= k < |sheet| ==> |sheet[k]| == 4 && sheet[k][0] == sheet[k][2] == sheet[k][3] == ""
    ensures multiset(Column(sheet[1..])) == multiset(Names(foods))
    ensures SortedByLower(Column(sheet[1..]))
  {
    var alimentosNombres := SortByLower(Names(foods));
    assert |alimentosNombres| == |multiset(alimentosNombres)| == |foods|;
    sheet := AppendTemplateRows(alimentosNombres);
    assert sheet[1..] == TemplateRows(alimentosNombres);
    ColumnOfTemplate(alimentosNombres);
  }

  /** The loop of `export_template`: after the header, one template row per name, in order. */
  method AppendTemplateRows(names: seq<string>) returns (sheet: seq<seq<string>>)
    ensures sheet == [Headers] + TemplateRows(names)
  {
    sheet := [Headers];
    var i := 0;
    while i < |names|
      invariant 0 <= i <= |names|
      invariant sheet == [Headers] + TemplateRows(names[..i])
    {
      TemplateRowsPrefix(names, i);
      sheet := sheet + [["", names[i], "", ""]];
      i := i + 1;
    }
    assert names[..i] == names;
  }
}
