# Minutas catalogue — a Dafny model

This project models the core of a childcare menu catalogue. The catalogue keeps foods
(*alimentos*), gardens (*jardines*), menus (*minutas*) and the grams of each food in a
menu. Around that store sit four pieces of logic, each modelled here:

- **Names** (`models.py`). Whitespace is collapsed and trimmed. Two names clash when their
  lower-cased forms agree. Blank names are refused. Gram quantities are read with a
  decimal comma or point and must be above zero. The store operations insert, rename,
  upsert, update and delete rows.
- **The spreadsheet exchange** (`excel_minutas.py`). The template lists every food, sorted
  by lower-cased name. The import reads (menu, food, grams, grams) rows from sheet row 2
  on. It creates menus on first use and upserts one item per (menu, food). It reports
  unknown foods. It stops at the first bad row, and rows already written stay written.
- **The weekly order** (`ui_weekly_order.py`). Food names are keyed by trimming,
  collapsing whitespace and case-folding. Foods in the pound list are ordered in pounds:
  grams over 500, rounded half up. Every other food is shown in grams, without trailing
  zeros. Integer fields must be non-negative. A menu can be added to the week only when
  some menu is not yet assigned.
- **Seeding** (`seed.py`). The initial food names are inserted in display form. A name is
  skipped when its key is already stored or was already inserted in the same run.

The model is split into these modules:

| module | role |
|---|---|
| `Wrappers` | the `Option` and `Result` types |
| `Text` | Python's whitespace, `split()`, `" ".join`, `strip()`, `lower()` and `casefold()` |
| `Numbers` | exact decimals, `float()` and `int()` on decimal literals, and `str()` of numbers |
| `Models` | the catalogue, as a `Catalog` class over maps |
| `ExcelMinutas` | the import loop, proved against the function `Import`, and the template |
| `WeeklyOrder` | the order line and the week's candidate menus |
| `Seed` | the seeding loop over a `FoodTable` class, proved against `SeedRun` |

Python floats are modelled as exact decimals (`Numbers.Decimal`). A numeric cell holds
one; `float(text)` is modelled as the exact real the literal denotes.

The Tomato case deserves a note. The seed list has "Tomate de árbol"
(`src/seed.py:76`). The pound list has "Tomate de arbol" (`src/ui_weekly_order.py:60`).
Case folding keeps the accent, so the two keys differ (`WeeklyOrder.TomateDeArbol`): the
pound entry meant for this fruit does not match the seeded food. No other pound name is
spelt like it either, so the food is shown in grams; that last step is read off the list.

`seed.py` imports `normalize_food_name` from `models`, but `models.py` defines no such
function. The model uses the definition in `ui_weekly_order.py:10-11`.

The files do not share one interface, and the model takes each caller's view. The import
calls `models.create_minuta` and `models.add_or_update_item` (with two gram values),
which `models.py` does not define. It also calls `models.list_alimentos()`
(`src/excel_minutas.py:42`, `:83`), and the week's picker calls `models.list_minutas()`
(`src/ui_weekly_order.py:203`), both with no connection; `models.py` requires one
(`src/models.py:22`, `:74`), and a garden id for `list_minutas`. Finally, `models.py`
writes the `minutas.jardin_id` and `minuta_items.gramos` columns (`src/models.py:89`,
`:144`, `:151`), which `db.py` migrates away (`src/db.py:51`, `:80-81`, `:88`). So the
import writes to its own `ExcelMinutas.MenuBook`, `WeeklyOrder.AddMinutaSemana` takes
the listed menus as a parameter, and the menu-item table of `db.py` is not part of this
model.

## Model

| member | source | states |
|---|---|---|
| Text.SplitEmpty | src/models.py:7-8 | `split()` returns no words exactly when every character is whitespace |
| Text.JoinSplit | src/models.py:7-8 | a normalised name is rebuilt unchanged by splitting and joining its words |
| Text.CaseFoldIdempotent | src/ui_weekly_order.py:10-11 | case folding twice is folding once, and folding after lower-casing is folding |
| Numbers.RenderRoundTrip | src/models.py:122 | `float()` of the positional text of an exact decimal is its value, for either sign |
| Numbers.ParseDecimalRejects | src/models.py:121-124 | `float()` rejects a text whose first character is neither blank nor a digit, sign or point |
| Numbers.IntToStringRoundTrip | src/ui_weekly_order.py:280 | `int()` of `str(i)` is `i` |
| Models.NormalizeNameFacts | src/models.py:7-8 | the normalised name has single inner spaces and no outer spaces; it keeps the words of the input; it is empty exactly for a blank input |
| Models.NormalizeName | src/models.py:7-8 | `normalize_name`: the words of `split()` joined by single spaces, then stripped (no contract; `NormalizeNameFacts` and `NormalizeNameIdempotent` state its properties) |
| Models.CanonicalName | src/models.py:11-12 | `canonical_name`: the lower-cased normalised name (no contract; `CanonicalNameFacts` states its properties) |
| Models.NormalizeNameIdempotent | src/models.py:7-8 | normalising twice is normalising once |
| Models.CanonicalNameFacts | src/models.py:11-12 | the canonical name is normalised, lower-case and its own canonical name; it ignores prior normalisation |
| Models.ValidateNonEmpty | src/models.py:15-19 | Ok exactly for a non-blank name, holding its non-empty normalised form; otherwise the error names the field |
| Models.ParseGramos | src/models.py:120-128 | Ok exactly when the comma-to-point text is a number above 0, and then with that number; "not a number" exactly when it is no number; "not above 0" exactly when it is a number at most 0 |
| Models.ParseGramosRender | src/models.py:120-128 | a rendered decimal reads back as its value when positive, and as "not positive" otherwise |
| Models.ParseGramosComma | src/models.py:122 | a decimal comma reads exactly like a decimal point |
| Models.Catalog.AddFood | src/models.py:26-35 | fails exactly for a blank name (empty-name error) or a canonical clash (exists error); otherwise the normalised name is stored under a fresh id; other tables and the catalogue invariant are kept |
| Models.Catalog.InsertName | src/models.py:27-31 | the clash test succeeds exactly when no stored name has the same canonical form; the fresh id keeps names distinct |
| Models.Catalog.AddGarden | src/models.py:42-51 | as AddFood, for gardens and with the garden messages |
| Models.Catalog.RenameGarden | src/models.py:54-66 | fails for a blank name or a clash with another garden only; otherwise the garden, if stored, takes the normalised name and names stay distinct |
| Models.Catalog.TakenByOther | src/models.py:57-63 | the lookup over other gardens' canonical names is a clash test that ignores the renamed garden |
| Models.Catalog.AddMenu | src/models.py:86-93 | fails exactly for a blank name; otherwise the menu is stored under a fresh id with its normalised name and garden |
| Models.Catalog.AddOrUpdateItem | src/models.py:131-156 | bad grams change nothing and give their error; otherwise the existing (menu, food) row is updated under its id, or a new row is inserted; (menu, food) stays unique |
| Models.Catalog.UpdateItemGrams | src/models.py:159-162 | bad grams change nothing; otherwise only the grams of the stored item change |
| Models.Catalog.DeleteItem | src/models.py:165-167 | the item, if stored, is removed and nothing else changes |
| WeeklyOrder.NormalizeFoodNameFacts | src/ui_weekly_order.py:10-11 | the food key is the case-folded catalogue name; it is normalised and its own key |
| WeeklyOrder.NormalizeFoodName | src/ui_weekly_order.py:10-11 | `normalize_food_name`: stripped, words joined by single spaces, case-folded (no contract; `NormalizeFoodNameFacts` states its properties) |
| WeeklyOrder.KeysAreKeys | src/ui_weekly_order.py:63 | every key of the pound list is its own key, and every listed name's key is in the set |
| WeeklyOrder.IsPoundsByKey | src/ui_weekly_order.py:71 | a name and its key are classified alike |
| WeeklyOrder.AccentsKept | src/ui_weekly_order.py:10-11 | normalised Latin-1 names (no sharp s) that differ in a character case folding keeps apart have different keys |
| WeeklyOrder.TomateDeArbol | src/ui_weekly_order.py:60 | "Tomate de árbol" and "Tomate de arbol" have different keys |
| WeeklyOrder.RoundHalfUp | src/ui_weekly_order.py:66-67 | the result is the nearest integer, with ties away from zero |
| WeeklyOrder.Reduce | src/ui_weekly_order.py:75 | `normalize()` keeps the value and leaves no trailing zero after the point |
| WeeklyOrder.FormatUnit | src/ui_weekly_order.py:70-76 | the line ends in " lb" exactly for pound foods, and in " g" exactly for the others |
| WeeklyOrder.FormatPedidoFinal | src/ui_weekly_order.py:70-76 | `format_pedido_final`, with the pound key set as a parameter (no contract; `FormatUnit`, `PoundsWholeGrams`, `GramsTextRoundTrip` and `FormatByValue` state its properties) |
| WeeklyOrder.PoundsWholeGrams | src/ui_weekly_order.py:71-73 | `g` whole grams of a pound food give `(g + 250) div 500` lb |
| WeeklyOrder.PoundsExamples | src/ui_weekly_order.py:71-73 | 1600 g and 1250 g of a pound food both give "3 lb" |
| WeeklyOrder.GramsExamples | src/ui_weekly_order.py:74-76 | 1600 and 1600.0 g of another food both give "1600 g" |
| WeeklyOrder.GramsTextRoundTrip | src/ui_weekly_order.py:74-76 | the gram text reads back as the exact total |
| WeeklyOrder.GramsTextNotWhole | src/ui_weekly_order.py:75 | a total that is not whole is shown with a point and no trailing zero |
| WeeklyOrder.FormatByValue | src/ui_weekly_order.py:70-76 | the line depends on the amount only, not on its trailing zeros |
| WeeklyOrder.ReducedUnique | src/ui_weekly_order.py:75 | two reduced decimals with equal values are equal |
| WeeklyOrder.ParseNonNegativeInt | src/ui_weekly_order.py:278-285 | Ok exactly when `int()` reads a value of at least 0, and then that value; otherwise the field's error |
| WeeklyOrder.ParseNonNegativeIntRoundTrip | src/ui_weekly_order.py:278-285 | `str(n)` is accepted as `n` for natural `n` and refused for negative `n` |
| WeeklyOrder.Candidates | src/ui_weekly_order.py:208-209 | a menu is a candidate exactly when it is listed and its id is not assigned |
| WeeklyOrder.CandidatesAppend | src/ui_weekly_order.py:209 | the filter keeps the listing order |
| WeeklyOrder.AddMinutaSemana | src/ui_weekly_order.py:197-212 | "select a garden" exactly when none is selected; "no menus" exactly when a garden is selected and the list is empty; the picker opens exactly when a garden is selected and some menu is unassigned, offering `Candidates` of the list (those menus, in listing order, per `CandidatesAppend`); "all assigned" exactly when menus exist and all are assigned |
| ExcelMinutas.PadRow | src/excel_minutas.py:87 | the row is cut or padded with empty cells to exactly four |
| ExcelMinutas.ClassifyRow | src/excel_minutas.py:87-111 | errors name the row; blank rows, and only they, are skipped; rows missing a name, and only they, abort for it; an unknown food is reported by its non-empty normalised name, absent from the index; an upsert carries the non-empty menu name, the food's id and both grams, each read and above 0 |
| ExcelMinutas.ClassifyRowOutcomes | src/excel_minutas.py:94-111 | each remaining outcome holds exactly when its case does: grams that are not numbers abort naming the food, whether or not the food is known; grams read but not both above 0 abort; otherwise an unknown food is reported and a known one upserted |
| ExcelMinutas.BlankNotNumber | src/excel_minutas.py:98 | an empty cell's text "None" is no number |
| ExcelMinutas.EmptyGramsAbort | src/excel_minutas.py:97-101 | a named row with an empty first grams cell aborts with the invalid-grams error |
| ExcelMinutas.ShortRowAbort | src/excel_minutas.py:97-101 | a named row with no fourth cell aborts with the invalid-grams error |
| ExcelMinutas.NumberCellGrams | src/excel_minutas.py:97-99 | a numeric cell reads as its exact value |
| ExcelMinutas.IndexByNameHasAll | src/excel_minutas.py:83-84 | the index holds every row's canonical name |
| ExcelMinutas.IndexByName | src/excel_minutas.py:83-84 | the `{normalize_name(x).lower(): id}` dict comprehension (no contract; `IndexByNameHasAll`, `IndexByNameIds` and `IndexByNameLastWins` state its properties) |
| ExcelMinutas.IndexByNameIds | src/excel_minutas.py:83-84 | every key maps to the id of a row with that canonical name |
| ExcelMinutas.IndexByNameLastWins | src/excel_minutas.py:83-84 | for repeated names, the last row's id wins |
| ExcelMinutas.UpsertKeeps | src/excel_minutas.py:113-124 | an upsert keeps the counters in step and only adds menus, one index key and one row each |
| ExcelMinutas.UpsertRow | src/excel_minutas.py:113-124 | the menu key is added to the index and no cached id changes; a new key gets the next menu id and one appended menu row, counted as created; a known key reuses its id, counted as updated; the grams are stored under (menu id, food id); the row is counted |
| ExcelMinutas.ApplyKeeps | src/excel_minutas.py:106-124 | every row action keeps the same invariant |
| ExcelMinutas.RunKeeps | src/excel_minutas.py:86-124 | the invariant holds after any prefix of rows |
| ExcelMinutas.ImportKeeps | src/excel_minutas.py:81-126 | after an import the counters agree, unknown foods are unique, cached menu ids are kept, and `minutas_created` counts new keys and new rows |
| ExcelMinutas.Run | src/excel_minutas.py:86-124 | the loop over read rows, stopping at the first error (no contract; `RunKeeps`, `RunStopsAtError` and `RunErrorSticks` state its properties) |
| ExcelMinutas.Import | src/excel_minutas.py:72-126 | `import_minutas` on the data rows (no contract; `ImportKeeps`, `ImportMenuKeys`, `ImportPrefixesKeep` and `ImportStopsAtError` state its properties) |
| ExcelMinutas.RunAppend | src/excel_minutas.py:86-124 | running two stretches of rows in turn is running them together, unless the first stopped |
| ExcelMinutas.RunPrefixesKeep | src/excel_minutas.py:86-124 | every later point of the run keeps every earlier one, so menu ids created during the run are kept too |
| ExcelMinutas.ImportPrefixesKeep | src/excel_minutas.py:86-124 | the same for imports of two prefixes of the rows |
| ExcelMinutas.RunMenuKeys | src/excel_minutas.py:113-117 | a run that did not stop has indexed exactly the start keys and the menu keys of its upsert rows |
| ExcelMinutas.ImportMenuKeys | src/excel_minutas.py:84-117 | the final menu index keys are the snapshot keys plus the lower-cased menu name of each upsert row before the stop, and nothing else |
| ExcelMinutas.BlankRowSkipped | src/excel_minutas.py:89-90 | appending a blank row changes nothing |
| ExcelMinutas.UnknownFoodWritesNothing | src/excel_minutas.py:106-111 | an unknown food only adds its name to the list, once |
| ExcelMinutas.RunStopsAtError | src/excel_minutas.py:94-104 | a stopped run stopped at its first error, with the progress the earlier rows made |
| ExcelMinutas.ImportStopsAtError | src/excel_minutas.py:94-104 | an aborted import names the first failing sheet row, `k + 2`; the store keeps what rows before it wrote |
| ExcelMinutas.RunErrorSticks | src/excel_minutas.py:86-104 | once a prefix has failed, later rows change nothing |
| ExcelMinutas.MenuBook.CreateMenu | src/excel_minutas.py:115-116 | a menu row is appended under a fresh id |
| ExcelMinutas.MenuBook.AddOrUpdateItem | src/excel_minutas.py:122 | the (menu, food) entry now holds the grams |
| ExcelMinutas.ApplyRow | src/excel_minutas.py:106-124 | the loop body moves the store and counters exactly as `Apply` says |
| ExcelMinutas.ImportMinutas | src/excel_minutas.py:72-126 | the store ends as `Import` says, and the result is the summary or the first error |
| ExcelMinutas.LexLeTotal | src/excel_minutas.py:43 | Python's string order is total |
| ExcelMinutas.LexLeTrans | src/excel_minutas.py:43 | Python's string order is transitive |
| ExcelMinutas.InsertByLower | src/excel_minutas.py:43 | insertion adds exactly one name to the multiset |
| ExcelMinutas.InsertByLowerSorted | src/excel_minutas.py:43 | insertion keeps the order by lower-cased name |
| ExcelMinutas.SortByLower | src/excel_minutas.py:43 | the result is a permutation of the names, ordered by lower-cased name |
| ExcelMinutas.ExportTemplate | src/excel_minutas.py:40-45 | the sheet is `HEADERS`, then one row per food with only the name filled; the names are a permutation of the foods' names, in sorted order |
| ExcelMinutas.AppendTemplateRows | src/excel_minutas.py:40-45 | after the header row, row k of the sheet has only its name cell filled, with the k-th name |
| Seed.FoodTable.InsertOrIgnore | src/seed.py:95 | a name equal to a stored one under NOCASE is dropped, any other is appended; the table stays NOCASE-unique |
| Seed.KeyFacts | src/seed.py:91-93 | a name's key is its case-folded display form; it is empty exactly when the display form is |
| Seed.SeedRunKeys | src/seed.py:87-96 | afterwards the known keys are the old keys plus the key of every non-blank name |
| Seed.SeedStep | src/seed.py:91-97 | one pass of the loop (no contract; `SeedStepInserts` states when it inserts) |
| Seed.SeedRun | src/seed.py:90-97 | the loop over the names from a key set (no contract; `SeedRunKeys`, `SeedRunAdded` and `SeedRunKnown` state its properties) |
| Seed.SeedRunAdded | src/seed.py:87-96 | inserted names are non-empty display forms of listed names, with distinct keys, none of them pre-existing; the known keys are the old keys plus theirs |
| Seed.SeedRunInOrder | src/seed.py:90-96 | the inserted names are the `normalize_name` forms of some of the names, in the order of the list |
| Seed.SeedRunFromNames | src/seed.py:91-95 | each inserted name is `normalize_name` of a listed name |
| Seed.SeedRunKnown | src/seed.py:92-94 | names whose keys are all known insert nothing |
| Seed.SeedTwice | src/seed.py:84-99 | seeding again from the keys the first run left inserts nothing |
| Seed.TableKeysAppend | src/seed.py:87 | the keys of two stretches of stored names are the union of their keys |
| Seed.SeedTwiceTable | src/seed.py:84-99 | seeding the table a first seeding left (its old names plus the inserted ones) inserts nothing |
| Seed.NoCaseSameKey | src/seed.py:95 | a stored name NOCASE-equal to a display form has the same key |
| Seed.NoCaseFresh | src/seed.py:95 | a display form whose key is not stored meets no NOCASE-equal stored name |
| Seed.SeedStepInserts | src/seed.py:92-96 | an inserted name is never ignored by the table, and the stored keys stay known |
| Seed.SeedNames | src/seed.py:86-99 | the table gains exactly the names `SeedRun` inserts, in order, and the count is their number |
| Seed.SeedIfEmpty | src/seed.py:84-99 | the same, over `INITIAL_FOODS` |

## Left out

- Python floats. `float()` is modelled on plain decimal literals of ASCII digits only.
  It leaves out exponents, underscores, non-ASCII decimal digits (such as '٣'), `inf`
  and `nan`. Values are exact, so binary rounding is out.
- Numbers.ParseInt: `int()` also accepts underscores between digits ("1_000") and
  non-ASCII decimal digits; the model reads ASCII digits only and returns an error for both.
- WeeklyOrder.ParseNonNegativeInt: built on `Numbers.ParseInt`, so it refuses the same
  underscore and non-ASCII digit forms that the source accepts.
- ExcelMinutas.Str: renders a numeric cell positionally, where `str()` of a float below
  1e-4 or from 1e16 up uses exponent form (`str(0.00001)` is "1e-05"). A menu or food
  name read from such a cell therefore differs from the source's; grams do not, since
  `float()` reads both forms as the same value.
- `Decimal(str(x))` for floats that Python prints in scientific notation, and the
  28-digit context of `decimal`.
- Case mappings beyond Latin-1. `Text.Lower` and `Text.CaseFold` map one character to
  one character. They cover Basic Latin, Latin-1 and the micro sign. Other scripts are
  left unchanged.
- Text.CaseFold: keeps 'ß' (U+00DF), which `str.casefold()` turns into "ss". So "Straße"
  and "Strasse" get different keys here and the same key in the source.
- WeeklyOrder.AccentsKept: is stated only for names made of Latin-1 characters other than
  'ß', where the one-character folding above agrees with `str.casefold()`.
- Cell values other than empty, text and number (booleans, dates, formulas). The choice
  between the "Minutas" sheet and the active sheet is left out too.
- Workbook I/O, column widths, frozen panes and the "Instrucciones" sheet of `export_template`.
- SQL and connections. Tables are maps and sequences. `ORDER BY` in the `list_*` queries
  is left out, except the listing order the week's picker receives.
- Timestamps. The `fecha_creacion` ordering of `list_minutas` is left out.
- Foreign keys between tables. `add_minuta` takes any garden id; `add_or_update_minuta_item`
  takes any menu and food id.
- `rename_minuta`, `delete_jardin`, `delete_minuta` and the `list_*` functions. They are
  not part of this model.
- The picker dialog, `add_minuta_a_semana` and `calculate_weekly_order`. Their bodies
  are not part of this model. `AddMinutaSemana` stops where the picker opens.
- WeeklyOrder.FormatPedidoFinal takes the pound key set as a parameter; callers pass `PoundsFoods`.
- ExcelMinutas.SortByLower: the stability of Python's `sorted` (equal keys keep their
  order) is built into the insertion, but no lemma states it.
- WeeklyOrder.TomateDeArbol: shows only that "Tomate de árbol" misses the entry "Tomate de arbol".
  That it misses all 46 pound names is not proved; unfolding the name list is too costly.
- Seed: whether the 74 names of `INITIAL_FOODS` have distinct keys is not proved.
