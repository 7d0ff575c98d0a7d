/**
 * The weekly order window's pure logic: the food-name key used to recognise foods
 * ordered by the pound, the rounding and unit formatting of a final order line, the
 * reading of non-negative integer fields, and the menus still offered for a week.
 */
module WeeklyOrder {
  import opened Wrappers
  import Text
  import Numbers
  import Models

  // ---------------------------------------------------------------------------
  // Food keys

  /** `normalize_food_name`: trimmed, whitespace runs collapsed, case-folded. */
  function NormalizeFoodName(name: string): string {
    Text.CaseFold(Text.Join(Text.Split(Text.Strip(name))))
  }

  /**
   * The food key is the case-folded catalogue name, and the case-folded canonical name;
   * it is a normalised name, and it is its own key.
   */
  lemma NormalizeFoodNameFacts(name: string)
    ensures NormalizeFoodName(name) == Text.CaseFold(Models.NormalizeName(name))
    ensures NormalizeFoodName(name) == Text.CaseFold(Models.CanonicalName(name))
    ensures Text.IsNormalized(NormalizeFoodName(name))
    ensures NormalizeFoodName(NormalizeFoodName(name)) == NormalizeFoodName(name)
  {
    var n := Models.NormalizeName(name);
    Text.SplitStrip(name);
    Models.NormalizeNameFacts(name);
    Text.JoinNormalized(Text.Split(name));
    Text.StripNormalized(Text.Join(Text.Split(name)));
    Text.CaseFoldIdempotent(n);
    var k := Text.CaseFold(n);
    Text.CaseFoldKeepsNormalized(n);
    Text.StripNormalized(k);
    Text.JoinSplit(k);
    Text.CaseFoldIdempotent(k);
  }

  /** The names `_POUNDS_FOODS_RAW` lists, as written. */
  const PoundsFoodsRaw: set<string> := {
    "Ahuyama", "Apio", "Arveja verde c/cáscara", "Banano bocadillo", "Banano común",
    "Calabazín", "Cebolla cabezona", "Cebolla larga", "Crema de leche x 125 gr", "Espinaca",
    "Fresa", "Durazno NACIONAL MADURO", "Guayaba JUGO", "Habichuela", "Lechuga",
    "Mandarina PORCION", "Mango PORCION", "Manzana ANA O ROYAL", "Mora JUGO",
    "Naranja DULCE PORCION", "Papa común", "Papaya PORCION", "Pepino cohombro",
    "Pepino de guiso", "Pera PORCION", "Piña ORO MIEL PORCIÓN", "Plátano maduro",
    "Plátano verde", "Queso doble crema", "Remolacha", "Repollo blanco",
    "Tomate chonto o río", "Zanahoria", "Carne de res MAGRA MOLIDA",
    "Carne de res MAGRA BLANDA", "Carne de cerdo MAGRA", "Pechuga de pollo", "Arroz",
    "Azúcar", "Chocolate de mesa", "Harina de trigo", "Harina de maíz para arepas",
    "Lenteja", "Sal", "Frijol rojo", "Tomate de arbol"
  }

  /** `{normalize_food_name(food) for food in foods}`. */
  function Keys(foods: set<string>): set<string> {
    set food | food in foods :: NormalizeFoodName(food)
  }

  /** `POUNDS_FOODS`: the keys of the pound-ordered foods. */
  const PoundsFoods: set<string> := Keys(PoundsFoodsRaw)

  /** Every key of a set of names is its own key, so a lookup by key ignores case and spacing. */
  lemma KeysAreKeys(foods: set<string>)
    ensures forall k :: k in Keys(foods) ==> NormalizeFoodName(k) == k && Text.IsNormalized(k)
    ensures forall name :: name in foods ==> NormalizeFoodName(name) in Keys(foods)
  {
    forall k | k in Keys(foods)
      ensures NormalizeFoodName(k) == k && Text.IsNormalized(k)
    {
      var food :| food in foods && NormalizeFoodName(food) == k;
      NormalizeFoodNameFacts(food);
    }
  }

  /**
   * Whether `name` is ordered by the pound, for the key set `poundsFoods`
   * (`POUNDS_FOODS` in the source).
   */
  predicate IsPounds(poundsFoods: set<string>, name: string) {
    NormalizeFoodName(name) in poundsFoods
  }

  /** Classification looks only at the key: a name and its key are classified alike. */
  lemma IsPoundsByKey(poundsFoods: set<string>, name: string)
    ensures IsPounds(poundsFoods, NormalizeFoodName(name)) == IsPounds(poundsFoods, name)
  {
    NormalizeFoodNameFacts(name);
  }

  /**
   * Accents are not folded: two normalised Latin-1 names that differ, at some position,
   * in characters that case folding keeps apart (such as 'á' and 'a') have different keys.
   */
  lemma AccentsKept(x: string, y: string, i: nat)
    requires Text.IsNormalized(x) && Text.IsNormalized(y)
    requires Text.FoldsOneToOne(x) && Text.FoldsOneToOne(y)
    requires i < |x| && i < |y| && Text.FoldChar(x[i]) != Text.FoldChar(y[i])
    ensures NormalizeFoodName(x) != NormalizeFoodName(y)
  {
    NormalizeFoodNameFacts(x);
    NormalizeFoodNameFacts(y);
    NormalizedName(x);
    NormalizedName(y);
    assert Text.CaseFold(x)[i] != Text.CaseFold(y)[i];
  }

  /** The seeded "Tomate de árbol" is not the pound-listed "Tomate de arbol". */
  lemma TomateDeArbol(x: string, y: string)
    requires x == "Tomate de árbol" && y == "Tomate de arbol"
    ensures NormalizeFoodName(x) != NormalizeFoodName(y)
  {
    TomateNormalized(x, y);
    AccentsKept(x, y, 10);
  }

  lemma TomateNormalized(x: string, y: string)
    requires x == "Tomate de árbol" && y == "Tomate de arbol"
    ensures Text.IsNormalized(x) && Text.IsNormalized(y)
  {
    WordsNormalized(x, ["Tomate", "de", "árbol"]);
    WordsNormalized(y, ["Tomate", "de", "arbol"]);
  }

  /** Three words joined by single spaces form a normalised name. */
  lemma WordsNormalized(s: string, words: seq<string>)
    requires |words| == 3 && Text.AreWords(words) && s == words[0] + " " + words[1] + " " + words[2]
    ensures Text.IsNormalized(s)
  {
    assert Text.Join(words[2..]) == words[2];
    assert Text.Join(words[1..]) == words[1] + " " + words[2];
    Text.JoinNormalized(words);
  }

  /** A name that is already normalised is its own catalogue name. */
  lemma NormalizedName(s: string)
    requires Text.IsNormalized(s)
    ensures Models.NormalizeName(s) == s
  {
    Text.JoinSplit(s);
    Text.StripNormalized(s);
  }

  // ---------------------------------------------------------------------------
  // Rounding and formatting

  /**
   * `_round_half_up`: the nearest integer, a tie going away from zero (2.5 to 3,
   * -2.5 to -3), as `quantize(Decimal("1"), ROUND_HALF_UP)` does.
   */
  function RoundHalfUp(x: real): (n: int)
    ensures x >= 0.0 ==> n as real - 0.5 <= x < n as real + 0.5
    ensures x < 0.0 ==> n as real - 0.5 < x <= n as real + 0.5
  {
    if x >= 0.0 then (x + 0.5).Floor else -((-x + 0.5).Floor)
  }

  /** `total == total.to_integral_value()`: the decimal denotes a whole number. */
  predicate Integral(d: Numbers.Decimal) {
    Numbers.Value(d) == Numbers.Value(d).Floor as real
  }

  /**
   * `Decimal.normalize()` on a value that is not a whole number: trailing zeros after the
   * point dropped, the value kept. It stops at exponent 0, where `normalize()` would go on
   * to a positive exponent (1600 to `1.6E+3`); `GramsText` calls it only for values that
   * are not whole, which never reach exponent 0.
   */
  function Reduce(d: Numbers.Decimal): (r: Numbers.Decimal)
    ensures Numbers.Value(r) == Numbers.Value(d)
    ensures r.exp == 0 || r.mantissa % 10 != 0
    decreases d.exp
  {
    if d.exp > 0 && d.mantissa % 10 == 0 then
      var q := d.mantissa / 10;
      ScaleTimesTen(q as real, d.exp - 1);
      assert d.mantissa as real == 10.0 * q as real;
      Reduce(Numbers.Decimal(q, d.exp - 1))
    else
      d
  }

  /** The amount shown in grams: whole numbers as integers, others without trailing zeros. */
  function GramsText(total: Numbers.Decimal): string {
    if Integral(total) then Numbers.IntToString(Numbers.Value(total).Floor)
    else Numbers.Render(Reduce(total))
  }

  /**
   * `format_pedido_final`: a pound-ordered food shows its grams over 500, rounded half
   * up, in " lb"; any other food shows its grams in " g". `total` is the exact decimal
   * `Decimal(str(total_gramos))` holds; the window passes `PoundsFoods` as `poundsFoods`.
   */
  function FormatPedidoFinal(poundsFoods: set<string>, nombreAlimento: string, total: Numbers.Decimal): string {
    if IsPounds(poundsFoods, nombreAlimento) then
      Numbers.IntToString(RoundHalfUp(Numbers.Value(total) / 500.0)) + " lb"
    else
      GramsText(total) + " g"
  }

  predicate EndsWith(s: string, suffix: string) {
    |suffix| <= |s| && s[|s| - |suffix|..] == suffix
  }

  /** The unit is " lb" exactly for the pound-ordered foods, " g" for every other. */
  lemma FormatUnit(poundsFoods: set<string>, nombreAlimento: string, total: Numbers.Decimal)
    ensures EndsWith(FormatPedidoFinal(poundsFoods, nombreAlimento, total), " lb") <==> IsPounds(poundsFoods, nombreAlimento)
    ensures EndsWith(FormatPedidoFinal(poundsFoods, nombreAlimento, total), " g") <==> !IsPounds(poundsFoods, nombreAlimento)
  {
    var r := FormatPedidoFinal(poundsFoods, nombreAlimento, total);
    if IsPounds(poundsFoods, nombreAlimento) {
      var t := Numbers.IntToString(RoundHalfUp(Numbers.Value(total) / 500.0));
      assert r[|r| - 3..] == " lb";
      assert r[|r| - 1] == 'b';
    } else {
      assert r[|r| - 2..] == " g";
      assert r[|r| - 1] == 'g';
    }
  }

  /** Whole grams `g` of a pound-ordered food give `(g + 250) div 500` pounds. */
  lemma PoundsWholeGrams(poundsFoods: set<string>, nombreAlimento: string, g: nat)
    requires IsPounds(poundsFoods, nombreAlimento)
    ensures FormatPedidoFinal(poundsFoods, nombreAlimento, Numbers.Decimal(g, 0)) == Numbers.NatToString((g + 250) / 500) + " lb"
  {
    var x := (g as real) / 500.0;
    assert Numbers.Value(Numbers.Decimal(g, 0)) == g as real;
    var q := (g + 250) / 500;
    assert q * 500 <= g + 250 < q * 500 + 500;
    var n := RoundHalfUp(x);
    assert n == q;
  }

  /** 1600 g and 1250 g of a pound-ordered food are both ordered as 3 lb. */
  lemma PoundsExamples(poundsFoods: set<string>, nombreAlimento: string)
    requires IsPounds(poundsFoods, nombreAlimento)
    ensures FormatPedidoFinal(poundsFoods, nombreAlimento, Numbers.Decimal(1600, 0)) == "3 lb"
    ensures FormatPedidoFinal(poundsFoods, nombreAlimento, Numbers.Decimal(1250, 0)) == "3 lb"
  {
    PoundsWholeGrams(poundsFoods, nombreAlimento, 1600);
    PoundsWholeGrams(poundsFoods, nombreAlimento, 1250);
  }

  /** 1600 and 1600.0 grams of any other food are both shown as "1600 g". */
  lemma GramsExamples(poundsFoods: set<string>, nombreAlimento: string)
    requires !IsPounds(poundsFoods, nombreAlimento)
    ensures FormatPedidoFinal(poundsFoods, nombreAlimento, Numbers.Decimal(1600, 0)) == "1600 g"
    ensures FormatPedidoFinal(poundsFoods, nombreAlimento, Numbers.Decimal(16000, 1)) == "1600 g"
  {
    assert Numbers.Value(Numbers.Decimal(1600, 0)) == 1600.0;
    assert Numbers.Scale(16000.0, 1) == Numbers.Scale(16000.0, 0) / 10.0;
    assert Numbers.Value(Numbers.Decimal(16000, 1)) == 1600.0;
    assert Numbers.NatToString(1600) == "1600" by {
      assert Numbers.NatToString(1) == "1";
      assert Numbers.NatToString(16) == "16";
      assert Numbers.NatToString(160) == "160";
    }
  }

  /** The gram amount reads back, with `float()`, as the exact total. */
  lemma GramsTextRoundTrip(total: Numbers.Decimal)
    ensures Numbers.ParseDecimal(GramsText(total)) == Some(Numbers.Value(total))
  {
    if Integral(total) {
      var n := Numbers.Value(total).Floor;
      RenderWhole(n);
      Numbers.RenderRoundTrip(Numbers.Decimal(n, 0));
    } else {
      Numbers.RenderRoundTrip(Reduce(total));
    }
  }

  /** A whole number renders as `str(int)`. */
  lemma RenderWhole(n: int)
    ensures Numbers.Render(Numbers.Decimal(n, 0)) == Numbers.IntToString(n)
  {
    var a := if n < 0 then -n else n;
    var ds := Numbers.NatToString(a);
    assert Numbers.PadZeros(ds, 1) == ds;
    assert ds[..|ds|] + "" == ds;
  }

  /** A shown gram amount that is not whole has no trailing zero after its point. */
  lemma GramsTextNotWhole(total: Numbers.Decimal)
    requires !Integral(total)
    ensures Reduce(total).exp > 0 && Reduce(total).mantissa % 10 != 0
  {
    var r := Reduce(total);
    if r.exp == 0 {
      assert false;
    }
  }

  /** The order line depends on the amount only, not on how many zeros its decimal carries. */
  lemma FormatByValue(poundsFoods: set<string>, nombreAlimento: string, a: Numbers.Decimal, b: Numbers.Decimal)
    requires Numbers.Value(a) == Numbers.Value(b)
    ensures FormatPedidoFinal(poundsFoods, nombreAlimento, a) == FormatPedidoFinal(poundsFoods, nombreAlimento, b)
  {
    ReducedUnique(Reduce(a), Reduce(b));
  }

  // ---------------------------------------------------------------------------
  // Exact decimals: scaling facts

  lemma {:induction false} ScaleTimesTen(x: real, e: nat)
    ensures Numbers.Scale(10.0 * x, e) == 10.0 * Numbers.Scale(x, e)
  {
    if e > 0 {
      ScaleTimesTen(x, e - 1);
    }
  }

  lemma {:induction false} ScaleInjective(x: real, y: real, e: nat)
    requires Numbers.Scale(x, e) == Numbers.Scale(y, e)
    ensures x == y
  {
    if e > 0 {
      ScaleInjective(x, y, e - 1);
    }
  }

  /** Appending `k` zeros to the mantissa and raising the exponent by `k` keeps the value. */
  lemma {:induction false} ScaleShift(m: int, e: nat, k: nat)
    ensures Numbers.Scale((m * Numbers.Pow10(k)) as real, e + k) == Numbers.Scale(m as real, e)
  {
    if k > 0 {
      var y := m * Numbers.Pow10(k - 1);
      assert m * Numbers.Pow10(k) == 10 * y;
      ScaleTimesTen(y as real, e + k - 1);
      ScaleShift(m, e, k - 1);
    }
  }

  /** Two decimals without trailing zeros after the point that denote the same number are equal. */
  lemma ReducedUnique(a: Numbers.Decimal, b: Numbers.Decimal)
    requires a.exp == 0 || a.mantissa % 10 != 0
    requires b.exp == 0 || b.mantissa % 10 != 0
    requires Numbers.Value(a) == Numbers.Value(b)
    ensures a == b
  {
    if a.exp <= b.exp {
      ReducedUniqueOrdered(a, b);
    } else {
      ReducedUniqueOrdered(b, a);
    }
  }

  lemma ShiftedEndsInZero(m: int, k: nat)
    requires k > 0
    ensures (m * Numbers.Pow10(k)) % 10 == 0
  {
    var y := m * Numbers.Pow10(k - 1);
    assert m * Numbers.Pow10(k) == 10 * y;
  }

  lemma ReducedUniqueOrdered(a: Numbers.Decimal, b: Numbers.Decimal)
    requires a.exp <= b.exp
    requires b.exp == 0 || b.mantissa % 10 != 0
    requires Numbers.Value(a) == Numbers.Value(b)
    ensures a == b
  {
    var k := b.exp - a.exp;
    var shifted := a.mantissa * Numbers.Pow10(k);
    ScaleShift(a.mantissa, a.exp, k);
    ScaleInjective(shifted as real, b.mantissa as real, b.exp);
    if k > 0 {
      ShiftedEndsInZero(a.mantissa, k);
    }
  }

  // ---------------------------------------------------------------------------
  // Integer fields

  /** The error `_parse_non_negative_int` raises: "<field> debe ser un entero mayor o igual a 0." */
  datatype FieldError = NotNonNegativeInt(field: string)

  /** `_parse_non_negative_int`: `int(raw)`, refused when unreadable or negative. */
  function ParseNonNegativeInt(raw: string, field: string): (r: Result<int, FieldError>)
    ensures r.Ok? <==> Numbers.ParseInt(raw).Some? && Numbers.ParseInt(raw).value >= 0
    ensures r.Ok? ==> r.value >= 0 && Some(r.value) == Numbers.ParseInt(raw)
    ensures r.Err? ==> r.error == NotNonNegativeInt(field)
  {
    match Numbers.ParseInt(raw)
    case None => Err(NotNonNegativeInt(field))
    case Some(value) => if value < 0 then Err(NotNonNegativeInt(field)) else Ok(value)
  }

  /** `str(n)` of a natural number is accepted and gives `n`; that of a negative number is refused. */
  lemma ParseNonNegativeIntRoundTrip(n: int, field: string)
    ensures n >= 0 ==> ParseNonNegativeInt(Numbers.IntToString(n), field) == Ok(n)
    ensures n < 0 ==> ParseNonNegativeInt(Numbers.IntToString(n), field) == Err(NotNonNegativeInt(field))
  {
    Numbers.IntToStringRoundTrip(n);
  }

  // ---------------------------------------------------------------------------
  // Adding a menu to the week

  /** A menu row as listed: its id and name. */
  datatype MenuRow = MenuRow(id: int, nombre: string)

  /** The menus whose id is not yet assigned to the week, in listing order. */
  function Candidates(minutas: seq<MenuRow>, already: set<int>): (r: seq<MenuRow>)
    ensures |r| <= |minutas|
    ensures forall m :: m in r <==> m in minutas && m.id !in already
  {
    if minutas == [] then []
    else (if minutas[0].id in already then [] else [minutas[0]]) + Candidates(minutas[1..], already)
  }

  /** Filtering keeps the listing order: it distributes over concatenation. */
  lemma {:induction false} CandidatesAppend(a: seq<MenuRow>, b: seq<MenuRow>, already: set<int>)
    ensures Candidates(a + b, already) == Candidates(a, already) + Candidates(b, already)
  {
    if a != [] {
      assert (a + b)[1..] == a[1..] + b;
      CandidatesAppend(a[1..], b, already);
    } else {
      assert a + b == b;
    }
  }

  /** What `add_minuta_semana` does before the picker opens. */
  datatype AddOutcome =
    | SelectGarden            // "Selecciona un jardín."
    | NoMenus                 // "No hay minutas creadas. Crea una primero."
    | AllAssigned             // "Este jardín ya tiene todas las minutas asignadas."
    | Pick(candidates: seq<MenuRow>)

  /**
   * `add_minuta_semana` up to the picker: a garden must be selected and some menu must
   * exist, each checked in that order with its own warning; the picker is offered the
   * menus not already in the week, in listing order, and when there is none nothing is
   * added.
   */
  function AddMinutaSemana(jardin: Option<int>, minutas: seq<MenuRow>, semana: seq<int>): (o: AddOutcome)
    ensures o.Pick? <==> jardin.Some? && exists m :: m in minutas && m.id !in semana
    ensures o.Pick? ==> o.candidates != [] && forall m :: m in o.candidates <==> m in minutas && m.id !in semana
    ensures o == AllAssigned <==> jardin.Some? && minutas != [] && forall m :: m in minutas ==> m.id in semana
    ensures o == SelectGarden <==> jardin.None?
    ensures o == NoMenus <==> jardin.Some? && minutas == []
    ensures o.Pick? ==> o.candidates == Candidates(minutas, set id | id in semana)
  {
    if jardin.None? then SelectGarden
    else if minutas == [] then NoMenus
    else
      var already := set id | id in semana;
      assert forall id :: id in already <==> id in semana;
      var candidates := Candidates(minutas, already);
      if candidates == [] then AllAssigned
      else
        assert candidates[0] in candidates;
        Pick(candidates)
  }
}
