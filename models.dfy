/**
 * The catalogue of foods (alimentos), gardens (jardines), menus (minutas) and menu
 * items: name normalisation, the canonical form that decides whether two names clash,
 * validation of gram quantities, and the store operations that insert, rename,
 * update and delete rows.
 */
module Models {
  import opened Wrappers
  import Text
  import Numbers

  /** The errors the catalogue raises, one per message of the source. */
  datatype Error =
    | EmptyName(field: string)   // "<field> no puede estar vacío."
    | FoodExists                 // "Ese alimento ya existe."
    | GardenExists               // "Ese jardín ya existe."
    | OtherGardenExists          // "Ya existe otro jardín con ese nombre."
    | GramsNotNumber             // "Los gramos deben ser un número."
    | GramsNotPositive           // "Los gramos deben ser mayores que 0."

  const FoodLabel := "El nombre del alimento"
  const GardenLabel := "El nombre del jardín"
  const MenuLabel := "El nombre de la minuta"

  // ---------------------------------------------------------------------------
  // Names

  /** `normalize_name`: whitespace runs collapsed to one space, ends trimmed. */
  function NormalizeName(name: string): string {
    Text.Strip(Text.Join(Text.Split(name)))
  }

  /** `canonical_name`: the normalised name, lower-cased; two names clash when these agree. */
  function CanonicalName(name: string): string {
    Text.Lower(NormalizeName(name))
  }

  predicate AllSpace(s: string) {
    forall i :: 0 <= i < |s| ==> Text.IsSpace(s[i])
  }

  /**
   * A normalised name starts and ends with a non-space, separates its words by single
   * spaces, holds the same words as the input, and is empty exactly for a blank input.
   */
  lemma NormalizeNameFacts(name: string)
    ensures Text.IsNormalized(NormalizeName(name))
    ensures Text.Split(NormalizeName(name)) == Text.Split(name)
    ensures NormalizeName(name) == [] <==> AllSpace(name)
  {
    var words := Text.Split(name);
    Text.JoinNormalized(words);
    Text.StripNormalized(Text.Join(words));
    Text.SplitJoin(words);
    Text.SplitEmpty(name);
  }

  /** Normalising twice is normalising once. */
  lemma NormalizeNameIdempotent(name: string)
    ensures NormalizeName(NormalizeName(name)) == NormalizeName(name)
  {
    NormalizeNameFacts(name);
    Text.JoinSplit(NormalizeName(name));
    Text.StripNormalized(NormalizeName(name));
  }

  /** The canonical name is a normalised, lower-case name, a fixed point, and blind to normalisation. */
  lemma CanonicalNameFacts(name: string)
    ensures Text.IsNormalized(CanonicalName(name))
    ensures CanonicalName(CanonicalName(name)) == CanonicalName(name)
    ensures CanonicalName(NormalizeName(name)) == CanonicalName(name)
    ensures Text.Lower(CanonicalName(name)) == CanonicalName(name)
  {
    var n := NormalizeName(name);
    NormalizeNameFacts(name);
    NormalizeNameIdempotent(name);
    Text.LowerKeepsNormalized(n);
    Text.LowerIdempotent(n);
    var c := Text.Lower(n);
    Text.JoinSplit(c);
    Text.StripNormalized(c);
    assert NormalizeName(c) == c;
  }

  /** `_validate_non_empty`: the normalised name, or an error naming the field. */
  function ValidateNonEmpty(name: string, field: string): (r: Result<string, Error>)
    ensures r.Ok? <==> !AllSpace(name)
    ensures r.Ok? ==> r.value == NormalizeName(name) && r.value != [] && Text.IsNormalized(r.value)
    ensures r.Err? ==> r.error == EmptyName(field)
  {
    NormalizeNameFacts(name);
    var normalized := NormalizeName(name);
    if normalized == [] then Err(EmptyName(field)) else Ok(normalized)
  }

  // ---------------------------------------------------------------------------
  // Grams

  /** `str.replace(",", ".")`. */
  function CommaToPoint(s: string): string {
    seq(|s|, i requires 0 <= i < |s| => if s[i] == ',' then '.' else s[i])
  }

  /** The same text written with a decimal comma. */
  function PointToComma(s: string): string {
    seq(|s|, i requires 0 <= i < |s| => if s[i] == '.' then ',' else s[i])
  }

  predicate NoComma(s: string) {
    forall i :: 0 <= i < |s| ==> s[i] != ','
  }

  /** `_parse_gramos`: a decimal comma is read as a point; the quantity must be a number above zero. */
  function ParseGramos(value: string): (r: Result<real, Error>)
    ensures r.Ok? ==> r.value > 0.0
    ensures r.Ok? <==> Numbers.ParseDecimal(CommaToPoint(value)).Some? && Numbers.ParseDecimal(CommaToPoint(value)).value > 0.0
    ensures r == Err(GramsNotNumber) <==> Numbers.ParseDecimal(CommaToPoint(value)).None?
    ensures r == Err(GramsNotPositive) <==>
      Numbers.ParseDecimal(CommaToPoint(value)).Some? && Numbers.ParseDecimal(CommaToPoint(value)).value <= 0.0
    ensures r.Ok? ==> r.value == Numbers.ParseDecimal(CommaToPoint(value)).value
  {
    match Numbers.ParseDecimal(CommaToPoint(value))
    case None => Err(GramsNotNumber)
    case Some(gramos) => if gramos <= 0.0 then Err(GramsNotPositive) else Ok(gramos)
  }

  lemma UnsignedTextNoComma(a: nat, e: nat)
    ensures NoComma(Numbers.UnsignedText(a, e))
  {
    var ds := Numbers.PadZeros(Numbers.NatToString(a), e + 1);
    assert Numbers.AllDigits(ds[..|ds| - e]);
    assert Numbers.AllDigits(ds[|ds| - e..]);
  }

  /** The rendering of a decimal holds no comma. */
  lemma RenderNoComma(d: Numbers.Decimal)
    ensures NoComma(Numbers.Render(d))
  {
    if d.mantissa < 0 {
      UnsignedTextNoComma(-d.mantissa, d.exp);
    } else {
      UnsignedTextNoComma(d.mantissa, d.exp);
    }
  }

  /** Gram quantities written with a point read back as their value, or fail as not positive. */
  lemma ParseGramosRender(d: Numbers.Decimal)
    ensures ParseGramos(Numbers.Render(d))
         == if Numbers.Value(d) > 0.0 then Ok(Numbers.Value(d)) else Err(GramsNotPositive)
  {
    var s := Numbers.Render(d);
    RenderNoComma(d);
    assert CommaToPoint(s) == s;
    Numbers.RenderRoundTrip(d);
  }

  /** A decimal comma reads exactly like a decimal point. */
  lemma ParseGramosComma(d: Numbers.Decimal)
    ensures ParseGramos(PointToComma(Numbers.Render(d))) == ParseGramos(Numbers.Render(d))
  {
    var s := Numbers.Render(d);
    RenderNoComma(d);
    assert CommaToPoint(PointToComma(s)) == CommaToPoint(s);
  }

  // ---------------------------------------------------------------------------
  // The store

  /** A menu row: the garden it belongs to and its display name. */
  datatype Menu = Menu(garden: int, name: string)

  /** A menu item row: which food, in which menu, how many grams. */
  datatype Item = Item(menu: int, food: int, grams: real)

  /** Some row of `names` has the canonical form of `name`. */
  predicate NameTaken(names: map<int, string>, name: string) {
    exists id :: id in names && CanonicalName(names[id]) == CanonicalName(name)
  }

  /** No two rows of `names` share a canonical form. */
  predicate DistinctNames(names: map<int, string>) {
    forall a, b :: a in names && b in names && a != b ==> CanonicalName(names[a]) != CanonicalName(names[b])
  }

  /** Every id of `table` is positive and below the AUTOINCREMENT counter `next`. */
  predicate IdsBelow<T>(table: map<int, T>, next: int) {
    forall id :: id in table ==> 0 < id < next
  }

  /** Every row of `names` holds a normalised name. */
  predicate NamesNormalized(names: map<int, string>) {
    forall id :: id in names ==> NormalizeName(names[id]) == names[id]
  }

  /** Each (menu, food) pair has at most one item, and every item holds a positive quantity. */
  predicate ItemsValid(items: map<int, Item>) {
    && (forall a, b :: a in items && b in items && a != b ==>
          items[a].menu != items[b].menu || items[a].food != items[b].food)
    && (forall id :: id in items ==> items[id].grams > 0.0)
  }

  /** The id of the item row for (menu, food), if any. */
  predicate HasItem(items: map<int, Item>, menu: int, food: int) {
    exists id :: id in items && items[id].menu == menu && items[id].food == food
  }

  /**
   * The tables the catalogue operations read and write. Ids are handed out by
   * AUTOINCREMENT counters, so an id is never reused after a delete.
   */
  class Catalog {
    var foods: map<int, string>
    var gardens: map<int, string>
    var menus: map<int, Menu>
    var items: map<int, Item>
    var nextFood: int
    var nextGarden: int
    var nextMenu: int
    var nextItem: int

    /**
     * Ids lie below their counters; food names and garden names are normalised and
     * pairwise distinct in canonical form; each (menu, food) pair has at most one
     * item, and every item holds a positive quantity.
     */
    ghost predicate Valid()
      reads this
    {
      && 0 < nextFood && 0 < nextGarden && 0 < nextMenu && 0 < nextItem
      && IdsBelow(foods, nextFood) && IdsBelow(gardens, nextGarden)
      && IdsBelow(menus, nextMenu) && IdsBelow(items, nextItem)
      && NamesNormalized(foods) && NamesNormalized(gardens)
      && DistinctNames(foods) && DistinctNames(gardens)
      && ItemsValid(items)
    }

    constructor ()
      ensures Valid()
      ensures foods == map[] && gardens == map[] && menus == map[] && items == map[]
    {
      foods, gardens, menus, items := map[], map[], map[], map[];
      nextFood, nextGarden, nextMenu, nextItem := 1, 1, 1, 1;
    }

    /** `add_alimento`: insert a food unless its name is blank or clashes with a stored one. */
    method AddFood(nombre: string) returns (r: Result<int, Error>)
      requires Valid()
      modifies this
      ensures Valid()
      ensures gardens == old(gardens) && menus == old(menus) && items == old(items)
      ensures nextGarden == old(nextGarden) && nextMenu == old(nextMenu) && nextItem == old(nextItem)
      ensures r.Err? <==> AllSpace(nombre) || NameTaken(old(foods), nombre)
      ensures r.Err? ==> foods == old(foods) && nextFood == old(nextFood)
      ensures r.Err? ==> r.error == if AllSpace(nombre) then EmptyName(FoodLabel) else FoodExists
      ensures r.Ok? ==> r.value !in old(foods) && foods == old(foods)[r.value := NormalizeName(nombre)]
    {
      var clean := ValidateNonEmpty(nombre, FoodLabel);
      if clean.Err? {
        return Err(clean.error);
      }
      r := InsertName(foods, nextFood, clean.value, nombre, FoodExists);
      if r.Ok? {
        NormalizeNameIdempotent(nombre);
        foods := foods[r.value := clean.value];
        nextFood := nextFood + 1;
      }
    }

    /** `add_jardin`: insert a garden unless its name is blank or clashes with a stored one. */
    method AddGarden(nombre: string) returns (r: Result<int, Error>)
      requires Valid()
      modifies this
      ensures Valid()
      ensures foods == old(foods) && menus == old(menus) && items == old(items)
      ensures nextFood == old(nextFood) && nextMenu == old(nextMenu) && nextItem == old(nextItem)
      ensures r.Err? <==> AllSpace(nombre) || NameTaken(old(gardens), nombre)
      ensures r.Err? ==> gardens == old(gardens) && nextGarden == old(nextGarden)
      ensures r.Err? ==> r.error == if AllSpace(nombre) then EmptyName(GardenLabel) else GardenExists
      ensures r.Ok? ==> r.value !in old(gardens) && gardens == old(gardens)[r.value := NormalizeName(nombre)]
    {
      var clean := ValidateNonEmpty(nombre, GardenLabel);
      if clean.Err? {
        return Err(clean.error);
      }
      r := InsertName(gardens, nextGarden, clean.value, nombre, GardenExists);
      if r.Ok? {
        NormalizeNameIdempotent(nombre);
        gardens := gardens[r.value := clean.value];
        nextGarden := nextGarden + 1;
      }
    }

    /**
     * The check shared by `add_alimento` and `add_jardin`: the set of stored canonical
     * names is built and the new name's canonical form looked up in it; on success the
     * next id is returned, and adding the name there keeps the table valid.
     */
    static method InsertName(names: map<int, string>, next: int, clean: string, nombre: string, clash: Error)
      returns (r: Result<int, Error>)
      requires DistinctNames(names) && IdsBelow(names, next)
      requires 0 < next && clean == NormalizeName(nombre)
      ensures r.Err? <==> NameTaken(names, nombre)
      ensures r.Err? ==> r.error == clash
      ensures r.Ok? ==> r.value == next && next !in names && DistinctNames(names[next := clean])
    {
      CanonicalNameFacts(nombre);
      var canonical := CanonicalName(clean);
      var existing := set id | id in names :: CanonicalName(names[id]);
      if canonical in existing {
        return Err(clash);
      }
      r := Ok(next);
    }

    /**
     * `rename_jardin`: give garden `jardinId` a new name. Only the other gardens can
     * clash, so a garden may take a case or spacing variant of its own name. The update
     * of an id that is not stored changes nothing.
     */
    method RenameGarden(jardinId: int, nuevoNombre: string) returns (r: Result<(), Error>)
      requires Valid()
      modifies this
      ensures Valid()
      ensures foods == old(foods) && menus == old(menus) && items == old(items)
      ensures nextFood == old(nextFood) && nextGarden == old(nextGarden)
      ensures nextMenu == old(nextMenu) && nextItem == old(nextItem)
      ensures r.Err? <==> AllSpace(nuevoNombre) || NameTaken(old(gardens) - {jardinId}, nuevoNombre)
      ensures r.Err? ==> gardens == old(gardens)
      ensures r.Err? ==> r.error == if AllSpace(nuevoNombre) then EmptyName(GardenLabel) else OtherGardenExists
      ensures r.Ok? ==> gardens == if jardinId in old(gardens) then old(gardens)[jardinId := NormalizeName(nuevoNombre)] else old(gardens)
    {
      var clean := ValidateNonEmpty(nuevoNombre, GardenLabel);
      if clean.Err? {
        return Err(clean.error);
      }
      var taken := TakenByOther(gardens, jardinId, clean.value, nuevoNombre);
      if taken {
        return Err(OtherGardenExists);
      }
      if jardinId in gardens {
        NormalizeNameIdempotent(nuevoNombre);
        gardens := gardens[jardinId := clean.value];
      }
      r := Ok(());
    }

    /**
     * The check of `rename_jardin`: the canonical names of every garden but `jardinId`
     * are collected and the new name's canonical form looked up among them; when it is
     * absent, renaming `jardinId` keeps the names distinct.
     */
    static method TakenByOther(names: map<int, string>, jardinId: int, clean: string, nombre: string)
      returns (taken: bool)
      requires DistinctNames(names) && clean == NormalizeName(nombre)
      ensures taken <==> NameTaken(names - {jardinId}, nombre)
      ensures !taken && jardinId in names ==> DistinctNames(names[jardinId := clean])
    {
      CanonicalNameFacts(nombre);
      var canonical := CanonicalName(clean);
      var existing := map id | id in names && id != jardinId :: CanonicalName(names[id]);
      taken := canonical in existing.Values;
      if taken {
        var id :| id in existing && existing[id] == canonical;
        assert id in names - {jardinId};
      } else {
        forall id | id in names - {jardinId}
          ensures CanonicalName(names[id]) != CanonicalName(nombre)
        {
          assert existing[id] in existing.Values;
        }
      }
    }

    /** `add_minuta`: insert a menu for a garden under its normalised name. */
    method AddMenu(jardinId: int, nombre: string) returns (r: Result<int, Error>)
      requires Valid()
      modifies this
      ensures Valid()
      ensures foods == old(foods) && gardens == old(gardens) && items == old(items)
      ensures nextFood == old(nextFood) && nextGarden == old(nextGarden) && nextItem == old(nextItem)
      ensures r.Err? <==> AllSpace(nombre)
      ensures r.Err? ==> r.error == EmptyName(MenuLabel) && menus == old(menus)
      ensures r.Ok? ==> r.value !in old(menus) && menus == old(menus)[r.value := Menu(jardinId, NormalizeName(nombre))]
    {
      var clean := ValidateNonEmpty(nombre, MenuLabel);
      if clean.Err? {
        return Err(clean.error);
      }
      r := Ok(nextMenu);
      menus := menus[nextMenu := Menu(jardinId, clean.value)];
      nextMenu := nextMenu + 1;
    }

    /**
     * `add_or_update_minuta_item`: store the grams of a food in a menu. The row for the
     * (menu, food) pair is updated when it exists and its id returned; otherwise a row
     * is inserted under a new id. Unreadable or non-positive grams change nothing.
     */
    method AddOrUpdateItem(minutaId: int, alimentoId: int, gramos: string) returns (r: Result<int, Error>)
      requires Valid()
      modifies this`items, this`nextItem
      ensures Valid()
      ensures r.Err? <==> ParseGramos(gramos).Err?
      ensures r.Err? ==> r.error == ParseGramos(gramos).error && items == old(items)
      ensures r.Ok? ==> r.value in items && items[r.value] == Item(minutaId, alimentoId, ParseGramos(gramos).value)
      ensures r.Ok? ==> forall id :: id in items && id != r.value ==> items[id].menu != minutaId || items[id].food != alimentoId
      ensures r.Ok? && HasItem(old(items), minutaId, alimentoId) ==>
        r.value in old(items) && items == old(items)[r.value := Item(minutaId, alimentoId, ParseGramos(gramos).value)]
      ensures r.Ok? && !HasItem(old(items), minutaId, alimentoId) ==>
        r.value !in old(items) && items == old(items)[r.value := Item(minutaId, alimentoId, ParseGramos(gramos).value)]
    {
      var parsed := ParseGramos(gramos);
      if parsed.Err? {
        return Err(parsed.error);
      }
      var item := Item(minutaId, alimentoId, parsed.value);
      if HasItem(items, minutaId, alimentoId) {
        var existing :| existing in items && items[existing].menu == minutaId && items[existing].food == alimentoId;
        items := items[existing := item];
        r := Ok(existing);
      } else {
        items := items[nextItem := item];
        r := Ok(nextItem);
        nextItem := nextItem + 1;
      }
    }

    /** `update_minuta_item_gramos`: validate the grams, then set them on item `itemId` if it exists. */
    method UpdateItemGrams(itemId: int, gramos: string) returns (r: Result<(), Error>)
      requires Valid()
      modifies this`items
      ensures Valid()
      ensures r.Err? <==> ParseGramos(gramos).Err?
      ensures r.Err? ==> r.error == ParseGramos(gramos).error && items == old(items)
      ensures r.Ok? ==> items == if itemId in old(items)
                                 then old(items)[itemId := old(items)[itemId].(grams := ParseGramos(gramos).value)]
                                 else old(items)
    {
      var parsed := ParseGramos(gramos);
      if parsed.Err? {
        return Err(parsed.error);
      }
      if itemId in items {
        items := items[itemId := items[itemId].(grams := parsed.value)];
      }
      r := Ok(());
    }

    /** `delete_minuta_item`: remove item `itemId`, if stored; nothing else changes. */
    method DeleteItem(itemId: int)
      requires Valid()
      modifies this`items
      ensures Valid()
      ensures items == old(items) - {itemId}
    {
      items := items - {itemId};
    }
  }
}
