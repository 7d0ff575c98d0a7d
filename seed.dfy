/**
 * Seeding the food catalogue: the initial food names are inserted, in their display
 * form, unless a food with the same key is already in the table or was inserted
 * earlier in the same run.
 */
module Seed {
  import Text
  import Models
  import WeeklyOrder

  /** `INITIAL_FOODS`, as written. */
  const InitialFoods: seq<string> := [
    "Aceite, de soya", "Ahuyama", "Apio", "Arroz", "Arveja verde", "Avena", "Azúcar, blanco",
    "Banano común, maduro", "Banano bocadillo", "Bienestarina", "Calabaza", "Canela",
    "Carne de Cerdo, magra", "Carne de res", "Carne de res molida", "Cebolla cabezona",
    "Cebolla junca", "Chocolate", "Crema de leche", "Durazno maduro, pulpa", "Esencia de vainilla",
    "Espinaca", "Fresa", "Frijol rojo", "Galleta (craker)", "Galleta Casera", "Galleta de leche",
    "Galleta de Soda", "Guayaba", "Habichuela", "Harina de maíz blanco", "Harina de trigo",
    "Huevo de gallina", "Kumis, entero con dulce", "Leche condensada azucarada",
    "Leche en polvo entera de vaca", "Lechuga", "Lenteja", "Limón", "Mandarina",
    "Mango, maduro pulpa", "Manzana, maduro pulpa", "Margarina", "Mayonesa", "Mora", "Naranja",
    "Pan aliñado", "Pan blandito", "Pan Coco", "Pan tajado", "Panela", "Papa común",
    "Papaya, maduro pulpa", "Pasta alimenticia enriq.", "Pasta spaguetti", "Pechuga de pollo",
    "Pepino Cohombro", "Pepino común", "Pera, maduro pulpa", "Perejil", "Pimentón", "Piña",
    "Plátano hartón maduro", "Plátano hartón verde", "Polvo de hornear", "Queso doble crema",
    "Remolacha", "Repollo, hojas frescas", "Sal", "Tomate de árbol", "Tomate, pulpa", "Tostada",
    "Yogurt, entero con dulce", "Zanahoria"
  ]

  // ---------------------------------------------------------------------------
  // The food table

  /** SQLite's NOCASE collation on one character: only the letters A to Z are folded. */
  function NoCaseChar(c: char): char {
    if 'A' <= c <= 'Z' then (c as int + 32) as char else c
  }

  /** A name as NOCASE compares it. */
  function NoCaseFold(s: string): string {
    seq(|s|, i requires 0 <= i < |s| => NoCaseChar(s[i]))
  }

  /** Two names equal under NOCASE. */
  predicate NoCaseEqual(a: string, b: string) {
    NoCaseFold(a) == NoCaseFold(b)
  }

  /** Some stored name equals `name` under NOCASE. */
  predicate NoCaseTaken(names: seq<string>, name: string) {
    exists i :: 0 <= i < |names| && NoCaseEqual(names[i], name)
  }

  /** The keys of the stored names: `{normalize_food_name(row["nombre"]) for row in existing}`. */
  function TableKeys(names: seq<string>): set<string> {
    set i | 0 <= i < |names| :: WeeklyOrder.NormalizeFoodName(names[i])
  }

  /** The `alimentos` table: its `nombre` column in insertion order, `UNIQUE COLLATE NOCASE`. */
  class FoodTable {
    var names: seq<string>

    ghost predicate Valid()
      reads this
    {
      forall i, j :: 0 <= i < j < |names| ==> !NoCaseEqual(names[i], names[j])
    }

    constructor (names: seq<string>)
      requires forall i, j :: 0 <= i < j < |names| ==> !NoCaseEqual(names[i], names[j])
      ensures Valid() && this.names == names
    {
      this.names := names;
    }

    /** `INSERT OR IGNORE INTO alimentos(nombre) VALUES (?)`: a name equal to a stored one under NOCASE is dropped. */
    method InsertOrIgnore(name: string)
      requires Valid()
      modifies this
      ensures Valid()
      ensures names == if NoCaseTaken(old(names), name) then old(names) else old(names) + [name]
    {
      if !NoCaseTaken(names, name) {
        names := names + [name];
      }
    }
  }

  // ---------------------------------------------------------------------------
  // The seeding run

  /** What a seeding run has seen and done: the keys known so far, and the display names inserted, in order. */
  datatype SeedState = SeedState(keys: set<string>, added: seq<string>)

  /**
   * One pass of the loop of `seed_if_empty`: the name is put in display form and keyed;
   * it is skipped when either is empty or the key is known, and otherwise inserted and
   * its key recorded.
   */
  function SeedStep(st: SeedState, name: string): SeedState {
    var display := Models.NormalizeName(name);
    var key := WeeklyOrder.NormalizeFoodName(display);
    if display == [] || key == [] || key in st.keys then st
    else SeedState(st.keys + {key}, st.added + [display])
  }

  /** The loop of `seed_if_empty` over `names`, from the key set `existing`. */
  function SeedRun(existing: set<string>, names: seq<string>): SeedState {
    if names == [] then SeedState(existing, [])
    else SeedStep(SeedRun(existing, names[..|names| - 1]), names[|names| - 1])
  }

  /** The key of an initial name. */
  function Key(name: string): string {
    WeeklyOrder.NormalizeFoodName(Models.NormalizeName(name))
  }

  /** The keys of the names whose display form is not empty. */
  function NameKeys(names: seq<string>): set<string> {
    set i | 0 <= i < |names| && Models.NormalizeName(names[i]) != [] :: Key(names[i])
  }

  /** A name's key is its case-folded display form, and it is empty exactly when the display form is. */
  lemma KeyFacts(name: string)
    ensures Key(name) == Text.CaseFold(Models.NormalizeName(name))
    ensures Key(name) == WeeklyOrder.NormalizeFoodName(name)
    ensures Key(name) == [] <==> Models.NormalizeName(name) == []
  {
    var display := Models.NormalizeName(name);
    WeeklyOrder.NormalizeFoodNameFacts(display);
    WeeklyOrder.NormalizeFoodNameFacts(name);
    Models.NormalizeNameIdempotent(name);
    assert |Text.CaseFold(display)| == |display|;
  }

  lemma NameKeysSnoc(names: seq<string>, x: string)
    ensures NameKeys(names + [x]) == NameKeys(names) + (if Models.NormalizeName(x) != [] then {Key(x)} else {})
  {
    NameKeysSnocSub(names, x);
    NameKeysSnocSup(names, x);
  }

  lemma NameKeysSnocSub(names: seq<string>, x: string)
    ensures NameKeys(names + [x]) <= NameKeys(names) + (if Models.NormalizeName(x) != [] then {Key(x)} else {})
  {
    forall k | k in NameKeys(names + [x])
      ensures k in NameKeys(names) || k == Key(x)
    {
      var i :| 0 <= i < |names + [x]| && Models.NormalizeName((names + [x])[i]) != [] && k == Key((names + [x])[i]);
      if i < |names| {
        NameKeysHas(names, x, i);
      }
    }
  }

  lemma NameKeysHas(names: seq<string>, x: string, i: nat)
    requires i < |names| && Models.NormalizeName((names + [x])[i]) != []
    ensures Key((names + [x])[i]) in NameKeys(names)
  {
    assert (names + [x])[i] == names[i];
  }

  lemma NameKeysSnocSup(names: seq<string>, x: string)
    ensures NameKeys(names) + (if Models.NormalizeName(x) != [] then {Key(x)} else {}) <= NameKeys(names + [x])
  {
    forall k | k in NameKeys(names)
      ensures k in NameKeys(names + [x])
    {
      var i :| 0 <= i < |names| && Models.NormalizeName(names[i]) != [] && k == Key(names[i]);
      assert (names + [x])[i] == names[i];
    }
    assert (names + [x])[|names|] == x;
  }

  lemma TableKeysSnoc(names: seq<string>, x: string)
    ensures TableKeys(names + [x]) == TableKeys(names) + {WeeklyOrder.NormalizeFoodName(x)}
  {
    var s := names + [x];
    forall k | k in TableKeys(s)
      ensures k in TableKeys(names) + {WeeklyOrder.NormalizeFoodName(x)}
    {
      var i :| 0 <= i < |s| && k == WeeklyOrder.NormalizeFoodName(s[i]);
      if i < |names| {
        assert s[i] == names[i];
      }
    }
    forall k | k in TableKeys(names)
      ensures k in TableKeys(s)
    {
      var i :| 0 <= i < |names| && k == WeeklyOrder.NormalizeFoodName(names[i]);
      assert s[i] == names[i];
    }
    assert s[|names|] == x;
  }

  /** The keys of two stretches of stored names are the keys of each. */
  lemma TableKeysAppend(a: seq<string>, b: seq<string>)
    ensures TableKeys(a + b) == TableKeys(a) + TableKeys(b)
  {
    forall k | k in TableKeys(a + b)
      ensures k in TableKeys(a) + TableKeys(b)
    {
      var i :| 0 <= i < |a + b| && k == WeeklyOrder.NormalizeFoodName((a + b)[i]);
      if i < |a| {
        assert (a + b)[i] == a[i];
      } else {
        assert (a + b)[i] == b[i - |a|];
      }
    }
    forall k | k in TableKeys(a)
      ensures k in TableKeys(a + b)
    {
      var i :| 0 <= i < |a| && k == WeeklyOrder.NormalizeFoodName(a[i]);
      assert (a + b)[i] == a[i];
    }
    forall k | k in TableKeys(b)
      ensures k in TableKeys(a + b)
    {
      var i :| 0 <= i < |b| && k == WeeklyOrder.NormalizeFoodName(b[i]);
      assert (a + b)[|a| + i] == b[i];
    }
  }

  /** One more name: the run so far, then that name's pass. */
  lemma SeedRunSnoc(existing: set<string>, names: seq<string>, x: string)
    ensures SeedRun(existing, names + [x]) == SeedStep(SeedRun(existing, names), x)
  {
    assert (names + [x])[..|names|] == names;
  }

  lemma AppendOne(start: seq<string>, added: seq<string>, x: string)
    ensures (start + added) + [x] == start + (added + [x])
  {
  }

  /** The run over the first `i + 1` names, from the run over the first `i`. */
  lemma SeedRunPrefix(existing: set<string>, names: seq<string>, i: nat)
    requires i < |names|
    ensures SeedRun(existing, names[..i + 1]) == SeedStep(SeedRun(existing, names[..i]), names[i])
  {
    assert names[..i + 1][..i] == names[..i];
  }

  /**
   * An inserted display form never meets a stored name equal to it under NOCASE, and the
   * stored keys stay among the known ones.
   */
  lemma SeedStepInserts(names: seq<string>, keys: set<string>, name: string)
    requires TableKeys(names) <= keys
    requires Models.NormalizeName(name) != []
    requires WeeklyOrder.NormalizeFoodName(Models.NormalizeName(name)) !in keys
    ensures !NoCaseTaken(names, Models.NormalizeName(name))
    ensures TableKeys(names + [Models.NormalizeName(name)]) <= keys + {WeeklyOrder.NormalizeFoodName(Models.NormalizeName(name))}
  {
    var display := Models.NormalizeName(name);
    Models.NormalizeNameFacts(name);
    NoCaseFresh(names, display);
    TableKeysSnoc(names, display);
  }

  /** After the run the known keys are the starting keys and the key of every name whose display form is not empty. */
  lemma {:induction false} SeedRunKeys(existing: set<string>, names: seq<string>)
    ensures SeedRun(existing, names).keys == existing + NameKeys(names)
  {
    if names != [] {
      var init, last := names[..|names| - 1], names[|names| - 1];
      assert names == init + [last];
      SeedRunKeys(existing, init);
      NameKeysSnoc(init, last);
      KeyFacts(last);
      Models.NormalizeNameIdempotent(last);
    }
  }

  /**
   * The names a run inserts are non-empty display forms of listed names, at most one per
   * name; their keys are pairwise distinct and none was known at the start; and the known
   * keys afterwards are the starting keys and theirs.
   */
  lemma SeedRunAdded(existing: set<string>, names: seq<string>)
    ensures var r := SeedRun(existing, names);
      && |r.added| <= |names|
      && r.keys == existing + TableKeys(r.added)
      && (forall i :: 0 <= i < |r.added| ==> r.added[i] != [] && Text.IsNormalized(r.added[i]))
      && (forall i :: 0 <= i < |r.added| ==> WeeklyOrder.NormalizeFoodName(r.added[i]) !in existing)
      && (forall i, j :: 0 <= i < j < |r.added| ==>
            WeeklyOrder.NormalizeFoodName(r.added[i]) != WeeklyOrder.NormalizeFoodName(r.added[j]))
      && (forall i :: 0 <= i < |r.added| ==>
            exists j :: 0 <= j < |names| && r.added[i] == Models.NormalizeName(names[j]))
  {
    SeedRunShape(existing, names);
    SeedRunFresh(existing, names);
    SeedRunFromNames(existing, names);
  }

  /** Each inserted name is the display form of one of the names. */
  lemma SeedRunFromNames(existing: set<string>, names: seq<string>)
    ensures forall i :: 0 <= i < |SeedRun(existing, names).added| ==>
      exists j :: 0 <= j < |names| && SeedRun(existing, names).added[i] == Models.NormalizeName(names[j])
  {
    var added := SeedRun(existing, names).added;
    SeedRunInOrder(existing, names);
    SubsequenceMembers(added, Displays(names));
    forall i | 0 <= i < |added|
      ensures exists j :: 0 <= j < |names| && added[i] == Models.NormalizeName(names[j])
    {
      var j :| 0 <= j < |names| && added[i] == Displays(names)[j];
    }
  }

  /** The display form of each name, in the order of the names. */
  function Displays(names: seq<string>): (ds: seq<string>)
    ensures |ds| == |names|
  {
    seq(|names|, i requires 0 <= i < |names| => Models.NormalizeName(names[i]))
  }

  /** `a` is `b` with some elements left out, the rest kept in order. */
  predicate Subsequence<T(==)>(a: seq<T>, b: seq<T>)
    decreases |b|
  {
    if a == [] then true
    else if b == [] then false
    else (a[|a| - 1] == b[|b| - 1] && Subsequence(a[..|a| - 1], b[..|b| - 1])) || Subsequence(a, b[..|b| - 1])
  }

  /** Every element of a subsequence is an element of the whole. */
  lemma {:induction false} SubsequenceMembers<T>(a: seq<T>, b: seq<T>)
    requires Subsequence(a, b)
    ensures forall i :: 0 <= i < |a| ==> exists j :: 0 <= j < |b| && a[i] == b[j]
    decreases |b|
  {
    if a != [] {
      var a', b' := a[..|a| - 1], b[..|b| - 1];
      if a[|a| - 1] == b[|b| - 1] && Subsequence(a', b') {
        SubsequenceMembers(a', b');
        forall i | 0 <= i < |a| ensures exists j :: 0 <= j < |b| && a[i] == b[j] {
          if i == |a| - 1 {
            assert a[i] == b[|b| - 1];
          } else {
            assert a[i] == a'[i];
            var j :| 0 <= j < |b'| && a'[i] == b'[j];
            assert a[i] == b[j];
          }
        }
      } else {
        SubsequenceMembers(a, b');
        forall i | 0 <= i < |a| ensures exists j :: 0 <= j < |b| && a[i] == b[j] {
          var j :| 0 <= j < |b'| && a[i] == b'[j];
          assert a[i] == b[j];
        }
      }
    }
  }

  /**
   * A run inserts the display forms of some of its names, in the order of the names:
   * what `seed_if_empty` stores is `normalize_name` of a listed name, never its key.
   */
  lemma {:induction false} SeedRunInOrder(existing: set<string>, names: seq<string>)
    ensures Subsequence(SeedRun(existing, names).added, Displays(names))
  {
    if names != [] {
      SeedRunInOrder(existing, names[..|names| - 1]);
      DisplaysSnoc(names);
      SeedStepInOrder(SeedRun(existing, names[..|names| - 1]), Displays(names[..|names| - 1]), names[|names| - 1]);
    }
  }

  /** The display forms of a list are those of all but its last name, then the last one's. */
  lemma DisplaysSnoc(names: seq<string>)
    requires names != []
    ensures Displays(names) == Displays(names[..|names| - 1]) + [Models.NormalizeName(names[|names| - 1])]
  {
  }

  /** One pass keeps the inserted names a subsequence of the display forms seen so far. */
  lemma SeedStepInOrder(st: SeedState, ds: seq<string>, name: string)
    requires Subsequence(st.added, ds)
    ensures Subsequence(SeedStep(st, name).added, ds + [Models.NormalizeName(name)])
  {
    var x := Models.NormalizeName(name);
    assert (ds + [x])[..|ds|] == ds;
    if SeedStep(st, name).added != st.added {
      assert (st.added + [x])[..|st.added|] == st.added;
    }
  }

  /** The inserted names are non-empty display forms, and the known keys grow by exactly theirs. */
  lemma {:induction false} SeedRunShape(existing: set<string>, names: seq<string>)
    ensures |SeedRun(existing, names).added| <= |names|
    ensures SeedRun(existing, names).keys == existing + TableKeys(SeedRun(existing, names).added)
    ensures forall i :: 0 <= i < |SeedRun(existing, names).added| ==>
      SeedRun(existing, names).added[i] != [] && Text.IsNormalized(SeedRun(existing, names).added[i])
  {
    if names == [] {
      assert TableKeys([]) == {};
    } else {
      SeedRunShape(existing, names[..|names| - 1]);
      SeedStepShape(SeedRun(existing, names[..|names| - 1]), existing, names[|names| - 1]);
    }
  }

  /** One pass inserts at most one non-empty display form and adds its key to the known ones. */
  lemma SeedStepShape(st: SeedState, existing: set<string>, name: string)
    requires st.keys == existing + TableKeys(st.added)
    requires forall i :: 0 <= i < |st.added| ==> st.added[i] != [] && Text.IsNormalized(st.added[i])
    ensures |SeedStep(st, name).added| <= |st.added| + 1
    ensures SeedStep(st, name).keys == existing + TableKeys(SeedStep(st, name).added)
    ensures forall i :: 0 <= i < |SeedStep(st, name).added| ==>
      SeedStep(st, name).added[i] != [] && Text.IsNormalized(SeedStep(st, name).added[i])
  {
    if SeedStep(st, name) != st {
      Models.NormalizeNameFacts(name);
      SeedInsertKeys(st, existing, Models.NormalizeName(name));
      SeedInsertNormalized(st.added, Models.NormalizeName(name));
    }
  }

  /** Appending a display form records exactly its key. */
  lemma SeedInsertKeys(st: SeedState, existing: set<string>, display: string)
    requires st.keys == existing + TableKeys(st.added)
    ensures st.keys + {WeeklyOrder.NormalizeFoodName(display)} == existing + TableKeys(st.added + [display])
  {
    TableKeysSnoc(st.added, display);
  }

  /** Appending a non-empty normalised name keeps every inserted name non-empty and normalised. */
  lemma SeedInsertNormalized(added: seq<string>, display: string)
    requires forall i :: 0 <= i < |added| ==> added[i] != [] && Text.IsNormalized(added[i])
    requires display != [] && Text.IsNormalized(display)
    ensures forall i :: 0 <= i < |added + [display]| ==>
      (added + [display])[i] != [] && Text.IsNormalized((added + [display])[i])
  {
    forall i | 0 <= i < |added + [display]|
      ensures (added + [display])[i] != [] && Text.IsNormalized((added + [display])[i])
    {
      if i < |added| {
        assert (added + [display])[i] == added[i];
      }
    }
  }

  /** The keys of the inserted names are pairwise distinct and none was known at the start. */
  lemma {:induction false} SeedRunFresh(existing: set<string>, names: seq<string>)
    ensures forall i :: 0 <= i < |SeedRun(existing, names).added| ==>
      WeeklyOrder.NormalizeFoodName(SeedRun(existing, names).added[i]) !in existing
    ensures forall i, j :: 0 <= i < j < |SeedRun(existing, names).added| ==>
      WeeklyOrder.NormalizeFoodName(SeedRun(existing, names).added[i])
        != WeeklyOrder.NormalizeFoodName(SeedRun(existing, names).added[j])
  {
    if names != [] {
      SeedRunFresh(existing, names[..|names| - 1]);
      SeedRunShape(existing, names[..|names| - 1]);
      SeedStepFresh(SeedRun(existing, names[..|names| - 1]), existing, names[|names| - 1]);
    }
  }

  /** One pass keeps the inserted keys fresh and distinct, given that the known keys cover them. */
  lemma SeedStepFresh(st: SeedState, existing: set<string>, name: string)
    requires st.keys == existing + TableKeys(st.added)
    requires forall i :: 0 <= i < |st.added| ==> WeeklyOrder.NormalizeFoodName(st.added[i]) !in existing
    requires forall i, j :: 0 <= i < j < |st.added| ==>
      WeeklyOrder.NormalizeFoodName(st.added[i]) != WeeklyOrder.NormalizeFoodName(st.added[j])
    ensures forall i :: 0 <= i < |SeedStep(st, name).added| ==>
      WeeklyOrder.NormalizeFoodName(SeedStep(st, name).added[i]) !in existing
    ensures forall i, j :: 0 <= i < j < |SeedStep(st, name).added| ==>
      WeeklyOrder.NormalizeFoodName(SeedStep(st, name).added[i])
        != WeeklyOrder.NormalizeFoodName(SeedStep(st, name).added[j])
  {
    var display := Models.NormalizeName(name);
    var key := WeeklyOrder.NormalizeFoodName(display);
    if !(display == [] || key == [] || key in st.keys) {
      var added := st.added + [display];
      assert added[|st.added|] == display;
      forall i | 0 <= i < |st.added|
        ensures added[i] == st.added[i] && WeeklyOrder.NormalizeFoodName(added[i]) != key
      {
        assert WeeklyOrder.NormalizeFoodName(st.added[i]) in TableKeys(st.added);
      }
    }
  }

  /** A run over names whose keys are all known inserts nothing. */
  lemma {:induction false} SeedRunKnown(existing: set<string>, names: seq<string>)
    requires NameKeys(names) <= existing
    ensures SeedRun(existing, names) == SeedState(existing, [])
  {
    if names != [] {
      var init, last := names[..|names| - 1], names[|names| - 1];
      assert names == init + [last];
      NameKeysSnoc(init, last);
      SeedRunKnown(existing, init);
      KeyFacts(last);
      Models.NormalizeNameIdempotent(last);
    }
  }

  /** Seeding a second time, from the keys the first run left, inserts nothing. */
  lemma SeedTwice(existing: set<string>, names: seq<string>)
    ensures SeedRun(SeedRun(existing, names).keys, names).added == []
  {
    SeedRunKeys(existing, names);
    SeedRunKnown(SeedRun(existing, names).keys, names);
  }

  /**
   * Seeding a table a second time, after a first seeding left it holding `stored` plus
   * the names that run inserted (as `SeedNames` ensures), inserts nothing.
   */
  lemma SeedTwiceTable(stored: seq<string>, names: seq<string>)
    ensures SeedRun(TableKeys(stored + SeedRun(TableKeys(stored), names).added), names).added == []
  {
    TableKeysAppend(stored, SeedRun(TableKeys(stored), names).added);
    SeedRunShape(TableKeys(stored), names);
    SeedTwice(TableKeys(stored), names);
  }

  /**
   * A stored name equal to a display form under NOCASE has the display form's key, so
   * the `OR IGNORE` of an insert whose key is new never drops the name.
   */
  lemma NoCaseSameKey(display: string, stored: string)
    requires Text.IsNormalized(display) && NoCaseEqual(display, stored)
    ensures WeeklyOrder.NormalizeFoodName(stored) == WeeklyOrder.NormalizeFoodName(display)
  {
    NoCaseAgree(display, stored);
    Text.StripNormalized(stored);
    Text.JoinSplit(stored);
    Text.StripNormalized(display);
    Text.JoinSplit(display);
  }

  /** NOCASE-equal names have whitespace at the same places and the same case folding. */
  lemma NoCaseAgree(display: string, stored: string)
    requires Text.IsNormalized(display) && NoCaseEqual(display, stored)
    ensures Text.IsNormalized(stored)
    ensures Text.CaseFold(stored) == Text.CaseFold(display)
  {
    assert |stored| == |NoCaseFold(stored)| == |display|;
    forall i | 0 <= i < |stored|
      ensures Text.IsSpace(stored[i]) == Text.IsSpace(display[i])
      ensures Text.IsSpace(stored[i]) ==> stored[i] == display[i]
      ensures Text.FoldChar(stored[i]) == Text.FoldChar(display[i])
    {
      assert NoCaseFold(stored)[i] == NoCaseFold(display)[i];
    }
  }

  lemma NoCaseFresh(names: seq<string>, display: string)
    requires Text.IsNormalized(display) && WeeklyOrder.NormalizeFoodName(display) !in TableKeys(names)
    ensures !NoCaseTaken(names, display)
  {
    if NoCaseTaken(names, display) {
      var i :| 0 <= i < |names| && NoCaseEqual(names[i], display);
      NoCaseSameKey(display, names[i]);
    }
  }

  /**
   * The loop of `seed_if_empty` over `foods`, from the keys of the stored names; the
   * table gains exactly the names the run inserts, in order, and the count returned is
   * their number.
   */
  method SeedNames(table: FoodTable, foods: seq<string>) returns (inserted: nat)
    requires table.Valid()
    modifies table
    ensures table.Valid()
    ensures table.names == old(table.names) + SeedRun(TableKeys(old(table.names)), foods).added
    ensures inserted == |SeedRun(TableKeys(old(table.names)), foods).added|
  {
    var existingNormalized := TableKeys(table.names);
    ghost var existing := existingNormalized;
    ghost var start := table.names;
    ghost var st := SeedState(existing, []);
    inserted := 0;
    var i := 0;
    while i < |foods|
      invariant 0 <= i <= |foods|
      invariant table.Valid()
      invariant st == SeedRun(existing, foods[..i])
      invariant existingNormalized == st.keys && inserted == |st.added|
      invariant table.names == start + st.added
      invariant TableKeys(table.names) <= existingNormalized
    {
      var name := foods[i];
      SeedRunPrefix(existing, foods, i);
      var displayName := Models.NormalizeName(name);
      var normalized := WeeklyOrder.NormalizeFoodName(displayName);
      if displayName != [] && normalized != [] && normalized !in existingNormalized {
        ghost var pre := table.names;
        SeedStepInserts(pre, existingNormalized, name);
        table.InsertOrIgnore(displayName);
        AppendOne(start, st.added, displayName);
        existingNormalized := existingNormalized + {normalized};
        inserted := inserted + 1;
      }
      st := SeedStep(st, name);
      i := i + 1;
    }
    assert foods[..i] == foods;
  }

  /** `seed_if_empty`: the loop over `INITIAL_FOODS`. */
  method SeedIfEmpty(table: FoodTable) returns (inserted: nat)
    requires table.Valid()
    modifies table
    ensures table.Valid()
    ensures table.names == old(table.names) + SeedRun(TableKeys(old(table.names)), InitialFoods).added
    ensures inserted == |SeedRun(TableKeys(old(table.names)), InitialFoods).added|
  {
    inserted := SeedNames(table, InitialFoods);
  }
}
