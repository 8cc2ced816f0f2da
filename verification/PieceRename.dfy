/**
The schema migration `0002_piece_contract_names`: columns, indexes and constraints of `piece` take new names, and the
downgrade gives the old ones back. PostgreSQL renames indexes and constraints in place; SQLite drops and creates its
plain indexes again and keeps its constraint names.
*/
module PieceRename {
  import opened Common

  type Pairs = seq<(string, string)>

  // A rename of a column follows into the indexes and the constraints that use it.
  datatype Index = Index(columns: seq<string>, unique: bool)

  datatype Table = Table(columns: seq<string>, indexes: map<string, Index>, constraints: map<string, seq<string>>)

  const COLUMNS: Pairs := [
    ("title", "denomination"),
    ("period_text", "epoch_original_text"),
    ("period_type", "epoch_type"),
    ("period_from", "epoch_start_year"),
    ("period_to", "epoch_end_year"),
    ("category_term_id", "category_id"),
    ("conservation_status_term_id", "conservation_state_id")]

  // The plain indexes, and the columns each has under the new names.
  const INDEXES: Pairs := [
    ("ix_piece_title", "ix_piece_denomination"),
    ("ix_piece_category_term_id", "ix_piece_category_id")]

  const INDEX_COLUMNS: seq<seq<string>> := [["denomination"], ["category_id"]]

  const POSTGRES_INDEXES: Pairs := [("ix_piece_title_trgm", "ix_piece_denomination_trgm")]

  const POSTGRES_CONSTRAINTS: Pairs := [
    ("ck_piece_period_range", "ck_piece_epoch_range"),
    ("ck_piece_period_type", "ck_piece_epoch_type"),
    ("fk_piece_category_term_id_term", "fk_piece_category_id_term"),
    ("fk_piece_conservation_status_term_id_term", "fk_piece_conservation_state_id_term")]

  // ---------------------------------------------------------------------- one statement

  function Name(source: string, target: string, x: string): string { if x == source then target else x }

  function Names(source: string, target: string, xs: seq<string>): (r: seq<string>)
    ensures |r| == |xs|
  {
    seq(|xs|, i requires 0 <= i < |xs| => Name(source, target, xs[i]))
  }

  function RenameColumn(t: Table, source: string, target: string): Table {
    Table(Names(source, target, t.columns),
          map k | k in t.indexes :: t.indexes[k].(columns := Names(source, target, t.indexes[k].columns)),
          map k | k in t.constraints :: Names(source, target, t.constraints[k]))
  }

  // A key that is not there is left alone; whether that is an error depends on the statement.
  function RenameKey<V>(m: map<string, V>, source: string, target: string): map<string, V> {
    if source in m then (m - {source})[target := m[source]] else m
  }

  // ---------------------------------------------------------------------- a list of statements

  function Reversed(pairs: Pairs, reverse: bool): (r: Pairs)
    ensures |r| == |pairs|
  {
    if !reverse then pairs else seq(|pairs|, i requires 0 <= i < |pairs| => (pairs[i].1, pairs[i].0))
  }

  function RenameColumns(t: Table, pairs: Pairs): Table {
    if pairs == [] then t
    else RenameColumn(RenameColumns(t, pairs[..|pairs| - 1]), pairs[|pairs| - 1].0, pairs[|pairs| - 1].1)
  }

  function RenameKeys<V>(m: map<string, V>, pairs: Pairs): map<string, V> {
    if pairs == [] then m
    else RenameKey(RenameKeys(m, pairs[..|pairs| - 1]), pairs[|pairs| - 1].0, pairs[|pairs| - 1].1)
  }

  // What the whole list does to a name: the one renaming that applies to it.
  function Translate(pairs: Pairs, x: string): string {
    if pairs == [] then x
    else Name(pairs[|pairs| - 1].0, pairs[|pairs| - 1].1, Translate(pairs[..|pairs| - 1], x))
  }

  // No name occurs twice in the list, on either side.
  predicate Disjoint(pairs: Pairs) {
    && (forall i, j :: 0 <= i < j < |pairs| ==> pairs[i].0 != pairs[j].0 && pairs[i].1 != pairs[j].1)
    && (forall i, j :: 0 <= i < |pairs| && 0 <= j < |pairs| ==> pairs[i].0 != pairs[j].1)
  }

  predicate IsNew(pairs: Pairs, x: string) { exists i :: 0 <= i < |pairs| && pairs[i].1 == x }

  predicate IsOld(pairs: Pairs, x: string) { exists i :: 0 <= i < |pairs| && pairs[i].0 == x }

  lemma {:induction false} TranslateMeans(pairs: Pairs, x: string)
    requires Disjoint(pairs)
    ensures forall i :: 0 <= i < |pairs| && pairs[i].0 == x ==> Translate(pairs, x) == pairs[i].1
    ensures !IsOld(pairs, x) ==> Translate(pairs, x) == x
  {
    if pairs != [] {
      var front := pairs[..|pairs| - 1];
      TranslateMeans(front, x);
      if IsOld(front, x) {
        var i :| 0 <= i < |front| && front[i].0 == x;
        assert Translate(front, x) == front[i].1 == pairs[i].1;
        assert pairs[i].1 != pairs[|pairs| - 1].0;
      }
    }
  }

  // Renaming back what was renamed gives the first name, unless that is one of the new names.
  lemma TranslateBack(pairs: Pairs, x: string)
    requires Disjoint(pairs) && !IsNew(pairs, x)
    ensures Disjoint(Reversed(pairs, true))
    ensures Translate(Reversed(pairs, true), Translate(pairs, x)) == x
  {
    var back := Reversed(pairs, true);
    TranslateMeans(pairs, x);
    TranslateMeans(back, Translate(pairs, x));
    if IsOld(pairs, x) {
      var i :| 0 <= i < |pairs| && pairs[i].0 == x;
      assert back[i] == (pairs[i].1, x);
    } else {
      forall i | 0 <= i < |back| ensures back[i].0 != x { assert back[i].0 == pairs[i].1; }
    }
  }

  // What the list leaves is none of its old names.
  lemma TranslateLeavesNoOldName(pairs: Pairs, x: string)
    requires Disjoint(pairs) && !IsNew(pairs, x)
    ensures !IsOld(pairs, Translate(pairs, x))
    ensures !IsNew(Reversed(pairs, true), Translate(pairs, x))
  {
    TranslateMeans(pairs, x);
    var back := Reversed(pairs, true);
    assert forall i :: 0 <= i < |back| ==> back[i].1 == pairs[i].0;
  }

  function TranslateAll(pairs: Pairs, xs: seq<string>): (r: seq<string>)
    ensures |r| == |xs|
  {
    seq(|xs|, i requires 0 <= i < |xs| => Translate(pairs, xs[i]))
  }

  function TranslateTable(t: Table, pairs: Pairs): Table {
    Table(TranslateAll(pairs, t.columns),
          map k | k in t.indexes :: t.indexes[k].(columns := TranslateAll(pairs, t.indexes[k].columns)),
          map k | k in t.constraints :: TranslateAll(pairs, t.constraints[k]))
  }

  lemma {:induction false} RenameColumnsTranslates(t: Table, pairs: Pairs)
    ensures RenameColumns(t, pairs) == TranslateTable(t, pairs)
  {
    if pairs == [] {
      assert TranslateAll(pairs, t.columns) == t.columns;
      assert forall k :: k in t.indexes ==> TranslateAll(pairs, t.indexes[k].columns) == t.indexes[k].columns;
      assert forall k :: k in t.constraints ==> TranslateAll(pairs, t.constraints[k]) == t.constraints[k];
    } else {
      var front, last := pairs[..|pairs| - 1], pairs[|pairs| - 1];
      RenameColumnsTranslates(t, front);
      forall xs: seq<string> ensures Names(last.0, last.1, TranslateAll(front, xs)) == TranslateAll(pairs, xs) {}
    }
  }

  // ---------------------------------------------------------------------- keys

  // `r` is `m` with its keys translated.
  ghost predicate Translated<V>(m: map<string, V>, pairs: Pairs, r: map<string, V>) {
    KeepsEvery(m, pairs, r) && AddsNone(m, pairs, r)
  }

  ghost predicate KeepsEvery<V>(m: map<string, V>, pairs: Pairs, r: map<string, V>) {
    forall k :: k in m ==> Translate(pairs, k) in r && r[Translate(pairs, k)] == m[k]
  }

  ghost predicate AddsNone<V>(m: map<string, V>, pairs: Pairs, r: map<string, V>) {
    forall x :: x in r ==> exists k :: k in m && x == Translate(pairs, k)
  }

  // Renaming the others first never gives the last new name.
  lemma LastIsFree(pairs: Pairs, k: string)
    requires Disjoint(pairs) && pairs != [] && !IsNew(pairs, k)
    ensures Translate(pairs[..|pairs| - 1], k) != pairs[|pairs| - 1].1
  {
    var front, last := pairs[..|pairs| - 1], pairs[|pairs| - 1];
    TranslateMeans(front, k);
    if IsOld(front, k) {
      var i :| 0 <= i < |front| && front[i].0 == k;
      assert pairs[i].1 != last.1;
    }
  }

  lemma OneKeyMoves<V>(before: map<string, V>, source: string, target: string, y: string)
    requires target !in before && y in before
    ensures Name(source, target, y) in RenameKey(before, source, target)
    ensures RenameKey(before, source, target)[Name(source, target, y)] == before[y]
  {
  }

  lemma OneKeyComesFrom<V>(before: map<string, V>, source: string, target: string, x: string) returns (y: string)
    requires target !in before && x in RenameKey(before, source, target)
    ensures y in before && x == Name(source, target, y)
  {
    y := if source in before && x == target then source else x;
  }

  lemma LastKeyKeepsEvery<V>(m: map<string, V>, pairs: Pairs, before: map<string, V>)
    requires pairs != [] && KeepsEvery(m, pairs[..|pairs| - 1], before) && pairs[|pairs| - 1].1 !in before
    ensures KeepsEvery(m, pairs, RenameKey(before, pairs[|pairs| - 1].0, pairs[|pairs| - 1].1))
  {
    var front, last := pairs[..|pairs| - 1], pairs[|pairs| - 1];
    var r := RenameKey(before, last.0, last.1);
    forall k | k in m ensures Translate(pairs, k) in r && r[Translate(pairs, k)] == m[k] {
      assert Translate(front, k) in before;
      OneKeyMoves(before, last.0, last.1, Translate(front, k));
    }
  }

  lemma LastKeyAddsNone<V>(m: map<string, V>, pairs: Pairs, before: map<string, V>)
    requires pairs != [] && AddsNone(m, pairs[..|pairs| - 1], before) && pairs[|pairs| - 1].1 !in before
    ensures AddsNone(m, pairs, RenameKey(before, pairs[|pairs| - 1].0, pairs[|pairs| - 1].1))
  {
    var front, last := pairs[..|pairs| - 1], pairs[|pairs| - 1];
    forall x | x in RenameKey(before, last.0, last.1) ensures exists k :: k in m && x == Translate(pairs, k) {
      var y := OneKeyComesFrom(before, last.0, last.1, x);
      var k :| k in m && y == Translate(front, k);
      assert x == Translate(pairs, k);
    }
  }

  lemma RenameLastKey<V>(m: map<string, V>, pairs: Pairs, before: map<string, V>)
    requires pairs != [] && Translated(m, pairs[..|pairs| - 1], before) && pairs[|pairs| - 1].1 !in before
    ensures Translated(m, pairs, RenameKey(before, pairs[|pairs| - 1].0, pairs[|pairs| - 1].1))
  {
    LastKeyKeepsEvery(m, pairs, before);
    LastKeyAddsNone(m, pairs, before);
  }

  lemma {:induction false} RenameKeysTranslates<V>(m: map<string, V>, pairs: Pairs)
    requires Disjoint(pairs) && forall k :: k in m ==> !IsNew(pairs, k)
    ensures Translated(m, pairs, RenameKeys(m, pairs))
  {
    if pairs != [] {
      var front := pairs[..|pairs| - 1];
      assert forall i :: 0 <= i < |front| ==> front[i] == pairs[i];
      RenameKeysTranslates(m, front);
      forall k | k in m ensures Translate(front, k) != pairs[|pairs| - 1].1 { LastIsFree(pairs, k); }
      RenameLastKey(m, pairs, RenameKeys(m, front));
    }
  }

  lemma RenameKeysBack<V>(m: map<string, V>, pairs: Pairs)
    requires Disjoint(pairs) && forall k :: k in m ==> !IsNew(pairs, k)
    ensures RenameKeys(RenameKeys(m, pairs), Reversed(pairs, true)) == m
  {
    var back, there := Reversed(pairs, true), RenameKeys(m, pairs);
    RenameKeysTranslates(m, pairs);
    forall k | k in m ensures Translate(back, Translate(pairs, k)) == k { TranslateBack(pairs, k); }
    forall x | x in there ensures !IsNew(back, x) {
      var k :| k in m && x == Translate(pairs, k);
      TranslateLeavesNoOldName(pairs, k);
    }
    if pairs != [] && m != map[] {
      var k :| k in m;
      TranslateBack(pairs, k);
    }
    ReversedIsDisjoint(pairs);
    RenameKeysTranslates(there, back);
    var again := RenameKeys(there, back);
    forall k | k in m ensures k in again && again[k] == m[k] {
      assert Translate(pairs, k) in there;
    }
    forall x | x in again ensures x in m {
      var y :| y in there && x == Translate(back, y);
      var k :| k in m && y == Translate(pairs, k);
    }
    assert again == m;
  }

  lemma ReversedIsDisjoint(pairs: Pairs)
    requires Disjoint(pairs)
    ensures Disjoint(Reversed(pairs, true))
  {
  }

  lemma {:induction false} RenameKeysAppended<V>(m: map<string, V>, a: Pairs, b: Pairs)
    ensures RenameKeys(m, a + b) == RenameKeys(RenameKeys(m, a), b)
  {
    if b == [] {
      assert a + b == a;
    } else {
      assert (a + b)[..|a + b| - 1] == a + b[..|b| - 1];
      RenameKeysAppended(m, a, b[..|b| - 1]);
    }
  }

  // ---------------------------------------------------------------------- indexes

  function MapColumns(m: map<string, Index>, pairs: Pairs): map<string, Index> {
    map k | k in m :: m[k].(columns := TranslateAll(pairs, m[k].columns))
  }

  function MapUses(m: map<string, seq<string>>, pairs: Pairs): map<string, seq<string>> {
    map k | k in m :: TranslateAll(pairs, m[k])
  }

  lemma {:induction false} MapColumnsCommutes(m: map<string, Index>, pairs: Pairs, keys: Pairs)
    ensures MapColumns(RenameKeys(m, keys), pairs) == RenameKeys(MapColumns(m, pairs), keys)
  {
    if keys != [] { MapColumnsCommutes(m, pairs, keys[..|keys| - 1]); }
  }

  lemma {:induction false} MapUsesCommutes(m: map<string, seq<string>>, pairs: Pairs, keys: Pairs)
    ensures MapUses(RenameKeys(m, keys), pairs) == RenameKeys(MapUses(m, pairs), keys)
  {
    if keys != [] { MapUsesCommutes(m, pairs, keys[..|keys| - 1]); }
  }

  // Drop an index and create it under another name.
  function Recreate(m: map<string, Index>, source: string, target: string, columns: seq<string>): map<string, Index> {
    (m - {source})[target := Index(columns, false)]
  }

  function RecreateAll(m: map<string, Index>, pairs: Pairs, columns: seq<seq<string>>): map<string, Index>
    requires |columns| == |pairs|
  {
    if pairs == [] then m
    else
      var n := |pairs| - 1;
      Recreate(RecreateAll(m, pairs[..n], columns[..n]), pairs[n].0, pairs[n].1, columns[n])
  }

  lemma {:induction false} OtherKeysStay<V>(m: map<string, V>, pairs: Pairs, x: string)
    requires !IsOld(pairs, x) && !IsNew(pairs, x)
    ensures x in RenameKeys(m, pairs) <==> x in m
    ensures x in m ==> RenameKeys(m, pairs)[x] == m[x]
  {
    if pairs != [] {
      var front, last := pairs[..|pairs| - 1], pairs[|pairs| - 1];
      assert forall i :: 0 <= i < |front| ==> front[i] == pairs[i];
      assert last == pairs[|pairs| - 1];
      OtherKeysStay(m, front, x);
    }
  }

  /** Dropping and creating again is a rename for an index that had just those columns and was not unique. */
  lemma {:induction false} RecreatingRenames(m: map<string, Index>, pairs: Pairs, columns: seq<seq<string>>)
    requires |columns| == |pairs| && Disjoint(pairs)
    requires forall i :: 0 <= i < |pairs| ==> pairs[i].0 in m && m[pairs[i].0] == Index(columns[i], false)
    ensures RecreateAll(m, pairs, columns) == RenameKeys(m, pairs)
  {
    if pairs != [] {
      var n := |pairs| - 1;
      var front := pairs[..n];
      assert forall i :: 0 <= i < n ==> front[i] == pairs[i];
      RecreatingRenames(m, front, columns[..n]);
      OtherKeysStay(m, front, pairs[n].0);
    }
  }

  // ---------------------------------------------------------------------- the migration

  function TranslateColumns(reverse: bool): seq<seq<string>> {
    if reverse then seq(|INDEX_COLUMNS|, i requires 0 <= i < |INDEX_COLUMNS| =>
                          TranslateAll(Reversed(COLUMNS, true), INDEX_COLUMNS[i]))
    else INDEX_COLUMNS
  }

  // The table after the upgrade, or after the downgrade.
  function Renamed(t: Table, reverse: bool, postgres: bool): Table {
    var t1 := RenameColumns(t, Reversed(COLUMNS, reverse));
    if postgres then
      t1.(indexes := RenameKeys(RenameKeys(t1.indexes, Reversed(INDEXES, reverse)), Reversed(POSTGRES_INDEXES, reverse)),
          constraints := RenameKeys(t1.constraints, Reversed(POSTGRES_CONSTRAINTS, reverse)))
    else
      t1.(indexes := RecreateAll(t1.indexes, Reversed(INDEXES, reverse), TranslateColumns(reverse)))
  }

  // ---------------------------------------------------------------------- statements that fail

  // A statement leaves the table as it was, or half done, and says so. A column, index or constraint that is missing
  // is an error, unless the statement says IF EXISTS; so is a new name that is taken.

  function ColumnStatement(t: Table, pair: (string, string)): (Table, bool) {
    if pair.0 in t.columns && pair.1 !in t.columns then (RenameColumn(t, pair.0, pair.1), true) else (t, false)
  }

  function KeyStatement<V>(m: map<string, V>, pair: (string, string), ifExists: bool): (map<string, V>, bool) {
    if pair.0 !in m then (m, ifExists)
    else if pair.1 in m then (m, false)
    else (RenameKey(m, pair.0, pair.1), true)
  }

  function IndexStatements(m: map<string, Index>, pair: (string, string), columns: seq<string>, known: seq<string>)
    : (map<string, Index>, bool)
  {
    if pair.0 !in m then (m, false)
    else if pair.1 in m - {pair.0} || !(forall c :: c in columns ==> c in known) then (m - {pair.0}, false)
    else (Recreate(m, pair.0, pair.1, columns), true)
  }

  // A list of statements stops at the first one that fails.
  function RunColumns(t: Table, pairs: Pairs): (Table, bool) {
    if pairs == [] then (t, true)
    else
      var (before, ok) := RunColumns(t, pairs[..|pairs| - 1]);
      if ok then ColumnStatement(before, pairs[|pairs| - 1]) else (before, false)
  }

  function RunKeys<V>(m: map<string, V>, pairs: Pairs, ifExists: bool): (map<string, V>, bool) {
    if pairs == [] then (m, true)
    else
      var (before, ok) := RunKeys(m, pairs[..|pairs| - 1], ifExists);
      if ok then KeyStatement(before, pairs[|pairs| - 1], ifExists) else (before, false)
  }

  function RunIndexes(m: map<string, Index>, pairs: Pairs, columns: seq<seq<string>>, known: seq<string>)
    : (map<string, Index>, bool)
    requires |columns| == |pairs|
  {
    if pairs == [] then (m, true)
    else
      var n := |pairs| - 1;
      var (before, ok) := RunIndexes(m, pairs[..n], columns[..n], known);
      if ok then IndexStatements(before, pairs[n], columns[n], known) else (before, false)
  }

  function RunPostgres(t: Table, reverse: bool): (Table, bool) {
    var (plain, ok1) := RunKeys(t.indexes, Reversed(INDEXES, reverse), false);
    if !ok1 then (t.(indexes := plain), false)
    else
      var (all, ok2) := RunKeys(plain, Reversed(POSTGRES_INDEXES, reverse), true);
      if !ok2 then (t.(indexes := all), false)
      else
        var (constraints, ok3) := RunKeys(t.constraints, Reversed(POSTGRES_CONSTRAINTS, reverse), false);
        (t.(indexes := all, constraints := constraints), ok3)
  }

  function RunSqlite(t: Table, reverse: bool): (Table, bool) {
    var (indexes, ok) := RunIndexes(t.indexes, Reversed(INDEXES, reverse), TranslateColumns(reverse), t.columns);
    (t.(indexes := indexes), ok)
  }

  function Attempt(t: Table, reverse: bool, postgres: bool): (Table, bool) {
    var (t1, ok) := RunColumns(t, Reversed(COLUMNS, reverse));
    if !ok then (t1, false) else if postgres then RunPostgres(t1, reverse) else RunSqlite(t1, reverse)
  }

  // PostgreSQL undoes what a failed migration did; SQLite does not.
  function Migrate(t: Table, reverse: bool, postgres: bool): (Table, bool) {
    var (after, ok) := Attempt(t, reverse, postgres);
    if postgres && !ok then (t, false) else (after, ok)
  }

  class PieceTable {
    var table: Table

    method RenameOneColumn(pair: (string, string)) returns (ok: bool)
      modifies this
      ensures (table, ok) == ColumnStatement(old(table), pair)
    {
      ok := pair.0 in table.columns && pair.1 !in table.columns;
      if ok {
        table := RenameColumn(table, pair.0, pair.1);
      }
    }

    method RenameIndex(pair: (string, string), ifExists: bool) returns (ok: bool)
      modifies this
      ensures table == old(table).(indexes := KeyStatement(old(table).indexes, pair, ifExists).0)
      ensures ok == KeyStatement(old(table).indexes, pair, ifExists).1
    {
      if pair.0 !in table.indexes {
        return ifExists;
      }
      ok := pair.1 !in table.indexes;
      if ok {
        table := table.(indexes := RenameKey(table.indexes, pair.0, pair.1));
      }
    }

    method RenameConstraint(pair: (string, string)) returns (ok: bool)
      modifies this
      ensures table == old(table).(constraints := KeyStatement(old(table).constraints, pair, false).0)
      ensures ok == KeyStatement(old(table).constraints, pair, false).1
    {
      ok := pair.0 in table.constraints && pair.1 !in table.constraints;
      if ok {
        table := table.(constraints := RenameKey(table.constraints, pair.0, pair.1));
      }
    }

    method RecreateIndex(pair: (string, string), columns: seq<string>) returns (ok: bool)
      modifies this
      ensures table == old(table).(indexes := IndexStatements(old(table).indexes, pair, columns, old(table).columns).0)
      ensures ok == IndexStatements(old(table).indexes, pair, columns, old(table).columns).1
    {
      if pair.0 !in table.indexes {
        return false;
      }
      table := table.(indexes := table.indexes - {pair.0});
      ok := pair.1 !in table.indexes && forall c :: c in columns ==> c in table.columns;
      if ok {
        table := table.(indexes := table.indexes[pair.1 := Index(columns, false)]);
      }
    }

    method RenameColumnsOf(pairs: Pairs) returns (ok: bool)
      modifies this
      ensures (table, ok) == RunColumns(old(table), pairs)
    {
      ok := true;
      for n := 0 to |pairs|
        invariant ok && (table, ok) == RunColumns(old(table), pairs[..n])
      {
        assert pairs[..n + 1][..n] == pairs[..n];
        ok := RenameOneColumn(pairs[n]);
        if !ok {
          ColumnsStopThere(old(table), pairs, n + 1);
          return;
        }
      }
      assert pairs[..|pairs|] == pairs;
    }

    method RenameIndexes(pairs: Pairs, ifExists: bool) returns (ok: bool)
      modifies this
      ensures table == old(table).(indexes := RunKeys(old(table).indexes, pairs, ifExists).0)
      ensures ok == RunKeys(old(table).indexes, pairs, ifExists).1
    {
      ok := true;
      for n := 0 to |pairs|
        invariant ok && RunKeys(old(table).indexes, pairs[..n], ifExists).1
        invariant table == old(table).(indexes := RunKeys(old(table).indexes, pairs[..n], ifExists).0)
      {
        assert pairs[..n + 1][..n] == pairs[..n];
        ok := RenameIndex(pairs[n], ifExists);
        if !ok {
          KeysStopThere(old(table).indexes, pairs, ifExists, n + 1);
          return;
        }
      }
      assert pairs[..|pairs|] == pairs;
    }

    method RenameConstraints(pairs: Pairs) returns (ok: bool)
      modifies this
      ensures table == old(table).(constraints := RunKeys(old(table).constraints, pairs, false).0)
      ensures ok == RunKeys(old(table).constraints, pairs, false).1
    {
      ok := true;
      for n := 0 to |pairs|
        invariant ok && RunKeys(old(table).constraints, pairs[..n], false).1
        invariant table == old(table).(constraints := RunKeys(old(table).constraints, pairs[..n], false).0)
      {
        assert pairs[..n + 1][..n] == pairs[..n];
        ok := RenameConstraint(pairs[n]);
        if !ok {
          KeysStopThere(old(table).constraints, pairs, false, n + 1);
          return;
        }
      }
      assert pairs[..|pairs|] == pairs;
    }

    method RecreateIndexes(pairs: Pairs, columns: seq<seq<string>>) returns (ok: bool)
      requires |columns| == |pairs|
      modifies this
      ensures table == old(table).(indexes := RunIndexes(old(table).indexes, pairs, columns, old(table).columns).0)
      ensures ok == RunIndexes(old(table).indexes, pairs, columns, old(table).columns).1
    {
      ok := true;
      for n := 0 to |pairs|
        invariant ok && RunIndexes(old(table).indexes, pairs[..n], columns[..n], old(table).columns).1
        invariant table
                  == old(table).(indexes := RunIndexes(old(table).indexes, pairs[..n], columns[..n], old(table).columns).0)
      {
        assert pairs[..n + 1][..n] == pairs[..n] && columns[..n + 1][..n] == columns[..n];
        ok := RecreateIndex(pairs[n], columns[n]);
        if !ok {
          IndexesStopThere(old(table).indexes, pairs, columns, old(table).columns, n + 1);
          return;
        }
      }
      assert pairs[..|pairs|] == pairs && columns[..|pairs|] == columns;
    }

    method RenamePostgres(reverse: bool) returns (ok: bool)
      modifies this
      ensures (table, ok) == RunPostgres(old(table), reverse)
    {
      ok := RenameIndexes(Reversed(INDEXES, reverse), false);
      if !ok {
        return;
      }
      ok := RenameIndexes(Reversed(POSTGRES_INDEXES, reverse), true);
      if !ok {
        return;
      }
      ok := RenameConstraints(Reversed(POSTGRES_CONSTRAINTS, reverse));
    }

    /** The migration in either direction, statement by statement. */
    method Rename(reverse: bool, postgres: bool) returns (ok: bool)
      modifies this
      ensures (table, ok) == Migrate(old(table), reverse, postgres)
    {
      var before := table;
      ok := RenameColumnsOf(Reversed(COLUMNS, reverse));
      if ok {
        if postgres {
          ok := RenamePostgres(reverse);
        } else {
          ok := RecreateIndexes(Reversed(INDEXES, reverse), TranslateColumns(reverse));
        }
      }
      if postgres && !ok {
        table := before;
      }
    }
  }

  lemma {:induction false} ColumnsStopThere(t: Table, pairs: Pairs, n: nat)
    requires n <= |pairs| && !RunColumns(t, pairs[..n]).1
    ensures RunColumns(t, pairs) == RunColumns(t, pairs[..n])
    decreases |pairs|
  {
    if n == |pairs| {
      assert pairs[..n] == pairs;
    } else {
      var front := pairs[..|pairs| - 1];
      assert front[..n] == pairs[..n];
      ColumnsStopThere(t, front, n);
    }
  }

  lemma {:induction false} KeysStopThere<V>(m: map<string, V>, pairs: Pairs, ifExists: bool, n: nat)
    requires n <= |pairs| && !RunKeys(m, pairs[..n], ifExists).1
    ensures RunKeys(m, pairs, ifExists) == RunKeys(m, pairs[..n], ifExists)
    decreases |pairs|
  {
    if n == |pairs| {
      assert pairs[..n] == pairs;
    } else {
      var front := pairs[..|pairs| - 1];
      assert front[..n] == pairs[..n];
      KeysStopThere(m, front, ifExists, n);
    }
  }

  lemma {:induction false} IndexesStopThere(
      m: map<string, Index>, pairs: Pairs, columns: seq<seq<string>>, known: seq<string>, n: nat)
    requires n <= |pairs| == |columns| && !RunIndexes(m, pairs[..n], columns[..n], known).1
    ensures RunIndexes(m, pairs, columns, known) == RunIndexes(m, pairs[..n], columns[..n], known)
    decreases |pairs|
  {
    if n == |pairs| {
      assert pairs[..n] == pairs && columns[..n] == columns;
    } else {
      var k := |pairs| - 1;
      assert pairs[..k][..n] == pairs[..n] && columns[..k][..n] == columns[..n];
      IndexesStopThere(m, pairs[..k], columns[..k], known, n);
    }
  }

  // ---------------------------------------------------------------------- when the statements run

  lemma {:induction false} KeysRunExactlyWhen<V>(m: map<string, V>, pairs: Pairs, ifExists: bool)
    requires Disjoint(pairs)
    ensures RunKeys(m, pairs, ifExists).1 <==>
            forall i :: 0 <= i < |pairs| ==> if pairs[i].0 in m then pairs[i].1 !in m else ifExists
    ensures RunKeys(m, pairs, ifExists).1 ==> RunKeys(m, pairs, ifExists).0 == RenameKeys(m, pairs)
  {
    if pairs != [] {
      var front, last := pairs[..|pairs| - 1], pairs[|pairs| - 1];
      assert forall i :: 0 <= i < |front| ==> front[i] == pairs[i];
      KeysRunExactlyWhen(m, front, ifExists);
      OtherKeysStay(m, front, last.0);
      OtherKeysStay(m, front, last.1);
    }
  }

  lemma {:induction false} ColumnsRunExactlyWhen(t: Table, pairs: Pairs)
    requires Disjoint(pairs)
    ensures RunColumns(t, pairs).1 <==>
            forall i :: 0 <= i < |pairs| ==> pairs[i].0 in t.columns && pairs[i].1 !in t.columns
    ensures RunColumns(t, pairs).1 ==> RunColumns(t, pairs).0 == RenameColumns(t, pairs)
  {
    if pairs != [] {
      var front, last := pairs[..|pairs| - 1], pairs[|pairs| - 1];
      assert forall i :: 0 <= i < |front| ==> front[i] == pairs[i];
      ColumnsRunExactlyWhen(t, front);
      RenameColumnsTranslates(t, front);
      OtherColumnStays(t.columns, front, last.0);
      OtherColumnStays(t.columns, front, last.1);
    }
  }

  lemma OtherColumnStays(columns: seq<string>, pairs: Pairs, x: string)
    requires Disjoint(pairs) && !IsOld(pairs, x) && !IsNew(pairs, x)
    ensures x in TranslateAll(pairs, columns) <==> x in columns
  {
    var after := TranslateAll(pairs, columns);
    forall i | 0 <= i < |columns| ensures after[i] == x <==> columns[i] == x {
      TranslateMeans(pairs, columns[i]);
      if IsOld(pairs, columns[i]) { OldBecomesNew(pairs, columns[i]); }
    }
  }

  lemma OldBecomesNew(pairs: Pairs, x: string)
    requires Disjoint(pairs) && IsOld(pairs, x)
    ensures IsNew(pairs, Translate(pairs, x))
  {
    TranslateMeans(pairs, x);
    var i :| 0 <= i < |pairs| && pairs[i].0 == x;
    assert pairs[i].1 == Translate(pairs, x);
  }

  lemma {:induction false} IndexesRunWhen(m: map<string, Index>, pairs: Pairs, columns: seq<seq<string>>, known: seq<string>)
    requires |columns| == |pairs| && Disjoint(pairs)
    requires forall i :: 0 <= i < |pairs| ==> forall c :: c in columns[i] ==> c in known
    ensures RunIndexes(m, pairs, columns, known).1 <==>
            forall i :: 0 <= i < |pairs| ==> pairs[i].0 in m && pairs[i].1 !in m
    ensures RunIndexes(m, pairs, columns, known).1 ==> RunIndexes(m, pairs, columns, known).0 == RecreateAll(m, pairs, columns)
  {
    if pairs != [] {
      var n := |pairs| - 1;
      var front := pairs[..n];
      assert forall i :: 0 <= i < n ==> front[i] == pairs[i];
      IndexesRunWhen(m, front, columns[..n], known);
      OtherIndexStays(m, front, columns[..n], pairs[n].0);
      OtherIndexStays(m, front, columns[..n], pairs[n].1);
    }
  }

  lemma {:induction false} OtherIndexStays(m: map<string, Index>, pairs: Pairs, columns: seq<seq<string>>, x: string)
    requires |columns| == |pairs| && !IsOld(pairs, x) && !IsNew(pairs, x)
    ensures x in RecreateAll(m, pairs, columns) <==> x in m
  {
    if pairs != [] {
      var n := |pairs| - 1;
      var front := pairs[..n];
      assert forall i :: 0 <= i < n ==> front[i] == pairs[i];
      assert pairs[n].0 != x && pairs[n].1 != x;
      OtherIndexStays(m, front, columns[..n], x);
    }
  }

  // ---------------------------------------------------------------------- it undoes itself

  // The names of the old schema are there and none of the new ones; indexes and constraints use columns of the
  // table. On SQLite the plain indexes are those of the first migration; only the index by trigrams may be missing.
  ghost predicate OldSchema(t: Table, postgres: bool) {
    && (forall i :: 0 <= i < |COLUMNS| ==> COLUMNS[i].0 in t.columns)
    && (forall i :: 0 <= i < |INDEXES| ==> INDEXES[i].0 in t.indexes)
    && (postgres ==> forall i :: 0 <= i < |POSTGRES_CONSTRAINTS| ==> POSTGRES_CONSTRAINTS[i].0 in t.constraints)
    && (forall c :: c in t.columns ==> !IsNew(COLUMNS, c))
    && (forall k :: k in t.indexes ==> forall c :: c in t.indexes[k].columns ==> !IsNew(COLUMNS, c))
    && (forall k :: k in t.constraints ==> forall c :: c in t.constraints[k] ==> !IsNew(COLUMNS, c))
    && (forall k :: k in t.indexes ==> !IsNew(INDEXES + POSTGRES_INDEXES, k))
    && (forall k :: k in t.constraints ==> !IsNew(POSTGRES_CONSTRAINTS, k))
    && (!postgres ==> "ix_piece_title" in t.indexes && t.indexes["ix_piece_title"] == Index(["title"], false))
    && (!postgres ==> "ix_piece_category_term_id" in t.indexes
                      && t.indexes["ix_piece_category_term_id"] == Index(["category_term_id"], false))
  }

  // The columns that the downgrade looks up are those of the first migration.
  lemma OldIndexColumns()
    ensures TranslateColumns(true) == [["title"], ["category_term_id"]]
  {
    ColumnNamesAreDistinct();
    var back := Reversed(COLUMNS, true);
    ReversedIsDisjoint(COLUMNS);
    assert back[0] == ("denomination", "title") && back[5] == ("category_id", "category_term_id");
    TranslateMeans(back, "denomination");
    TranslateMeans(back, "category_id");
    assert TranslateAll(back, ["denomination"]) == ["title"];
    assert TranslateAll(back, ["category_id"]) == ["category_term_id"];
  }

  lemma OldIndexes(t: Table, i: nat)
    requires OldSchema(t, false) && i < |INDEXES|
    ensures INDEXES[i].0 in t.indexes && t.indexes[INDEXES[i].0] == Index(TranslateColumns(true)[i], false)
  {
    OldIndexColumns();
    assert i == 0 || i == 1;
  }

  lemma TranslateAllBack(pairs: Pairs, xs: seq<string>)
    requires Disjoint(pairs) && forall x :: x in xs ==> !IsNew(pairs, x)
    ensures TranslateAll(Reversed(pairs, true), TranslateAll(pairs, xs)) == xs
  {
    forall i | 0 <= i < |xs| ensures Translate(Reversed(pairs, true), Translate(pairs, xs[i])) == xs[i] {
      TranslateBack(pairs, xs[i]);
    }
  }

  lemma TranslateTableBack(t: Table, postgres: bool)
    requires OldSchema(t, postgres) && Disjoint(COLUMNS)
    ensures TranslateAll(Reversed(COLUMNS, true), TranslateAll(COLUMNS, t.columns)) == t.columns
    ensures MapColumns(MapColumns(t.indexes, COLUMNS), Reversed(COLUMNS, true)) == t.indexes
    ensures MapUses(MapUses(t.constraints, COLUMNS), Reversed(COLUMNS, true)) == t.constraints
  {
    TranslateAllBack(COLUMNS, t.columns);
    forall k | k in t.indexes
      ensures TranslateAll(Reversed(COLUMNS, true), TranslateAll(COLUMNS, t.indexes[k].columns)) == t.indexes[k].columns
    {
      TranslateAllBack(COLUMNS, t.indexes[k].columns);
    }
    forall k | k in t.constraints
      ensures TranslateAll(Reversed(COLUMNS, true), TranslateAll(COLUMNS, t.constraints[k])) == t.constraints[k]
    {
      TranslateAllBack(COLUMNS, t.constraints[k]);
    }
  }

  lemma ConstraintNamesAreDistinct()
    ensures Disjoint(POSTGRES_CONSTRAINTS)
  {
    var p := POSTGRES_CONSTRAINTS;
    assert |p[0].0| == 21 && |p[1].0| == 20 && |p[2].0| == 30 && |p[3].0| == 41;
    assert |p[0].1| == 20 && |p[1].1| == 19 && |p[2].1| == 25 && |p[3].1| == 35;
    assert p[1].0[9] == 'p' && p[0].1[9] == 'e';
  }

  lemma IndexNamesAreDistinct()
    ensures Disjoint(INDEXES + POSTGRES_INDEXES) && Disjoint(INDEXES)
  {
    var p := INDEXES + POSTGRES_INDEXES;
    assert |p[0].0| == 14 && |p[1].0| == 25 && |p[2].0| == 19;
    assert |p[0].1| == 21 && |p[1].1| == 20 && |p[2].1| == 26;
    assert forall i :: 0 <= i < |INDEXES| ==> INDEXES[i] == p[i];
  }

  lemma ColumnNamesAreDistinct()
    ensures Disjoint(COLUMNS)
    ensures !IsOld(COLUMNS, "denomination") && !IsOld(COLUMNS, "category_id")
  {
    var p := COLUMNS;
    assert |p[0].0| == 5 && |p[1].0| == 11 && |p[2].0| == 11 && |p[3].0| == 11 && |p[4].0| == 9 && |p[5].0| == 16 && |p[6].0| == 27;
    assert p[1].0[10] == 't' && p[1].0[8] == 'e' && p[2].0[8] == 'y' && p[3].0[8] == 'r';
    assert |p[0].1| == 12 && |p[1].1| == 19 && |p[2].1| == 10 && |p[3].1| == 16 && |p[4].1| == 14 && |p[5].1| == 11 && |p[6].1| == 21;
    assert p[5].1[0] == 'c' && p[1].0[0] == 'p' && p[2].0[0] == 'p' && p[3].0[0] == 'p' && p[5].0[0] == 'c' && p[3].1[0] == 'e';
  }

  // On SQLite the indexes that the upgrade creates are the old ones under their new columns.
  lemma UpgradeRecreates(t: Table)
    requires OldSchema(t, false)
    ensures RecreateAll(MapColumns(t.indexes, COLUMNS), INDEXES, INDEX_COLUMNS)
            == RenameKeys(MapColumns(t.indexes, COLUMNS), INDEXES)
  {
    ColumnNamesAreDistinct();
    IndexNamesAreDistinct();
    var back := Reversed(COLUMNS, true);
    ReversedIsDisjoint(COLUMNS);
    assert Reversed(back, true) == COLUMNS;
    forall i | 0 <= i < |INDEXES|
      ensures INDEXES[i].0 in t.indexes && t.indexes[INDEXES[i].0] == Index(TranslateColumns(true)[i], false)
    {
      OldIndexes(t, i);
    }
    forall i | 0 <= i < |INDEX_COLUMNS| ensures TranslateAll(COLUMNS, TranslateColumns(true)[i]) == INDEX_COLUMNS[i] {
      forall x | x in INDEX_COLUMNS[i] ensures !IsNew(back, x) {
        assert x == "denomination" || x == "category_id";
        forall j | 0 <= j < |back| ensures back[j].1 != x { assert back[j].1 == COLUMNS[j].0; }
      }
      TranslateAllBack(back, INDEX_COLUMNS[i]);
    }
    RecreatingRenames(MapColumns(t.indexes, COLUMNS), INDEXES, INDEX_COLUMNS);
  }

  lemma DowngradeRecreates(t: Table)
    requires OldSchema(t, false)
    ensures RecreateAll(RenameKeys(t.indexes, INDEXES), Reversed(INDEXES, true), TranslateColumns(true)) == t.indexes
  {
    IndexNamesAreDistinct();
    ReversedIsDisjoint(INDEXES);
    NoneNew(t);
    RenameKeysTranslates(t.indexes, INDEXES);
    forall i | 0 <= i < |INDEXES|
      ensures INDEXES[i].1 in RenameKeys(t.indexes, INDEXES)
      ensures RenameKeys(t.indexes, INDEXES)[INDEXES[i].1] == Index(TranslateColumns(true)[i], false)
    {
      TranslateMeans(INDEXES, INDEXES[i].0);
      OldIndexes(t, i);
    }
    RecreatingRenames(RenameKeys(t.indexes, INDEXES), Reversed(INDEXES, true), TranslateColumns(true));
    RenameKeysBack(t.indexes, INDEXES);
  }

  lemma NoneNew(t: Table)
    requires forall k :: k in t.indexes ==> !IsNew(INDEXES + POSTGRES_INDEXES, k)
    ensures forall k :: k in t.indexes ==> !IsNew(INDEXES, k)
  {
    assert forall i :: 0 <= i < |INDEXES| ==> (INDEXES + POSTGRES_INDEXES)[i] == INDEXES[i];
  }

  lemma PostgresIndexesBack(t: Table)
    requires OldSchema(t, true)
    ensures var there := RenameKeys(RenameKeys(t.indexes, INDEXES), POSTGRES_INDEXES);
            RenameKeys(RenameKeys(there, Reversed(INDEXES, true)), Reversed(POSTGRES_INDEXES, true)) == t.indexes
  {
    IndexNamesAreDistinct();
    var both := INDEXES + POSTGRES_INDEXES;
    RenameKeysAppended(t.indexes, INDEXES, POSTGRES_INDEXES);
    var there := RenameKeys(t.indexes, both);
    assert Reversed(both, true) == Reversed(INDEXES, true) + Reversed(POSTGRES_INDEXES, true);
    RenameKeysAppended(there, Reversed(INDEXES, true), Reversed(POSTGRES_INDEXES, true));
    RenameKeysBack(t.indexes, both);
  }

  // The statements of the downgrade take back those of the upgrade.
  lemma RenamedBack(t: Table, postgres: bool)
    requires OldSchema(t, postgres)
    ensures Renamed(Renamed(t, false, postgres), true, postgres) == t
  {
    ColumnNamesAreDistinct();
    ConstraintNamesAreDistinct();
    var back, up := Reversed(COLUMNS, true), Renamed(t, false, postgres);
    RenameColumnsTranslates(t, COLUMNS);
    RenameColumnsTranslates(up, back);
    TranslateTableBack(t, postgres);
    if postgres {
      var there := RenameKeys(MapColumns(t.indexes, COLUMNS), INDEXES);
      MapColumnsCommutes(there, back, POSTGRES_INDEXES);
      MapColumnsCommutes(MapColumns(t.indexes, COLUMNS), back, INDEXES);
      MapUsesCommutes(MapUses(t.constraints, COLUMNS), back, POSTGRES_CONSTRAINTS);
      PostgresIndexesBack(t);
      RenameKeysBack(t.constraints, POSTGRES_CONSTRAINTS);
    } else {
      UpgradeRecreates(t);
      MapColumnsCommutes(MapColumns(t.indexes, COLUMNS), back, INDEXES);
      DowngradeRecreates(t);
    }
  }

  // ---------------------------------------------------------------------- the whole migration

  ghost predicate KeysReady<V>(m: map<string, V>, pairs: Pairs, ifExists: bool) {
    forall i :: 0 <= i < |pairs| ==> if pairs[i].0 in m then pairs[i].1 !in m else ifExists
  }

  /** What a table needs for the migration to run. */
  ghost predicate Ready(t: Table, reverse: bool, postgres: bool) {
    var columns := Reversed(COLUMNS, reverse);
    && (forall i :: 0 <= i < |columns| ==> columns[i].0 in t.columns && columns[i].1 !in t.columns)
    && KeysReady(t.indexes, Reversed(INDEXES, reverse), false)
    && (postgres ==>
          KeysReady(t.indexes, Reversed(POSTGRES_INDEXES, reverse), true)
          && KeysReady(t.constraints, Reversed(POSTGRES_CONSTRAINTS, reverse), false))
  }

  lemma ListsAreDisjoint(reverse: bool)
    ensures Disjoint(Reversed(COLUMNS, reverse)) && Disjoint(Reversed(INDEXES, reverse))
    ensures Disjoint(Reversed(POSTGRES_INDEXES, reverse)) && Disjoint(Reversed(POSTGRES_CONSTRAINTS, reverse))
  {
    ColumnNamesAreDistinct();
    IndexNamesAreDistinct();
    ConstraintNamesAreDistinct();
    var both := INDEXES + POSTGRES_INDEXES;
    assert forall i :: 0 <= i < |INDEXES| ==> both[i] == INDEXES[i];
    assert Disjoint(INDEXES);
    assert both[|INDEXES|] == POSTGRES_INDEXES[0];
    assert Disjoint(POSTGRES_INDEXES);
    ReversedIsDisjoint(COLUMNS);
    ReversedIsDisjoint(INDEXES);
    ReversedIsDisjoint(POSTGRES_INDEXES);
    ReversedIsDisjoint(POSTGRES_CONSTRAINTS);
  }

  // The names of the index by trigrams are none of the plain ones.
  lemma TrigramNamesAreApart(reverse: bool, i: nat)
    requires i < |POSTGRES_INDEXES|
    ensures var plain, x := Reversed(INDEXES, reverse), Reversed(POSTGRES_INDEXES, reverse)[i];
            !IsOld(plain, x.0) && !IsNew(plain, x.0) && !IsOld(plain, x.1) && !IsNew(plain, x.1)
  {
    IndexNamesAreDistinct();
    var both := INDEXES + POSTGRES_INDEXES;
    assert both[|INDEXES| + i] == POSTGRES_INDEXES[i];
    forall j | 0 <= j < |INDEXES|
      ensures INDEXES[j].0 != POSTGRES_INDEXES[i].0 && INDEXES[j].1 != POSTGRES_INDEXES[i].1
      ensures INDEXES[j].0 != POSTGRES_INDEXES[i].1 && INDEXES[j].1 != POSTGRES_INDEXES[i].0
    {
      assert both[j] == INDEXES[j];
    }
  }

  lemma TrigramsAfterPlain(m: map<string, Index>, reverse: bool)
    ensures KeysReady(RenameKeys(m, Reversed(INDEXES, reverse)), Reversed(POSTGRES_INDEXES, reverse), true)
            <==> KeysReady(m, Reversed(POSTGRES_INDEXES, reverse), true)
  {
    var plain, trigrams := Reversed(INDEXES, reverse), Reversed(POSTGRES_INDEXES, reverse);
    forall i | 0 <= i < |trigrams|
      ensures trigrams[i].0 in RenameKeys(m, plain) <==> trigrams[i].0 in m
      ensures trigrams[i].1 in RenameKeys(m, plain) <==> trigrams[i].1 in m
    {
      TrigramNamesAreApart(reverse, i);
      OtherKeysStay(m, plain, trigrams[i].0);
      OtherKeysStay(m, plain, trigrams[i].1);
    }
  }

  lemma PostgresRunsExactlyWhen(t: Table, reverse: bool)
    ensures RunPostgres(t, reverse).1 <==>
            && KeysReady(t.indexes, Reversed(INDEXES, reverse), false)
            && KeysReady(t.indexes, Reversed(POSTGRES_INDEXES, reverse), true)
            && KeysReady(t.constraints, Reversed(POSTGRES_CONSTRAINTS, reverse), false)
    ensures RunPostgres(t, reverse).1 ==>
              RunPostgres(t, reverse).0
              == t.(indexes := RenameKeys(RenameKeys(t.indexes, Reversed(INDEXES, reverse)), Reversed(POSTGRES_INDEXES, reverse)),
                    constraints := RenameKeys(t.constraints, Reversed(POSTGRES_CONSTRAINTS, reverse)))
  {
    ListsAreDisjoint(reverse);
    KeysRunExactlyWhen(t.indexes, Reversed(INDEXES, reverse), false);
    KeysRunExactlyWhen(RenameKeys(t.indexes, Reversed(INDEXES, reverse)), Reversed(POSTGRES_INDEXES, reverse), true);
    KeysRunExactlyWhen(t.constraints, Reversed(POSTGRES_CONSTRAINTS, reverse), false);
    TrigramsAfterPlain(t.indexes, reverse);
  }

  // The columns of the plain indexes are among the renamed ones.
  lemma IndexColumnsAreRenamed(columns: seq<string>, reverse: bool, i: nat, c: string)
    requires i < |INDEX_COLUMNS| && c in TranslateColumns(reverse)[i]
    requires forall j :: 0 <= j < |COLUMNS| ==> Reversed(COLUMNS, reverse)[j].0 in columns
    ensures c in TranslateAll(Reversed(COLUMNS, reverse), columns)
  {
    ListsAreDisjoint(reverse);
    var pairs := Reversed(COLUMNS, reverse);
    var j := if i == 0 then 0 else 5;
    assert INDEX_COLUMNS[i] == [COLUMNS[j].1];
    assert c == pairs[j].1 by {
      if reverse {
        ListsAreDisjoint(true);
        TranslateMeans(pairs, COLUMNS[j].1);
        assert pairs[j].0 == COLUMNS[j].1;
      }
    }
    TranslateMeans(pairs, pairs[j].0);
    var at :| 0 <= at < |columns| && columns[at] == pairs[j].0;
    assert TranslateAll(pairs, columns)[at] == c;
  }

  lemma SqliteRunsExactlyWhen(t: Table, columns: seq<string>, reverse: bool)
    requires forall j :: 0 <= j < |COLUMNS| ==> Reversed(COLUMNS, reverse)[j].0 in columns
    requires t.columns == TranslateAll(Reversed(COLUMNS, reverse), columns)
    ensures RunSqlite(t, reverse).1 <==> KeysReady(t.indexes, Reversed(INDEXES, reverse), false)
    ensures RunSqlite(t, reverse).1 ==>
              RunSqlite(t, reverse).0
              == t.(indexes := RecreateAll(t.indexes, Reversed(INDEXES, reverse), TranslateColumns(reverse)))
  {
    ListsAreDisjoint(reverse);
    forall i, c | 0 <= i < |INDEXES| && c in TranslateColumns(reverse)[i] ensures c in t.columns {
      IndexColumnsAreRenamed(columns, reverse, i, c);
    }
    IndexesRunWhen(t.indexes, Reversed(INDEXES, reverse), TranslateColumns(reverse), t.columns);
  }

  /** The migration runs, in either direction and on either database, if and only if every name it takes away is there,
      the index by trigrams aside, and no name it gives is taken; and then it leaves exactly the renamed table. */
  lemma MigrationRunsExactlyWhenReady(t: Table, reverse: bool, postgres: bool)
    ensures Migrate(t, reverse, postgres).1 <==> Ready(t, reverse, postgres)
    ensures Ready(t, reverse, postgres) ==> Migrate(t, reverse, postgres).0 == Renamed(t, reverse, postgres)
    ensures !Ready(t, reverse, postgres) && postgres ==> Migrate(t, reverse, postgres).0 == t
  {
    var columns := Reversed(COLUMNS, reverse);
    ListsAreDisjoint(reverse);
    ColumnsRunExactlyWhen(t, columns);
    if RunColumns(t, columns).1 { AfterColumns(t, reverse, postgres); }
  }

  lemma AfterColumns(t: Table, reverse: bool, postgres: bool)
    requires forall j :: 0 <= j < |COLUMNS| ==> Reversed(COLUMNS, reverse)[j].0 in t.columns
    ensures var t1 := RenameColumns(t, Reversed(COLUMNS, reverse));
            var (after, ok) := if postgres then RunPostgres(t1, reverse) else RunSqlite(t1, reverse);
            && (ok <==> KeysReady(t.indexes, Reversed(INDEXES, reverse), false)
                        && (postgres ==> KeysReady(t.indexes, Reversed(POSTGRES_INDEXES, reverse), true)
                                         && KeysReady(t.constraints, Reversed(POSTGRES_CONSTRAINTS, reverse), false)))
            && (ok ==> after == Renamed(t, reverse, postgres))
  {
    var columns := Reversed(COLUMNS, reverse);
    var t1 := RenameColumns(t, columns);
    RenameColumnsTranslates(t, columns);
    SameKeysReady(t, columns, Reversed(INDEXES, reverse), false);
    if postgres {
      SameKeysReady(t, columns, Reversed(POSTGRES_INDEXES, reverse), true);
      SameConstraintsReady(t, columns, Reversed(POSTGRES_CONSTRAINTS, reverse));
      PostgresRunsExactlyWhen(t1, reverse);
    } else {
      SqliteRunsExactlyWhen(t1, t.columns, reverse);
    }
  }

  // Renaming columns changes no name of an index or of a constraint.
  lemma SameKeysReady(t: Table, columns: Pairs, pairs: Pairs, ifExists: bool)
    ensures KeysReady(TranslateTable(t, columns).indexes, pairs, ifExists) <==> KeysReady(t.indexes, pairs, ifExists)
  {
    assert TranslateTable(t, columns).indexes.Keys == t.indexes.Keys;
  }

  lemma SameConstraintsReady(t: Table, columns: Pairs, pairs: Pairs)
    ensures KeysReady(TranslateTable(t, columns).constraints, pairs, false) <==> KeysReady(t.constraints, pairs, false)
  {
    assert TranslateTable(t, columns).constraints.Keys == t.constraints.Keys;
  }

  // ---------------------------------------------------------------------- down after up

  lemma KeysReadyBack<V>(m: map<string, V>, pairs: Pairs, ifExists: bool)
    requires Disjoint(pairs) && (forall k :: k in m ==> !IsNew(pairs, k)) && KeysReady(m, pairs, ifExists)
    ensures KeysReady(RenameKeys(m, pairs), Reversed(pairs, true), ifExists)
    ensures forall k :: k in RenameKeys(m, pairs) ==> !IsOld(pairs, k)
  {
    var r := RenameKeys(m, pairs);
    RenameKeysTranslates(m, pairs);
    forall k | k in r ensures !IsOld(pairs, k) {
      var x :| x in m && k == Translate(pairs, x);
      TranslateLeavesNoOldName(pairs, x);
    }
    forall i | 0 <= i < |pairs| && pairs[i].0 in m ensures pairs[i].1 in r {
      TranslateMeans(pairs, pairs[i].0);
      assert Translate(pairs, pairs[i].0) in r;
    }
  }

  lemma PlainBeforeTrigrams(m: map<string, Index>)
    ensures KeysReady(RenameKeys(m, POSTGRES_INDEXES), Reversed(INDEXES, true), false)
            <==> KeysReady(m, Reversed(INDEXES, true), false)
  {
    IndexNamesAreDistinct();
    var both := INDEXES + POSTGRES_INDEXES;
    forall i, j | 0 <= i < |INDEXES| && 0 <= j < |POSTGRES_INDEXES|
      ensures INDEXES[i].0 != POSTGRES_INDEXES[j].0 && INDEXES[i].1 != POSTGRES_INDEXES[j].1
      ensures INDEXES[i].0 != POSTGRES_INDEXES[j].1 && INDEXES[i].1 != POSTGRES_INDEXES[j].0
    {
      assert both[i] == INDEXES[i] && both[|INDEXES| + j] == POSTGRES_INDEXES[j];
    }
    forall i | 0 <= i < |INDEXES|
      ensures INDEXES[i].0 in RenameKeys(m, POSTGRES_INDEXES) <==> INDEXES[i].0 in m
      ensures INDEXES[i].1 in RenameKeys(m, POSTGRES_INDEXES) <==> INDEXES[i].1 in m
    {
      OtherKeysStay(m, POSTGRES_INDEXES, INDEXES[i].0);
      OtherKeysStay(m, POSTGRES_INDEXES, INDEXES[i].1);
    }
  }

  // The plain renames give no name of the index by trigrams.
  lemma TrigramsStayOld(m: map<string, Index>)
    requires forall k :: k in m ==> !IsNew(INDEXES + POSTGRES_INDEXES, k)
    ensures forall k :: k in m ==> !IsNew(INDEXES, k) && !IsNew(POSTGRES_INDEXES, k)
    ensures forall k :: k in RenameKeys(m, INDEXES) ==> !IsNew(POSTGRES_INDEXES, k)
  {
    var both := INDEXES + POSTGRES_INDEXES;
    assert forall i :: 0 <= i < |INDEXES| ==> both[i] == INDEXES[i];
    assert forall i :: 0 <= i < |POSTGRES_INDEXES| ==> both[|INDEXES| + i] == POSTGRES_INDEXES[i];
    forall i | 0 <= i < |POSTGRES_INDEXES| ensures POSTGRES_INDEXES[i].1 !in RenameKeys(m, INDEXES) {
      TrigramNamesAreApart(false, i);
      OtherKeysStay(m, INDEXES, POSTGRES_INDEXES[i].1);
    }
  }

  lemma TrigramsReady(m: map<string, Index>)
    requires forall k :: k in m ==> !IsNew(POSTGRES_INDEXES, k)
    ensures KeysReady(m, POSTGRES_INDEXES, true)
  {
  }

  // The names of indexes that the upgrade leaves on PostgreSQL.
  lemma IndexesReadyBack(m: map<string, Index>)
    requires forall k :: k in m ==> !IsNew(INDEXES + POSTGRES_INDEXES, k)
    requires KeysReady(m, INDEXES, false)
    ensures var r := RenameKeys(RenameKeys(m, INDEXES), POSTGRES_INDEXES);
            KeysReady(r, Reversed(INDEXES, true), false) && KeysReady(r, Reversed(POSTGRES_INDEXES, true), true)
  {
    ListsAreDisjoint(false);
    TrigramsStayOld(m);
    KeysReadyBack(m, INDEXES, false);
    var plain := RenameKeys(m, INDEXES);
    PlainBeforeTrigrams(plain);
    TrigramsReady(plain);
    KeysReadyBack(plain, POSTGRES_INDEXES, true);
  }

  lemma ColumnsReadyBack(columns: seq<string>)
    requires forall i :: 0 <= i < |COLUMNS| ==> COLUMNS[i].0 in columns
    requires forall c :: c in columns ==> !IsNew(COLUMNS, c)
    ensures var up := TranslateAll(COLUMNS, columns);
            forall i :: 0 <= i < |COLUMNS| ==> COLUMNS[i].1 in up && COLUMNS[i].0 !in up
  {
    ColumnNamesAreDistinct();
    var up := TranslateAll(COLUMNS, columns);
    forall i | 0 <= i < |COLUMNS| ensures COLUMNS[i].1 in up {
      TranslateMeans(COLUMNS, COLUMNS[i].0);
      var at :| 0 <= at < |columns| && columns[at] == COLUMNS[i].0;
      assert up[at] == COLUMNS[i].1;
    }
    forall c | c in up ensures !IsOld(COLUMNS, c) {
      var at :| 0 <= at < |up| && up[at] == c;
      TranslateLeavesNoOldName(COLUMNS, columns[at]);
    }
  }

  lemma OldSchemaIsReady(t: Table, postgres: bool)
    requires OldSchema(t, postgres)
    ensures Ready(t, false, postgres)
  {
    TrigramsStayOld(t.indexes);
  }

  lemma UpgradedColumnsReady(t: Table, postgres: bool)
    requires OldSchema(t, postgres)
    ensures var up, back := Renamed(t, false, postgres), Reversed(COLUMNS, true);
            forall i :: 0 <= i < |back| ==> back[i].0 in up.columns && back[i].1 !in up.columns
  {
    RenameColumnsTranslates(t, COLUMNS);
    ColumnsReadyBack(t.columns);
  }

  lemma UpgradedPostgresReady(t: Table)
    requires OldSchema(t, true)
    ensures var up := Renamed(t, false, true);
            KeysReady(up.indexes, Reversed(INDEXES, true), false)
            && KeysReady(up.indexes, Reversed(POSTGRES_INDEXES, true), true)
  {
    var m := MapColumns(t.indexes, COLUMNS);
    assert m.Keys == t.indexes.Keys;
    TrigramsStayOld(t.indexes);
    assert KeysReady(m, INDEXES, false);
    IndexesReadyBack(m);
    UpgradedIndexes(t);
  }

  lemma UpgradedIndexes(t: Table)
    ensures Renamed(t, false, true).indexes
            == RenameKeys(RenameKeys(MapColumns(t.indexes, COLUMNS), INDEXES), POSTGRES_INDEXES)
  {
    RenameColumnsTranslates(t, COLUMNS);
  }

  lemma UpgradedConstraintsReady(t: Table)
    requires OldSchema(t, true)
    ensures KeysReady(Renamed(t, false, true).constraints, Reversed(POSTGRES_CONSTRAINTS, true), false)
  {
    ListsAreDisjoint(false);
    RenameColumnsTranslates(t, COLUMNS);
    var m := MapUses(t.constraints, COLUMNS);
    assert m.Keys == t.constraints.Keys;
    KeysReadyBack(m, POSTGRES_CONSTRAINTS, false);
  }

  lemma UpgradedSqliteReady(t: Table)
    requires OldSchema(t, false)
    ensures KeysReady(Renamed(t, false, false).indexes, Reversed(INDEXES, true), false)
  {
    ListsAreDisjoint(false);
    RenameColumnsTranslates(t, COLUMNS);
    UpgradeRecreates(t);
    TrigramsStayOld(t.indexes);
    KeysReadyBack(MapColumns(t.indexes, COLUMNS), INDEXES, false);
  }

  lemma UpgradedIsReady(t: Table, postgres: bool)
    requires OldSchema(t, postgres)
    ensures Ready(Renamed(t, false, postgres), true, postgres)
  {
    UpgradedColumnsReady(t, postgres);
    if postgres {
      UpgradedPostgresReady(t);
      UpgradedConstraintsReady(t);
    } else {
      UpgradedSqliteReady(t);
    }
  }

  /** The migration undoes itself on both databases. From a table with the old names and none of the new ones no
      statement of the upgrade fails, nor of the downgrade after it, and together they leave the same table: its columns
      in order, every index with its columns and its uniqueness, and every constraint. */
  lemma DowngradeUndoesUpgrade(t: Table, postgres: bool)
    requires OldSchema(t, postgres)
    ensures var (up, upgraded) := Migrate(t, false, postgres);
            upgraded && Migrate(up, true, postgres) == (t, true)
  {
    OldSchemaIsReady(t, postgres);
    MigrationRunsExactlyWhenReady(t, false, postgres);
    UpgradedIsReady(t, postgres);
    MigrationRunsExactlyWhenReady(Renamed(t, false, postgres), true, postgres);
    RenamedBack(t, postgres);
  }

  // The names of indexes that a database changes, and those of constraints.
  function KeyPairs(postgres: bool): Pairs { if postgres then INDEXES + POSTGRES_INDEXES else INDEXES }

  function ConstraintPairs(postgres: bool): Pairs { if postgres then POSTGRES_CONSTRAINTS else [] }

  // The same columns in the same order under their new names.
  predicate Uses(columns: seq<string>, after: seq<string>) {
    |after| == |columns| && forall j :: 0 <= j < |columns| ==> after[j] == Translate(COLUMNS, columns[j])
  }

  // Every index is there under its new name, and there are no others.
  ghost predicate IndexesCarried(m: map<string, Index>, up: map<string, Index>, pairs: Pairs) {
    && (forall k :: k in m ==>
          && Translate(pairs, k) in up && up[Translate(pairs, k)].unique == m[k].unique
          && Uses(m[k].columns, up[Translate(pairs, k)].columns))
    && (forall name :: name in up ==> exists k :: k in m && name == Translate(pairs, k))
  }

  ghost predicate ConstraintsCarried(m: map<string, seq<string>>, up: map<string, seq<string>>, pairs: Pairs) {
    && (forall k :: k in m ==> Translate(pairs, k) in up && Uses(m[k], up[Translate(pairs, k)]))
    && (forall name :: name in up ==> exists k :: k in m && name == Translate(pairs, k))
  }

  lemma TranslatedIndexes(t: Table, postgres: bool)
    requires OldSchema(t, postgres)
    ensures Translated(MapColumns(t.indexes, COLUMNS), KeyPairs(postgres), Renamed(t, false, postgres).indexes)
  {
    IndexNamesAreDistinct();
    RenameColumnsTranslates(t, COLUMNS);
    var m := MapColumns(t.indexes, COLUMNS);
    assert m.Keys == t.indexes.Keys;
    if postgres {
      RenameKeysAppended(m, INDEXES, POSTGRES_INDEXES);
      RenameKeysTranslates(m, INDEXES + POSTGRES_INDEXES);
    } else {
      NoneNew(t);
      UpgradeRecreates(t);
      RenameKeysTranslates(m, INDEXES);
    }
  }

  lemma TranslatedConstraints(t: Table, postgres: bool)
    requires OldSchema(t, postgres)
    ensures Translated(MapUses(t.constraints, COLUMNS), ConstraintPairs(postgres), Renamed(t, false, postgres).constraints)
  {
    ConstraintNamesAreDistinct();
    RenameColumnsTranslates(t, COLUMNS);
    var m := MapUses(t.constraints, COLUMNS);
    assert m.Keys == t.constraints.Keys;
    if postgres { RenameKeysTranslates(m, POSTGRES_CONSTRAINTS); }
  }

  lemma TranslatedIsCarried(m: map<string, Index>, up: map<string, Index>, pairs: Pairs)
    requires Translated(MapColumns(m, COLUMNS), pairs, up)
    ensures IndexesCarried(m, up, pairs)
  {
    var mapped := MapColumns(m, COLUMNS);
    assert mapped.Keys == m.Keys;
    forall k | k in m
      ensures Translate(pairs, k) in up && up[Translate(pairs, k)].unique == m[k].unique
      ensures Uses(m[k].columns, up[Translate(pairs, k)].columns)
    {
      assert k in mapped && up[Translate(pairs, k)] == mapped[k];
    }
  }

  lemma TranslatedUsesAreCarried(m: map<string, seq<string>>, up: map<string, seq<string>>, pairs: Pairs)
    requires Translated(MapUses(m, COLUMNS), pairs, up)
    ensures ConstraintsCarried(m, up, pairs)
  {
    var mapped := MapUses(m, COLUMNS);
    assert mapped.Keys == m.Keys;
    forall k | k in m ensures Translate(pairs, k) in up && Uses(m[k], up[Translate(pairs, k)]) {
      assert k in mapped && up[Translate(pairs, k)] == mapped[k];
    }
  }

  lemma RenamedCarriesEverything(t: Table, postgres: bool)
    requires OldSchema(t, postgres)
    ensures var up := Renamed(t, false, postgres);
            && Uses(t.columns, up.columns)
            && IndexesCarried(t.indexes, up.indexes, KeyPairs(postgres))
            && ConstraintsCarried(t.constraints, up.constraints, ConstraintPairs(postgres))
  {
    TranslatedIndexes(t, postgres);
    TranslatedConstraints(t, postgres);
    var up := Renamed(t, false, postgres);
    TranslatedIsCarried(t.indexes, up.indexes, KeyPairs(postgres));
    TranslatedUsesAreCarried(t.constraints, up.constraints, ConstraintPairs(postgres));
    RenamedColumns(t, postgres);
  }

  lemma RenamedColumns(t: Table, postgres: bool)
    ensures Uses(t.columns, Renamed(t, false, postgres).columns)
  {
    RenameColumnsTranslates(t, COLUMNS);
  }

  /** What the upgrade of an old schema leaves, on either database: every column, index and constraint under its new name,
      in the order, with the columns and with the uniqueness it had; and nothing else. */
  lemma UpgradeCarriesEverything(t: Table, postgres: bool)
    requires OldSchema(t, postgres)
    ensures var (up, ok) := Migrate(t, false, postgres);
            && ok && Uses(t.columns, up.columns)
            && IndexesCarried(t.indexes, up.indexes, KeyPairs(postgres))
            && ConstraintsCarried(t.constraints, up.constraints, ConstraintPairs(postgres))
  {
    OldSchemaIsReady(t, postgres);
    MigrationRunsExactlyWhenReady(t, false, postgres);
    RenamedCarriesEverything(t, postgres);
  }

  // ---------------------------------------------------------------------- what a failure leaves on SQLite

  // The first columns are renamed, and the next statement cannot be.
  ghost predicate ColumnsFailAt(t: Table, pairs: Pairs, n: int, after: Table) {
    && 0 <= n < |pairs| && after == RenameColumns(t, pairs[..n])
    && !(pairs[n].0 in after.columns && pairs[n].1 !in after.columns)
  }

  lemma {:induction false} ColumnsFail(t: Table, pairs: Pairs)
    requires !RunColumns(t, pairs).1
    ensures exists n :: ColumnsFailAt(t, pairs, n, RunColumns(t, pairs).0)
  {
    var front := pairs[..|pairs| - 1];
    if RunColumns(t, front).1 {
      ColumnsRun(t, front);
      assert ColumnsFailAt(t, pairs, |front|, RunColumns(t, pairs).0);
    } else {
      ColumnsFail(t, front);
      var n :| ColumnsFailAt(t, front, n, RunColumns(t, front).0);
      assert front[..n] == pairs[..n];
      assert ColumnsFailAt(t, pairs, n, RunColumns(t, pairs).0);
    }
  }

  lemma {:induction false} ColumnsRun(t: Table, pairs: Pairs)
    requires RunColumns(t, pairs).1
    ensures RunColumns(t, pairs).0 == RenameColumns(t, pairs)
  {
    if pairs != [] { ColumnsRun(t, pairs[..|pairs| - 1]); }
  }

  // The first indexes are created again; the next is missing, or it is dropped and its new name or a column is in the way.
  ghost predicate IndexesFailAt(
      m: map<string, Index>, pairs: Pairs, columns: seq<seq<string>>, known: seq<string>, n: int, after: map<string, Index>)
    requires |columns| == |pairs|
  {
    && 0 <= n < |pairs|
    && var before := RecreateAll(m, pairs[..n], columns[..n]);
       && after == before - {pairs[n].0}
       && (pairs[n].0 in before ==>
             (pairs[n].1 != pairs[n].0 && pairs[n].1 in before) || exists c :: c in columns[n] && c !in known)
  }

  lemma {:induction false} IndexesFail(m: map<string, Index>, pairs: Pairs, columns: seq<seq<string>>, known: seq<string>)
    requires |columns| == |pairs| && !RunIndexes(m, pairs, columns, known).1
    ensures exists n :: IndexesFailAt(m, pairs, columns, known, n, RunIndexes(m, pairs, columns, known).0)
  {
    var n := |pairs| - 1;
    var after := RunIndexes(m, pairs, columns, known).0;
    if RunIndexes(m, pairs[..n], columns[..n], known).1 {
      IndexesRun(m, pairs[..n], columns[..n], known);
      assert IndexesFailAt(m, pairs, columns, known, n, after);
    } else {
      IndexesFail(m, pairs[..n], columns[..n], known);
      var k :| IndexesFailAt(m, pairs[..n], columns[..n], known, k, after);
      assert pairs[..n][..k] == pairs[..k] && columns[..n][..k] == columns[..k];
      assert IndexesFailAt(m, pairs, columns, known, k, after);
    }
  }

  lemma {:induction false} IndexesRun(m: map<string, Index>, pairs: Pairs, columns: seq<seq<string>>, known: seq<string>)
    requires |columns| == |pairs| && RunIndexes(m, pairs, columns, known).1
    ensures RunIndexes(m, pairs, columns, known).0 == RecreateAll(m, pairs, columns)
  {
    var n := |pairs| - 1;
    if pairs != [] { IndexesRun(m, pairs[..n], columns[..n], known); }
  }

  /** A failed migration leaves SQLite halfway: with the columns before the first that cannot be renamed under their other
      names and nothing else done; or with all of them, the indexes before the first that cannot be created again, and
      that one dropped. */
  lemma FailureLeavesSqliteHalfway(t: Table, reverse: bool)
    requires !Migrate(t, reverse, false).1
    ensures var after, pairs := Migrate(t, reverse, false).0, Reversed(COLUMNS, reverse);
            var all := RenameColumns(t, pairs);
            || (exists n :: ColumnsFailAt(t, pairs, n, after))
            || (exists n :: IndexesFailAt(all.indexes, Reversed(INDEXES, reverse), TranslateColumns(reverse), all.columns, n,
                                          after.indexes)
                            && after == all.(indexes := after.indexes))
  {
    var pairs := Reversed(COLUMNS, reverse);
    if RunColumns(t, pairs).1 {
      ColumnsRun(t, pairs);
      var all := RenameColumns(t, pairs);
      IndexesFail(all.indexes, Reversed(INDEXES, reverse), TranslateColumns(reverse), all.columns);
    } else {
      ColumnsFail(t, pairs);
    }
  }
}
