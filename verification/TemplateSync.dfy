/**
The reconciliation of the import templates with those the program ships (`apps/api/app/seed/import_templates.py`): a
predefined template without an active row is created, an illustrative one with an active row is retired, and nothing is
removed.
*/
module TemplateSync {
  import opened Common

  datatype Template = Template(name: string, source: string, deleted: bool, reason: Option<string>)

  datatype Predefined = Predefined(name: string, source: string)

  const PREDEFINED_TEMPLATES: seq<Predefined> := [
    Predefined("BD estandarizada 2025", "Base de datos estandarizada del museo (2025)"),
    Predefined("Ficha de catalogación RN", "Fichas de catalogación del museo (formato RN)")]

  const ILLUSTRATIVE_NAMES: seq<string> := [
    "Libro de inventario general v1",
    "Ficha en Word tabulada v1",
    "Tabla de Access v1",
    "Inventario de depósito v1",
    "Colecciones en comodato v1"]

  const RETIRED_REASON := "Plantilla ilustrativa reemplazada por las plantillas de los formatos reales del museo (formatos-reales-importacion)."

  predicate Active(x: Template, name: string) { x.name == name && !x.deleted }

  function ActiveCount(rows: seq<Template>, name: string): nat {
    if rows == [] then 0
    else ActiveCount(rows[..|rows| - 1], name) + if Active(rows[|rows| - 1], name) then 1 else 0
  }

  // The row that the dictionary of active templates keeps for a name.
  function LastActive(rows: seq<Template>, name: string): (i: int)
    ensures -1 <= i < |rows|
    ensures i == -1 <==> forall j :: 0 <= j < |rows| ==> !Active(rows[j], name)
    ensures i >= 0 ==> Active(rows[i], name) && forall j :: i < j < |rows| ==> !Active(rows[j], name)
  {
    if rows == [] then -1
    else if Active(rows[|rows| - 1], name) then |rows| - 1
    else LastActive(rows[..|rows| - 1], name)
  }

  // ---------------------------------------------------------------------- what one run does

  function Created(rows: seq<Template>, predefined: seq<Predefined>): seq<Predefined> {
    if predefined == [] then []
    else Created(rows, predefined[..|predefined| - 1])
         + if LastActive(rows, predefined[|predefined| - 1].name) >= 0 then [] else [predefined[|predefined| - 1]]
  }

  function Retired(rows: seq<Template>, names: seq<string>): (r: seq<string>)
    ensures forall x :: x in r <==> x in names && LastActive(rows, x) >= 0
  {
    if names == [] then []
    else
      var front := Retired(rows, names[..|names| - 1]);
      assert names == names[..|names| - 1] + [names[|names| - 1]];
      if LastActive(rows, names[|names| - 1]) >= 0 then front + [names[|names| - 1]] else front
  }

  function Named(predefined: seq<Predefined>): (r: seq<string>)
    ensures |r| == |predefined|
  {
    seq(|predefined|, i requires 0 <= i < |predefined| => predefined[i].name)
  }

  function NewRow(p: Predefined): Template { Template(p.name, p.source, false, None) }

  function NewRows(predefined: seq<Predefined>): (r: seq<Template>)
    ensures |r| == |predefined|
  {
    seq(|predefined|, i requires 0 <= i < |predefined| => NewRow(predefined[i]))
  }

  function Kept(rows: seq<Template>, names: seq<string>, i: int): Template
    requires 0 <= i < |rows|
  {
    if rows[i].name in names && LastActive(rows, rows[i].name) == i
    then rows[i].(deleted := true, reason := Some(RETIRED_REASON))
    else rows[i]
  }

  function KeptRows(rows: seq<Template>, names: seq<string>): (r: seq<Template>)
    ensures |r| == |rows|
  {
    seq(|rows|, i requires 0 <= i < |rows| => Kept(rows, names, i))
  }

  // The table after one run, over any two lists of names.
  function Synced(rows: seq<Template>, predefined: seq<Predefined>, illustrative: seq<string>): seq<Template> {
    KeptRows(rows, illustrative) + NewRows(Created(rows, predefined))
  }

  // ---------------------------------------------------------------------- counting active rows

  lemma {:induction false} CountZeroIffNoneActive(rows: seq<Template>, name: string)
    ensures ActiveCount(rows, name) == 0 <==> LastActive(rows, name) == -1
  {
    if rows != [] { CountZeroIffNoneActive(rows[..|rows| - 1], name); }
  }

  lemma {:induction false} CountWithout(rows: seq<Template>, after: seq<Template>, name: string, at: int)
    requires |after| == |rows|
    requires forall i :: 0 <= i < |rows| ==> (Active(after[i], name) <==> Active(rows[i], name) && i != at)
    ensures ActiveCount(rows, name)
            == ActiveCount(after, name) + if 0 <= at < |rows| && Active(rows[at], name) then 1 else 0
  {
    if rows != [] {
      var n := |rows| - 1;
      CountWithout(rows[..n], after[..n], name, at);
    }
  }

  lemma {:induction false} CountConcat(a: seq<Template>, b: seq<Template>, name: string)
    ensures ActiveCount(a + b, name) == ActiveCount(a, name) + ActiveCount(b, name)
  {
    if b == [] {
      assert a + b == a;
    } else {
      CountConcat(a, b[..|b| - 1], name);
      assert (a + b)[..|a + b| - 1] == a + b[..|b| - 1];
    }
  }

  lemma {:induction false} CountCreated(rows: seq<Template>, predefined: seq<Predefined>, name: string)
    requires NoDup(Named(predefined))
    ensures ActiveCount(NewRows(Created(rows, predefined)), name)
            == if name in Named(predefined) && LastActive(rows, name) == -1 then 1 else 0
  {
    if predefined != [] {
      var front, last := predefined[..|predefined| - 1], predefined[|predefined| - 1];
      assert Named(predefined) == Named(front) + [last.name];
      assert NoDup(Named(front)) by {
        assert forall i :: 0 <= i < |front| ==> Named(front)[i] == Named(predefined)[i];
      }
      assert last.name !in Named(front) by {
        assert forall i :: 0 <= i < |front| ==> Named(front)[i] == Named(predefined)[i] != Named(predefined)[|front|];
      }
      CountCreated(rows, front, name);
      if LastActive(rows, last.name) == -1 {
        var made := Created(rows, front);
        assert NewRows(made + [last]) == NewRows(made) + [NewRow(last)];
        CountConcat(NewRows(made), [NewRow(last)], name);
        assert ActiveCount([NewRow(last)], name) == if name == last.name then 1 else 0;
      } else {
        assert Created(rows, predefined) == Created(rows, front);
      }
    }
  }

  lemma CountKept(rows: seq<Template>, names: seq<string>, name: string)
    ensures ActiveCount(KeptRows(rows, names), name)
            == ActiveCount(rows, name) - if name in names && LastActive(rows, name) >= 0 then 1 else 0
  {
    var at := if name in names then LastActive(rows, name) else -1;
    var after := KeptRows(rows, names);
    forall i | 0 <= i < |rows| ensures Active(after[i], name) <==> Active(rows[i], name) && i != at {
      assert after[i] == Kept(rows, names, i);
    }
    CountWithout(rows, after, name, at);
  }

  // ---------------------------------------------------------------------- convergence

  // The lists the program ships: no name twice, and none in both.
  ghost predicate WellFormed(predefined: seq<Predefined>, illustrative: seq<string>) {
    && NoDup(Named(predefined)) && NoDup(illustrative)
    && forall x :: x in illustrative ==> x !in Named(predefined)
  }

  // The effect of one run on every name: a missing predefined one appears, one illustrative one goes, no other changes.
  lemma OneRunCounts(rows: seq<Template>, predefined: seq<Predefined>, illustrative: seq<string>, name: string)
    requires WellFormed(predefined, illustrative)
    ensures var before, after := ActiveCount(rows, name), ActiveCount(Synced(rows, predefined, illustrative), name);
            after == if name in Named(predefined) then (if before == 0 then 1 else before)
                     else if name in illustrative && before > 0 then before - 1
                     else before
  {
    CountZeroIffNoneActive(rows, name);
    CountKept(rows, illustrative, name);
    CountCreated(rows, predefined, name);
    CountConcat(KeptRows(rows, illustrative), NewRows(Created(rows, predefined)), name);
  }

  lemma OneRunRetiresOne(rows: seq<Template>, predefined: seq<Predefined>, illustrative: seq<string>, name: string)
    requires name in illustrative && name !in Named(predefined)
    ensures var before := ActiveCount(rows, name);
            ActiveCount(Synced(rows, predefined, illustrative), name) == if before == 0 then 0 else before - 1
  {
    CountZeroIffNoneActive(rows, name);
    CountKept(rows, illustrative, name);
    NoneCreated(rows, predefined, name);
    CountConcat(KeptRows(rows, illustrative), NewRows(Created(rows, predefined)), name);
  }

  lemma {:induction false} NoneCreated(rows: seq<Template>, predefined: seq<Predefined>, name: string)
    requires name !in Named(predefined)
    ensures ActiveCount(NewRows(Created(rows, predefined)), name) == 0
  {
    if predefined != [] {
      var front, last := predefined[..|predefined| - 1], predefined[|predefined| - 1];
      assert Named(predefined) == Named(front) + [last.name];
      NoneCreated(rows, front, name);
      if LastActive(rows, last.name) == -1 {
        var made := Created(rows, front);
        assert NewRows(made + [last]) == NewRows(made) + [NewRow(last)];
        CountConcat(NewRows(made), [NewRow(last)], name);
      } else {
        assert Created(rows, predefined) == Created(rows, front);
      }
    }
  }

  // One active row for each predefined name, none for an illustrative one.
  ghost predicate Settled(rows: seq<Template>, predefined: seq<Predefined>, illustrative: seq<string>) {
    && (forall x :: x in Named(predefined) ==> ActiveCount(rows, x) == 1)
    && (forall x :: x in illustrative ==> ActiveCount(rows, x) == 0)
  }

  // One run settles the table exactly when no name of the two lists was active more than once.
  lemma OneRunSettlesExactlyWhenNamesAreDistinct(rows: seq<Template>, predefined: seq<Predefined>,
                                                 illustrative: seq<string>)
    requires WellFormed(predefined, illustrative)
    ensures Settled(Synced(rows, predefined, illustrative), predefined, illustrative)
            <==> (forall x :: x in Named(predefined) || x in illustrative ==> ActiveCount(rows, x) <= 1)
  {
    var after := Synced(rows, predefined, illustrative);
    forall x | x in Named(predefined) ensures ActiveCount(after, x) == 1 <==> ActiveCount(rows, x) <= 1 {
      OneRunCounts(rows, predefined, illustrative, x);
    }
    forall x | x in illustrative ensures ActiveCount(after, x) == 0 <==> ActiveCount(rows, x) <= 1 {
      OneRunCounts(rows, predefined, illustrative, x);
    }
  }

  /** No row is removed: every old row stays at its place, as it was, unless it is the active row that the dictionary
      keeps for an illustrative name; such a row stays with its deletion and the reason. Behind them come active rows of
      predefined names that had none. */
  lemma NothingIsRemoved(rows: seq<Template>, predefined: seq<Predefined>, illustrative: seq<string>)
    ensures var after := Synced(rows, predefined, illustrative);
            && |rows| <= |after|
            && (forall i :: 0 <= i < |rows| ==>
                  after[i] == if rows[i].name in illustrative && LastActive(rows, rows[i].name) == i
                              then Template(rows[i].name, rows[i].source, true, Some(RETIRED_REASON)) else rows[i])
            && (forall i :: |rows| <= i < |after| ==> MissingRow(rows, predefined, after[i]))
  {
    var made, after := Created(rows, predefined), Synced(rows, predefined, illustrative);
    CreatedAreMissing(rows, predefined);
    forall i | |rows| <= i < |after| ensures MissingRow(rows, predefined, after[i]) {
      var j := i - |rows|;
      assert made[j] in predefined && NoneActive(rows, made[j].name);
      assert after[i] == NewRow(made[j]);
    }
  }

  // A row made for a predefined name that had no active one.
  ghost predicate MissingRow(rows: seq<Template>, predefined: seq<Predefined>, x: Template) {
    exists p :: p in predefined && NoneActive(rows, p.name) && x == Template(p.name, p.source, false, None)
  }

  predicate NoneActive(rows: seq<Template>, name: string) {
    forall i :: 0 <= i < |rows| ==> rows[i].name != name || rows[i].deleted
  }

  /** What is created keeps the order of its list: it is the list without the names that have an active row. Over a list
      in two parts it is what is created for the first and then for the second, which leaves no other function. */
  lemma {:induction false} CreatedKeepTheirOrder(rows: seq<Template>, a: seq<Predefined>, b: seq<Predefined>)
    ensures Created(rows, a + b) == Created(rows, a) + Created(rows, b)
  {
    if b == [] {
      assert a + b == a;
    } else {
      assert (a + b)[..|a + b| - 1] == a + b[..|b| - 1];
      CreatedKeepTheirOrder(rows, a, b[..|b| - 1]);
    }
  }

  lemma CreatedForOne(rows: seq<Template>, p: Predefined)
    ensures Created(rows, []) == [] && Created(rows, [p]) == if NoneActive(rows, p.name) then [p] else []
  {
    assert [p][..0] == [];
  }

  // So does what is retired.
  lemma {:induction false} RetiredKeepTheirOrder(rows: seq<Template>, a: seq<string>, b: seq<string>)
    ensures Retired(rows, a + b) == Retired(rows, a) + Retired(rows, b)
  {
    if b == [] {
      assert a + b == a;
    } else {
      assert (a + b)[..|a + b| - 1] == a + b[..|b| - 1];
      RetiredKeepTheirOrder(rows, a, b[..|b| - 1]);
    }
  }

  lemma RetiredForOne(rows: seq<Template>, name: string)
    ensures Retired(rows, []) == [] && Retired(rows, [name]) == if NoneActive(rows, name) then [] else [name]
  {
    assert [name][..0] == [];
  }

  lemma {:induction false} CreatedAreMissing(rows: seq<Template>, predefined: seq<Predefined>)
    ensures forall i :: 0 <= i < |Created(rows, predefined)| ==>
              Created(rows, predefined)[i] in predefined && NoneActive(rows, Created(rows, predefined)[i].name)
  {
    if predefined != [] {
      var front, last := predefined[..|predefined| - 1], predefined[|predefined| - 1];
      CreatedAreMissing(rows, front);
      assert predefined == front + [last];
    }
  }

  // A run with nothing to create and nothing to retire leaves every row as it is.
  lemma {:induction false} NothingToDo(rows: seq<Template>, predefined: seq<Predefined>, illustrative: seq<string>)
    requires forall x :: x in Named(predefined) ==> ActiveCount(rows, x) > 0
    requires forall x :: x in illustrative ==> ActiveCount(rows, x) == 0
    ensures Created(rows, predefined) == [] && Retired(rows, illustrative) == []
    ensures Synced(rows, predefined, illustrative) == rows
  {
    NothingToCreate(rows, predefined);
    forall x | x in illustrative ensures LastActive(rows, x) == -1 { CountZeroIffNoneActive(rows, x); }
    if Retired(rows, illustrative) != [] { assert Retired(rows, illustrative)[0] in Retired(rows, illustrative); }
    forall i | 0 <= i < |rows| ensures Kept(rows, illustrative, i) == rows[i] {}
    assert KeptRows(rows, illustrative) == rows;
  }

  lemma {:induction false} NothingToCreate(rows: seq<Template>, predefined: seq<Predefined>)
    requires forall x :: x in Named(predefined) ==> ActiveCount(rows, x) > 0
    ensures Created(rows, predefined) == []
  {
    if predefined != [] {
      var front, last := predefined[..|predefined| - 1], predefined[|predefined| - 1];
      assert Named(predefined) == Named(front) + [last.name];
      CountZeroIffNoneActive(rows, last.name);
      NothingToCreate(rows, front);
    }
  }

  // The second run changes nothing and answers two empty lists exactly when no illustrative name was active twice.
  lemma SecondRunIsIdleExactlyWhenIllustrativeNamesAreDistinct(rows: seq<Template>, predefined: seq<Predefined>,
                                                               illustrative: seq<string>)
    requires WellFormed(predefined, illustrative)
    ensures var once := Synced(rows, predefined, illustrative);
            var distinct := forall x :: x in illustrative ==> ActiveCount(rows, x) <= 1;
            && Created(once, predefined) == []
            && (Retired(once, illustrative) == [] <==> distinct)
            && (Synced(once, predefined, illustrative) == once <==> distinct)
  {
    var once := Synced(rows, predefined, illustrative);
    forall x | x in Named(predefined) ensures ActiveCount(once, x) > 0 {
      OneRunCounts(rows, predefined, illustrative, x);
    }
    NothingToCreate(once, predefined);
    if x :| x in illustrative && ActiveCount(rows, x) > 1 {
      OneRunCounts(rows, predefined, illustrative, x);
      CountZeroIffNoneActive(once, x);
      assert x in Retired(once, illustrative);
      OneRunCounts(once, predefined, illustrative, x);
    } else {
      forall x | x in illustrative ensures ActiveCount(once, x) == 0 {
        OneRunCounts(rows, predefined, illustrative, x);
      }
      NothingToDo(once, predefined, illustrative);
    }
  }

  /** An illustrative name active twice: the first run retires the later row, and the second run the other one. */
  lemma TwiceActiveNeedsTwoRuns(predefined: seq<Predefined>, illustrative: seq<string>, name: string)
    requires WellFormed(predefined, illustrative) && name in illustrative
    ensures var row := Template(name, "", false, None);
            var once := Synced([row, row], predefined, illustrative);
            ActiveCount(once, name) == 1 && Synced(once, predefined, illustrative) != once
  {
    var row := Template(name, "", false, None);
    var rows := [row, row];
    assert rows[..|rows| - 1] == [row] && [row][..0] == [];
    assert ActiveCount([], name) == 0;
    assert ActiveCount([row], name) == 1;
    assert ActiveCount(rows, name) == 2;
    OneRunCounts(rows, predefined, illustrative, name);
    SecondRunIsIdleExactlyWhenIllustrativeNamesAreDistinct(rows, predefined, illustrative);
  }

  function Runs(rows: seq<Template>, predefined: seq<Predefined>, illustrative: seq<string>, n: nat): seq<Template>
    decreases n
  {
    if n == 0 then rows else Runs(Synced(rows, predefined, illustrative), predefined, illustrative, n - 1)
  }

  /** Duplicates of an illustrative name go one a run, so as many runs as it has active rows, and at least one, always
      reach a table that every later run leaves alone. */
  lemma {:induction false} EnoughRunsConverge(rows: seq<Template>, predefined: seq<Predefined>,
                                              illustrative: seq<string>, n: nat)
    requires WellFormed(predefined, illustrative) && n > 0
    requires forall x :: x in illustrative ==> ActiveCount(rows, x) <= n
    ensures var last := Runs(rows, predefined, illustrative, n);
            Synced(last, predefined, illustrative) == last
  {
    var last := Runs(rows, predefined, illustrative, n);
    forall x | x in illustrative ensures ActiveCount(last, x) == 0 { CountAfterRuns(rows, predefined, illustrative, n, x); }
    forall x | x in Named(predefined) ensures ActiveCount(last, x) > 0 {
      OneRunCounts(rows, predefined, illustrative, x);
      PredefinedStays(Synced(rows, predefined, illustrative), predefined, illustrative, n - 1, x);
    }
    NothingToDo(last, predefined, illustrative);
  }

  lemma {:induction false} OneMoreRun(rows: seq<Template>, predefined: seq<Predefined>, illustrative: seq<string>, n: nat)
    ensures Runs(rows, predefined, illustrative, n + 1)
            == Synced(Runs(rows, predefined, illustrative, n), predefined, illustrative)
    decreases n
  {
    if n > 0 { OneMoreRun(Synced(rows, predefined, illustrative), predefined, illustrative, n - 1); }
  }

  lemma {:induction false} CountAfterRuns(rows: seq<Template>, predefined: seq<Predefined>, illustrative: seq<string>,
                                          n: nat, name: string)
    requires name in illustrative && name !in Named(predefined)
    ensures var before := ActiveCount(rows, name);
            ActiveCount(Runs(rows, predefined, illustrative, n), name) == if before <= n then 0 else before - n
  {
    if n > 0 {
      CountAfterRuns(rows, predefined, illustrative, n - 1, name);
      OneMoreRun(rows, predefined, illustrative, n - 1);
      OneRunRetiresOne(Runs(rows, predefined, illustrative, n - 1), predefined, illustrative, name);
    }
  }

  lemma {:induction false} PredefinedStays(rows: seq<Template>, predefined: seq<Predefined>, illustrative: seq<string>,
                                           n: nat, name: string)
    requires WellFormed(predefined, illustrative) && name in Named(predefined) && ActiveCount(rows, name) > 0
    ensures ActiveCount(Runs(rows, predefined, illustrative, n), name) > 0
    decreases n
  {
    if n > 0 {
      OneRunKeeps(rows, predefined, illustrative, name);
      PredefinedStays(Synced(rows, predefined, illustrative), predefined, illustrative, n - 1, name);
    }
  }

  lemma OneRunKeeps(rows: seq<Template>, predefined: seq<Predefined>, illustrative: seq<string>, name: string)
    requires WellFormed(predefined, illustrative) && name in Named(predefined)
    ensures ActiveCount(Synced(rows, predefined, illustrative), name) > 0
  {
    OneRunCounts(rows, predefined, illustrative, name);
  }

  lemma ShippedListsAreWellFormed()
    ensures WellFormed(PREDEFINED_TEMPLATES, ILLUSTRATIVE_NAMES)
  {
    assert PREDEFINED_TEMPLATES[0].name != PREDEFINED_TEMPLATES[1].name;
    var a := ILLUSTRATIVE_NAMES;
    assert |a[0]| == 30 && |a[1]| == 25 && |a[2]| == 18 && |a[3]| == 25 && |a[4]| == 26;
    assert a[1][0] != a[3][0];
    forall x | x in a ensures x !in Named(PREDEFINED_TEMPLATES) {
      assert |PREDEFINED_TEMPLATES[0].name| == 21 && |PREDEFINED_TEMPLATES[1].name| == 24;
    }
  }

  /** The program's own lists, from a table where no name is active twice: one run settles it, and the second run
      changes nothing and answers two empty lists. */
  lemma ShippedSyncConverges(rows: seq<Template>)
    requires forall x :: ActiveCount(rows, x) <= 1
    ensures var once := Synced(rows, PREDEFINED_TEMPLATES, ILLUSTRATIVE_NAMES);
            && Settled(once, PREDEFINED_TEMPLATES, ILLUSTRATIVE_NAMES)
            && Synced(once, PREDEFINED_TEMPLATES, ILLUSTRATIVE_NAMES) == once
            && Created(once, PREDEFINED_TEMPLATES) == [] && Retired(once, ILLUSTRATIVE_NAMES) == []
  {
    ShippedListsAreWellFormed();
    OneRunSettlesExactlyWhenNamesAreDistinct(rows, PREDEFINED_TEMPLATES, ILLUSTRATIVE_NAMES);
    SecondRunIsIdleExactlyWhenIllustrativeNamesAreDistinct(rows, PREDEFINED_TEMPLATES, ILLUSTRATIVE_NAMES);
  }

  // ---------------------------------------------------------------------- the run itself

  class TemplateStore {
    var rows: seq<Template>

    // A row that is deleted already is refused.
    method SoftDelete(i: nat, reason: string) returns (ok: bool)
      requires i < |rows|
      modifies this
      ensures ok <==> !old(rows)[i].deleted
      ensures rows == if ok then old(rows)[i := old(rows)[i].(deleted := true, reason := Some(reason))] else old(rows)
    {
      ok := !rows[i].deleted;
      if ok {
        rows := rows[i := rows[i].(deleted := true, reason := Some(reason))];
      }
    }

    // The dictionary comprehension: a later row of the same name takes the place of an earlier one.
    method ActiveTemplates() returns (active: map<string, nat>)
      ensures forall x :: x in active <==> LastActive(rows, x) >= 0
      ensures forall x :: x in active ==> active[x] == LastActive(rows, x)
    {
      active := map[];
      for i := 0 to |rows|
        invariant forall x :: x in active <==> LastActive(rows[..i], x) >= 0
        invariant forall x :: x in active ==> active[x] == LastActive(rows[..i], x)
      {
        assert rows[..i + 1][..i] == rows[..i];
        if !rows[i].deleted {
          active := active[rows[i].name := i];
        }
      }
      assert rows[..|rows|] == rows;
    }

    method Create(predefined: seq<Predefined>, active: map<string, nat>) returns (created: seq<string>)
      requires forall x :: x in active <==> LastActive(rows, x) >= 0
      modifies this
      ensures rows == old(rows) + NewRows(Created(old(rows), predefined))
      ensures created == Named(Created(old(rows), predefined))
    {
      ghost var before := rows;
      created := [];
      for i := 0 to |predefined|
        invariant rows == before + NewRows(Created(before, predefined[..i]))
        invariant created == Named(Created(before, predefined[..i]))
      {
        assert predefined[..i + 1][..i] == predefined[..i];
        if predefined[i].name !in active {
          rows := rows + [NewRow(predefined[i])];
          created := created + [predefined[i].name];
        }
      }
      assert predefined[..|predefined|] == predefined;
    }

    method RetireOne(name: string, active: map<string, nat>,
                     ghost before: seq<Template>, ghost names: seq<string>, ghost made: seq<Template>)
      returns (done: bool)
      requires name !in names && rows == KeptRows(before, names) + made
      requires name in active <==> LastActive(before, name) >= 0
      requires name in active ==> active[name] == LastActive(before, name)
      modifies this
      ensures rows == KeptRows(before, names + [name]) + made
      ensures done <==> LastActive(before, name) >= 0
    {
      KeepOneLess(before, names, name);
      done := name in active;
      if done {
        var ok := SoftDelete(active[name], RETIRED_REASON);
        assert ok;
      }
    }

    method Retire(names: seq<string>, active: map<string, nat>, ghost before: seq<Template>, ghost made: seq<Template>)
      returns (retired: seq<string>)
      requires NoDup(names) && rows == before + made
      requires forall x :: x in active <==> LastActive(before, x) >= 0
      requires forall x :: x in active ==> active[x] == LastActive(before, x)
      modifies this
      ensures rows == KeptRows(before, names) + made
      ensures retired == Retired(before, names)
    {
      retired := [];
      assert KeptRows(before, []) == before;
      for i := 0 to |names|
        invariant rows == KeptRows(before, names[..i]) + made
        invariant retired == Retired(before, names[..i])
      {
        var name := names[i];
        assert names[..i + 1] == names[..i] + [name] && name !in names[..i];
        var done := RetireOne(name, active, before, names[..i], made);
        if done {
          retired := retired + [name];
        }
        RetiredSnoc(before, names[..i], name);
      }
      assert names[..|names|] == names;
    }

    method Sync() returns (created: seq<string>, retired: seq<string>)
      modifies this
      ensures rows == Synced(old(rows), PREDEFINED_TEMPLATES, ILLUSTRATIVE_NAMES)
      ensures created == Named(Created(old(rows), PREDEFINED_TEMPLATES))
      ensures retired == Retired(old(rows), ILLUSTRATIVE_NAMES)
    {
      ShippedListsAreWellFormed();
      ghost var before := rows;
      var active := ActiveTemplates();
      created := Create(PREDEFINED_TEMPLATES, active);
      retired := Retire(ILLUSTRATIVE_NAMES, active, before, NewRows(Created(before, PREDEFINED_TEMPLATES)));
    }
  }

  lemma RetiredSnoc(rows: seq<Template>, names: seq<string>, name: string)
    ensures Retired(rows, names + [name])
            == Retired(rows, names) + if LastActive(rows, name) >= 0 then [name] else []
  {
    assert (names + [name])[..|names|] == names;
  }

  // Retiring one more name touches the one row that the dictionary keeps for it.
  lemma KeepOneLess(rows: seq<Template>, names: seq<string>, name: string)
    requires name !in names
    ensures var j := LastActive(rows, name);
            KeptRows(rows, names + [name])
            == if j < 0 then KeptRows(rows, names)
               else KeptRows(rows, names)[j := rows[j].(deleted := true, reason := Some(RETIRED_REASON))]
    ensures LastActive(rows, name) >= 0
            ==> KeptRows(rows, names)[LastActive(rows, name)] == rows[LastActive(rows, name)]
  {
  }
}
