/**
The table-level checks of `app/core/cross_cutting.py`: which tables lack a guarantee without an exception, and which
exceptions are stale. Together, and with the scan of `DeleteScan`, their silence says exactly how every table is kept.
*/
module RuleGate {
  import opened Common
  import opened Ordering
  import DeleteScan

  datatype Scope = SoftDelete | Audit

  datatype TableException = TableException(table: string, scopes: set<Scope>)

  datatype Model = Model(table: string, className: string, softDelete: bool, appendOnly: bool, audited: bool)

  datatype Fact = Fact(table: string, className: string, softDelete: bool, appendOnly: bool, audited: bool, excluded: set<Scope>)

  datatype Kind = DeleteProtection | AuditCoverage | NoSuchTable | StaleSoftDelete | StaleAudit
                | NotListed | NotDeclared | NoTrigger

  datatype Finding = Finding(kind: Kind, table: string)

  predicate DistinctTables(facts: seq<Fact>) {
    forall i, j :: 0 <= i < j < |facts| ==> facts[i].table != facts[j].table
  }

  predicate DistinctExceptions(exceptions: seq<TableException>) {
    forall i, j :: 0 <= i < j < |exceptions| ==> exceptions[i].table != exceptions[j].table
  }

  // The scopes that a table is excepted from.
  function ScopesOf(exceptions: seq<TableException>, table: string): set<Scope> {
    if exceptions == [] then {}
    else if exceptions[|exceptions| - 1].table == table then exceptions[|exceptions| - 1].scopes
    else ScopesOf(exceptions[..|exceptions| - 1], table)
  }

  lemma {:induction false} ScopesOfListed(exceptions: seq<TableException>, i: nat)
    requires DistinctExceptions(exceptions) && i < |exceptions|
    ensures ScopesOf(exceptions, exceptions[i].table) == exceptions[i].scopes
  {
    if i < |exceptions| - 1 { ScopesOfListed(exceptions[..|exceptions| - 1], i); }
  }

  lemma {:induction false} ScopesOfUnlisted(exceptions: seq<TableException>, table: string)
    requires forall i :: 0 <= i < |exceptions| ==> exceptions[i].table != table
    ensures ScopesOf(exceptions, table) == {}
  {
    if exceptions != [] { ScopesOfUnlisted(exceptions[..|exceptions| - 1], table); }
  }

  function FactOf(m: Model, exceptions: seq<TableException>): Fact {
    Fact(m.table, m.className, m.softDelete, m.appendOnly, m.audited, ScopesOf(exceptions, m.table))
  }

  function FactsOf(models: seq<Model>, exceptions: seq<TableException>): seq<Fact> {
    seq(|models|, i requires 0 <= i < |models| => FactOf(models[i], exceptions))
  }

  function ByTable(): Order<Fact> { ByKey((f: Fact) => f.table) }

  /** One fact per model, in order of table. */
  method ModelFacts(models: seq<Model>, exceptions: seq<TableException>) returns (facts: seq<Fact>)
    ensures multiset(facts) == multiset(FactsOf(models, exceptions))
    ensures SortedBy(facts, ByTable())
  {
    facts := [];
    var n := 0;
    while n < |models|
      invariant 0 <= n <= |models|
      invariant facts == FactsOf(models, exceptions)[..n]
    {
      facts := facts + [FactOf(models[n], exceptions)];
      n := n + 1;
    }
    assert facts == FactsOf(models, exceptions);
    ByKeyIsTotal((f: Fact) => f.table);
    SortedSorts(facts, ByTable());
    facts := Sorted(facts, ByTable());
  }

  // ---------------------------------------------------------------------- the checks

  predicate LacksProtection(f: Fact) { !f.softDelete && !f.appendOnly && SoftDelete !in f.excluded }

  predicate LacksAudit(f: Fact) { !f.audited && !f.appendOnly && Audit !in f.excluded }

  // The findings of one of these two checks: one per table that lacks the guarantee, in the order of the facts.
  function Lacking(facts: seq<Fact>, kind: Kind): seq<Finding> {
    if facts == [] then []
    else
      var fact := facts[|facts| - 1];
      Lacking(facts[..|facts| - 1], kind)
      + if (if kind == DeleteProtection then LacksProtection(fact) else LacksAudit(fact))
        then [Finding(kind, fact.table)] else []
  }

  lemma {:induction false} NothingLacking(facts: seq<Fact>, kind: Kind)
    ensures Lacking(facts, kind) == [] <==>
            forall f :: f in facts ==> !(if kind == DeleteProtection then LacksProtection(f) else LacksAudit(f))
  {
    if facts != [] {
      NothingLacking(facts[..|facts| - 1], kind);
      assert facts == facts[..|facts| - 1] + [facts[|facts| - 1]];
    }
  }

  method MissingDeleteProtection(facts: seq<Fact>) returns (findings: seq<Finding>)
    ensures findings == Lacking(facts, DeleteProtection)
  {
    findings := [];
    for n := 0 to |facts|
      invariant findings == Lacking(facts[..n], DeleteProtection)
    {
      assert facts[..n + 1][..n] == facts[..n];
      var fact := facts[n];
      if fact.softDelete || fact.appendOnly {
        continue;
      }
      if SoftDelete in fact.excluded {
        continue;
      }
      findings := findings + [Finding(DeleteProtection, fact.table)];
    }
    assert facts[..|facts|] == facts;
  }

  method MissingAuditCoverage(facts: seq<Fact>) returns (findings: seq<Finding>)
    ensures findings == Lacking(facts, AuditCoverage)
  {
    findings := [];
    for n := 0 to |facts|
      invariant findings == Lacking(facts[..n], AuditCoverage)
    {
      assert facts[..n + 1][..n] == facts[..n];
      var fact := facts[n];
      if fact.audited || fact.appendOnly {
        continue;
      }
      if Audit in fact.excluded {
        continue;
      }
      findings := findings + [Finding(AuditCoverage, fact.table)];
    }
    assert facts[..|facts|] == facts;
  }

  // The dictionary of facts by table: of two with the same table it keeps the last.
  function FactOfTable(facts: seq<Fact>, table: string): Option<Fact> {
    if facts == [] then None
    else if facts[|facts| - 1].table == table then Some(facts[|facts| - 1])
    else FactOfTable(facts[..|facts| - 1], table)
  }

  lemma {:induction false} FactOfTableFinds(facts: seq<Fact>, table: string)
    requires DistinctTables(facts)
    ensures forall i :: 0 <= i < |facts| && facts[i].table == table ==> FactOfTable(facts, table) == Some(facts[i])
    ensures FactOfTable(facts, table).Some? ==>
              FactOfTable(facts, table).value in facts && FactOfTable(facts, table).value.table == table
  {
    if facts != [] { FactOfTableFinds(facts[..|facts| - 1], table); }
  }

  function StaleFindings(facts: seq<Fact>, exception: TableException): seq<Finding> {
    match FactOfTable(facts, exception.table)
    case None => [Finding(NoSuchTable, exception.table)]
    case Some(fact) =>
      (if SoftDelete in exception.scopes && (fact.softDelete || fact.appendOnly)
       then [Finding(StaleSoftDelete, exception.table)] else [])
      + (if Audit in exception.scopes && fact.audited then [Finding(StaleAudit, exception.table)] else [])
  }

  function AllStale(facts: seq<Fact>, exceptions: seq<TableException>): seq<Finding> {
    if exceptions == [] then []
    else AllStale(facts, exceptions[..|exceptions| - 1]) + StaleFindings(facts, exceptions[|exceptions| - 1])
  }

  lemma {:induction false} AllStaleEmpty(facts: seq<Fact>, exceptions: seq<TableException>)
    ensures AllStale(facts, exceptions) == [] <==> forall e :: e in exceptions ==> StaleFindings(facts, e) == []
  {
    if exceptions != [] {
      AllStaleEmpty(facts, exceptions[..|exceptions| - 1]);
      assert exceptions == exceptions[..|exceptions| - 1] + [exceptions[|exceptions| - 1]];
    }
  }

  function ByException(): Order<TableException> { ByKey((e: TableException) => e.table) }

  // The body of the loop over the exceptions.
  method StaleOf(facts: seq<Fact>, exception: TableException) returns (findings: seq<Finding>)
    ensures findings == StaleFindings(facts, exception)
  {
    var fact := FactOfTable(facts, exception.table);
    if fact.None? {
      return [Finding(NoSuchTable, exception.table)];
    }
    findings := [];
    if SoftDelete in exception.scopes && (fact.value.softDelete || fact.value.appendOnly) {
      findings := findings + [Finding(StaleSoftDelete, exception.table)];
    }
    if Audit in exception.scopes && fact.value.audited {
      findings := findings + [Finding(StaleAudit, exception.table)];
    }
  }

  /** The exceptions, in order of table, that name no table or that their table no longer needs. */
  method StaleExceptions(facts: seq<Fact>, exceptions: seq<TableException>) returns (findings: seq<Finding>)
    ensures findings == AllStale(facts, Sorted(exceptions, ByException()))
  {
    findings := StaleInOrder(facts, Sorted(exceptions, ByException()));
  }

  // The loop over the sorted exceptions.
  method StaleInOrder(facts: seq<Fact>, exceptions: seq<TableException>) returns (findings: seq<Finding>)
    ensures findings == AllStale(facts, exceptions)
  {
    findings := [];
    for n := 0 to |exceptions|
      invariant findings == AllStale(facts, exceptions[..n])
    {
      assert exceptions[..n + 1][..n] == exceptions[..n];
      var stale := StaleOf(facts, exceptions[n]);
      findings := findings + stale;
    }
    assert exceptions[..|exceptions|] == exceptions;
  }

  // ---------------------------------------------------------------------- what silence means

  // Every table is excepted from soft deletion exactly when it has neither guarantee; from the audit exactly
  // when it is not audited, if rows of it may change.
  ghost predicate ExactPartition(facts: seq<Fact>, exceptions: seq<TableException>) {
    && (forall e :: e in exceptions ==> exists f :: f in facts && f.table == e.table)
    && (forall f :: f in facts ==>
          && (SoftDelete in ScopesOf(exceptions, f.table) <==> !f.softDelete && !f.appendOnly)
          && (!f.appendOnly ==> (Audit in ScopesOf(exceptions, f.table) <==> !f.audited))
          && (f.appendOnly && Audit in ScopesOf(exceptions, f.table) ==> !f.audited))
  }

  // The three checks of the table level find nothing.
  predicate Silent(facts: seq<Fact>, exceptions: seq<TableException>) {
    && Lacking(facts, DeleteProtection) == []
    && Lacking(facts, AuditCoverage) == []
    && AllStale(facts, Sorted(exceptions, ByException())) == []
  }

  lemma SilentMeans(facts: seq<Fact>, exceptions: seq<TableException>)
    ensures Silent(facts, exceptions) <==>
            && (forall f :: f in facts ==> !LacksProtection(f) && !LacksAudit(f))
            && (forall e :: e in exceptions ==> StaleFindings(facts, e) == [])
  {
    NothingLacking(facts, DeleteProtection);
    NothingLacking(facts, AuditCoverage);
    AllStaleEmpty(facts, Sorted(exceptions, ByException()));
    ByKeyIsTotal((e: TableException) => e.table);
    forall e ensures e in Sorted(exceptions, ByException()) <==> e in exceptions {
      SortedKeeps(exceptions, ByException(), e);
    }
  }

  lemma StaleMeans(facts: seq<Fact>, exceptions: seq<TableException>, i: nat)
    requires DistinctTables(facts) && DistinctExceptions(exceptions) && i < |exceptions|
    ensures StaleFindings(facts, exceptions[i]) == [] <==>
            exists f :: f in facts && f.table == exceptions[i].table
                        && (SoftDelete in ScopesOf(exceptions, f.table) ==> !f.softDelete && !f.appendOnly)
                        && (Audit in ScopesOf(exceptions, f.table) ==> !f.audited)
  {
    FactOfTableFinds(facts, exceptions[i].table);
    ScopesOfListed(exceptions, i);
    forall f | f in facts && f.table == exceptions[i].table
      ensures FactOfTable(facts, exceptions[i].table) == Some(f)
    {
    }
  }

  lemma SilenceImpliesPartition(facts: seq<Fact>, exceptions: seq<TableException>)
    requires DistinctTables(facts) && DistinctExceptions(exceptions)
    requires forall f :: f in facts ==> f.excluded == ScopesOf(exceptions, f.table)
    requires Silent(facts, exceptions)
    ensures ExactPartition(facts, exceptions)
  {
    SilentMeans(facts, exceptions);
    forall i | 0 <= i < |exceptions| ensures exceptions[i] in exceptions {}
    forall e | e in exceptions ensures exists f :: f in facts && f.table == e.table {
      var i :| 0 <= i < |exceptions| && exceptions[i] == e;
      StaleMeans(facts, exceptions, i);
    }
    forall f | f in facts
      ensures SoftDelete in f.excluded ==> !f.softDelete && !f.appendOnly
      ensures Audit in f.excluded ==> !f.audited
    {
      if i :| 0 <= i < |exceptions| && exceptions[i].table == f.table {
        StaleMeans(facts, exceptions, i);
        FactOfTableFinds(facts, f.table);
      } else {
        ScopesOfUnlisted(exceptions, f.table);
      }
    }
  }

  /** The three checks find nothing if and only if the exceptions partition the tables exactly. */
  lemma SilenceIsAnExactPartition(facts: seq<Fact>, exceptions: seq<TableException>)
    requires DistinctTables(facts) && DistinctExceptions(exceptions)
    requires forall f :: f in facts ==> f.excluded == ScopesOf(exceptions, f.table)
    ensures Silent(facts, exceptions) <==> ExactPartition(facts, exceptions)
  {
    if Silent(facts, exceptions) {
      SilenceImpliesPartition(facts, exceptions);
    }
    if ExactPartition(facts, exceptions) {
      SilentMeans(facts, exceptions);
      forall e | e in exceptions ensures StaleFindings(facts, e) == [] {
        var i :| 0 <= i < |exceptions| && exceptions[i] == e;
        StaleMeans(facts, exceptions, i);
        var f :| f in facts && f.table == e.table;
      }
    }
  }

  lemma FactsAreOfModels(facts: seq<Fact>, models: seq<Model>, exceptions: seq<TableException>)
    requires multiset(facts) == multiset(FactsOf(models, exceptions))
    ensures forall f :: f in facts ==> f.excluded == ScopesOf(exceptions, f.table)
    ensures forall i :: 0 <= i < |models| ==> FactOf(models[i], exceptions) in facts
    ensures forall f :: f in facts ==> exists i :: 0 <= i < |models| && f == FactOf(models[i], exceptions)
  {
    var all := FactsOf(models, exceptions);
    assert forall f :: f in facts <==> f in multiset(facts);
    assert forall f :: f in all <==> f in multiset(all);
    forall i | 0 <= i < |models| ensures FactOf(models[i], exceptions) in facts { assert all[i] in all; }
  }

  lemma FactsKeepDistinct(facts: seq<Fact>, models: seq<Model>, exceptions: seq<TableException>)
    requires multiset(facts) == multiset(FactsOf(models, exceptions))
    requires forall i, j :: 0 <= i < j < |models| ==> models[i].table != models[j].table
    ensures DistinctTables(facts)
  {
    var all := FactsOf(models, exceptions);
    forall i, j | 0 <= i < j < |facts| ensures facts[i].table != facts[j].table {
      if facts[i].table == facts[j].table {
        assert facts[i] in multiset(facts) && facts[j] in multiset(facts);
        assert facts[i] in all && facts[j] in all;
        assert facts[i] == facts[j];
        RepeatedTwice(facts, i, j);
        NoDupCount(all, facts[i]);
        assert false;
      }
    }
  }

  // What each kind of finding says of the models.
  ghost predicate Deserved(models: seq<Model>, exceptions: seq<TableException>, f: Finding) {
    match f.kind
    case DeleteProtection =>
      exists m :: m in models && m.table == f.table && !m.softDelete && !m.appendOnly && !Excepts(exceptions, f.table, SoftDelete)
    case AuditCoverage =>
      exists m :: m in models && m.table == f.table && !m.audited && !m.appendOnly && !Excepts(exceptions, f.table, Audit)
    case NoSuchTable =>
      (exists e :: e in exceptions && e.table == f.table) && forall m :: m in models ==> m.table != f.table
    case StaleSoftDelete =>
      Excepts(exceptions, f.table, SoftDelete) && exists m :: m in models && m.table == f.table && (m.softDelete || m.appendOnly)
    case StaleAudit => Excepts(exceptions, f.table, Audit) && exists m :: m in models && m.table == f.table && m.audited
    case _ => false
  }

  ghost predicate Excepts(exceptions: seq<TableException>, table: string, scope: Scope) {
    exists e :: e in exceptions && e.table == table && scope in e.scopes
  }

  lemma ScopesMean(exceptions: seq<TableException>, table: string, scope: Scope)
    requires DistinctExceptions(exceptions)
    ensures scope in ScopesOf(exceptions, table) <==> Excepts(exceptions, table, scope)
  {
    if i :| 0 <= i < |exceptions| && exceptions[i].table == table {
      ScopesOfListed(exceptions, i);
    } else {
      ScopesOfUnlisted(exceptions, table);
    }
  }

  // The findings of the three checks.
  function GateFindings(facts: seq<Fact>, exceptions: seq<TableException>): seq<Finding> {
    Lacking(facts, DeleteProtection) + Lacking(facts, AuditCoverage) + AllStale(facts, Sorted(exceptions, ByException()))
  }

  lemma {:induction false} InLacking(facts: seq<Fact>, kind: Kind, f: Finding)
    ensures f in Lacking(facts, kind) <==>
              && f.kind == kind
              && exists fact :: fact in facts && fact.table == f.table
                                && (if kind == DeleteProtection then LacksProtection(fact) else LacksAudit(fact))
  {
    if facts != [] {
      InLacking(facts[..|facts| - 1], kind, f);
      assert facts == facts[..|facts| - 1] + [facts[|facts| - 1]];
    }
  }

  lemma {:induction false} InAllStale(facts: seq<Fact>, exceptions: seq<TableException>, f: Finding)
    ensures f in AllStale(facts, exceptions) <==> exists e :: e in exceptions && f in StaleFindings(facts, e)
  {
    if exceptions != [] {
      InAllStale(facts, exceptions[..|exceptions| - 1], f);
      assert exceptions == exceptions[..|exceptions| - 1] + [exceptions[|exceptions| - 1]];
    }
  }

  // A model of the table, and its fact.
  lemma FactAndModel(facts: seq<Fact>, models: seq<Model>, exceptions: seq<TableException>, table: string)
    requires multiset(facts) == multiset(FactsOf(models, exceptions)) && DistinctExceptions(exceptions)
    requires forall i, j :: 0 <= i < j < |models| ==> models[i].table != models[j].table
    ensures match FactOfTable(facts, table)
            case None => (forall m :: m in models ==> m.table != table) && forall fact :: fact in facts ==> fact.table != table
            case Some(fact) =>
              && fact in facts && (forall other :: other in facts && other.table == table ==> other == fact)
              && exists m :: m in models && FactOf(m, exceptions) == fact && m.table == table
                             && forall other :: other in models && other.table == table ==> other == m
  {
    FactsKeepDistinct(facts, models, exceptions);
    FactsAreOfModels(facts, models, exceptions);
    FactOfTableFinds(facts, table);
    forall m | m in models && m.table == table ensures FactOfTable(facts, table) == Some(FactOf(m, exceptions)) {
      var i :| 0 <= i < |models| && models[i] == m;
      assert FactOf(models[i], exceptions) in facts;
      FactKeepsTheModel(m, exceptions);
    }
    if FactOfTable(facts, table).Some? {
      var fact := FactOfTable(facts, table).value;
      var i :| 0 <= i < |models| && fact == FactOf(models[i], exceptions);
      FactKeepsTheModel(models[i], exceptions);
      assert models[i] in models;
    }
  }

  lemma StaleMeansOfModels(facts: seq<Fact>, models: seq<Model>, exceptions: seq<TableException>, e: TableException, f: Finding)
    requires multiset(facts) == multiset(FactsOf(models, exceptions)) && DistinctExceptions(exceptions) && e in exceptions
    requires forall i, j :: 0 <= i < j < |models| ==> models[i].table != models[j].table
    ensures f in StaleFindings(facts, e) <==>
              f.table == e.table && f.kind in {NoSuchTable, StaleSoftDelete, StaleAudit} && Deserved(models, exceptions, f)
  {
    FactAndModel(facts, models, exceptions, e.table);
    var i :| 0 <= i < |exceptions| && exceptions[i] == e;
    ScopesOfListed(exceptions, i);
    ScopesMean(exceptions, e.table, SoftDelete);
    ScopesMean(exceptions, e.table, Audit);
  }

  lemma LackingMeansOfModels(facts: seq<Fact>, models: seq<Model>, exceptions: seq<TableException>, f: Finding)
    requires multiset(facts) == multiset(FactsOf(models, exceptions)) && DistinctExceptions(exceptions)
    requires forall i, j :: 0 <= i < j < |models| ==> models[i].table != models[j].table
    ensures f in Lacking(facts, DeleteProtection) <==> f.kind == DeleteProtection && Deserved(models, exceptions, f)
    ensures f in Lacking(facts, AuditCoverage) <==> f.kind == AuditCoverage && Deserved(models, exceptions, f)
  {
    InLacking(facts, DeleteProtection, f);
    InLacking(facts, AuditCoverage, f);
    FactAndModel(facts, models, exceptions, f.table);
    ScopesMean(exceptions, f.table, SoftDelete);
    ScopesMean(exceptions, f.table, Audit);
  }

  /** The gate over the models: its findings are exactly those that the models and the exceptions deserve, each kind for
      its own reason. */
  lemma GateFindsExactly(facts: seq<Fact>, models: seq<Model>, exceptions: seq<TableException>, f: Finding)
    requires multiset(facts) == multiset(FactsOf(models, exceptions)) && DistinctExceptions(exceptions)
    requires forall i, j :: 0 <= i < j < |models| ==> models[i].table != models[j].table
    ensures f in GateFindings(facts, exceptions) <==> Deserved(models, exceptions, f)
  {
    LackingMeansOfModels(facts, models, exceptions, f);
    var sorted := Sorted(exceptions, ByException());
    InAllStale(facts, sorted, f);
    ByKeyIsTotal((e: TableException) => e.table);
    forall e ensures e in sorted <==> e in exceptions { SortedKeeps(exceptions, ByException(), e); }
    forall e | e in exceptions
      ensures f in StaleFindings(facts, e) <==>
                f.table == e.table && f.kind in {NoSuchTable, StaleSoftDelete, StaleAudit} && Deserved(models, exceptions, f)
    {
      StaleMeansOfModels(facts, models, exceptions, e, f);
    }
  }

  // The exceptions partition the models by what each of them has.
  ghost predicate ModelPartition(models: seq<Model>, exceptions: seq<TableException>) {
    && (forall e :: e in exceptions ==> exists m :: m in models && m.table == e.table)
    && (forall m :: m in models ==> ExceptedAsNeeded(m, ScopesOf(exceptions, m.table)))
  }

  // From soft deletion exactly a model with neither guarantee; from the audit exactly one that is not audited, if rows
  // of it may change, and none that is.
  predicate ExceptedAsNeeded(m: Model, scopes: set<Scope>) {
    && (SoftDelete in scopes <==> !m.softDelete && !m.appendOnly)
    && (!m.appendOnly && !m.audited ==> Audit in scopes)
    && (m.audited ==> Audit !in scopes)
  }

  lemma FactKeepsTheModel(m: Model, exceptions: seq<TableException>)
    ensures var f := FactOf(m, exceptions);
            && f.table == m.table && f.className == m.className && f.excluded == ScopesOf(exceptions, m.table)
            && ((SoftDelete in f.excluded <==> !f.softDelete && !f.appendOnly)
                && (!f.appendOnly ==> (Audit in f.excluded <==> !f.audited))
                && (f.appendOnly && Audit in f.excluded ==> !f.audited)
                <==> ExceptedAsNeeded(m, f.excluded))
  {
  }

  /** The gate over the models: the three checks find nothing in their facts if and only if the exceptions partition the
      models by their own soft deletion, append-only mark and audit. */
  lemma GateIsSilentExactlyForAPartition(facts: seq<Fact>, models: seq<Model>, exceptions: seq<TableException>)
    requires multiset(facts) == multiset(FactsOf(models, exceptions)) && DistinctExceptions(exceptions)
    requires forall i, j :: 0 <= i < j < |models| ==> models[i].table != models[j].table
    ensures Silent(facts, exceptions) <==> ModelPartition(models, exceptions)
  {
    FactsKeepDistinct(facts, models, exceptions);
    FactsAreOfModels(facts, models, exceptions);
    SilenceIsAnExactPartition(facts, exceptions);
    if ExactPartition(facts, exceptions) {
      forall m | m in models ensures ExceptedAsNeeded(m, ScopesOf(exceptions, m.table)) {
        var i :| 0 <= i < |models| && models[i] == m;
        assert FactOf(models[i], exceptions) in facts;
        FactKeepsTheModel(m, exceptions);
      }
      forall e | e in exceptions ensures exists m :: m in models && m.table == e.table {
        var f :| f in facts && f.table == e.table;
        var i :| 0 <= i < |models| && f == FactOf(models[i], exceptions);
        FactKeepsTheModel(models[i], exceptions);
        assert models[i] in models;
      }
    }
    if ModelPartition(models, exceptions) {
      PartitionOfFacts(facts, models, exceptions);
    }
  }

  lemma PartitionOfFacts(facts: seq<Fact>, models: seq<Model>, exceptions: seq<TableException>)
    requires multiset(facts) == multiset(FactsOf(models, exceptions)) && ModelPartition(models, exceptions)
    ensures ExactPartition(facts, exceptions)
  {
    FactsAreOfModels(facts, models, exceptions);
    forall f | f in facts
      ensures SoftDelete in ScopesOf(exceptions, f.table) <==> !f.softDelete && !f.appendOnly
      ensures !f.appendOnly ==> (Audit in ScopesOf(exceptions, f.table) <==> !f.audited)
      ensures f.appendOnly && Audit in ScopesOf(exceptions, f.table) ==> !f.audited
    {
      var i :| 0 <= i < |models| && f == FactOf(models[i], exceptions);
      assert models[i] in models;
      FactKeepsTheModel(models[i], exceptions);
    }
    forall e | e in exceptions ensures exists f :: f in facts && f.table == e.table {
      var m :| m in models && m.table == e.table;
      var i :| 0 <= i < |models| && models[i] == m;
      FactKeepsTheModel(m, exceptions);
      assert FactOf(models[i], exceptions) in facts;
    }
  }

  /** If the checks are silent over the facts of the models, and files may only delete from tables excepted from
      soft deletion, then a scan without findings means that no delete call of any file names a table that has
      soft deletion or is append-only: every such call names a table without a model, or one that has neither. */
  lemma SilentGateProtectsTables(
      models: seq<Model>, facts: seq<Fact>, exceptions: seq<TableException>, files: seq<DeleteScan.File>,
      allowed: map<string, set<string>>, tables: map<string, string>, i: nat, path: seq<int>, m: Model)
    requires multiset(facts) == multiset(FactsOf(models, exceptions)) && DistinctExceptions(exceptions)
    requires forall i, j :: 0 <= i < j < |models| ==> models[i].table != models[j].table
    requires Silent(facts, exceptions)
    requires AllowedAreExcepted(allowed, exceptions)
    requires DeleteScan.FilesFindings(files, allowed, tables) == []
    requires i < |files| && DeleteScan.At(files[i].tree, path).Some?
    requires DeleteScan.PhysicalDelete(DeleteScan.At(files[i].tree, path).value)
    requires m in models && m.table == DeleteScan.NamedTable(DeleteScan.At(files[i].tree, path).value, tables)
    ensures !m.softDelete && !m.appendOnly
  {
    var n := DeleteScan.At(files[i].tree, path).value;
    var finding := DeleteScan.Finding(DeleteScan.LocationOf(files[i].path, n.line), DeleteScan.NamedTable(n, tables));
    DeleteScan.ScanIsSoundAndComplete(files, allowed, tables, finding);
    assert !DeleteScan.Holds(files[i], allowed, tables, finding);
    assert m.table in DeleteScan.Allowed(allowed, files[i].path);
    FactsKeepDistinct(facts, models, exceptions);
    FactsAreOfModels(facts, models, exceptions);
    SilenceIsAnExactPartition(facts, exceptions);
    assert FactOf(m, exceptions) in facts;
  }

  ghost predicate AllowedAreExcepted(allowed: map<string, set<string>>, exceptions: seq<TableException>) {
    forall path, table :: path in allowed && table in allowed[path] ==> SoftDelete in ScopesOf(exceptions, table)
  }

  // ---------------------------------------------------------------------- append-only tables

  function Report(kind: Kind, tables: seq<string>): (r: seq<Finding>)
    ensures |r| == |tables|
  {
    seq(|tables|, i requires 0 <= i < |tables| => Finding(kind, tables[i]))
  }

  lemma NothingListed(s: set<string>)
    ensures Listed(s) == [] <==> s == {}
  {
    NoDupSize(Listed(s));
  }

  // One of the three loops: the tables of a set in order, each with the same kind of finding.
  method ReportSet(kind: Kind, tables: set<string>) returns (findings: seq<Finding>)
    ensures findings == Report(kind, Listed(tables))
  {
    var sorted := SortSet(tables);
    findings := [];
    for n := 0 to |sorted|
      invariant findings == Report(kind, sorted[..n])
    {
      findings := findings + [Finding(kind, sorted[n])];
    }
    assert sorted[..|sorted|] == sorted;
  }

  /** The findings are the declared tables that are not listed, the listed ones that are not declared and the declared
      ones without a trigger, each group in order of table. There are none if and only if the first two lists (declared
      by the models, listed here) are equal and the third (with a trigger in a migration) includes them. */
  method AppendOnlyMismatches(facts: seq<Fact>, listed: set<string>, protected: set<string>)
    returns (findings: seq<Finding>)
    ensures findings == Mismatches(Declared(facts), listed, protected)
    ensures findings == [] <==> Declared(facts) == listed && listed <= protected
  {
    var declared := Declared(facts);
    var notListed := ReportSet(NotListed, declared - listed);
    var notDeclared := ReportSet(NotDeclared, listed - declared);
    var noTrigger := ReportSet(NoTrigger, declared - protected);
    findings := notListed + notDeclared + noTrigger;
    NothingListed(declared - listed);
    NothingListed(listed - declared);
    NothingListed(declared - protected);
    assert findings == [] <==> |notListed| + |notDeclared| + |noTrigger| == 0;
    DifferencesMean(declared, listed, protected);
  }

  lemma DifferencesMean(a: set<string>, b: set<string>, c: set<string>)
    ensures a - b == {} && b - a == {} && a - c == {} <==> a == b && b <= c
  {
    if a - b == {} && b - a == {} && a - c == {} {
      forall x | x in a ensures x in b && x in c { assert x !in a - b && x !in a - c; }
      forall x | x in b ensures x in a { assert x !in b - a; }
    }
  }

  lemma DeclaredByModels(facts: seq<Fact>, models: seq<Model>, exceptions: seq<TableException>, table: string)
    requires multiset(facts) == multiset(FactsOf(models, exceptions))
    ensures table in Declared(facts) <==> exists m :: m in models && m.appendOnly && m.table == table
  {
    FactsAreOfModels(facts, models, exceptions);
    if table in Declared(facts) {
      var f :| f in facts && f.appendOnly && f.table == table;
      var i :| 0 <= i < |models| && f == FactOf(models[i], exceptions);
      FactKeepsTheModel(models[i], exceptions);
      assert models[i] in models;
    }
    if m :| m in models && m.appendOnly && m.table == table {
      var i :| 0 <= i < |models| && models[i] == m;
      FactKeepsTheModel(m, exceptions);
      assert FactOf(models[i], exceptions) in facts;
    }
  }

  // What each of the three kinds of finding says of the lists.
  ghost predicate Mismatch(models: seq<Model>, listed: set<string>, protected: set<string>, f: Finding) {
    var declared := exists m :: m in models && m.appendOnly && m.table == f.table;
    match f.kind
    case NotListed => declared && f.table !in listed
    case NotDeclared => f.table in listed && !declared
    case NoTrigger => declared && f.table !in protected
    case _ => false
  }

  ghost function Mismatches(declared: set<string>, listed: set<string>, protected: set<string>): seq<Finding> {
    Report(NotListed, Listed(declared - listed)) + Report(NotDeclared, Listed(listed - declared))
    + Report(NoTrigger, Listed(declared - protected))
  }

  lemma InReport(kind: Kind, s: set<string>, f: Finding)
    ensures f in Report(kind, Listed(s)) <==> f.kind == kind && f.table in s
    ensures NoDup(Report(kind, Listed(s)))
  {
    var xs := Listed(s);
    assert Elems(xs) == s;
    if f.kind == kind && f.table in s {
      var i :| 0 <= i < |xs| && xs[i] == f.table;
      assert Report(kind, xs)[i] == f;
    }
    forall i, j | 0 <= i < j < |xs| ensures Report(kind, xs)[i] != Report(kind, xs)[j] {
      assert Report(kind, xs)[i].table == xs[i] && Report(kind, xs)[j].table == xs[j];
    }
  }

  /** Each finding says what is wrong with its table, among the models, the list and the migrations, and every table with
      something wrong has it. */
  lemma MismatchesFindExactly(
      facts: seq<Fact>, models: seq<Model>, exceptions: seq<TableException>, listed: set<string>, protected: set<string>,
      f: Finding)
    requires multiset(facts) == multiset(FactsOf(models, exceptions))
    ensures f in Mismatches(Declared(facts), listed, protected) <==> Mismatch(models, listed, protected, f)
  {
    var declared := Declared(facts);
    DeclaredByModels(facts, models, exceptions, f.table);
    InReport(NotListed, declared - listed, f);
    InReport(NotDeclared, listed - declared, f);
    InReport(NoTrigger, declared - protected, f);
  }

  function Declared(facts: seq<Fact>): set<string> {
    set i | 0 <= i < |facts| && facts[i].appendOnly :: facts[i].table
  }

  // ---------------------------------------------------------------------- the lists of the program

  const TABLE_EXCEPTIONS: seq<TableException> := [
    TableException("permission", {SoftDelete}),
    TableException("import_row", {SoftDelete}),
    TableException("duplicate_candidate", {SoftDelete}),
    TableException("quality_job", {SoftDelete, Audit}),
    TableException("quality_job_item", {SoftDelete, Audit}),
    TableException("idempotency_key", {SoftDelete, Audit}),
    TableException("export_job", {SoftDelete, Audit}),
    TableException("import_image", {SoftDelete}),
    TableException("import_photo", {SoftDelete}),
    TableException("quality_setting", {SoftDelete}),
    TableException("ai_suggestion", {SoftDelete}),
    TableException("completeness_rule", {SoftDelete}),
    TableException("completeness_snapshot", {SoftDelete, Audit})
  ]

  const PHYSICAL_DELETE_EXCEPTIONS: map<string, set<string>> := map[
    "app/modules/imports/service.py" := {"import_row", "duplicate_candidate", "import_image"},
    "app/modules/imports/images.py" := {"import_image"},
    "app/modules/imports/classify.py" := {"duplicate_candidate"},
    "app/modules/quality/snapshot.py" := {"completeness_snapshot"}
  ]

  /** The program's own lists meet what the lemma above asks of them. */
  lemma OwnListsAreConsistent()
    ensures DistinctExceptions(TABLE_EXCEPTIONS)
    ensures AllowedAreExcepted(PHYSICAL_DELETE_EXCEPTIONS, TABLE_EXCEPTIONS)
  {
    var es := TABLE_EXCEPTIONS;
    assert |es[1].table| == 10 && |es[2].table| == 19 && |es[7].table| == 12 && |es[12].table| == 21;
    ScopesOfListed(es, 1);
    ScopesOfListed(es, 2);
    ScopesOfListed(es, 7);
    ScopesOfListed(es, 12);
  }
}
