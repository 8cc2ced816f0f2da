/**
The data migration `0018_tenure_aliases`: new terms of a vocabulary and one setting row, each in a live form (queries
and a bulk insert) and an offline form (SQL to run later).
*/
module TenureAliases {
  import opened Common

  type Id = nat

  datatype Vocabulary = Vocabulary(id: Id, code: string)

  datatype Term = Term(vocabulary: Id, code: string, text: string, sortOrder: int)

  datatype NewTerm = NewTerm(code: string, text: string)

  // The id of the vocabulary with a code; the codes are unique.
  function VocabularyId(vocabularies: seq<Vocabulary>, code: string): Option<Id> {
    if vocabularies == [] then None
    else if vocabularies[0].code == code then Some(vocabularies[0].id)
    else VocabularyId(vocabularies[1..], code)
  }

  // A vocabulary of that code, if there is one.
  lemma {:induction false} VocabularyIdFinds(vocabularies: seq<Vocabulary>, code: string)
    ensures match VocabularyId(vocabularies, code)
            case None => forall x :: x in vocabularies ==> x.code != code
            case Some(id) => Vocabulary(id, code) in vocabularies
  {
    if vocabularies != [] { VocabularyIdFinds(vocabularies[1..], code); }
  }

  function Codes(terms: seq<Term>, v: Id): set<string> {
    set i | 0 <= i < |terms| && terms[i].vocabulary == v :: terms[i].code
  }

  predicate HasTerms(terms: seq<Term>, v: Id) {
    exists i :: 0 <= i < |terms| && terms[i].vocabulary == v
  }

  // COALESCE(MAX(sort_order), 0) over the terms of a vocabulary.
  function MaxOrder(terms: seq<Term>, v: Id): int {
    if terms == [] then 0
    else
      var front, last := terms[..|terms| - 1], terms[|terms| - 1];
      if last.vocabulary != v then MaxOrder(front, v)
      else if HasTerms(front, v) && MaxOrder(front, v) >= last.sortOrder then MaxOrder(front, v)
      else last.sortOrder
  }

  // The greatest order of the vocabulary, or zero if it has no terms.
  lemma {:induction false} MaxOrderMeans(terms: seq<Term>, v: Id)
    ensures forall t :: t in terms && t.vocabulary == v ==> t.sortOrder <= MaxOrder(terms, v)
    ensures (exists t :: t in terms && t.vocabulary == v && t.sortOrder == MaxOrder(terms, v))
            || (MaxOrder(terms, v) == 0 && forall t :: t in terms ==> t.vocabulary != v)
  {
    if terms != [] {
      var front, last := terms[..|terms| - 1], terms[|terms| - 1];
      MaxOrderMeans(front, v);
      assert terms == front + [last];
      HasTermsMeans(front, v);
    }
  }

  lemma HasTermsMeans(terms: seq<Term>, v: Id)
    ensures HasTerms(terms, v) <==> exists t :: t in terms && t.vocabulary == v
  {
    if HasTerms(terms, v) {
      var i :| 0 <= i < |terms| && terms[i].vocabulary == v;
      assert terms[i] in terms;
    }
    if t :| t in terms && t.vocabulary == v {
      var i :| 0 <= i < |terms| && terms[i] == t;
      assert terms[i].vocabulary == v;
    }
  }

  lemma AddedTermIsLast(terms: seq<Term>, t: Term)
    requires t.sortOrder == MaxOrder(terms, t.vocabulary) + 1
    ensures MaxOrder(terms + [t], t.vocabulary) == t.sortOrder
    ensures Codes(terms + [t], t.vocabulary) == Codes(terms, t.vocabulary) + {t.code}
  {
    assert (terms + [t])[..|terms|] == terms;
    forall c | c in Codes(terms, t.vocabulary) + {t.code} ensures c in Codes(terms + [t], t.vocabulary) {
      if c == t.code {
        assert (terms + [t])[|terms|] == t;
      } else {
        var i :| 0 <= i < |terms| && terms[i].vocabulary == t.vocabulary && terms[i].code == c;
        assert (terms + [t])[i] == terms[i];
      }
    }
  }

  // The unique constraint of the table: a code occurs once in a vocabulary.
  predicate Unique(terms: seq<Term>) {
    forall i, j :: 0 <= i < j < |terms| ==> terms[i].vocabulary != terms[j].vocabulary || terms[i].code != terms[j].code
  }

  datatype TermsResult = Stored(terms: seq<Term>) | CodeTaken

  // One insert, of all its rows or none.
  function Insert(terms: seq<Term>, rows: seq<Term>): TermsResult {
    if Unique(terms + rows) then Stored(terms + rows) else CodeTaken
  }

  lemma UniqueSnoc(terms: seq<Term>, t: Term)
    ensures Unique(terms + [t]) <==> Unique(terms) && t.code !in Codes(terms, t.vocabulary)
  {
    var all := terms + [t];
    assert all[|terms|] == t;
    if Unique(all) {
      forall i, j | 0 <= i < j < |terms|
        ensures terms[i].vocabulary != terms[j].vocabulary || terms[i].code != terms[j].code
      {
        assert all[i] == terms[i] && all[j] == terms[j];
      }
      forall i | 0 <= i < |terms| && terms[i].vocabulary == t.vocabulary ensures terms[i].code != t.code {
        assert all[i] == terms[i];
      }
    }
  }

  // ---------------------------------------------------------------------- the two forms

  // The rows of the live form: the codes that were there when it began are left out, and a counter runs on.
  function LiveRows(terms: seq<Term>, v: Id, news: seq<NewTerm>): seq<Term> {
    if news == [] then []
    else
      RowsWith(terms, v, LiveRows(terms, v, news[..|news| - 1]), news[|news| - 1])
  }

  function RowsWith(terms: seq<Term>, v: Id, rows: seq<Term>, next: NewTerm): seq<Term> {
    if next.code in Codes(terms, v) then rows
    else rows + [Term(v, next.code, next.text, MaxOrder(terms, v) + |rows| + 1)]
  }

  // All of them in one insert, or none to insert.
  function LiveTerms(terms: seq<Term>, v: Id, news: seq<NewTerm>): TermsResult {
    if LiveRows(terms, v, news) == [] then Stored(terms) else Insert(terms, LiveRows(terms, v, news))
  }

  method AddTermsLive(vocabularies: seq<Vocabulary>, terms: seq<Term>, name: string, news: seq<NewTerm>)
    returns (r: TermsResult)
    ensures r == match VocabularyId(vocabularies, name)
                 case None => Stored(terms)
                 case Some(v) => LiveTerms(terms, v, news)
  {
    var found := VocabularyId(vocabularies, name);
    if found.None? {
      return Stored(terms);
    }
    var v := found.value;
    var existing := Codes(terms, v);
    var order := MaxOrder(terms, v);
    var rows: seq<Term> := [];
    for n := 0 to |news|
      invariant rows == LiveRows(terms, v, news[..n])
      invariant order == MaxOrder(terms, v) + |rows|
    {
      assert news[..n + 1][..n] == news[..n];
      if news[n].code in existing {
        continue;
      }
      order := order + 1;
      rows := rows + [Term(v, news[n].code, news[n].text, order)];
    }
    assert news[..|news|] == news;
    r := Stored(terms);
    if rows != [] {
      r := Insert(terms, rows);
    }
  }

  // One statement of the offline form: an insert unless the code is there by then.
  function InsertUnlessThere(terms: seq<Term>, v: Id, next: NewTerm): TermsResult {
    if next.code in Codes(terms, v) then Stored(terms)
    else Insert(terms, [Term(v, next.code, next.text, MaxOrder(terms, v) + 1)])
  }

  // The statements one after another, up to the first that fails.
  function OfflineTerms(terms: seq<Term>, v: Id, news: seq<NewTerm>): TermsResult {
    if news == [] then Stored(terms)
    else
      match OfflineTerms(terms, v, news[..|news| - 1])
      case CodeTaken => CodeTaken
      case Stored(before) => InsertUnlessThere(before, v, news[|news| - 1])
  }

  method AddTermsOffline(vocabularies: seq<Vocabulary>, terms: seq<Term>, name: string, news: seq<NewTerm>)
    returns (r: TermsResult)
    ensures r == match VocabularyId(vocabularies, name)
                 case None => Stored(terms)
                 case Some(v) => OfflineTerms(terms, v, news)
  {
    r := Stored(terms);
    var found := VocabularyId(vocabularies, name);
    for n := 0 to |news|
      invariant r == if found.None? then Stored(terms) else OfflineTerms(terms, found.value, news[..n])
    {
      assert news[..n + 1][..n] == news[..n];
      if found.Some? && r.Stored? {
        r := InsertUnlessThere(r.terms, found.value, news[n]);
      }
    }
    assert news[..|news|] == news;
  }

  // ---------------------------------------------------------------------- they agree

  // The codes that are not in the vocabulary yet are listed once each.
  predicate ListedOnce(terms: seq<Term>, v: Id, news: seq<NewTerm>) {
    forall i, j :: 0 <= i < j < |news| && news[i].code !in Codes(terms, v) ==> news[i].code != news[j].code
  }

  function NewCodes(news: seq<NewTerm>): set<string> {
    set i | 0 <= i < |news| :: news[i].code
  }

  lemma InsertStep(terms: seq<Term>, v: Id, next: NewTerm)
    requires Unique(terms)
    ensures var r := InsertUnlessThere(terms, v, next);
            && r.Stored? && Unique(r.terms) && terms <= r.terms
            && Codes(r.terms, v) == Codes(terms, v) + {next.code}
            && MaxOrder(r.terms, v) == MaxOrder(terms, v) + |r.terms| - |terms|
  {
    if next.code !in Codes(terms, v) {
      var row := Term(v, next.code, next.text, MaxOrder(terms, v) + 1);
      AddedTermIsLast(terms, row);
      UniqueSnoc(terms, row);
    }
  }

  /** The offline form always succeeds: it keeps the codes distinct, and leaves the old rows first and untouched, with
      every listed code. */
  lemma {:induction false} OfflineAlwaysSucceeds(terms: seq<Term>, v: Id, news: seq<NewTerm>)
    requires Unique(terms)
    ensures var r := OfflineTerms(terms, v, news);
            && r.Stored? && Unique(r.terms) && terms <= r.terms
            && Codes(r.terms, v) == Codes(terms, v) + NewCodes(news)
            && MaxOrder(r.terms, v) == MaxOrder(terms, v) + |r.terms| - |terms|
  {
    if news != [] {
      OfflineAlwaysSucceeds(terms, v, news[..|news| - 1]);
      NewCodesStep(news);
      InsertStep(OfflineTerms(terms, v, news[..|news| - 1]).terms, v, news[|news| - 1]);
    }
  }

  lemma OneMoreRow(terms: seq<Term>, v: Id, rows: seq<Term>, next: NewTerm)
    requires Unique(terms + rows) && MaxOrder(terms + rows, v) == MaxOrder(terms, v) + |rows|
    requires next.code in Codes(terms + rows, v) <==> next.code in Codes(terms, v)
    ensures InsertUnlessThere(terms + rows, v, next) == Stored(terms + RowsWith(terms, v, rows, next))
  {
    var row := Term(v, next.code, next.text, MaxOrder(terms, v) + |rows| + 1);
    assert terms + rows + [row] == terms + (rows + [row]);
    UniqueSnoc(terms + rows, row);
  }

  lemma LastRowIsLive(terms: seq<Term>, v: Id, news: seq<NewTerm>)
    requires Unique(terms) && news != []
    requires var front, last := news[..|news| - 1], news[|news| - 1].code;
             && OfflineTerms(terms, v, front) == Stored(terms + LiveRows(terms, v, front))
             && (last in NewCodes(front) ==> last in Codes(terms, v))
    ensures var rows, last := LiveRows(terms, v, news[..|news| - 1]), news[|news| - 1];
            InsertUnlessThere(terms + rows, v, last) == Stored(terms + RowsWith(terms, v, rows, last))
  {
    var front := news[..|news| - 1];
    OfflineAlwaysSucceeds(terms, v, front);
    OneMoreRow(terms, v, LiveRows(terms, v, front), news[|news| - 1]);
  }

  // Where no missing code is listed twice, the running counter and the repeated MAX + 1 give the same rows.
  lemma {:induction false} OfflineRowsAreLive(terms: seq<Term>, v: Id, news: seq<NewTerm>)
    requires Unique(terms) && ListedOnce(terms, v, news)
    ensures OfflineTerms(terms, v, news) == Stored(terms + LiveRows(terms, v, news))
  {
    if news != [] {
      ListedOnceStep(terms, v, news);
      OfflineRowsAreLive(terms, v, news[..|news| - 1]);
      LastRowIsLive(terms, v, news);
    }
  }

  lemma {:induction false} LiveRowOf(terms: seq<Term>, v: Id, news: seq<NewTerm>, i: nat)
    requires i < |news| && news[i].code !in Codes(terms, v)
    ensures news[i].code in Codes(LiveRows(terms, v, news), v)
  {
    var front := news[..|news| - 1];
    var rows := LiveRows(terms, v, front);
    if i < |front| {
      LiveRowOf(terms, v, front, i);
      var k :| 0 <= k < |rows| && rows[k].vocabulary == v && rows[k].code == news[i].code;
      assert LiveRows(terms, v, news)[k] == rows[k];
    } else {
      assert LiveRows(terms, v, news)[|rows|].code == news[i].code;
    }
  }

  // A missing code that is listed twice has two rows.
  lemma {:induction false} TwiceListedClashes(terms: seq<Term>, v: Id, news: seq<NewTerm>)
    requires !ListedOnce(terms, v, news)
    ensures !Unique(LiveRows(terms, v, news))
  {
    if news != [] {
      var front, last := news[..|news| - 1], news[|news| - 1];
      var rows := LiveRows(terms, v, front);
      ListedOnceStep(terms, v, news);
      if ListedOnce(terms, v, front) {
        var i :| 0 <= i < |front| && front[i].code == last.code;
        LiveRowOf(terms, v, front, i);
      } else {
        TwiceListedClashes(terms, v, front);
      }
      if LiveRows(terms, v, news) != rows {
        UniqueSnoc(rows, LiveRows(terms, v, news)[|rows|]);
      }
    }
  }

  /** From terms with distinct codes the one insert of the live form is accepted if and only if no code that the
      vocabulary lacks is listed twice. */
  lemma LiveSucceedsIffListedOnce(terms: seq<Term>, v: Id, news: seq<NewTerm>)
    requires Unique(terms)
    ensures LiveTerms(terms, v, news).Stored? <==> ListedOnce(terms, v, news)
    ensures LiveTerms(terms, v, news).Stored? ==> Unique(LiveTerms(terms, v, news).terms)
  {
    var rows := LiveRows(terms, v, news);
    if ListedOnce(terms, v, news) {
      OfflineRowsAreLive(terms, v, news);
      OfflineAlwaysSucceeds(terms, v, news);
    } else {
      TwiceListedClashes(terms, v, news);
      var i, j :| 0 <= i < j < |rows| && rows[i].vocabulary == rows[j].vocabulary && rows[i].code == rows[j].code;
      assert (terms + rows)[|terms| + i] == rows[i] && (terms + rows)[|terms| + j] == rows[j];
    }
  }

  lemma NewCodesStep(news: seq<NewTerm>)
    requires news != []
    ensures NewCodes(news) == NewCodes(news[..|news| - 1]) + {news[|news| - 1].code}
  {
  }

  lemma ListedOnceStep(terms: seq<Term>, v: Id, news: seq<NewTerm>)
    requires news != []
    ensures var front, last := news[..|news| - 1], news[|news| - 1].code;
            ListedOnce(terms, v, news) <==>
            ListedOnce(terms, v, front) && (last in Codes(terms, v) || last !in NewCodes(front))
  {
    var front, last := news[..|news| - 1], news[|news| - 1].code;
    if ListedOnce(terms, v, front) && (last in Codes(terms, v) || last !in NewCodes(front)) {
      forall i, j | 0 <= i < j < |news| && news[i].code !in Codes(terms, v) ensures news[i].code != news[j].code {
        assert front[i] == news[i];
      }
    }
    if ListedOnce(terms, v, news) && last in NewCodes(front) {
      var i :| 0 <= i < |front| && front[i].code == last;
      assert news[i].code == news[|news| - 1].code;
    }
  }

  /** The two forms leave the same terms if and only if no code that the vocabulary lacks is listed twice. Otherwise the
      live form, which reads the codes once, is refused by the unique constraint; the offline form sees its own insert
      and stores one of them. */
  lemma FormsAgreeIffCodesAreListedOnce(terms: seq<Term>, v: Id, news: seq<NewTerm>)
    requires Unique(terms)
    ensures LiveTerms(terms, v, news) == OfflineTerms(terms, v, news) <==> ListedOnce(terms, v, news)
    ensures LiveTerms(terms, v, news) != OfflineTerms(terms, v, news) ==> LiveTerms(terms, v, news) == CodeTaken
  {
    LiveSucceedsIffListedOnce(terms, v, news);
    OfflineAlwaysSucceeds(terms, v, news);
    if ListedOnce(terms, v, news) {
      OfflineRowsAreLive(terms, v, news);
      assert terms + [] == terms;
    }
  }

  const NEW_TERMS: seq<NewTerm> := [NewTerm("CESION_USO", "Cesión de uso"), NewTerm("CUSTODIA", "Custodia")]

  lemma OwnTermsAgree(terms: seq<Term>, v: Id)
    requires Unique(terms)
    ensures LiveTerms(terms, v, NEW_TERMS) == OfflineTerms(terms, v, NEW_TERMS)
    ensures var r, max := OfflineTerms(terms, v, NEW_TERMS), MaxOrder(terms, v);
            && r.Stored? && "CESION_USO" in Codes(r.terms, v) && "CUSTODIA" in Codes(r.terms, v)
            && ("CESION_USO" !in Codes(terms, v) && "CUSTODIA" !in Codes(terms, v) ==>
                  r.terms == terms + [Term(v, "CESION_USO", "Cesión de uso", max + 1),
                                      Term(v, "CUSTODIA", "Custodia", max + 2)])
  {
    assert |NEW_TERMS[0].code| == 10 && |NEW_TERMS[1].code| == 8;
    FormsAgreeIffCodesAreListedOnce(terms, v, NEW_TERMS);
    OfflineAlwaysSucceeds(terms, v, NEW_TERMS);
    assert NEW_TERMS[0].code in NewCodes(NEW_TERMS) && NEW_TERMS[1].code in NewCodes(NEW_TERMS);
    if NEW_TERMS[0].code !in Codes(terms, v) && NEW_TERMS[1].code !in Codes(terms, v) { OwnRows(terms, v); }
  }

  lemma OwnRows(terms: seq<Term>, v: Id)
    requires NEW_TERMS[0].code !in Codes(terms, v) && NEW_TERMS[1].code !in Codes(terms, v)
    ensures LiveRows(terms, v, NEW_TERMS) ==
            [Term(v, "CESION_USO", "Cesión de uso", MaxOrder(terms, v) + 1),
             Term(v, "CUSTODIA", "Custodia", MaxOrder(terms, v) + 2)]
  {
    var first := NEW_TERMS[..1];
    assert first[..0] == [];
    assert LiveRows(terms, v, []) == [];
    assert LiveRows(terms, v, first) == RowsWith(terms, v, [], NEW_TERMS[0]);
  }

  // ---------------------------------------------------------------------- the setting row

  datatype Setting = Setting(id: Id, key: string, value: string, deleted: bool)

  const KEY := "tenure_aliases"

  predicate ActiveRow(s: Setting) { s.key == KEY && !s.deleted }

  datatype SettingResult = Done(settings: seq<Setting>) | DuplicateId | Unsupported

  // The primary key refuses a second row with the id of the migration.
  function InsertSetting(settings: seq<Setting>, row: Setting): SettingResult {
    if exists i :: 0 <= i < |settings| && settings[i].id == row.id then DuplicateId else Done(settings + [row])
  }

  // The live form counts the active rows of the key before it inserts.
  function CountActive(settings: seq<Setting>): nat {
    if settings == [] then 0
    else CountActive(settings[..|settings| - 1]) + if ActiveRow(settings[|settings| - 1]) then 1 else 0
  }

  function UpgradeLive(settings: seq<Setting>, migrationId: Id, value: string): SettingResult {
    if CountActive(settings) > 0 then Done(settings)
    else InsertSetting(settings, Setting(migrationId, KEY, value, false))
  }

  method UpgradeSettingLive(settings: seq<Setting>, migrationId: Id, value: string) returns (r: SettingResult)
    ensures r == UpgradeLive(settings, migrationId, value)
  {
    var found := 0;
    for i := 0 to |settings|
      invariant found == CountActive(settings[..i])
    {
      assert settings[..i + 1][..i] == settings[..i];
      if ActiveRow(settings[i]) {
        found := found + 1;
      }
    }
    assert settings[..|settings|] == settings;
    if found != 0 {
      return Done(settings);
    }
    r := InsertSetting(settings, Setting(migrationId, KEY, value, false));
  }

  // The rows that the SELECT of the offline form gives: one, unless an active row has the key.
  function SelectedRows(settings: seq<Setting>, row: Setting): seq<Setting> {
    if exists i :: 0 <= i < |settings| && ActiveRow(settings[i]) then [] else [row]
  }

  // The offline form is SQL for PostgreSQL only. `sent` is what the database decodes from its text.
  function UpgradeOffline(settings: seq<Setting>, postgres: bool, migrationId: Id, sent: string): SettingResult {
    if !postgres then Unsupported
    else
      var rows := SelectedRows(settings, Setting(migrationId, KEY, sent, false));
      if rows == [] then Done(settings) else InsertSetting(settings, rows[0])
  }

  lemma {:induction false} CountActiveMeans(settings: seq<Setting>)
    ensures CountActive(settings) > 0 <==> exists i :: 0 <= i < |settings| && ActiveRow(settings[i])
  {
    if settings != [] {
      var front := settings[..|settings| - 1];
      CountActiveMeans(front);
      forall i | 0 <= i < |front| ensures front[i] == settings[i] {}
    }
  }

  /** The two forms leave the same settings, or fail alike, if and only if the database is PostgreSQL and the value
      survives its way as text, unless there is nothing to insert or the id is taken. */
  lemma SettingFormsAgree(settings: seq<Setting>, postgres: bool, migrationId: Id, value: string, sent: string)
    ensures UpgradeLive(settings, migrationId, value) == UpgradeOffline(settings, postgres, migrationId, sent) <==>
            && postgres
            && (|| sent == value
                || (exists i :: 0 <= i < |settings| && settings[i].key == "tenure_aliases" && !settings[i].deleted)
                || exists i :: 0 <= i < |settings| && settings[i].id == migrationId)
  {
    CountActiveMeans(settings);
    var a, b := Setting(migrationId, KEY, value, false), Setting(migrationId, KEY, sent, false);
    if sent != value {
      assert (settings + [a])[|settings|] == a && (settings + [b])[|settings|] == b;
    }
  }

  // Nothing but a taken id stops the live insert, and only where no row of the key is active.
  lemma SettingUpgradeFailsExactlyWhen(settings: seq<Setting>, migrationId: Id, value: string)
    ensures UpgradeLive(settings, migrationId, value) != Unsupported
    ensures UpgradeLive(settings, migrationId, value) == DuplicateId <==>
              && (exists i :: 0 <= i < |settings| && settings[i].id == migrationId)
              && forall i :: 0 <= i < |settings| ==> settings[i].key != "tenure_aliases" || settings[i].deleted
  {
    CountActiveMeans(settings);
  }

  function DowngradeSettings(settings: seq<Setting>, migrationId: Id): seq<Setting> {
    if settings == [] then []
    else
      DowngradeSettings(settings[..|settings| - 1], migrationId)
      + if settings[|settings| - 1].id == migrationId then [] else [settings[|settings| - 1]]
  }

  lemma {:induction false} DowngradeKeeps(settings: seq<Setting>, migrationId: Id)
    requires forall i :: 0 <= i < |settings| ==> settings[i].id != migrationId
    ensures DowngradeSettings(settings, migrationId) == settings
  {
    if settings != [] { DowngradeKeeps(settings[..|settings| - 1], migrationId); }
  }

  /** The upgrade always succeeds where the id is free: after it a row of the key is active, with an administrator's row
      kept as it was; the downgrade takes away the row of the migration and nothing else. */
  lemma SettingUpgradeUndoes(settings: seq<Setting>, migrationId: Id, value: string)
    requires forall i :: 0 <= i < |settings| ==> settings[i].id != migrationId
    ensures var r := UpgradeLive(settings, migrationId, value);
            && r.Done? && r == UpgradeOffline(settings, true, migrationId, value)
            && settings <= r.settings
            && (exists i :: 0 <= i < |r.settings| && r.settings[i].key == "tenure_aliases" && !r.settings[i].deleted)
            && (r.settings == settings <==>
                exists i :: 0 <= i < |settings| && settings[i].key == "tenure_aliases" && !settings[i].deleted)
            && (r.settings != settings ==> r.settings == settings + [Setting(migrationId, "tenure_aliases", value, false)])
            && DowngradeSettings(r.settings, migrationId) == settings
  {
    CountActiveMeans(settings);
    DowngradeKeeps(settings, migrationId);
    SettingFormsAgree(settings, true, migrationId, value, value);
    var upgraded := UpgradeLive(settings, migrationId, value).settings;
    if upgraded != settings {
      assert upgraded[..|upgraded| - 1] == settings;
      assert upgraded[|settings|].key == KEY && !upgraded[|settings|].deleted;
    }
  }

  /** A code listed twice: the live form is refused, the offline form stores one. */
  lemma ListedTwiceDiffers(v: Id)
    ensures var news := [NewTerm("A", "a"), NewTerm("A", "a")];
            LiveTerms([], v, news) == CodeTaken && OfflineTerms([], v, news) == Stored([Term(v, "A", "a", 1)])
  {
    var first := [NewTerm("A", "a")];
    var news := [NewTerm("A", "a"), NewTerm("A", "a")];
    assert news[..1] == first && first[..0] == [];
    assert Codes([], v) == {};
    assert OfflineTerms([], v, first) == Stored([Term(v, "A", "a", 1)]);
    assert OfflineTerms([], v, first).terms[0].code in Codes(OfflineTerms([], v, first).terms, v);
    assert news[0].code == news[1].code && !ListedOnce([], v, news);
    LiveSucceedsIffListedOnce([], v, news);
  }
}
