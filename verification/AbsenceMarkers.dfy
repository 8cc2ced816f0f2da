/**
The data migration `0020_real_absence_markers`: the active marker lists gain new markers on upgrade and lose them on
downgrade. The live form edits the stored list; the offline form aggregates it in SQL.

A stored value is JSON: `null`, or a list whose elements are texts or nulls (`None`). The settings of the application
accept lists of texts only; the other values are here because the two forms read them differently.
*/
module AbsenceMarkers {
  import opened Common

  type Marker = Option<string>

  datatype Value = Null | List(items: seq<Marker>)

  datatype Setting = Setting(id: nat, key: string, value: Value, deleted: bool)

  const KEY := "absence_markers"

  const NEW_MARKERS: seq<Marker> := [Some("NOPRESENTA"), Some("NOREGISTRA")]

  // ---------------------------------------------------------------------- the live form

  function Without(list: seq<Marker>, gone: seq<Marker>): (r: seq<Marker>)
    ensures forall m :: m in r <==> m in list && m !in gone
  {
    if list == [] then []
    else Without(list[..|list| - 1], gone) + if list[|list| - 1] in gone then [] else [list[|list| - 1]]
  }

  // A missing list is read as an empty one.
  function Current(v: Value): seq<Marker> { if v.Null? then [] else v.items }

  function Added(current: seq<Marker>, news: seq<Marker>): seq<Marker> {
    current + Without(news, current)
  }

  function Removed(current: seq<Marker>, news: seq<Marker>): seq<Marker> {
    Without(current, news)
  }

  // A value is written only when its list changes.
  function LiveChange(v: Value, news: seq<Marker>, add: bool): Value {
    var updated := if add then Added(Current(v), news) else Removed(Current(v), news);
    if updated != Current(v) then List(updated) else v
  }

  function Changed(s: Setting, add: bool): Setting {
    if s.key != KEY || s.deleted then s else s.(value := LiveChange(s.value, NEW_MARKERS, add))
  }

  class SettingTable {
    var rows: seq<Setting>

    // One row of the loop: it is written only when its list changes.
    method ChangeRow(n: nat, add: bool)
      requires n < |rows|
      modifies this
      ensures rows == old(rows)[n := Changed(old(rows)[n], add)]
    {
      var row := rows[n];
      if row.key == KEY && !row.deleted {
        var current := if row.value.Null? then [] else row.value.items;
        var updated := if add then Added(current, NEW_MARKERS) else Removed(current, NEW_MARKERS);
        if updated != current {
          rows := rows[n := row.(value := List(updated))];
        }
      }
    }

    /** The live form: every active row of the key is updated in place, the others are not touched. */
    method ChangeLive(add: bool)
      modifies this
      ensures |rows| == |old(rows)|
      ensures forall i :: 0 <= i < |rows| ==> rows[i] == Changed(old(rows)[i], add)
    {
      for n := 0 to |rows|
        invariant |rows| == |old(rows)|
        invariant forall i :: 0 <= i < n ==> rows[i] == Changed(old(rows)[i], add)
        invariant forall i :: n <= i < |rows| ==> rows[i] == old(rows)[i]
      {
        ChangeRow(n, add);
      }
    }
  }

  // ---------------------------------------------------------------------- the offline form

  // What PostgreSQL concatenates the markers to: `null` counts as one element.
  function Elements(v: Value): seq<Marker> { if v.Null? then [None] else v.items }

  // The upgrade aggregates the distinct elements, in some order.
  ghost predicate UpgradedOffline(v: Value, news: seq<Marker>, r: Value) {
    r.List? && NoDup(r.items) && forall m :: m in r.items <==> m in Elements(v) + news
  }

  // The downgrade aggregates the elements that are texts and none of the markers, in some order; a null element fails
  // the test of the query, and `null` has no elements to read, which is an error.
  function Stays(m: Marker, news: seq<Marker>): bool { m.Some? && m !in news }

  ghost predicate DowngradedOffline(v: Value, news: seq<Marker>, r: Option<Value>) {
    if v.Null? then r == None
    else
      && r.Some? && r.value.List?
      && forall m :: multiset(r.value.items)[m] == if Stays(m, news) then multiset(v.items)[m] else 0
  }

  // ---------------------------------------------------------------------- lists without something

  lemma SnocCounts(list: seq<Marker>, more: seq<Marker>, last: Marker, m: Marker)
    requires more == [] || more == [last]
    ensures multiset(list + more)[m] == multiset(list)[m] + if m == last && more != [] then 1 else 0
  {
    if more == [] { assert list + more == list; }
  }

  lemma {:induction false} WithoutCounts(list: seq<Marker>, gone: seq<Marker>, m: Marker)
    ensures multiset(Without(list, gone))[m] == if m in gone then 0 else multiset(list)[m]
  {
    if list != [] {
      var front, last := list[..|list| - 1], list[|list| - 1];
      assert list == front + [last];
      WithoutCounts(front, gone, m);
      SnocCounts(front, [last], last, m);
      SnocCounts(Without(front, gone), if last in gone then [] else [last], last, m);
    }
  }

  lemma {:induction false} WithoutNothing(list: seq<Marker>, gone: seq<Marker>)
    requires forall m :: m in list ==> m !in gone
    ensures Without(list, gone) == list
  {
    if list != [] {
      var front, last := list[..|list| - 1], list[|list| - 1];
      assert list == front + [last];
      WithoutNothing(front, gone);
    }
  }

  lemma {:induction false} WithoutAll(list: seq<Marker>, gone: seq<Marker>)
    requires forall m :: m in list ==> m in gone
    ensures Without(list, gone) == []
  {
    if list != [] {
      assert list[|list| - 1] in list;
      WithoutAll(list[..|list| - 1], gone);
    }
  }

  lemma {:induction false} WithoutConcat(a: seq<Marker>, b: seq<Marker>, gone: seq<Marker>)
    ensures Without(a + b, gone) == Without(a, gone) + Without(b, gone)
  {
    if b == [] {
      assert a + b == a;
    } else {
      assert (a + b)[..|a + b| - 1] == a + b[..|b| - 1];
      WithoutConcat(a, b[..|b| - 1], gone);
    }
  }

  lemma WithoutForOne(m: Marker, gone: seq<Marker>)
    ensures Without([], gone) == [] && Without([m], gone) == if m in gone then [] else [m]
  {
    assert [m][..0] == [];
  }

  lemma {:induction false} WithoutNoDup(list: seq<Marker>, gone: seq<Marker>)
    requires NoDup(list)
    ensures NoDup(Without(list, gone))
  {
    if list != [] { WithoutNoDup(list[..|list| - 1], gone); }
  }

  lemma NoDupConcat(a: seq<Marker>, b: seq<Marker>)
    requires NoDup(a) && NoDup(b) && forall m :: m in b ==> m !in a
    ensures NoDup(a + b)
  {
    forall i, j | 0 <= i < j < |a + b| ensures (a + b)[i] != (a + b)[j] {
      if i < |a| <= j { assert a[i] in a && b[j - |a|] in b; }
    }
  }

  // ---------------------------------------------------------------------- the live form on its own

  /** The live upgrade keeps the old list as a prefix, holds every marker, and does nothing the second time. */
  lemma LiveUpgradeIsIdempotent(v: Value, news: seq<Marker>)
    ensures var once := LiveChange(v, news, true);
            && Current(v) <= Current(once) && (forall m :: m in news ==> m in Current(once))
            && LiveChange(once, news, true) == once
  {
    WithoutAll(news, Added(Current(v), news));
    var once := LiveChange(v, news, true);
    assert Current(once) == Added(Current(v), news);
  }

  // The migration's own markers, for a current list.
  lemma OwnMarkersAdded(current: seq<Marker>)
    ensures Added(current, NEW_MARKERS) ==
              current + (if Some("NOPRESENTA") in current then [] else [Some("NOPRESENTA")])
                      + (if Some("NOREGISTRA") in current then [] else [Some("NOREGISTRA")])
  {
    assert NEW_MARKERS == [NEW_MARKERS[0]] + [NEW_MARKERS[1]];
    WithoutConcat([NEW_MARKERS[0]], [NEW_MARKERS[1]], current);
    WithoutForOne(NEW_MARKERS[0], current);
    WithoutForOne(NEW_MARKERS[1], current);
  }

  /** What happens to a row: nothing, unless it is an active row of the key; such a row keeps everything but its list,
      which gains the two markers that it lacks, in their order, or loses both; and a value whose list does not change
      stays as it was, a null too. */
  lemma RowChanges(s: Setting, add: bool)
    ensures var r, active := Changed(s, add), s.key == "absence_markers" && !s.deleted;
            && r.id == s.id && r.key == s.key && r.deleted == s.deleted
            && (!active ==> r == s)
            && (active && add ==>
                  Current(r.value) ==
                  Current(s.value) + (if Some("NOPRESENTA") in Current(s.value) then [] else [Some("NOPRESENTA")])
                                   + (if Some("NOREGISTRA") in Current(s.value) then [] else [Some("NOREGISTRA")]))
            && (active && !add ==> Current(r.value) == Without(Current(s.value), [Some("NOPRESENTA"), Some("NOREGISTRA")]))
            && (Current(r.value) == Current(s.value) ==> r.value == s.value)
  {
    OwnMarkersAdded(Current(s.value));
  }

  /** A downgrade after an upgrade gives the old list without the new markers; so the two undo each other exactly
      for the lists that had none of them. */
  lemma DowngradeAfterUpgrade(v: Value, news: seq<Marker>)
    ensures var back := LiveChange(LiveChange(v, news, true), news, false);
            && Current(back) == Removed(Current(v), news)
            && (Current(back) == Current(v) <==> forall m :: m in Current(v) ==> m !in news)
  {
    var current := Current(v);
    assert Current(LiveChange(v, news, true)) == Added(current, news);
    WithoutConcat(current, Without(news, current), news);
    WithoutAll(Without(news, current), news);
    if forall m :: m in current ==> m !in news { WithoutNothing(current, news); }
  }

  // ---------------------------------------------------------------------- the two forms

  /** The two forms of the upgrade leave the same set of markers if and only if the stored value is a list, whatever its
      elements, and not a null; and the same list up to order if and only if that list has no repetitions. */
  lemma UpgradeFormsAgree(v: Value, news: seq<Marker>, r: Value)
    requires NoDup(news) && None !in news && UpgradedOffline(v, news, r)
    ensures (forall m :: m in r.items <==> m in Current(LiveChange(v, news, true))) <==> v.List?
    ensures multiset(r.items) == multiset(Current(LiveChange(v, news, true))) <==> v.List? && NoDup(v.items)
  {
    var current := Current(v);
    var added := Added(current, news);
    assert Current(LiveChange(v, news, true)) == added;
    if v.Null? {
      assert None in r.items && None !in added;
      assert None in multiset(r.items) && None !in multiset(added);
    } else if NoDup(current) {
      WithoutNoDup(news, current);
      NoDupConcat(current, Without(news, current));
      forall m ensures multiset(r.items)[m] == multiset(added)[m] {
        NoDupCount(r.items, m);
        NoDupCount(added, m);
      }
    } else {
      RepeatedStays(current, Without(news, current), r.items);
    }
  }

  // A list that keeps a repeated marker is not one without repetitions.
  lemma RepeatedStays(current: seq<Marker>, more: seq<Marker>, r: seq<Marker>)
    requires !NoDup(current) && NoDup(r)
    ensures multiset(r) != multiset(current + more)
  {
    var i, j :| 0 <= i < j < |current| && current[i] == current[j];
    var m, added := current[i], current + more;
    NoDupCount(r, m);
    assert added == added[..j] + added[j..];
    assert added[..j][i] == m && added[j..][0] == m;
    assert m in multiset(added[..j]) && m in multiset(added[j..]);
    assert multiset(added)[m] >= 2;
  }

  /** The two forms of the downgrade leave the same list up to order if and only if the stored value is a list without
      null elements; on a null the offline form fails, and it drops null elements that the live form keeps. */
  lemma DowngradeFormsAgree(v: Value, news: seq<Marker>, r: Option<Value>)
    requires None !in news && DowngradedOffline(v, news, r)
    ensures (r.Some? && multiset(r.value.items) == multiset(Current(LiveChange(v, news, false))))
            <==> v.List? && None !in v.items
  {
    if v.List? {
      var removed := Removed(v.items, news);
      assert Current(LiveChange(v, news, false)) == removed;
      WithoutCounts(v.items, news, None);
      assert None in multiset(v.items) <==> None in v.items;
      if None !in v.items {
        forall m ensures multiset(r.value.items)[m] == multiset(removed)[m] {
          WithoutCounts(v.items, news, m);
          assert m.None? ==> multiset(v.items)[m] == 0;
        }
      }
    }
  }

  /** A stored list with a repeated marker: the live form keeps both, the offline one stores it once. */
  lemma RepeatedMarkerIsStoredOnceOffline()
    ensures var v := List([Some("S/N"), Some("S/N")]);
            && multiset(Current(LiveChange(v, NEW_MARKERS, true)))[Some("S/N")] >= 2
            && forall r :: UpgradedOffline(v, NEW_MARKERS, r) ==> multiset(r.items)[Some("S/N")] <= 1
  {
    var v := List([Some("S/N"), Some("S/N")]);
    var added := Added(v.items, NEW_MARKERS);
    assert added == [Some("S/N")] + ([Some("S/N")] + Without(NEW_MARKERS, v.items));
    assert Current(LiveChange(v, NEW_MARKERS, true)) == added;
    forall r | UpgradedOffline(v, NEW_MARKERS, r) ensures multiset(r.items)[Some("S/N")] <= 1 {
      NoDupCount(r.items, Some("S/N"));
    }
  }

  /** The markers of the migration, over any list of texts: the offline upgrade stores the live set, and either
      downgrade then leaves the old texts that are none of the markers. */
  lemma OwnMarkersAgree(items: seq<Marker>, r: Value, back: Option<Value>)
    requires None !in items && UpgradedOffline(List(items), NEW_MARKERS, r) && DowngradedOffline(r, NEW_MARKERS, back)
    ensures forall m :: m in r.items <==> m in Current(LiveChange(List(items), NEW_MARKERS, true))
    ensures back.Some? && forall m :: m in back.value.items <==> m in items && m !in NEW_MARKERS
  {
    assert NEW_MARKERS[0] != NEW_MARKERS[1] by { assert NEW_MARKERS[0].value[2] != NEW_MARKERS[1].value[2]; }
    UpgradeFormsAgree(List(items), NEW_MARKERS, r);
    forall m ensures m in back.value.items <==> m in items && m !in NEW_MARKERS {
      assert m in multiset(back.value.items) <==> m in back.value.items;
      assert m in multiset(r.items) <==> m in r.items;
    }
  }
}
