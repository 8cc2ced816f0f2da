/**
The synthetic catalogue generator (`scripts/perf/generate_catalog.py`): pieces numbered from 1, written and committed in
batches, each with an inventory code unless that code is already in use. The database refuses a commit that would leave
two current inventory codes alike.

What the generator takes from elsewhere is a parameter: `draw.code(n)` is the inventory code of number `n` after
normalization (`None` when the normalization gives none), `draw.other(n)` the collection code of number `n`, when the
draw gives it one, and `draw.id(n)` the identifier of its piece.
*/
module CatalogGeneration {
  import opened Common

  datatype Kind = Inventory | Collection

  datatype Piece = Piece(id: int, number: int)

  datatype Identifier = Identifier(piece: int, kind: Kind, value: Option<string>, current: bool, deleted: bool)

  datatype Draw = Draw(code: int -> Option<string>, other: int -> Option<Option<string>>, id: int -> int)

  // The rows that the partial unique index covers.
  predicate Current(x: Identifier) { x.kind == Inventory && x.current && !x.deleted }

  // Two rows the unique index does not let stand together; it lets any number of missing values stand.
  predicate Clash(x: Identifier, y: Identifier) { Current(x) && Current(y) && x.value.Some? && x.value == y.value }

  predicate ClashesWith(ids: seq<Identifier>, x: Identifier) { exists i :: 0 <= i < |ids| && Clash(ids[i], x) }

  // The index as rows arrive: each clashes with none before it.
  predicate Distinct(ids: seq<Identifier>) {
    ids == [] || (Distinct(ids[..|ids| - 1]) && !ClashesWith(ids[..|ids| - 1], ids[|ids| - 1]))
  }

  lemma {:induction false} DistinctMeansNoTwoClash(ids: seq<Identifier>)
    ensures Distinct(ids) <==> forall i, j :: 0 <= i < j < |ids| ==> !Clash(ids[i], ids[j])
    ensures forall x, y :: Clash(x, y) <==>
              x.kind == y.kind == Inventory && x.current && y.current && !x.deleted && !y.deleted && x.value == y.value != None
  {
    if ids != [] {
      var front, last := ids[..|ids| - 1], ids[|ids| - 1];
      DistinctMeansNoTwoClash(front);
      forall i | 0 <= i < |front| ensures front[i] == ids[i] {}
    }
  }

  function InUse(ids: seq<Identifier>): set<Option<string>> {
    set i | 0 <= i < |ids| && Current(ids[i]) :: ids[i].value
  }

  lemma InUseMeans(ids: seq<Identifier>, code: Option<string>)
    ensures code in InUse(ids) <==>
              exists x :: x in ids && x.kind == Inventory && x.current && !x.deleted && x.value == code
  {
  }

  // ---------------------------------------------------------------------- what one number adds

  function CodeRow(d: Draw, n: int): Identifier { Identifier(d.id(n), Inventory, d.code(n), true, false) }

  function RowsOf(d: Draw, used: set<Option<string>>, n: int): seq<Identifier> {
    (if d.code(n) in used then [] else [CodeRow(d, n)])
    + (if d.other(n).Some? then [Identifier(d.id(n), Collection, d.other(n).value, false, false)] else [])
  }

  // The numbers above `lo` and up to `hi`.
  function Pieces(d: Draw, lo: int, hi: int): seq<Piece>
    requires lo <= hi
    decreases hi - lo
  {
    if lo == hi then [] else Pieces(d, lo, hi - 1) + [Piece(d.id(hi), hi)]
  }

  // Each number of the range gets one piece, in order.
  lemma {:induction false} PiecesAreNumbered(d: Draw, lo: int, hi: int)
    requires lo <= hi
    ensures |Pieces(d, lo, hi)| == hi - lo
    ensures forall i :: 0 <= i < hi - lo ==> Pieces(d, lo, hi)[i] == Piece(d.id(lo + i + 1), lo + i + 1)
    decreases hi - lo
  {
    if lo < hi { PiecesAreNumbered(d, lo, hi - 1); }
  }

  function Rows(d: Draw, used: set<Option<string>>, lo: int, hi: int): seq<Identifier>
    requires lo <= hi
    decreases hi - lo
  {
    if lo == hi then [] else Rows(d, used, lo, hi - 1) + RowsOf(d, used, hi)
  }

  function Skipped(d: Draw, used: set<Option<string>>, lo: int, hi: int): (r: int)
    requires lo <= hi
    ensures 0 <= r <= hi - lo
    decreases hi - lo
  {
    if lo == hi then 0 else Skipped(d, used, lo, hi - 1) + if d.code(hi) in used then 1 else 0
  }

  function CodesIn(ids: seq<Identifier>): (r: nat) {
    if ids == [] then 0 else CodesIn(ids[..|ids| - 1]) + if ids[|ids| - 1].kind == Inventory then 1 else 0
  }

  lemma {:induction false} CodesInConcat(a: seq<Identifier>, b: seq<Identifier>)
    ensures CodesIn(a + b) == CodesIn(a) + CodesIn(b)
  {
    if b == [] {
      assert a + b == a;
    } else {
      var front := b[..|b| - 1];
      CodesInConcat(a, front);
      assert (a + b)[..|a + b| - 1] == a + front;
    }
  }

  // Every number either adds its code or is counted as one without.
  lemma {:induction false} CodesAddedPlusSkipped(d: Draw, used: set<Option<string>>, lo: int, hi: int)
    requires lo <= hi
    ensures CodesIn(Rows(d, used, lo, hi)) + Skipped(d, used, lo, hi) == hi - lo
    decreases hi - lo
  {
    if lo < hi {
      CodesAddedPlusSkipped(d, used, lo, hi - 1);
      CodesInConcat(Rows(d, used, lo, hi - 1), RowsOf(d, used, hi));
      var code := if d.code(hi) in used then [] else [CodeRow(d, hi)];
      var rest := if d.other(hi).Some? then [Identifier(d.id(hi), Collection, d.other(hi).value, false, false)] else [];
      CodesInConcat(code, rest);
      assert CodesIn(rest) == 0;
    }
  }

  // Batches laid end to end are one range.
  lemma {:induction false} RangesJoin(d: Draw, used: set<Option<string>>, lo: int, mid: int, hi: int)
    requires lo <= mid <= hi
    ensures Pieces(d, lo, hi) == Pieces(d, lo, mid) + Pieces(d, mid, hi)
    ensures Rows(d, used, lo, hi) == Rows(d, used, lo, mid) + Rows(d, used, mid, hi)
    ensures Skipped(d, used, lo, hi) == Skipped(d, used, lo, mid) + Skipped(d, used, mid, hi)
    decreases hi - mid
  {
    if mid < hi {
      RangesJoin(d, used, lo, mid, hi - 1);
    }
  }

  // ---------------------------------------------------------------------- when the codes stay distinct

  // No two numbers up to `n` have the same code, unless that code was in use before.
  ghost predicate Injective(d: Draw, used: set<Option<string>>, n: int) {
    forall i, j :: 1 <= i < j <= n && d.code(i).Some? && d.code(i) == d.code(j) ==> d.code(i) in used
  }

  /** The rows of one number: its code as the current inventory code of its piece, unless the code is in use, and then
      its collection code, if it drew one, which is not current. */
  lemma RowsOfANumber(d: Draw, used: set<Option<string>>, n: int)
    ensures Rows(d, used, n - 1, n) ==
              (if d.code(n) in used then [] else [Identifier(d.id(n), Inventory, d.code(n), true, false)])
              + (match d.other(n)
                 case None => []
                 case Some(code) => [Identifier(d.id(n), Collection, code, false, false)])
  {
    assert Rows(d, used, n - 1, n) == [] + RowsOf(d, used, n);
  }

  lemma {:induction false} RowsMeans(d: Draw, used: set<Option<string>>, hi: int, x: Identifier)
    requires 0 <= hi && Current(x)
    ensures x in Rows(d, used, 0, hi) <==> exists n :: 1 <= n <= hi && d.code(n) !in used && x == CodeRow(d, n)
    decreases hi
  {
    if hi > 0 {
      RowsMeans(d, used, hi - 1, x);
      assert x in Rows(d, used, 0, hi) <==> x in Rows(d, used, 0, hi - 1) || x in RowsOf(d, used, hi);
      assert x in RowsOf(d, used, hi) <==> d.code(hi) !in used && x == CodeRow(d, hi);
      if x in RowsOf(d, used, hi) {
        assert 1 <= hi <= hi && d.code(hi) !in used && x == CodeRow(d, hi);
      }
    }
  }

  lemma DistinctSnoc(ids: seq<Identifier>, x: Identifier)
    ensures Distinct(ids + [x]) <==> Distinct(ids) && !ClashesWith(ids, x)
  {
    assert (ids + [x])[..|ids|] == ids;
  }

  // The rows of one more number: at most its code can be refused.
  lemma DistinctMore(ids: seq<Identifier>, d: Draw, used: set<Option<string>>, n: int)
    ensures Distinct(ids + RowsOf(d, used, n))
            <==> Distinct(ids) && (d.code(n) in used || !ClashesWith(ids, CodeRow(d, n)))
  {
    var code := if d.code(n) in used then [] else [CodeRow(d, n)];
    DistinctSnoc(ids, CodeRow(d, n));
    if d.other(n).Some? {
      var other := Identifier(d.id(n), Collection, d.other(n).value, false, false);
      DistinctSnoc(ids + code, other);
      assert !ClashesWith(ids + code, other);
      assert ids + RowsOf(d, used, n) == (ids + code) + [other];
    } else {
      assert ids + RowsOf(d, used, n) == ids + code;
    }
    assert d.code(n) in used ==> ids + code == ids;
  }

  lemma UnusedCodeDoesNotClash(start: seq<Identifier>, x: Identifier)
    requires x.value !in InUse(start)
    ensures !ClashesWith(start, x)
  {
    forall i | 0 <= i < |start| ensures !Clash(start[i], x) {
      if Current(start[i]) { assert start[i].value in InUse(start); }
    }
  }

  lemma ClashesWithEither(a: seq<Identifier>, b: seq<Identifier>, x: Identifier)
    ensures ClashesWith(a + b, x) <==> ClashesWith(a, x) || ClashesWith(b, x)
  {
    var all := a + b;
    forall i | 0 <= i < |all| ensures all[i] == if i < |a| then a[i] else b[i - |a|] {}
    forall i | 0 <= i < |b| ensures all[|a| + i] == b[i] {}
  }

  lemma ClashComesFromASmallerNumber(d: Draw, used: set<Option<string>>, n: int, i: nat)
    requires n >= 1 && i < |Rows(d, used, 0, n - 1)| && Clash(Rows(d, used, 0, n - 1)[i], CodeRow(d, n))
    ensures d.code(n).Some? && exists k :: 1 <= k < n && d.code(k) == d.code(n)
  {
    var row := Rows(d, used, 0, n - 1)[i];
    RowsMeans(d, used, n - 1, row);
    var k :| 1 <= k <= n - 1 && d.code(k) !in used && row == CodeRow(d, k);
    assert 1 <= k < n && d.code(k) == d.code(n);
  }

  lemma SmallerNumberClashes(d: Draw, used: set<Option<string>>, n: int, k: int)
    requires 1 <= k < n && d.code(k) == d.code(n) && d.code(n).Some? && d.code(n) !in used
    ensures ClashesWith(Rows(d, used, 0, n - 1), CodeRow(d, n))
  {
    var rows := Rows(d, used, 0, n - 1);
    RowsMeans(d, used, n - 1, CodeRow(d, k));
    var i :| 0 <= i < |rows| && rows[i] == CodeRow(d, k);
    assert Clash(rows[i], CodeRow(d, n));
  }

  // A code that was not in use clashes only with the same code of a smaller number.
  lemma ClashIsWithASmallerNumber(start: seq<Identifier>, d: Draw, n: int)
    requires n >= 1 && d.code(n) !in InUse(start)
    ensures ClashesWith(start + Rows(d, InUse(start), 0, n - 1), CodeRow(d, n))
            <==> d.code(n).Some? && exists i :: 1 <= i < n && d.code(i) == d.code(n)
  {
    var used, x := InUse(start), CodeRow(d, n);
    var rows := Rows(d, used, 0, n - 1);
    UnusedCodeDoesNotClash(start, x);
    ClashesWithEither(start, rows, x);
    if i :| 0 <= i < |rows| && Clash(rows[i], x) { ClashComesFromASmallerNumber(d, used, n, i); }
    if k :| 1 <= k < n && d.code(k) == d.code(n) && d.code(n).Some? { SmallerNumberClashes(d, used, n, k); }
  }

  // From distinct codes, the codes stay distinct exactly when the normalization tells the new numbers apart.
  lemma {:induction false} DistinctExactlyWhenInjective(start: seq<Identifier>, d: Draw, n: int)
    requires Distinct(start) && n >= 0
    ensures Distinct(start + Rows(d, InUse(start), 0, n)) <==> Injective(d, InUse(start), n)
    decreases n
  {
    var used := InUse(start);
    if n == 0 {
      assert start + [] == start;
    } else {
      DistinctExactlyWhenInjective(start, d, n - 1);
      var before := start + Rows(d, used, 0, n - 1);
      assert start + Rows(d, used, 0, n) == before + RowsOf(d, used, n);
      DistinctMore(before, d, used, n);
      if d.code(n) !in used { ClashIsWithASmallerNumber(start, d, n); }
      InjectiveStep(d, used, n);
    }
  }

  /** A normalization that gives two new numbers one code, not in use before: the run is refused, in batches of any
      size, once it comes to the second. */
  lemma OneCodeForAllIsRefused(d: Draw, count: int)
    requires (forall n :: d.code(n) == Some("I-1")) && count >= 2
    ensures Injective(d, InUse([]), 1) && !Injective(d, InUse([]), count)
  {
    assert InUse([]) == {};
    assert d.code(1).Some? && d.code(1) == d.code(2);
  }

  lemma InjectiveStep(d: Draw, used: set<Option<string>>, n: int)
    requires n >= 1
    ensures Injective(d, used, n)
            <==> Injective(d, used, n - 1)
                 && (d.code(n) in used || d.code(n).None? || !exists i :: 1 <= i < n && d.code(i) == d.code(n))
  {
  }

  // ---------------------------------------------------------------------- the batches

  // Where the outer loop stands after `k` batches.
  function IndexAfter(count: int, batchSize: int, k: nat): int {
    if k == 0 then 0
    else
      var i := IndexAfter(count, batchSize, k - 1);
      if i < count then i + Min(batchSize, count - i) else i
  }

  function Min(a: int, b: int): int { if a <= b then a else b }

  // Full batches, up to the last.
  lemma {:induction false} IndexIsAMultiple(count: int, batchSize: int, k: nat)
    requires count >= 0 && batchSize >= 0
    ensures IndexAfter(count, batchSize, k) == if k * batchSize <= count then k * batchSize else count
  {
    if k > 0 {
      IndexIsAMultiple(count, batchSize, k - 1);
      assert k * batchSize == (k - 1) * batchSize + batchSize;
    }
  }

  // The outer loop ends exactly when there is nothing to do or a batch holds something.
  lemma LoopEndsExactlyWhenBatchesHoldSomething(count: int, batchSize: int)
    ensures (exists k: nat :: IndexAfter(count, batchSize, k) >= count) <==> count <= 0 || batchSize >= 1
  {
    if count <= 0 {
      assert IndexAfter(count, batchSize, 0) >= count;
    } else if batchSize >= 1 {
      BatchesAdvance(count, batchSize, count);
      assert IndexAfter(count, batchSize, count) >= count;
    } else {
      forall k: nat ensures IndexAfter(count, batchSize, k) < count { BatchesStandStill(count, batchSize, k); }
    }
  }

  /** One piece in batches of none: the loop never ends. */
  lemma EmptyBatchesNeverEnd()
    ensures forall k: nat :: IndexAfter(1, 0, k) < 1
  {
    forall k: nat ensures IndexAfter(1, 0, k) < 1 { BatchesStandStill(1, 0, k); }
  }

  lemma {:induction false} BatchesAdvance(count: int, batchSize: int, k: nat)
    requires 0 < count && batchSize >= 1
    ensures IndexAfter(count, batchSize, k) >= Min(k, count)
  {
    if k > 0 { BatchesAdvance(count, batchSize, k - 1); }
  }

  lemma {:induction false} BatchesStandStill(count: int, batchSize: int, k: nat)
    requires 0 < count && batchSize <= 0
    ensures IndexAfter(count, batchSize, k) <= 0
  {
    if k > 0 { BatchesStandStill(count, batchSize, k - 1); }
  }

  function Max(a: int, b: int): int { if a <= b then b else a }

  class Catalog {
    var pieces: seq<Piece>
    var identifiers: seq<Identifier>

    // One transaction: all rows of the batch, or none when the unique index is violated.
    method Commit(newPieces: seq<Piece>, newRows: seq<Identifier>) returns (ok: bool)
      modifies this
      ensures ok == Distinct(old(identifiers) + newRows)
      ensures pieces == if ok then old(pieces) + newPieces else old(pieces)
      ensures identifiers == if ok then old(identifiers) + newRows else old(identifiers)
    {
      ok := Distinct(identifiers + newRows);
      if ok {
        pieces, identifiers := pieces + newPieces, identifiers + newRows;
      }
    }

    // The inner loop: the rows of one batch, and how many of its pieces go without a code.
    static method Build(d: Draw, used: set<Option<string>>, index: int, size: nat)
      returns (newPieces: seq<Piece>, newRows: seq<Identifier>, without: int)
      ensures newPieces == Pieces(d, index, index + size)
      ensures newRows == Rows(d, used, index, index + size)
      ensures without == Skipped(d, used, index, index + size)
    {
      newPieces, newRows, without := [], [], 0;
      for batch := 0 to size
        invariant newPieces == Pieces(d, index, index + batch)
        invariant newRows == Rows(d, used, index, index + batch)
        invariant without == Skipped(d, used, index, index + batch)
      {
        var number := index + batch + 1;
        newPieces := newPieces + [Piece(d.id(number), number)];
        var rows := [];
        if d.code(number) in used {
          without := without + 1;
        } else {
          rows := [CodeRow(d, number)];
        }
        if d.other(number).Some? {
          rows := rows + [Identifier(d.id(number), Collection, d.other(number).value, false, false)];
        }
        assert rows == RowsOf(d, used, number);
        newRows := newRows + rows;
      }
    }

    // What the first `n` numbers left on top of the rows that were there.
    ghost predicate Holds(d: Draw, used: set<Option<string>>, firstPieces: seq<Piece>, first: seq<Identifier>, n: int)
      requires 0 <= n
      reads this
    {
      && pieces == firstPieces + Pieces(d, 0, n)
      && identifiers == first + Rows(d, used, 0, n)
    }

    // One pass of the outer loop.
    method RunBatch(d: Draw, used: set<Option<string>>, index: int, size: int,
                    ghost firstPieces: seq<Piece>, ghost first: seq<Identifier>)
      returns (ok: bool, without: int)
      requires 0 <= index && 0 <= size
      requires Holds(d, used, firstPieces, first, index)
      modifies this
      ensures Holds(d, used, firstPieces, first, if ok then index + size else index)
      ensures ok <==> Fits(d, used, first, index + size)
      ensures Skipped(d, used, 0, index + size) == Skipped(d, used, 0, index) + without
    {
      var newPieces, newRows;
      newPieces, newRows, without := Build(d, used, index, size);
      OneMoreBatchOfPieces(d, used, firstPieces, index, index + size);
      OneMoreBatch(d, used, first, index, index + size);
      var hi := index + size;
      assert identifiers + newRows == first + Rows(d, used, 0, hi);
      assert pieces + newPieces == firstPieces + Pieces(d, 0, hi);
      ok := Commit(newPieces, newRows);
    }

    // The outer loop.
    method RunBatches(d: Draw, used: set<Option<string>>, count: int, batchSize: int,
                      ghost firstPieces: seq<Piece>, ghost first: seq<Identifier>)
      returns (ok: bool, created: int, skipped: int)
      requires count <= 0 || batchSize >= 1
      requires Holds(d, used, firstPieces, first, 0) && Fits(d, used, first, 0)
      modifies this
      ensures 0 <= created && Holds(d, used, firstPieces, first, created) && Fits(d, used, first, created)
      ensures ok ==> created == Max(0, count) && skipped == Skipped(d, used, 0, created)
      ensures !ok ==> created < count && !Fits(d, used, first, Min(created + batchSize, count))
      ensures exists k: nat :: created == IndexAfter(count, batchSize, k)
    {
      ok, created, skipped := true, 0, 0;
      var index := 0;
      ghost var k: nat := 0;
      while index < count
        invariant 0 <= index <= Max(0, count)
        invariant ok && created == index == IndexAfter(count, batchSize, k)
        invariant Holds(d, used, firstPieces, first, index)
        invariant skipped == Skipped(d, used, 0, index)
        invariant Fits(d, used, first, index)
      {
        var size := Min(batchSize, count - index);
        var without;
        ok, without := RunBatch(d, used, index, size, firstPieces, first);
        skipped := skipped + without;
        if !ok {
          return;
        }
        created := created + size;
        index := index + size;
        k := k + 1;
      }
    }

    // `ok` is false when a commit was refused; `created` then counts the pieces of the batches before it.
    method Generate(d: Draw, count: int, batchSize: int, clean: bool) returns (ok: bool, created: int, skipped: int)
      requires count <= 0 || batchSize >= 1
      requires clean || Distinct(identifiers)
      modifies this
      ensures 0 <= created && Distinct(identifiers)
      ensures var first := if clean then [] else old(pieces);
              pieces == first + Pieces(d, 0, created)
      ensures var first := if clean then [] else old(identifiers);
              && identifiers == first + Rows(d, InUse(first), 0, created)
              && Injective(d, InUse(first), created)
              && (ok <==> Injective(d, InUse(first), count))
              && (ok ==> created == (if count > 0 then count else 0) && skipped == Skipped(d, InUse(first), 0, created))
              && (!ok ==> created < count
                          && !Injective(d, InUse(first), if created + batchSize <= count then created + batchSize else count))
      ensures exists k: nat :: created == IndexAfter(count, batchSize, k)
    {
      if clean {
        pieces, identifiers := [], [];
      }
      ghost var firstPieces, first := pieces, identifiers;
      var used := InUse(identifiers);
      assert first + [] == first && firstPieces + [] == firstPieces;
      ok, created, skipped := RunBatches(d, used, count, batchSize, firstPieces, first);
      if ok {
        Outcome(d, first, created, created, created);
      } else {
        Outcome(d, first, created, Min(created + batchSize, count), count);
      }
    }
  }

  // The rows of the first `n` numbers pass the unique index.
  ghost predicate Fits(d: Draw, used: set<Option<string>>, first: seq<Identifier>, n: int)
    requires 0 <= n
  {
    Distinct(first + Rows(d, used, 0, n))
  }

  // Where the run stands, in terms of the codes alone.
  lemma Outcome(d: Draw, first: seq<Identifier>, stored: int, tried: int, count: int)
    requires Distinct(first) && 0 <= stored <= tried <= count && Fits(d, InUse(first), first, stored)
    ensures Distinct(first + Rows(d, InUse(first), 0, stored))
    ensures Injective(d, InUse(first), stored)
    ensures !Fits(d, InUse(first), first, tried)
            ==> !Injective(d, InUse(first), tried) && !Injective(d, InUse(first), count)
  {
    DistinctExactlyWhenInjective(first, d, stored);
    DistinctExactlyWhenInjective(first, d, tried);
  }

  lemma OneMoreBatch(d: Draw, used: set<Option<string>>, first: seq<Identifier>, lo: int, hi: int)
    requires 0 <= lo <= hi
    ensures (first + Rows(d, used, 0, lo)) + Rows(d, used, lo, hi) == first + Rows(d, used, 0, hi)
  {
    RangesJoin(d, used, 0, lo, hi);
    Assoc(first, Rows(d, used, 0, lo), Rows(d, used, lo, hi));
  }

  lemma OneMoreBatchOfPieces(d: Draw, used: set<Option<string>>, first: seq<Piece>, lo: int, hi: int)
    requires 0 <= lo <= hi
    ensures (first + Pieces(d, 0, lo)) + Pieces(d, lo, hi) == first + Pieces(d, 0, hi)
    ensures Skipped(d, used, 0, hi) == Skipped(d, used, 0, lo) + Skipped(d, used, lo, hi)
  {
    RangesJoin(d, used, 0, lo, hi);
    Assoc(first, Pieces(d, 0, lo), Pieces(d, lo, hi));
  }
}
