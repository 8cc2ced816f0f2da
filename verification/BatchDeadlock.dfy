/**
Batches that wait for each other. A batch locks its pieces in the order of its request, so batches with common pieces in
opposite orders may block each other. This module says which requests can, exactly, and that nothing but the end of
one of them by the database lets the others go on.
*/
module BatchDeadlock {
  import opened Common
  import opened BatchMovement
  import opened BatchProtocol
  import opened BatchRuns

  // The piece whose lock a request is asking for.
  function Wanted(txn: Txn): PieceId
    requires txn.Fetched? && txn.n < |txn.req.body.items|
  {
    txn.req.body.items[txn.n].piece
  }

  ghost predicate Waits(s: Sys, t: Tid) {
    && t in s.txns && s.txns[t].Fetched? && s.txns[t].n < |s.txns[t].req.body.items|
    && Wanted(s.txns[t]) in s.locks
  }

  ghost function Holder(s: Sys, t: Tid): Tid
    requires Waits(s, t)
  {
    s.locks[Wanted(s.txns[t])]
  }

  // Each of these requests waits for a lock that one of them has.
  ghost predicate Blocked(s: Sys, ts: set<Tid>) {
    ts != {} && forall t {:trigger WaitsAmong(s, ts, t)} :: t in ts ==> WaitsAmong(s, ts, t)
  }

  ghost predicate WaitsAmong(s: Sys, ts: set<Tid>, t: Tid) { Waits(s, t) && Holder(s, t) in ts }

  lemma WaiterStays(s: Sys, a: Action, s': Sys, t: Tid)
    requires a != Crash(t) && Waits(s, t) && Step(s, a, s')
    ensures t in s'.txns && s'.txns[t] == s.txns[t]
  {
  }

  lemma LockOfWaiterStays(s: Sys, a: Action, s': Sys, p: PieceId)
    requires p in s.locks && a != Crash(s.locks[p]) && Waits(s, s.locks[p]) && Step(s, a, s')
    ensures p in s'.locks && s'.locks[p] == s.locks[p]
  {
  }

  lemma OneStays(s: Sys, a: Action, s': Sys, t: Tid)
    requires Waits(s, t) && Waits(s, Holder(s, t)) && a != Crash(t) && a != Crash(Holder(s, t)) && Step(s, a, s')
    ensures t in s'.txns && s'.txns[t] == s.txns[t] && Waits(s', t) && Holder(s', t) == Holder(s, t)
  {
    WaiterStays(s, a, s', t);
    LockOfWaiterStays(s, a, s', Wanted(s.txns[t]));
  }

  // What one member keeps.
  ghost predicate Kept(s: Sys, s': Sys, t: Tid) {
    Waits(s, t) && Waits(s', t) && s'.txns[t] == s.txns[t] && Holder(s', t) == Holder(s, t)
  }

  lemma MembersKept(s: Sys, s': Sys, ts: set<Tid>)
    requires Blocked(s, ts) && forall t {:trigger Kept(s, s', t)} :: t in ts ==> Kept(s, s', t)
    ensures Blocked(s', ts) && forall t :: t in ts ==> t in s.txns && t in s'.txns && s'.txns[t] == s.txns[t]
  {
    forall t {:trigger WaitsAmong(s', ts, t)} | t in ts ensures WaitsAmong(s', ts, t) {
      assert WaitsAmong(s, ts, t) && Kept(s, s', t);
    }
    forall t | t in ts ensures t in s.txns && t in s'.txns && s'.txns[t] == s.txns[t] { assert Kept(s, s', t); }
  }

  /** Requests that block each other stay blocked, whatever anyone else does, until one of them is ended. */
  lemma BlockedStaysBlocked(s: Sys, a: Action, s': Sys, ts: set<Tid>)
    requires (forall t :: t in ts ==> a != Crash(t)) && Blocked(s, ts) && Step(s, a, s')
    ensures Blocked(s', ts) && forall t :: t in ts ==> t in s.txns && t in s'.txns && s'.txns[t] == s.txns[t]
  {
    forall t {:trigger Kept(s, s', t)} | t in ts ensures Kept(s, s', t) {
      assert WaitsAmong(s, ts, t);
      assert WaitsAmong(s, ts, Holder(s, t));
      OneStays(s, a, s', t);
    }
    MembersKept(s, s', ts);
  }

  lemma {:induction false} BlockedForGood(ss: seq<Sys>, acts: seq<Action>, i: nat, j: nat, ts: set<Tid>)
    requires Run(ss, acts) && i <= j < |ss| && Blocked(ss[i], ts)
    requires forall k, t :: i <= k < j && t in ts ==> acts[k] != Crash(t)
    ensures Blocked(ss[j], ts)
    ensures forall t :: t in ts ==> t in ss[i].txns && t in ss[j].txns && ss[j].txns[t] == ss[i].txns[t]
    decreases j
  {
    if i == j {
      forall t | t in ts ensures t in ss[i].txns { assert WaitsAmong(ss[i], ts, t); }
    } else {
      BlockedForGood(ss, acts, i, j - 1, ts);
      assert Step(ss[j - 1], acts[j - 1], ss[j]);
      BlockedStaysBlocked(ss[j - 1], acts[j - 1], ss[j], ts);
    }
  }

  // ---------------------------------------------------------------------- what blocked requests look like

  // In this request the first `p` comes before the first `q`.
  ghost predicate Before(items: seq<Item>, p: PieceId, q: PieceId) {
    exists j :: 0 <= j < |items| && items[j].piece == q && q !in PiecesOf(items[..j]) && p in PiecesOf(items[..j])
  }

  /** Requests that can block each other: one piece of each, all different, such that every request asks for the piece
      of another one after its own. */
  ghost predicate Tangled(reqs: map<Tid, Request>, pieces: set<PieceId>, hold: map<Tid, PieceId>) {
    && hold != map[] && hold.Keys <= reqs.Keys
    && (forall t, u :: t in hold && u in hold && t != u ==> hold[t] != hold[u])
    && (forall t :: t in hold ==> WellFormed(reqs[t].body) && hold[t] in pieces)
    && (forall t {:trigger AsksForNext(reqs, hold, t)} :: t in hold ==> AsksForNext(reqs, hold, t))
  }

  ghost predicate AsksForNext(reqs: map<Tid, Request>, hold: map<Tid, PieceId>, t: Tid)
    requires t in hold && t in reqs
  {
    exists u :: u in hold && Before(reqs[t].body.items, hold[t], hold[u])
  }

  ghost predicate TxnLocks(s: Sys, txn: Txn) {
    txn.Working? || txn.Fetched? ==>
      && txn.n <= |txn.req.body.items| && WellFormed(txn.req.body)
      && (forall p :: p in txn.locked ==> p in s.data.pieces && p in PiecesOf(txn.req.body.items[..txn.n]))
      && (txn.Fetched? ==> txn.n < |txn.req.body.items| && Wanted(txn) !in PiecesOf(txn.req.body.items[..txn.n]))
  }

  ghost predicate LockInv(s: Sys) {
    && (forall p :: p in s.locks ==> Holds(s, s.locks[p], p))
    && (forall t :: t in s.txns ==> TxnLocks(s, s.txns[t]))
  }

  lemma StepKeepsPieces(s: Sys, a: Action, s': Sys)
    requires Step(s, a, s')
    ensures s'.data.pieces.Keys == s.data.pieces.Keys
  {
  }

  lemma LookupKeepsTxnLocks(s: Sys, s': Sys, t: Tid)
    requires Step(s, Lookup(t), s')
    ensures TxnLocks(s', s'.txns[t])
  {
  }

  lemma FetchKeepsTxnLocks(s: Sys, s': Sys, t: Tid)
    requires t in s.txns && TxnLocks(s, s.txns[t]) && Step(s, Fetch(t), s')
    ensures TxnLocks(s', s'.txns[t])
  {
    OneMorePiece(s.txns[t].req.body.items, s.txns[t].n);
  }

  lemma LockKeepsTxnLocks(s: Sys, s': Sys, t: Tid)
    requires t in s.txns && TxnLocks(s, s.txns[t]) && Step(s, Lock(t), s')
    ensures TxnLocks(s', s'.txns[t])
  {
    OneMorePiece(s.txns[t].req.body.items, s.txns[t].n);
  }

  lemma StepKeepsTxnLocks(s: Sys, a: Action, s': Sys, t: Tid)
    requires LockInv(s) && Step(s, a, s') && t in s'.txns
    ensures TxnLocks(s', s'.txns[t])
  {
    StepKeepsPieces(s, a, s');
    StandsStill(s, a, s', t);
    if t in s.txns { assert TxnLocks(s, s.txns[t]); }
    if a == Lookup(t) {
      LookupKeepsTxnLocks(s, s', t);
    } else if a == Fetch(t) {
      FetchKeepsTxnLocks(s, s', t);
    } else if a == Lock(t) {
      LockKeepsTxnLocks(s, s', t);
    }
  }

  // A lock that stands was there, or this step granted it; and its holder did not end.
  lemma OneLock(s: Sys, a: Action, s': Sys, p: PieceId)
    requires Step(s, a, s') && p in s'.locks
    ensures (p in s.locks && s.locks[p] == s'.locks[p]) || (p !in s.locks && a == Lock(s'.locks[p]))
    ensures p in s.locks && s.locks[p] == s'.locks[p] && Holds(s, s.locks[p], p) ==> Holds(s', s'.locks[p], p)
    ensures p !in s.locks ==> Holds(s', s'.locks[p], p)
  {
  }

  lemma StepKeepsHolders(s: Sys, a: Action, s': Sys, p: PieceId)
    requires LockInv(s) && Step(s, a, s') && p in s'.locks
    ensures Holds(s', s'.locks[p], p)
  {
    OneLock(s, a, s', p);
    if p in s.locks { assert Holds(s, s.locks[p], p); }
  }

  lemma {:induction false} RunKeepsLockInv(ss: seq<Sys>, acts: seq<Action>, i: nat)
    requires Run(ss, acts) && i < |ss|
    ensures LockInv(ss[i]) && ss[i].data.pieces.Keys == ss[0].data.pieces.Keys
  {
    if i > 0 {
      RunKeepsLockInv(ss, acts, i - 1);
      var s, a, s' := ss[i - 1], acts[i - 1], ss[i];
      assert Step(s, a, s');
      StepKeepsPieces(s, a, s');
      forall t | t in s'.txns ensures TxnLocks(s', s'.txns[t]) { StepKeepsTxnLocks(s, a, s', t); }
      forall p | p in s'.locks ensures Holds(s', s'.locks[p], p) { StepKeepsHolders(s, a, s', p); }
    }
  }

  // ---------------------------------------------------------------------- blocked requests are tangled

  function Image(f: map<Tid, Tid>, ts: set<Tid>): set<Tid>
    requires ts <= f.Keys
  {
    set t | t in ts :: f[t]
  }

  lemma {:induction false} ImageSize(f: map<Tid, Tid>, ts: set<Tid>)
    requires ts <= f.Keys
    ensures |Image(f, ts)| <= |ts|
  {
    if t :| t in ts {
      ImageSize(f, ts - {t});
      assert Image(f, ts) == Image(f, ts - {t}) + {f[t]};
    } else {
      assert Image(f, ts) == {};
    }
  }

  lemma ImageWithout(f: map<Tid, Tid>, ts: set<Tid>, t: Tid, u: Tid)
    requires ts <= f.Keys && t in ts && u in ts && t != u && f[t] == f[u]
    ensures Image(f, ts - {t}) == Image(f, ts)
  {
    assert f[t] in Image(f, ts - {t}) by { assert f[u] == f[t]; }
  }

  lemma OneToOne(f: map<Tid, Tid>, ts: set<Tid>, t: Tid, u: Tid)
    requires ts <= f.Keys && |Image(f, ts)| == |ts| && t in ts && u in ts && f[t] == f[u]
    ensures t == u
  {
    if t != u {
      ImageWithout(f, ts, t, u);
      ImageSize(f, ts - {t});
    }
  }

  lemma {:induction false} Askers(f: map<Tid, Tid>, ts: set<Tid>, todo: set<Tid>) returns (asker: map<Tid, Tid>)
    requires ts <= f.Keys && todo <= Image(f, ts)
    ensures asker.Keys == todo
    ensures forall u {:trigger asker[u]} :: u in todo ==> asker[u] in ts && f[asker[u]] == u
    decreases todo
  {
    if u :| u in todo {
      var rest := Askers(f, ts, todo - {u});
      var t :| t in ts && f[t] == u;
      asker := rest[u := t];
    } else {
      asker := map[];
    }
  }

  // `f` maps these onto themselves, and `asker` maps them back.
  ghost predicate Cycles(f: map<Tid, Tid>, ts: set<Tid>, asker: map<Tid, Tid>) {
    && ts != {} && ts <= f.Keys && asker.Keys == ts
    && (forall t {:trigger f[t]} :: t in ts ==> f[t] in ts && asker[f[t]] == t)
    && (forall u {:trigger asker[u]} :: u in ts ==> asker[u] in ts && f[asker[u]] == u)
  }

  lemma OntoCycles(f: map<Tid, Tid>, ts: set<Tid>, asker: map<Tid, Tid>)
    requires ts != {} && ts <= f.Keys && |Image(f, ts)| == |ts| && asker.Keys == ts
    requires forall t {:trigger f[t]} :: t in ts ==> f[t] in ts
    requires forall u {:trigger asker[u]} :: u in ts ==> asker[u] in ts && f[asker[u]] == u
    ensures Cycles(f, ts, asker)
  {
    forall t | t in ts ensures asker[f[t]] == t {
      OneToOne(f, ts, asker[f[t]], t);
    }
  }

  ghost predicate Closed(f: map<Tid, Tid>, ts: set<Tid>) {
    ts <= f.Keys && forall t {:trigger f[t]} :: t in ts ==> f[t] in ts
  }

  lemma ImageInside(f: map<Tid, Tid>, ts: set<Tid>)
    requires Closed(f, ts)
    ensures Image(f, ts) <= ts && Closed(f, Image(f, ts))
  {
  }

  lemma AllAskers(f: map<Tid, Tid>, ts: set<Tid>) returns (asker: map<Tid, Tid>)
    requires Closed(f, ts) && |Image(f, ts)| == |ts|
    ensures asker.Keys == ts
    ensures forall u {:trigger asker[u]} :: u in ts ==> asker[u] in ts && f[asker[u]] == u
  {
    ImageInside(f, ts);
    SameSizeSubset(Image(f, ts), ts);
    asker := Askers(f, ts, ts);
  }

  lemma SmallerImage(f: map<Tid, Tid>, ts: set<Tid>)
    requires ts != {} && Closed(f, ts) && |Image(f, ts)| != |ts|
    ensures Image(f, ts) != {} && Image(f, ts) <= ts && Closed(f, Image(f, ts)) && |Image(f, ts)| < |ts|
  {
    ImageInside(f, ts);
    ImageSize(f, ts);
    var t :| t in ts;
    assert f[t] in Image(f, ts);
  }

  // Following `f` for long enough leaves a part that it maps onto itself.
  lemma {:induction false} Core(f: map<Tid, Tid>, ts: set<Tid>) returns (core: set<Tid>, asker: map<Tid, Tid>)
    requires ts != {} && Closed(f, ts)
    ensures core <= ts && Cycles(f, core, asker)
    decreases |ts|
  {
    if |Image(f, ts)| == |ts| {
      core := ts;
      asker := AllAskers(f, ts);
      OntoCycles(f, ts, asker);
    } else {
      SmallerImage(f, ts);
      core, asker := Core(f, Image(f, ts));
    }
  }

  ghost function RequestsOf(s: Sys, ts: set<Tid>): map<Tid, Request> {
    map t | t in ts && t in s.txns :: s.txns[t].req
  }

  lemma WaiterComesAfter(s: Sys, t: Tid, p: PieceId)
    requires LockInv(s) && Waits(s, t) && Holds(s, t, p)
    ensures Before(s.txns[t].req.body.items, p, Wanted(s.txns[t]))
    ensures WellFormed(s.txns[t].req.body) && p in s.data.pieces
  {
    assert TxnLocks(s, s.txns[t]);
  }

  /** In every state of every run, requests that block each other are tangled. So a set of requests in which no such
      choice of pieces exists never blocks, whatever else runs. */
  lemma BlockedRequestsAreTangled(ss: seq<Sys>, acts: seq<Action>, i: nat, ts: set<Tid>) returns (hold: map<Tid, PieceId>)
    requires Run(ss, acts) && i < |ss| && Blocked(ss[i], ts)
    ensures hold.Keys <= ts && Tangled(RequestsOf(ss[i], ts), ss[0].data.pieces.Keys, hold)
  {
    RunKeepsLockInv(ss, acts, i);
    hold := TangleOf(ss[i], ts);
  }

  lemma TangleOf(s: Sys, ts: set<Tid>) returns (hold: map<Tid, PieceId>)
    requires LockInv(s) && Blocked(s, ts)
    ensures hold.Keys <= ts && Tangled(RequestsOf(s, ts), s.data.pieces.Keys, hold)
  {
    var f, want := Holders(s, ts);
    var core, asker := Core(f, ts);
    hold := map u | u in core :: want[asker[u]];
    forall t {:trigger HoldsForNext(s, f, core, hold, t)} | t in core ensures HoldsForNext(s, f, core, hold, t) {
      assert t in ts && asker[t] in ts;
      assert Follows(s, ts, f, want, t) && Follows(s, ts, f, want, asker[t]);
      assert asker[f[t]] == t;
    }
    TangleFromCore(s, ts, f, core, hold);
  }

  // `t` waits for a piece that `f[t]` has.
  ghost predicate Follows(s: Sys, ts: set<Tid>, f: map<Tid, Tid>, want: map<Tid, PieceId>, t: Tid) {
    && t in f && t in want && f[t] in ts && Waits(s, t)
    && want[t] == Wanted(s.txns[t]) && want[t] in s.locks && s.locks[want[t]] == f[t]
  }

  ghost function HoldersOf(s: Sys, ts: set<Tid>): map<Tid, Tid> { map t | t in ts && Waits(s, t) :: Holder(s, t) }

  ghost function WantsOf(s: Sys, ts: set<Tid>): map<Tid, PieceId> { map t | t in ts && Waits(s, t) :: Wanted(s.txns[t]) }

  lemma OneFollows(s: Sys, ts: set<Tid>, t: Tid)
    requires t in ts && Waits(s, t) && Holder(s, t) in ts
    ensures Follows(s, ts, HoldersOf(s, ts), WantsOf(s, ts), t)
  {
  }

  lemma Holders(s: Sys, ts: set<Tid>) returns (f: map<Tid, Tid>, want: map<Tid, PieceId>)
    requires Blocked(s, ts)
    ensures f.Keys == want.Keys == ts && Closed(f, ts)
    ensures forall t {:trigger Follows(s, ts, f, want, t)} :: t in ts ==> Follows(s, ts, f, want, t)
  {
    f, want := HoldersOf(s, ts), WantsOf(s, ts);
    forall t {:trigger Follows(s, ts, f, want, t)} | t in ts ensures Follows(s, ts, f, want, t) {
      assert WaitsAmong(s, ts, t);
      OneFollows(s, ts, t);
    }
    assert f.Keys == ts && want.Keys == ts by {
      forall t | t in ts ensures t in f && t in want { assert Follows(s, ts, f, want, t); }
    }
    forall t {:trigger f[t]} | t in ts ensures f[t] in ts { assert Follows(s, ts, f, want, t); }
  }

  // `t` has its piece, and waits for the one of `f[t]`.
  ghost predicate HoldsForNext(s: Sys, f: map<Tid, Tid>, core: set<Tid>, hold: map<Tid, PieceId>, t: Tid) {
    && t in f && f[t] in core && f[t] in hold && t in hold && Waits(s, t)
    && hold[f[t]] == Wanted(s.txns[t]) && hold[t] in s.locks && s.locks[hold[t]] == t
  }

  lemma TangleFromCore(s: Sys, ts: set<Tid>, f: map<Tid, Tid>, core: set<Tid>, hold: map<Tid, PieceId>)
    requires LockInv(s) && core != {} && core <= ts && hold.Keys == core
    requires forall t {:trigger HoldsForNext(s, f, core, hold, t)} :: t in core ==> HoldsForNext(s, f, core, hold, t)
    ensures Tangled(RequestsOf(s, ts), s.data.pieces.Keys, hold)
  {
    var reqs := RequestsOf(s, ts);
    forall t, u | t in hold && u in hold && t != u ensures hold[t] != hold[u] {
      assert HoldsForNext(s, f, core, hold, t) && HoldsForNext(s, f, core, hold, u);
    }
    forall t | t in hold
      ensures t in reqs && WellFormed(reqs[t].body) && hold[t] in s.data.pieces && AsksForNext(reqs, hold, t)
    {
      assert HoldsForNext(s, f, core, hold, t);
      assert Holds(s, s.locks[hold[t]], hold[t]);
      WaiterComesAfter(s, t, hold[t]);
    }
    var t :| t in core;
    assert t in hold;
  }

  // ---------------------------------------------------------------------- an order that keeps batches from blocking

  // The pieces of every request are in ascending order of `rank`, where one first occurs.
  ghost predicate InOrder(reqs: map<Tid, Request>, rank: PieceId -> int) {
    forall t, p, q :: t in reqs && Before(reqs[t].body.items, p, q) ==> rank(p) < rank(q)
  }

  lemma {:induction false} Highest(hold: map<Tid, PieceId>, ts: set<Tid>, rank: PieceId -> int) returns (top: Tid)
    requires ts != {} && ts <= hold.Keys
    ensures top in ts && forall t :: t in ts ==> rank(hold[t]) <= rank(hold[top])
    decreases ts
  {
    top :| top in ts;
    if ts != {top} {
      var other := Highest(hold, ts - {top}, rank);
      if rank(hold[other]) > rank(hold[top]) { top := other; }
    }
  }

  lemma OrderedIsNotTangled(reqs: map<Tid, Request>, pieces: set<PieceId>, rank: PieceId -> int, hold: map<Tid, PieceId>)
    requires InOrder(reqs, rank)
    ensures !Tangled(reqs, pieces, hold)
  {
    if hold != map[] && hold.Keys <= reqs.Keys {
      var any :| any in hold;
      var top := Highest(hold, hold.Keys, rank);
      assert !AsksForNext(reqs, hold, top);
    }
  }

  /** Requests that name their pieces in one common order never block each other. */
  lemma OneOrderNeverBlocks(ss: seq<Sys>, acts: seq<Action>, i: nat, ts: set<Tid>, rank: PieceId -> int)
    requires Run(ss, acts) && i < |ss| && InOrder(RequestsOf(ss[i], ts), rank)
    ensures !Blocked(ss[i], ts)
  {
    if Blocked(ss[i], ts) {
      var hold := BlockedRequestsAreTangled(ss, acts, i, ts);
      OrderedIsNotTangled(RequestsOf(ss[i], ts), ss[0].data.pieces.Keys, rank, hold);
    }
  }

  // ---------------------------------------------------------------------- tangled requests can block each other

  // Other writers open the destinations and delete or restore pieces.

  function Opened(locations: map<LocationId, Location>, ls: set<LocationId>): map<LocationId, Location> {
    locations + map l | l in ls :: OPEN
  }

  lemma {:induction false} OpenAll(start: Sys, s: Sys, ls: set<LocationId>) returns (s': Sys)
    requires Reaches(start, s)
    ensures Reaches(start, s') && s' == s.(data := s.data.(locations := Opened(s.data.locations, ls)))
    decreases ls
  {
    if l :| l in ls {
      var next := s.(data := s.data.(locations := s.data.locations[l := OPEN]));
      ReachesNext(start, s, WriteLocation(l, OPEN), next);
      s' := OpenAll(start, next, ls - {l});
      assert Opened(next.data.locations, ls - {l}) == Opened(s.data.locations, ls);
    } else {
      s' := s;
      assert Opened(s.data.locations, ls) == s.data.locations;
    }
  }

  function Marked(pieces: map<PieceId, Piece>, ps: set<PieceId>, deleted: bool): map<PieceId, Piece> {
    map p | p in pieces :: if p in ps then MarkedPiece(pieces[p], deleted) else pieces[p]
  }

  function MarkedPiece(piece: Piece, deleted: bool): Piece { piece.(deleted := deleted, version := piece.version + 1) }

  lemma {:induction false} MarkAll(start: Sys, s: Sys, ps: set<PieceId>, deleted: bool) returns (s': Sys)
    requires Reaches(start, s) && s.locks == map[] && ps <= s.data.pieces.Keys
    ensures Reaches(start, s') && s' == s.(data := s.data.(pieces := Marked(s.data.pieces, ps, deleted)))
    decreases ps
  {
    if p :| p in ps {
      var piece := MarkedPiece(s.data.pieces[p], deleted);
      var next := s.(data := s.data.(pieces := s.data.pieces[p := piece]));
      ReachesNext(start, s, WritePiece(p, piece), next);
      s' := MarkAll(start, next, ps - {p}, deleted);
      assert Marked(next.data.pieces, ps - {p}, deleted) == Marked(s.data.pieces, ps, deleted);
    } else {
      s' := s;
      assert Marked(s.data.pieces, ps, deleted) == s.data.pieces;
    }
  }

  // All of them move on, one after another.

  // Where a piece first occurs in a request.
  function First(items: seq<Item>, p: PieceId): (j: nat)
    requires p in PiecesOf(items)
    ensures j < |items| && items[j].piece == p && p !in PiecesOf(items[..j])
  {
    if p in PiecesOf(items[..|items| - 1]) then
      var j := First(items[..|items| - 1], p);
      assert items[..|items| - 1][..j] == items[..j];
      j
    else
      assert exists i :: 0 <= i < |items| && items[i].piece == p;
      assert forall i :: 0 <= i < |items| - 1 ==> items[..|items| - 1][i] == items[i];
      |items| - 1
  }

  // The choice of pieces, and requests to choose from.
  datatype Plan = Plan(reqs: map<Tid, Request>, hold: map<Tid, PieceId>) {
    ghost predicate Valid() {
      forall t :: t in hold ==> t in reqs && hold[t] in PiecesOf(reqs[t].body.items) && WellFormed(reqs[t].body)
    }

    ghost function Place(t: Tid): nat
      requires Valid() && t in hold
    {
      First(reqs[t].body.items, hold[t])
    }
  }

  // At its piece; past its piece, with the lock; waiting for one of the others.
  ghost predicate Entered(plan: Plan, s: Sys, t: Tid) {
    plan.Valid() && t in plan.hold && t in s.txns && s.txns[t].Working? && s.txns[t].req == plan.reqs[t]
    && s.txns[t].n == plan.Place(t)
  }

  ghost predicate Took(plan: Plan, s: Sys, t: Tid) {
    plan.Valid() && t in plan.hold && t in s.txns && s.txns[t].Working? && s.txns[t].req == plan.reqs[t]
    && s.txns[t].n == plan.Place(t) + 1
  }

  ghost predicate Stuck(plan: Plan, s: Sys, t: Tid) {
    plan.Valid() && t in plan.hold && Waits(s, t) && s.txns[t].req == plan.reqs[t] && Holder(s, t) in plan.hold
  }

  // The other requests are where they were.
  ghost predicate SameBut(s: Sys, s': Sys, ts: set<Tid>) {
    forall t :: t !in ts ==> (t in s'.txns <==> t in s.txns) && (t in s.txns ==> s'.txns[t] == s.txns[t])
  }

  lemma EnterOne(start: Sys, s: Sys, plan: Plan, t: Tid) returns (s': Sys)
    requires Reaches(start, s) && plan.Valid() && t in plan.hold && MayEnter(s, t, plan.reqs[t])
    requires forall p :: p in s.data.pieces ==> s.data.pieces[p].deleted
    ensures Reaches(start, s') && Entered(plan, s', t) && s' == s.(txns := s'.txns) && SameBut(s, s', {t})
  {
    var items := plan.reqs[t].body.items;
    var next := Enter(start, s, t, plan.reqs[t]);
    forall i | 0 <= i < plan.Place(t) ensures Skips(next, items, i) {}
    s' := SkipTo(start, next, t, plan.Place(t));
  }

  lemma {:induction false} EnterAll(start: Sys, s: Sys, plan: Plan, todo: set<Tid>) returns (s': Sys)
    requires Reaches(start, s) && plan.Valid() && todo <= plan.hold.Keys
    requires forall t :: t in todo ==> MayEnter(s, t, plan.reqs[t])
    requires forall p :: p in s.data.pieces ==> s.data.pieces[p].deleted
    ensures Reaches(start, s') && s' == s.(txns := s'.txns) && SameBut(s, s', todo)
    ensures forall t :: t in todo ==> Entered(plan, s', t)
    decreases todo
  {
    if t :| t in todo {
      var next := EnterOne(start, s, plan, t);
      s' := EnterAll(start, next, plan, todo - {t});
    } else {
      s' := s;
    }
  }

  lemma TakeOne(start: Sys, s: Sys, plan: Plan, t: Tid) returns (s': Sys)
    requires Reaches(start, s) && Entered(plan, s, t)
    requires plan.hold[t] in s.data.pieces && !s.data.pieces[plan.hold[t]].deleted && plan.hold[t] !in s.locks
    ensures Reaches(start, s') && Took(plan, s', t) && SameBut(s, s', {t})
    ensures s' == s.(txns := s'.txns, locks := s.locks[plan.hold[t] := t])
  {
    s' := Take(start, s, t);
  }

  // Everyone's piece is there to take, by them only.
  ghost predicate Free(plan: Plan, s: Sys, todo: set<Tid>) {
    forall t :: t in todo ==>
      t in plan.hold && plan.hold[t] in s.data.pieces && !s.data.pieces[plan.hold[t]].deleted && plan.hold[t] !in s.locks
  }

  ghost predicate Different(plan: Plan) {
    forall t, u :: t in plan.hold && u in plan.hold && t != u ==> plan.hold[t] != plan.hold[u]
  }

  lemma TookOneMore(plan: Plan, s: Sys, s': Sys, t: Tid, todo: set<Tid>)
    requires Took(plan, s, t) && SameBut(s, s', todo - {t})
    requires forall u {:trigger Took(plan, s', u)} :: u in todo - {t} ==> Took(plan, s', u)
    ensures forall u {:trigger Took(plan, s', u)} :: u in todo ==> Took(plan, s', u)
  {
  }

  lemma {:induction false} TakeAll(start: Sys, s: Sys, plan: Plan, todo: set<Tid>) returns (s': Sys)
    requires Reaches(start, s) && Different(plan) && Free(plan, s, todo)
    requires forall t {:trigger Entered(plan, s, t)} :: t in todo ==> Entered(plan, s, t)
    ensures Reaches(start, s') && s' == s.(txns := s'.txns, locks := s'.locks) && SameBut(s, s', todo)
    ensures forall t {:trigger Took(plan, s', t)} :: t in todo ==> Took(plan, s', t)
    ensures forall t :: t in todo ==> plan.hold[t] in s'.locks && s'.locks[plan.hold[t]] == t
    ensures forall p :: p in s.locks ==> p in s'.locks && s'.locks[p] == s.locks[p]
    decreases todo
  {
    if t :| t in todo {
      var next := TakeOne(start, s, plan, t);
      forall u {:trigger Entered(plan, next, u)} | u in todo - {t} ensures Entered(plan, next, u) {
        assert Entered(plan, s, u);
      }
      assert Free(plan, next, todo - {t});
      s' := TakeAll(start, next, plan, todo - {t});
      TookOneMore(plan, next, s', t, todo);
    } else {
      s' := s;
    }
  }

  // Each of the pieces is locked by the request that it was chosen for, and the others are deleted.
  ghost predicate OnlyHeld(plan: Plan, s: Sys) {
    && (forall t :: t in plan.hold ==> plan.hold[t] in s.locks && s.locks[plan.hold[t]] == t && plan.hold[t] in s.data.pieces
                                       && !s.data.pieces[plan.hold[t]].deleted)
    && (forall p :: p in s.data.pieces && !s.data.pieces[p].deleted ==> p in s.locks && s.locks[p] in plan.hold)
  }

  // From where it stands, the request runs into the lock of another one by item `j` at the latest.
  lemma {:induction false} RunInto(start: Sys, s: Sys, t: Tid, j: nat) returns (s': Sys)
    requires Reaches(start, s) && t in s.txns && s.txns[t].Working? && s.txns[t].n <= j < |s.txns[t].req.body.items|
    requires !Skips(s, s.txns[t].req.body.items, j)
    ensures Reaches(start, s') && t in s'.txns && s'.txns[t].Fetched? && s' == s.(txns := s.txns[t := s'.txns[t]])
    ensures s'.txns[t].req == s.txns[t].req && s'.txns[t].n <= j
    ensures !Skips(s', s'.txns[t].req.body.items, s'.txns[t].n)
    decreases j - s.txns[t].n
  {
    if Skips(s, s.txns[t].req.body.items, s.txns[t].n) {
      var next := SkipOne(s, t);
      ReachesNext(start, s, Fetch(t), next);
      s' := RunInto(start, next, t, j);
    } else {
      s' := AskOne(s, t);
      ReachesNext(start, s, Fetch(t), s');
    }
  }

  lemma StickOne(start: Sys, s: Sys, plan: Plan, t: Tid) returns (s': Sys)
    requires Reaches(start, s) && Took(plan, s, t) && OnlyHeld(plan, s)
    requires AsksForNext(plan.reqs, plan.hold, t)
    ensures Reaches(start, s') && Stuck(plan, s', t) && s' == s.(txns := s'.txns) && SameBut(s, s', {t})
  {
    var items := plan.reqs[t].body.items;
    var u :| u in plan.hold && Before(items, plan.hold[t], plan.hold[u]);
    var j :| 0 <= j < |items| && items[j].piece == plan.hold[u] && plan.hold[u] !in PiecesOf(items[..j])
             && plan.hold[t] in PiecesOf(items[..j]);
    FirstIsEarly(items, plan.hold[t], j);
    s' := RunInto(start, s, t, j);
    AskerIsStuck(plan, s', t);
  }

  lemma AskerIsStuck(plan: Plan, s: Sys, t: Tid)
    requires plan.Valid() && t in plan.hold && OnlyHeld(plan, s) && t in s.txns && s.txns[t].Fetched?
    requires s.txns[t].req == plan.reqs[t] && s.txns[t].n < |s.txns[t].req.body.items|
    requires !Skips(s, s.txns[t].req.body.items, s.txns[t].n)
    ensures Stuck(plan, s, t)
  {
  }

  lemma FirstIsEarly(items: seq<Item>, p: PieceId, j: nat)
    requires j <= |items| && p in PiecesOf(items[..j])
    ensures p in PiecesOf(items) && First(items, p) < j
  {
    var i :| 0 <= i < j && items[..j][i].piece == p;
    assert items[i].piece == p;
    forall k | j <= k <= |items| ensures p in PiecesOf(items[..k]) { assert items[..k][i].piece == p; }
  }

  lemma {:induction false} StickAll(start: Sys, s: Sys, plan: Plan, todo: set<Tid>) returns (s': Sys)
    requires Reaches(start, s) && OnlyHeld(plan, s)
    requires forall t {:trigger Took(plan, s, t)} :: t in todo ==> Took(plan, s, t)
    requires plan.Valid() && todo <= plan.hold.Keys
    requires forall t {:trigger AsksForNext(plan.reqs, plan.hold, t)} :: t in todo ==> AsksForNext(plan.reqs, plan.hold, t)
    ensures Reaches(start, s') && s' == s.(txns := s'.txns) && SameBut(s, s', todo)
    ensures forall t {:trigger Stuck(plan, s', t)} :: t in todo ==> Stuck(plan, s', t)
    decreases todo
  {
    if t :| t in todo {
      var next := StickOne(start, s, plan, t);
      forall u {:trigger Took(plan, next, u)} | u in todo - {t} ensures Took(plan, next, u) { assert Took(plan, s, u); }
      s' := StickAll(start, next, plan, todo - {t});
      forall u {:trigger Stuck(plan, s', u)} | u in todo ensures Stuck(plan, s', u) {
        if u == t { assert Stuck(plan, next, t); }
      }
    } else {
      s' := s;
    }
  }

  lemma {:induction false} LateTime(keys: map<string, Record>, names: set<string>) returns (now: Time)
    requires names <= keys.Keys
    ensures forall k :: k in names ==> now > keys[k].expiresAt
    decreases names
  {
    if k :| k in names {
      var rest := LateTime(keys, names - {k});
      now := if rest > keys[k].expiresAt then rest else keys[k].expiresAt + 1;
    } else {
      now := 0;
    }
  }

  lemma TangledPlanIsValid(plan: Plan, pieces: set<PieceId>)
    requires Tangled(plan.reqs, pieces, plan.hold)
    ensures plan.Valid() && Different(plan) && plan.hold.Values <= pieces
  {
    forall t | t in plan.hold ensures plan.hold[t] in PiecesOf(plan.reqs[t].body.items) {
      assert AsksForNext(plan.reqs, plan.hold, t);
      var items := plan.reqs[t].body.items;
      var u :| u in plan.hold && Before(items, plan.hold[t], plan.hold[u]);
      var j :| 0 <= j < |items| && plan.hold[t] in PiecesOf(items[..j]);
      FirstIsEarly(items, plan.hold[t], j);
    }
  }

  // The destinations are open, the keys expired, and all pieces deleted.
  lemma Clear(data: Data, plan: Plan) returns (start: Sys, s: Sys)
    requires plan.Valid() && forall t :: t in plan.hold ==> !Origin(data, t)
    ensures Init(start) && start.data == data && Reaches(start, s) && s.locks == map[]
    ensures forall t :: t in plan.hold ==> MayEnter(s, t, plan.reqs[t])
    ensures s.data.pieces == Marked(data.pieces, data.pieces.Keys, true)
  {
    var now := LateTime(data.keys, data.keys.Keys);
    start := Sys(data, map[], map[], now, map[]);
    ReachesSelf(start);
    var destinations := set t | t in plan.hold :: plan.reqs[t].body.destination;
    var ready := OpenAll(start, start, destinations);
    s := MarkAll(start, ready, ready.data.pieces.Keys, true);
    forall t | t in plan.hold ensures MayEnter(s, t, plan.reqs[t]) {
      assert plan.reqs[t].body.destination in destinations;
      assert s.data.movements == data.movements && !Origin(data, t);
    }
  }

  // Everyone stands at its piece, and those pieces are the only ones that are not deleted.
  lemma Gather(data: Data, plan: Plan) returns (start: Sys, s: Sys)
    requires plan.Valid() && plan.hold.Values <= data.pieces.Keys && forall t :: t in plan.hold ==> !Origin(data, t)
    ensures Init(start) && start.data == data && Reaches(start, s) && s.locks == map[]
    ensures forall t {:trigger Entered(plan, s, t)} :: t in plan.hold ==> Entered(plan, s, t)
    ensures OnlyTheirs(plan, s)
  {
    var empty;
    start, empty := Clear(data, plan);
    var entered := EnterAll(start, empty, plan, plan.hold.Keys);
    s := MarkAll(start, entered, plan.hold.Values, false);
    forall t | t in plan.hold ensures Entered(plan, s, t) { assert Entered(plan, entered, t); }
  }

  ghost predicate OnlyTheirs(plan: Plan, s: Sys) {
    && (forall p :: p in s.data.pieces ==> (s.data.pieces[p].deleted <==> p !in plan.hold.Values))
    && plan.hold.Values <= s.data.pieces.Keys
  }

  lemma Grab(start: Sys, s: Sys, plan: Plan) returns (s': Sys)
    requires Reaches(start, s) && Different(plan) && s.locks == map[] && OnlyTheirs(plan, s)
    requires forall t {:trigger Entered(plan, s, t)} :: t in plan.hold ==> Entered(plan, s, t)
    ensures Reaches(start, s') && OnlyHeld(plan, s')
    ensures forall t {:trigger Took(plan, s', t)} :: t in plan.hold ==> Took(plan, s', t)
  {
    s' := TakeAll(start, s, plan, plan.hold.Keys);
    forall p | p in s'.data.pieces && !s'.data.pieces[p].deleted ensures p in s'.locks && s'.locks[p] in plan.hold {
      var t :| t in plan.hold && plan.hold[t] == p;
    }
  }

  lemma AllStuck(plan: Plan, s: Sys)
    requires plan.Valid() && plan.hold != map[]
    requires forall t {:trigger Stuck(plan, s, t)} :: t in plan.hold.Keys ==> Stuck(plan, s, t)
    ensures Blocked(s, plan.hold.Keys)
    ensures forall t :: t in plan.hold ==> t in s.txns && s.txns[t].req == plan.reqs[t]
  {
    var all := plan.hold.Keys;
    assert all != {} by {
      var t :| t in plan.hold;
      assert t in all;
    }
    forall t {:trigger WaitsAmong(s, all, t)} | t in all ensures WaitsAmong(s, all, t) { assert Stuck(plan, s, t); }
    forall t | t in all ensures t in s.txns && s.txns[t].req == plan.reqs[t] { assert Stuck(plan, s, t); }
  }

  lemma Entangle(start: Sys, s: Sys, plan: Plan) returns (s': Sys)
    requires Reaches(start, s) && plan.Valid() && plan.hold != map[] && OnlyHeld(plan, s)
    requires forall t {:trigger Took(plan, s, t)} :: t in plan.hold ==> Took(plan, s, t)
    requires forall t {:trigger AsksForNext(plan.reqs, plan.hold, t)} :: t in plan.hold ==>
               AsksForNext(plan.reqs, plan.hold, t)
    ensures Reaches(start, s') && Blocked(s', plan.hold.Keys)
    ensures forall t :: t in plan.hold ==> t in s'.txns && s'.txns[t].req == plan.reqs[t]
  {
    var all := plan.hold.Keys;
    s' := StickAll(start, s, plan, all);
    AllStuck(plan, s');
  }

  // Some run from these data blocks some of these requests.
  ghost predicate CanBlock(data: Data, reqs: map<Tid, Request>) {
    exists ss: seq<Sys>, acts: seq<Action>, ts: set<Tid> :: BlocksAtItsEnd(data, reqs, ss, acts, ts)
  }

  ghost predicate BlocksAtItsEnd(data: Data, reqs: map<Tid, Request>, ss: seq<Sys>, acts: seq<Action>, ts: set<Tid>) {
    && Run(ss, acts) && ss[0].data == data && Blocked(ss[|acts|], ts)
    && forall t :: t in ts ==> t in reqs && t in ss[|acts|].txns && ss[|acts|].txns[t].req == reqs[t]
  }

  lemma TangledRequestsCanBlock(data: Data, reqs: map<Tid, Request>, hold: map<Tid, PieceId>)
    requires Tangled(reqs, data.pieces.Keys, hold) && forall t :: t in reqs ==> !Origin(data, t)
    ensures CanBlock(data, reqs)
  {
    var plan := Plan(reqs, hold);
    TangledPlanIsValid(plan, data.pieces.Keys);
    var start, s := Gather(data, plan);
    var held := Grab(start, s, plan);
    var end := Entangle(start, held, plan);
    var ss, acts :| Path(ss, acts) && ss[0] == start && ss[|acts|] == end;
    assert BlocksAtItsEnd(data, reqs, ss, acts, hold.Keys);
  }

  /** Some run of the system leaves some of these requests blocking each other if and only if the requests are tangled:
      a piece can be chosen for each of some of them so that each names the piece of another one after its own. */
  lemma RequestsCanBlockExactlyWhenTangled(data: Data, reqs: map<Tid, Request>)
    requires forall t :: t in reqs ==> !Origin(data, t)
    ensures CanBlock(data, reqs) <==> exists hold :: Tangled(reqs, data.pieces.Keys, hold)
  {
    if CanBlock(data, reqs) {
      var ss, acts, ts :| BlocksAtItsEnd(data, reqs, ss, acts, ts);
      var hold := BlockedRequestsAreTangled(ss, acts, |acts|, ts);
      MoreRequests(RequestsOf(ss[|acts|], ts), reqs, data.pieces.Keys, hold);
    }
    if hold :| Tangled(reqs, data.pieces.Keys, hold) {
      TangledRequestsCanBlock(data, reqs, hold);
    }
  }

  lemma MoreRequests(some: map<Tid, Request>, reqs: map<Tid, Request>, pieces: set<PieceId>, hold: map<Tid, PieceId>)
    requires Tangled(some, pieces, hold) && forall t :: t in hold ==> t in some && t in reqs && some[t] == reqs[t]
    ensures Tangled(reqs, pieces, hold)
  {
    forall t | t in hold ensures AsksForNext(reqs, hold, t) { assert AsksForNext(some, hold, t); }
  }

  /** Two requests can block each other if and only if they name two pieces in opposite orders. */
  lemma TwoCanBlockExactlyWhenOpposite(data: Data, t: Tid, a: Request, u: Tid, b: Request)
    requires t != u && !Origin(data, t) && !Origin(data, u) && WellFormed(a.body) && WellFormed(b.body)
    ensures CanBlock(data, map[t := a, u := b]) <==>
            exists p, q :: p in data.pieces && q in data.pieces && p != q
                           && Before(a.body.items, p, q) && Before(b.body.items, q, p)
  {
    var reqs := map[t := a, u := b];
    RequestsCanBlockExactlyWhenTangled(data, reqs);
    if hold :| Tangled(reqs, data.pieces.Keys, hold) {
      TwoTangled(data.pieces.Keys, t, a, u, b, hold);
    }
    if p, q :| p in data.pieces && q in data.pieces && p != q && Before(a.body.items, p, q) && Before(b.body.items, q, p) {
      OppositeIsTangled(data.pieces.Keys, t, a, u, b, p, q);
    }
  }

  lemma TwoTangled(pieces: set<PieceId>, t: Tid, a: Request, u: Tid, b: Request, hold: map<Tid, PieceId>)
    requires t != u && Tangled(map[t := a, u := b], pieces, hold)
    ensures t in hold && u in hold && hold[t] in pieces && hold[u] in pieces && hold[t] != hold[u]
    ensures Before(a.body.items, hold[t], hold[u]) && Before(b.body.items, hold[u], hold[t])
  {
    var reqs := map[t := a, u := b];
    var x :| x in hold;
    var y := AskedOf(reqs, pieces, hold, x);
    var z := AskedOf(reqs, pieces, hold, y);
    assert {x, y} == {t, u} && z == x;
  }

  lemma AskedOf(reqs: map<Tid, Request>, pieces: set<PieceId>, hold: map<Tid, PieceId>, t: Tid) returns (u: Tid)
    requires Tangled(reqs, pieces, hold) && t in hold
    ensures u in hold && u != t && Before(reqs[t].body.items, hold[t], hold[u])
  {
    assert AsksForNext(reqs, hold, t);
    u :| u in hold && Before(reqs[t].body.items, hold[t], hold[u]);
  }

  lemma OppositeIsTangled(
      pieces: set<PieceId>, t: Tid, a: Request, u: Tid, b: Request, p: PieceId, q: PieceId)
    requires t != u && WellFormed(a.body) && WellFormed(b.body) && p in pieces && q in pieces && p != q
    requires Before(a.body.items, p, q) && Before(b.body.items, q, p)
    ensures Tangled(map[t := a, u := b], pieces, map[t := p, u := q])
  {
    var reqs, hold := map[t := a, u := b], map[t := p, u := q];
    assert t in hold && u in hold && hold != map[];
    forall x {:trigger AsksForNext(reqs, hold, x)} | x in hold ensures AsksForNext(reqs, hold, x) {
      var y := if x == t then u else t;
      assert Before(reqs[x].body.items, hold[x], hold[y]);
    }
  }
}
