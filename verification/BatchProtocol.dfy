/**
Any number of batch requests at once, over one database with committed reads.

A request looks its key up, then reads and locks its pieces one by one, then commits. It reads a piece before it
holds the row lock, and the lock does not read it again, so what it checks may be old. Every other writer, the
clock, crashes and lost answers are steps too. A retry is just another request with the same key.
*/
module BatchProtocol {
  import opened Common
  import opened BatchMovement

  // Also the origin of the rows that the request writes.
  type Tid = ExecId

  datatype Outcome = Answered(answer: Answer) | Unanswered

  datatype Txn =
    | Begun(req: Request)
      // `n` items are checked; `read` holds the pieces as they were read, `locked` as they were when locked
    | Working(req: Request, n: nat, read: map<PieceId, Piece>, locked: map<PieceId, Piece>)
      // the piece of item `n` is read and its lock is asked for
    | Fetched(req: Request, n: nat, read: map<PieceId, Piece>, locked: map<PieceId, Piece>)
    | Done(req: Request, outcome: Outcome)

  datatype Sys = Sys(
    data: Data,
    txns: map<Tid, Txn>,
    locks: map<PieceId, Tid>,
    now: Time,
    owner: map<string, Tid>)   // who committed each key; not part of the program

  datatype Action =
    | Begin(t: Tid, req: Request)
    | Lookup(t: Tid)
    | Fetch(t: Tid)
    | Lock(t: Tid)
    | Finish(t: Tid)
    | Crash(t: Tid)
    | LoseAnswer(t: Tid)
    | WritePiece(p: PieceId, piece: Piece)
    | WriteLocation(l: LocationId, location: Location)
    | Tick(d: nat)

  ghost predicate Origin(data: Data, t: Tid) {
    exists i :: 0 <= i < |data.movements| && data.movements[i].origin == t
  }

  function Release(locks: map<PieceId, Tid>, t: Tid): map<PieceId, Tid> {
    map p | p in locks && locks[p] != t :: locks[p]
  }

  function End(s: Sys, t: Tid, outcome: Outcome): Sys
    requires t in s.txns
  {
    s.(txns := s.txns[t := Done(s.txns[t].req, outcome)], locks := Release(s.locks, t))
  }

  // The versions that a flush of a move compares; a difference is an error that undoes the request.
  predicate VersionsMatch(s: Sys, body: Body, read: map<PieceId, Piece>) {
    body.kind == Move ==>
      forall p :: p in PiecesOf(body.items) ==> p in read && p in s.data.pieces && s.data.pieces[p].version == read[p].version
  }

  // The end of a request whose items are all checked.
  ghost predicate FinishStep(s: Sys, t: Tid, s': Sys)
    requires t in s.txns && s.txns[t].Working?
  {
    var Working(req, n, read, _) := s.txns[t];
    && n == |req.body.items|
    && var failures := Failures(read, req.body, n);
       if failures != [] then s' == End(s, t, Answered(FailureAnswer(failures)))
       else if !VersionsMatch(s, req.body, read) then s' == End(s, t, Unanswered)
       else if req.key != "" && req.key in s.data.keys then s' == End(s, t, Answered(IntegrityError))
       else s' == Committed(s, t)
  }

  // The commit: rows from what was read, the new values of the pieces, and the key with its answer.
  ghost function Committed(s: Sys, t: Tid): Sys
    requires t in s.txns && s.txns[t].Working? && s.txns[t].n == |s.txns[t].req.body.items|
    requires Failures(s.txns[t].read, s.txns[t].req.body, s.txns[t].n) == []
  {
    var Working(req, n, read, _) := s.txns[t];
    BatchSucceedsExactlyWhenExecutable(read, req.body);
    assert forall item :: item in req.body.items ==> item.piece in read;
    var rows := Rows(read, req.body, t);
    var data := s.data.(pieces := MovedPieces(s.data.pieces, req.body, req.proposed),
                        movements := s.data.movements + rows);
    var data' := if req.key == "" then data
                 else data.(keys := data.keys[req.key := Record(SCOPE, req.body, rows, s.now + TTL)]);
    var owner' := if req.key == "" then s.owner else s.owner[req.key := t];
    End(s, t, Answered(Registered(rows))).(data := data', owner := owner')
  }

  ghost predicate Step(s: Sys, a: Action, s': Sys) {
    match a
    case Begin(t, req) =>
      t !in s.txns && !Origin(s.data, t) && s' == s.(txns := s.txns[t := Begun(req)])
    case Lookup(t) =>
      && t in s.txns && s.txns[t].Begun?
      && var req := s.txns[t].req;
         var cached := if req.key != "" then FindValid(s.data, req.key, s.now) else None;
         if cached.Some? then
           s' == End(s, t, Answered(if cached.value.request != req.body then Rejected(KeyReused)
                                    else Registered(cached.value.response)))
         else if Precheck(s.data, req.body).Some? then
           s' == End(s, t, Answered(Rejected(Precheck(s.data, req.body).value)))
         else s' == s.(txns := s.txns[t := Working(req, 0, map[], map[])])
    case Fetch(t) =>
      && t in s.txns && s.txns[t].Working? && s.txns[t].n < |s.txns[t].req.body.items|
      && var Working(req, n, read, locked) := s.txns[t];
         var p := req.body.items[n].piece;
         if p in PiecesOf(req.body.items[..n]) then s' == s.(txns := s.txns[t := Working(req, n + 1, read, locked)])
         else if p !in s.data.pieces then s' == s.(txns := s.txns[t := Working(req, n + 1, read, locked)])
         else
           var read' := read[p := s.data.pieces[p]];
           s' == s.(txns := s.txns[t := if s.data.pieces[p].deleted then Working(req, n + 1, read', locked)
                                        else Fetched(req, n, read', locked)])
    case Lock(t) =>
      && t in s.txns && s.txns[t].Fetched? && s.txns[t].n < |s.txns[t].req.body.items|
      && var Fetched(req, n, read, locked) := s.txns[t];
         var p := req.body.items[n].piece;
         && p !in s.locks && p in s.data.pieces
         && s' == s.(txns := s.txns[t := Working(req, n + 1, read, locked[p := s.data.pieces[p]])],
                     locks := s.locks[p := t])
    case Finish(t) => t in s.txns && s.txns[t].Working? && FinishStep(s, t, s')
    case Crash(t) => t in s.txns && !s.txns[t].Done? && s' == End(s, t, Unanswered)
    case LoseAnswer(t) =>
      t in s.txns && s.txns[t].Done? && s' == s.(txns := s.txns[t := Done(s.txns[t].req, Unanswered)])
    case WritePiece(p, piece) =>
      && p in s.data.pieces && p !in s.locks && piece.version == s.data.pieces[p].version + 1
      && s' == s.(data := s.data.(pieces := s.data.pieces[p := piece]))
    case WriteLocation(l, location) => s' == s.(data := s.data.(locations := s.data.locations[l := location]))
    case Tick(d) => s' == s.(now := s.now + d)
  }

  // Requests start over any stored data, with none in flight.
  predicate Init(s: Sys) {
    s.txns == map[] && s.locks == map[] && s.owner == map[]
  }

  ghost predicate Run(ss: seq<Sys>, acts: seq<Action>) {
    && |ss| == |acts| + 1
    && Init(ss[0])
    && forall i {:trigger acts[i]} :: 0 <= i < |acts| ==> Step(ss[i], acts[i], ss[i + 1])
  }

  // The request is over without an answer, nothing is stored, and it holds no lock.
  ghost predicate EndsInSilence(s: Sys, t: Tid, s': Sys)
    requires t in s.txns
  {
    && t in s'.txns && s'.txns[t] == Done(s.txns[t].req, Unanswered) && s'.data == s.data
    && forall q :: q in s'.locks && s'.locks[q] == t ==> s.txns[t].Done?
  }

  /** What surrounds the requests is free: at any moment a new request may begin, one in flight may crash, an answer may be
      lost, another writer may change a location or a piece that is not locked, and time may pass. */
  lemma SurroundingsAreFree(s: Sys, t: Tid, req: Request, p: PieceId, piece: Piece, l: LocationId, location: Location, d: nat)
    ensures t !in s.txns && !Origin(s.data, t) ==>
              exists s' :: Step(s, Begin(t, req), s') && s' == s.(txns := s.txns[t := Begun(req)])
    ensures t in s.txns && !s.txns[t].Done? ==> exists s' :: Step(s, Crash(t), s') && EndsInSilence(s, t, s')
    ensures t in s.txns && s.txns[t].Done? ==> exists s' :: Step(s, LoseAnswer(t), s') && EndsInSilence(s, t, s')
    ensures p in s.data.pieces && p !in s.locks && piece.version == s.data.pieces[p].version + 1 ==>
              exists s' :: Step(s, WritePiece(p, piece), s') && s'.data == s.data.(pieces := s.data.pieces[p := piece])
    ensures exists s' :: Step(s, WriteLocation(l, location), s')
                         && s'.data == s.data.(locations := s.data.locations[l := location])
    ensures exists s' :: Step(s, Tick(d), s') && s'.now == s.now + d && s'.data == s.data
  {
    RequestsMayEnd(s, t);
    OthersMayWrite(s, p, piece, l, location);
    if t !in s.txns && !Origin(s.data, t) { assert Step(s, Begin(t, req), s.(txns := s.txns[t := Begun(req)])); }
    assert Step(s, Tick(d), s.(now := s.now + d));
  }

  lemma RequestsMayEnd(s: Sys, t: Tid)
    ensures t in s.txns && !s.txns[t].Done? ==> exists s' :: Step(s, Crash(t), s') && EndsInSilence(s, t, s')
    ensures t in s.txns && s.txns[t].Done? ==> exists s' :: Step(s, LoseAnswer(t), s') && EndsInSilence(s, t, s')
  {
    if t in s.txns && !s.txns[t].Done? { assert Step(s, Crash(t), End(s, t, Unanswered)); }
    if t in s.txns && s.txns[t].Done? {
      assert Step(s, LoseAnswer(t), s.(txns := s.txns[t := Done(s.txns[t].req, Unanswered)]));
    }
  }

  lemma OthersMayWrite(s: Sys, p: PieceId, piece: Piece, l: LocationId, location: Location)
    ensures p in s.data.pieces && p !in s.locks && piece.version == s.data.pieces[p].version + 1 ==>
              exists s' :: Step(s, WritePiece(p, piece), s') && s'.data == s.data.(pieces := s.data.pieces[p := piece])
    ensures exists s' :: Step(s, WriteLocation(l, location), s')
                         && s'.data == s.data.(locations := s.data.locations[l := location])
  {
    if p in s.data.pieces && p !in s.locks && piece.version == s.data.pieces[p].version + 1 {
      assert Step(s, WritePiece(p, piece), s.(data := s.data.(pieces := s.data.pieces[p := piece])));
    }
    assert Step(s, WriteLocation(l, location), s.(data := s.data.(locations := s.data.locations[l := location])));
  }

  // ---------------------------------------------------------------------- exactly once

  // The rows that one execution wrote.
  function RowsOf(rows: seq<Movement>, t: Tid): seq<Movement> {
    if rows == [] then []
    else RowsOf(rows[..|rows| - 1], t) + if rows[|rows| - 1].origin == t then [rows[|rows| - 1]] else []
  }

  lemma {:induction false} RowsOfAppended(rows: seq<Movement>, more: seq<Movement>, t: Tid)
    ensures RowsOf(rows + more, t) == RowsOf(rows, t) + RowsOf(more, t)
  {
    if more == [] {
      assert rows + more == rows;
    } else {
      assert (rows + more)[..|rows + more| - 1] == rows + more[..|more| - 1];
      RowsOfAppended(rows, more[..|more| - 1], t);
    }
  }

  lemma {:induction false} RowsOfOneOrigin(rows: seq<Movement>, origin: Tid, t: Tid)
    requires forall i :: 0 <= i < |rows| ==> rows[i].origin == origin
    ensures RowsOf(rows, t) == if t == origin then rows else []
  {
    if rows != [] {
      RowsOfOneOrigin(rows[..|rows| - 1], origin, t);
    }
  }

  lemma {:induction false} NoOriginNoRows(rows: seq<Movement>, t: Tid)
    requires forall i :: 0 <= i < |rows| ==> rows[i].origin != t
    ensures RowsOf(rows, t) == []
  {
    if rows != [] {
      NoOriginNoRows(rows[..|rows| - 1], t);
    }
  }

  ghost predicate OnceInv(s: Sys) {
    && (forall k :: k in s.owner ==> KeyOwned(s, k))
    && (forall t :: t in s.txns ==> RowsOwned(s, t) && AnswerStored(s, t))
  }

  // A committed key holds exactly the rows of the request that committed it.
  ghost predicate KeyOwned(s: Sys, k: string)
    requires k in s.owner
  {
    && k in s.data.keys && s.owner[k] in s.txns
    && s.txns[s.owner[k]].Done? && s.txns[s.owner[k]].req.key == k
    && s.data.keys[k].request == s.txns[s.owner[k]].req.body
    && s.data.keys[k].response == RowsOf(s.data.movements, s.owner[k])
  }

  // A request that wrote rows is over, and it owns its key.
  ghost predicate RowsOwned(s: Sys, t: Tid)
    requires t in s.txns
  {
    RowsOf(s.data.movements, t) != [] ==>
      && s.txns[t].Done?
      && (s.txns[t].req.key != "" ==> s.txns[t].req.key in s.owner && s.owner[s.txns[t].req.key] == t)
  }

  // A successful answer is the one stored under its key.
  ghost predicate AnswerStored(s: Sys, t: Tid)
    requires t in s.txns
  {
    var txn := s.txns[t];
    txn.Done? && txn.outcome.Answered? && txn.outcome.answer.Registered? && txn.req.key != "" ==>
      && txn.req.key in s.data.keys
      && s.data.keys[txn.req.key].request == txn.req.body
      && s.data.keys[txn.req.key].response == txn.outcome.answer.rows
  }

  // What a commit changes, besides the pieces.
  ghost predicate CommitEffect(s: Sys, t: Tid, rows: seq<Movement>, s': Sys)
    requires t in s.txns
  {
    var req := s.txns[t].req;
    && s'.txns == s.txns[t := Done(req, Answered(Registered(rows)))]
    && (forall u :: u != t ==> RowsOf(s'.data.movements, u) == RowsOf(s.data.movements, u))
    && RowsOf(s'.data.movements, t) == RowsOf(s.data.movements, t) + rows
    && if req.key == "" then s'.data.keys == s.data.keys && s'.owner == s.owner
       else && req.key !in s.data.keys && s'.owner == s.owner[req.key := t]
            && s'.data.keys == s.data.keys[req.key := Record(SCOPE, req.body, rows, s.now + TTL)]
  }

  lemma CommitAddsRows(s: Sys, t: Tid, s': Sys) returns (rows: seq<Movement>)
    requires t in s.txns && s.txns[t].Working? && FinishStep(s, t, s') && s'.data != s.data
    ensures CommitEffect(s, t, rows, s')
  {
    BatchSucceedsExactlyWhenExecutable(s.txns[t].read, s.txns[t].req.body);
    rows := Rows(s.txns[t].read, s.txns[t].req.body, t);
    forall u ensures RowsOf(s'.data.movements, u) == RowsOf(s.data.movements, u) + if u == t then rows else [] {
      RowsOfAppended(s.data.movements, rows, u);
      RowsOfOneOrigin(rows, t, u);
    }
  }

  lemma CommitKeepsOnce(s: Sys, t: Tid, rows: seq<Movement>, s': Sys)
    requires OnceInv(s) && t in s.txns && s.txns[t].Working? && CommitEffect(s, t, rows, s')
    ensures OnceInv(s')
  {
    assert RowsOf(s.data.movements, t) == [] by { assert RowsOwned(s, t); }
    assert RowsOf(s'.data.movements, t) == rows;
    forall k | k in s'.owner ensures KeyOwned(s', k) {
      if k in s.owner { assert KeyOwned(s, k); }
    }
    forall u | u in s'.txns ensures RowsOwned(s', u) && AnswerStored(s', u) {
      assert u in s.txns && RowsOwned(s, u) && AnswerStored(s, u);
      if u != t && RowsOf(s'.data.movements, u) != [] && s.txns[u].req.key != "" {
        assert KeyOwned(s, s.txns[u].req.key);
      }
    }
  }

  // Every other step leaves the rows, the keys and their owners alone.
  lemma OtherStepsWriteNothing(s: Sys, a: Action, s': Sys)
    requires Step(s, a, s') && !(a.Finish? && s'.data != s.data)
    ensures s'.data.movements == s.data.movements && s'.data.keys == s.data.keys && s'.owner == s.owner
  {
  }

  lemma RequestStays(s: Sys, a: Action, s': Sys, u: Tid)
    requires Step(s, a, s')
    ensures u in s.txns ==> u in s'.txns && s'.txns[u].req == s.txns[u].req
    ensures u in s.txns && s.txns[u].Done? ==> s'.txns[u] == s.txns[u] || s'.txns[u] == Done(s.txns[u].req, Unanswered)
    ensures u in s'.txns && u !in s.txns ==> s'.txns[u].Begun? && !Origin(s.data, u)
  {
  }

  // Between two steps of its own a request stands still, unless it is ended.
  lemma StandsStill(s: Sys, a: Action, s': Sys, t: Tid)
    requires Step(s, a, s') && t in s'.txns
    ensures t in s.txns && a != Fetch(t) && a != Lock(t) && a != Lookup(t) ==>
              s'.txns[t] == s.txns[t] || s'.txns[t].Done?
    ensures t !in s.txns ==> s'.txns[t].Begun?
  {
  }

  // Nor do they answer with rows that are not stored.
  lemma OtherStepsAnswerWhatIsStored(s: Sys, a: Action, s': Sys, u: Tid)
    requires Step(s, a, s') && !(a.Finish? && s'.data != s.data)
    requires u in s.txns && u in s'.txns && !s.txns[u].Done?
    ensures AnswerStored(s', u)
  {
  }

  lemma StepKeepsOnce(s: Sys, a: Action, s': Sys)
    requires OnceInv(s) && Step(s, a, s')
    ensures OnceInv(s')
  {
    if a.Finish? && s'.data != s.data {
      var rows := CommitAddsRows(s, a.t, s');
      CommitKeepsOnce(s, a.t, rows, s');
    } else {
      OtherStepsWriteNothing(s, a, s');
      forall k | k in s'.owner ensures KeyOwned(s', k) {
        assert KeyOwned(s, k);
        RequestStays(s, a, s', s.owner[k]);
      }
      forall u | u in s'.txns ensures RowsOwned(s', u) && AnswerStored(s', u) {
        RequestStays(s, a, s', u);
        if u in s.txns {
          assert RowsOwned(s, u) && AnswerStored(s, u);
          if !s.txns[u].Done? { OtherStepsAnswerWhatIsStored(s, a, s', u); }
        } else {
          NoOriginNoRows(s.data.movements, u);
        }
      }
    }
  }

  lemma {:induction false} RunKeepsOnce(ss: seq<Sys>, acts: seq<Action>, i: nat)
    requires Run(ss, acts) && i < |ss|
    ensures OnceInv(ss[i])
  {
    if i > 0 {
      RunKeepsOnce(ss, acts, i - 1);
      StepKeepsOnce(ss[i - 1], acts[i - 1], ss[i]);
    }
  }

  /** In every state of every run, however the requests, crashes, lost answers, other writers and the expiry of
      keys interleave: two requests with the same key have not both written rows; and all the successful answers
      of a key are one and the same list of rows, given for one and the same body. If one of those requests wrote
      rows, that list is exactly what it wrote. */
  lemma KeyedBatchesRunAtMostOnce(ss: seq<Sys>, acts: seq<Action>, i: nat, t: Tid, u: Tid)
    requires Run(ss, acts) && i < |ss| && t in ss[i].txns && u in ss[i].txns
    requires ss[i].txns[t].req.key == ss[i].txns[u].req.key != ""
    ensures RowsOf(ss[i].data.movements, t) != [] && RowsOf(ss[i].data.movements, u) != [] ==> t == u
    ensures Succeeded(ss[i], t) && Succeeded(ss[i], u) ==>
              && ss[i].txns[t].req.body == ss[i].txns[u].req.body
              && ss[i].txns[t].outcome.answer.rows == ss[i].txns[u].outcome.answer.rows
    ensures Succeeded(ss[i], t) && RowsOf(ss[i].data.movements, u) != [] ==>
              ss[i].txns[t].outcome.answer.rows == RowsOf(ss[i].data.movements, u)
  {
    RunKeepsOnce(ss, acts, i);
    assert AnswerStored(ss[i], t) && AnswerStored(ss[i], u);
  }

  /** The lookup answers at once exactly when the key is stored and valid or the batch is not accepted, and then as if the
      request ran alone, changing nothing; otherwise the request goes on. */
  lemma LookupAnswersAsAlone(s: Sys, t: Tid, s': Sys)
    requires Step(s, Lookup(t), s')
    ensures var req := s.txns[t].req;
            && s'.data == s.data && s'.owner == s.owner && s'.now == s.now
            && (s'.txns[t].Done? <==>
                  (req.key != "" && FindValid(s.data, req.key, s.now).Some?) || !Accepted(s.data, req.body))
            && (s'.txns[t].Done? ==>
                  Handle(s.data, req, t, s.now) == (s.data, s'.txns[t].outcome.answer) && s'.txns[t].outcome.Answered?)
            && (!s'.txns[t].Done? ==> s'.txns[t] == Working(req, 0, map[], map[]) && s'.locks == s.locks)
  {
    PrecheckMeans(s.data, s.txns[t].req.body);
  }

  // A request that has been let through has a batch of accepted form.
  ghost predicate LetThrough(s: Sys, t: Tid)
    requires t in s.txns
  {
    s.txns[t].Working? || s.txns[t].Fetched? ==>
      1 <= |s.txns[t].req.body.items| <= 200 && (s.txns[t].req.body.kind == Move || s.txns[t].req.body.kind == Verification)
  }

  lemma StepKeepsLetThrough(s: Sys, a: Action, s': Sys, t: Tid)
    requires Step(s, a, s') && t in s'.txns && (t in s.txns ==> LetThrough(s, t))
    ensures LetThrough(s', t)
  {
    StandsStill(s, a, s', t);
    RequestStays(s, a, s', t);
    if a == Lookup(t) { LookupAnswersAsAlone(s, t, s'); }
  }

  lemma {:induction false} WorksOnAcceptedBatches(ss: seq<Sys>, acts: seq<Action>, i: nat, t: Tid)
    requires Run(ss, acts) && i < |ss| && t in ss[i].txns
    ensures LetThrough(ss[i], t)
  {
    if i > 0 {
      if t in ss[i - 1].txns { WorksOnAcceptedBatches(ss, acts, i - 1, t); }
      StepKeepsLetThrough(ss[i - 1], acts[i - 1], ss[i], t);
    }
  }

  /** The end of a request that stores nothing: its answer lists the failures of the pieces as it read them, each for its
      reason, with the status that tells a changed location; or a piece of its move has another version by now, which is
      an error without an answer of the endpoint; or its key was stored meanwhile. It holds no lock any more. */
  lemma FinishExplainsItself(ss: seq<Sys>, acts: seq<Action>, i: nat, t: Tid)
    requires Run(ss, acts) && i < |acts| && acts[i] == Finish(t) && ss[i + 1].data == ss[i].data
    ensures t in ss[i].txns && ss[i].txns[t].Working? && Explained(ss[i], t, ss[i + 1])
  {
    assert Step(ss[i], acts[i], ss[i + 1]);
    WorksOnAcceptedBatches(ss, acts, i, t);
    FinishExplained(ss[i], t, ss[i + 1]);
  }

  ghost predicate Explained(s: Sys, t: Tid, s': Sys)
    requires t in s.txns && s.txns[t].Working?
  {
    && t in s'.txns && s'.txns[t].Done? && (forall p :: p in s'.locks <==> p in s.locks && s.locks[p] != t)
    && var Working(req, n, read, _) := s.txns[t];
       match s'.txns[t].outcome
       case Unanswered => Executable(read, req.body) && req.body.kind == Move && SomeVersionDiffers(s.data.pieces, req.body, read)
       case Answered(answer) =>
         match answer
         case Conflict(failures) => ExplainedBy(read, req.body, failures) && SomeLocationChanged(read, req.body)
         case Unprocessable(failures) =>
           failures != [] && ExplainedBy(read, req.body, failures) && !SomeLocationChanged(read, req.body)
         case IntegrityError => Executable(read, req.body) && req.key != "" && req.key in s.data.keys
         case _ => false
  }

  ghost predicate SomeVersionDiffers(pieces: map<PieceId, Piece>, body: Body, read: map<PieceId, Piece>) {
    exists p :: p in PiecesOf(body.items) && (p in read && p in pieces ==> pieces[p].version != read[p].version)
  }

  lemma FinishExplained(s: Sys, t: Tid, s': Sys)
    requires Step(s, Finish(t), s') && s'.data == s.data && s.txns[t].req.body.items != []
    ensures Explained(s, t, s')
  {
    var Working(req, n, read, _) := s.txns[t];
    BatchSucceedsExactlyWhenExecutable(read, req.body);
    if Failures(read, req.body, n) != [] {
      FailuresAreExplained(read, req.body);
    } else if VersionsMatch(s, req.body, read) && (req.key == "" || req.key !in s.data.keys) {
      CommitStores(s, t);
    }
  }

  lemma CommitStores(s: Sys, t: Tid)
    requires t in s.txns && s.txns[t].Working? && s.txns[t].n == |s.txns[t].req.body.items| > 0
    requires Failures(s.txns[t].read, s.txns[t].req.body, s.txns[t].n) == []
    ensures Committed(s, t).data != s.data
  {
    assert |Committed(s, t).data.movements| == |s.data.movements| + s.txns[t].n;
  }

  ghost predicate ExplainedBy(read: map<PieceId, Piece>, body: Body, failures: seq<Failure>) {
    forall f :: f in failures <==> HasReason(read, body, f)
  }

  lemma FailuresAreExplained(read: map<PieceId, Piece>, body: Body)
    ensures ExplainedBy(read, body, Failures(read, body, |body.items|))
    ensures SomeLocationChanged(read, body) <==>
              exists f :: f in Failures(read, body, |body.items|) && f.code == LocationChanged
  {
    var failures := Failures(read, body, |body.items|);
    forall f ensures f in failures <==> HasReason(read, body, f) {
      FailuresExplainThemselves(read, body, |body.items|, f);
    }
    if SomeLocationChanged(read, body) {
      var i: nat :| i < |body.items| && Explains(read, body, i, LocationChanged);
      assert HasReason(read, body, Failure(body.items[i].piece, LocationChanged));
    }
  }

  ghost predicate Succeeded(s: Sys, t: Tid)
    requires t in s.txns
  {
    s.txns[t].Done? && s.txns[t].outcome.Answered? && s.txns[t].outcome.answer.Registered?
  }

  /** A key that is stored stays, with its answer, for the rest of the run, and from then on no request with that
      key writes a row, whatever its body: not even after the key expires. */
  lemma {:induction false} StoredKeyIsFinal(ss: seq<Sys>, acts: seq<Action>, i: nat, j: nat, k: string, t: Tid)
    requires Run(ss, acts) && i <= j < |ss| && k != "" && k in ss[i].data.keys
    requires t in ss[j].txns && ss[j].txns[t].req.key == k
    ensures k in ss[j].data.keys && ss[j].data.keys[k] == ss[i].data.keys[k]
    ensures RowsOf(ss[j].data.movements, t) == RowsOf(ss[i].data.movements, t)
    decreases j
  {
    if i < j {
      KeysStay(ss, acts, i, j - 1, k);
      StoredKeyStep(ss, acts, j - 1, k, t);
      if t in ss[j - 1].txns {
        StoredKeyIsFinal(ss, acts, i, j - 1, k, t);
      } else {
        NoOriginNoRows(ss[j].data.movements, t);
        MovementsGrow(ss, acts, i, j - 1);
        NoOriginNoRows(ss[i].data.movements, t);
      }
    }
  }

  lemma StoredKeyStep(ss: seq<Sys>, acts: seq<Action>, j: nat, k: string, t: Tid)
    requires Run(ss, acts) && j < |acts| && k != "" && k in ss[j].data.keys
    requires t in ss[j + 1].txns && ss[j + 1].txns[t].req.key == k
    ensures k in ss[j + 1].data.keys && ss[j + 1].data.keys[k] == ss[j].data.keys[k]
    ensures if t in ss[j].txns then
              ss[j].txns[t].req.key == k && RowsOf(ss[j + 1].data.movements, t) == RowsOf(ss[j].data.movements, t)
            else ss[j + 1].data == ss[j].data && !Origin(ss[j].data, t)
  {
    var s, a, s' := ss[j], acts[j], ss[j + 1];
    if t in s.txns && s.txns[t].req.key == k {
      StoredKeyWritesNoRow(s, a, s', t);
    }
    if a.Finish? && s'.data != s.data {
      var rows := CommitAddsRows(s, a.t, s');
    } else {
      OtherStepsWriteNothing(s, a, s');
      RequestStays(s, a, s', t);
    }
  }

  lemma StoredKeyWritesNoRow(s: Sys, a: Action, s': Sys, t: Tid)
    requires Step(s, a, s') && t in s.txns && s.txns[t].req.key != "" && s.txns[t].req.key in s.data.keys
    ensures RowsOf(s'.data.movements, t) == RowsOf(s.data.movements, t)
  {
    if a.Finish? && s'.data != s.data {
      var rows := CommitAddsRows(s, a.t, s');
    }
  }

  lemma {:induction false} KeysStay(ss: seq<Sys>, acts: seq<Action>, i: nat, j: nat, k: string)
    requires Run(ss, acts) && i <= j < |ss| && k in ss[i].data.keys
    ensures k in ss[j].data.keys && ss[j].data.keys[k] == ss[i].data.keys[k]
    decreases j
  {
    if i < j {
      KeysStay(ss, acts, i, j - 1, k);
      assert Step(ss[j - 1], acts[j - 1], ss[j]);
    }
  }

  lemma {:induction false} MovementsGrow(ss: seq<Sys>, acts: seq<Action>, i: nat, j: nat)
    requires Run(ss, acts) && i <= j < |ss|
    ensures ss[i].data.movements <= ss[j].data.movements
    decreases j
  {
    if i < j {
      MovementsGrow(ss, acts, i, j - 1);
      assert Step(ss[j - 1], acts[j - 1], ss[j]);
    }
  }

  // ---------------------------------------------------------------------- what a commit records is true

  // The pieces a request has locked so far.
  ghost predicate Holds(s: Sys, t: Tid, p: PieceId) {
    t in s.txns && (s.txns[t].Working? || s.txns[t].Fetched?) && p in s.txns[t].locked
  }

  ghost predicate ReadInv(s: Sys) {
    && (forall t, p :: Holds(s, t, p) ==>
          p in s.locks && s.locks[p] == t && p in s.data.pieces && s.data.pieces[p] == s.txns[t].locked[p])
    && (forall t :: t in s.txns && (s.txns[t].Working? || s.txns[t].Fetched?) ==> TxnInv(s, s.txns[t]))
  }

  // What was read is the current piece, or an older version of it; what was checked and found is locked.
  ghost predicate TxnInv(s: Sys, txn: Txn)
    requires txn.Working? || txn.Fetched?
  {
    && txn.n <= |txn.req.body.items|
    && (forall p :: p in txn.read ==>
          && p in s.data.pieces && txn.read[p].version <= s.data.pieces[p].version
          && (txn.read[p].version == s.data.pieces[p].version ==> txn.read[p] == s.data.pieces[p])
          && (p in PiecesOf(txn.req.body.items[..txn.n]) && !txn.read[p].deleted ==> p in txn.locked))
    && (txn.Fetched? ==> txn.n < |txn.req.body.items| && txn.req.body.items[txn.n].piece in txn.read)
  }

  // A step leaves a piece alone or gives it a later version, and only its holder changes a locked piece.
  lemma PiecesMoveForward(s: Sys, a: Action, s': Sys, p: PieceId)
    requires ReadInv(s) && Step(s, a, s') && p in s.data.pieces
    ensures p in s'.data.pieces
    ensures s'.data.pieces[p] == s.data.pieces[p] || s'.data.pieces[p].version > s.data.pieces[p].version
    ensures p in s.locks && a != Finish(s.locks[p]) ==> s'.data.pieces[p] == s.data.pieces[p]
  {
    if a.Finish? && s'.data != s.data {
      FinishHoldsItsPieces(s, a.t, p);
    }
  }

  lemma StepKeepsTxnInv(s: Sys, a: Action, s': Sys, t: Tid)
    requires ReadInv(s) && Step(s, a, s') && t in s'.txns && (s'.txns[t].Working? || s'.txns[t].Fetched?)
    ensures TxnInv(s', s'.txns[t])
  {
    StandsStill(s, a, s', t);
    if a == Lookup(t) {
      LookupKeepsTxnInv(s, s', t);
    } else if a == Fetch(t) {
      FetchKeepsTxnInv(s, s', t);
    } else if a == Lock(t) {
      LockKeepsTxnInv(s, s', t);
    } else {
      assert TxnInv(s, s.txns[t]);
      forall p | p in s.txns[t].read ensures Forward(s, s', p) { PiecesMoveForward(s, a, s', p); }
      OldReadsStay(s, s', s.txns[t]);
    }
  }

  // The piece is as it was, or later.
  ghost predicate Forward(s: Sys, s': Sys, p: PieceId) {
    && p in s.data.pieces && p in s'.data.pieces
    && (s'.data.pieces[p] == s.data.pieces[p] || s'.data.pieces[p].version > s.data.pieces[p].version)
  }

  lemma OldReadsStay(s: Sys, s': Sys, txn: Txn)
    requires (txn.Working? || txn.Fetched?) && TxnInv(s, txn) && forall p :: p in txn.read ==> Forward(s, s', p)
    ensures TxnInv(s', txn)
  {
  }

  lemma LookupKeepsTxnInv(s: Sys, s': Sys, t: Tid)
    requires Step(s, Lookup(t), s') && s'.txns[t].Working?
    ensures TxnInv(s', s'.txns[t])
  {
  }

  lemma FetchKeepsTxnInv(s: Sys, s': Sys, t: Tid)
    requires ReadInv(s) && Step(s, Fetch(t), s')
    ensures TxnInv(s', s'.txns[t])
  {
    assert TxnInv(s, s.txns[t]);
    OneMorePiece(s.txns[t].req.body.items, s.txns[t].n);
  }

  lemma LockKeepsTxnInv(s: Sys, s': Sys, t: Tid)
    requires ReadInv(s) && Step(s, Lock(t), s')
    ensures TxnInv(s', s'.txns[t])
  {
    assert TxnInv(s, s.txns[t]);
    OneMorePiece(s.txns[t].req.body.items, s.txns[t].n);
  }

  lemma StepKeepsReadInv(s: Sys, a: Action, s': Sys)
    requires ReadInv(s) && Step(s, a, s')
    ensures ReadInv(s')
  {
    forall t | t in s'.txns && (s'.txns[t].Working? || s'.txns[t].Fetched?) ensures TxnInv(s', s'.txns[t]) {
      StepKeepsTxnInv(s, a, s', t);
    }
    forall t, p | Holds(s', t, p)
      ensures p in s'.locks && s'.locks[p] == t && p in s'.data.pieces && s'.data.pieces[p] == s'.txns[t].locked[p]
    {
      HeldPieceStays(s, a, s', t, p);
    }
  }

  lemma HeldPieceStays(s: Sys, a: Action, s': Sys, t: Tid, p: PieceId)
    requires ReadInv(s) && Step(s, a, s') && Holds(s', t, p)
    ensures p in s'.locks && s'.locks[p] == t && p in s'.data.pieces && s'.data.pieces[p] == s'.txns[t].locked[p]
  {
    if a != Lock(t) || p != s.txns[t].req.body.items[s.txns[t].n].piece {
      HeldBefore(s, a, s', t, p);
      LockStays(s, a, s', t, p);
      PiecesMoveForward(s, a, s', p);
    }
  }

  lemma HeldBefore(s: Sys, a: Action, s': Sys, t: Tid, p: PieceId)
    requires Step(s, a, s') && Holds(s', t, p)
    requires a == Lock(t) ==> p != s.txns[t].req.body.items[s.txns[t].n].piece
    ensures Holds(s, t, p) && s'.txns[t].locked[p] == s.txns[t].locked[p] && a != Finish(t)
  {
  }

  lemma LockStays(s: Sys, a: Action, s': Sys, t: Tid, p: PieceId)
    requires Step(s, a, s') && Holds(s', t, p) && Holds(s, t, p) && p in s.locks && s.locks[p] == t
    ensures p in s'.locks && s'.locks[p] == t
  {
  }

  // A request about to commit holds the lock of every piece of its batch.
  lemma FinishHoldsItsPieces(s: Sys, t: Tid, p: PieceId)
    requires ReadInv(s) && t in s.txns && s.txns[t].Working? && s.txns[t].n == |s.txns[t].req.body.items|
    requires Failures(s.txns[t].read, s.txns[t].req.body, s.txns[t].n) == []
    ensures p in PiecesOf(s.txns[t].req.body.items) ==> Holds(s, t, p) && s.locks[p] == t && p in s.txns[t].read
  {
    var txn := s.txns[t];
    assert TxnInv(s, txn);
    BatchSucceedsExactlyWhenExecutable(txn.read, txn.req.body);
    assert txn.req.body.items[..txn.n] == txn.req.body.items;
  }

  lemma {:induction false} RunKeepsReadInv(ss: seq<Sys>, acts: seq<Action>, i: nat)
    requires Run(ss, acts) && i < |ss|
    ensures ReadInv(ss[i])
  {
    if i > 0 {
      RunKeepsReadInv(ss, acts, i - 1);
      StepKeepsReadInv(ss[i - 1], acts[i - 1], ss[i]);
    }
  }

  lemma ReadIsCurrent(s: Sys, t: Tid)
    requires ReadInv(s) && t in s.txns && s.txns[t].Working?
    requires s.txns[t].req.body.kind == Move && VersionsMatch(s, s.txns[t].req.body, s.txns[t].read)
    ensures forall p :: p in PiecesOf(s.txns[t].req.body.items) ==>
              p in s.txns[t].read && p in s.data.pieces && s.txns[t].read[p] == s.data.pieces[p]
  {
    assert TxnInv(s, s.txns[t]);
  }

  lemma MoveCommitIsAtomic(s: Sys, t: Tid, s': Sys)
    requires ReadInv(s) && Step(s, Finish(t), s') && s'.data != s.data && s.txns[t].req.body.kind == Move
    ensures var req := s.txns[t].req;
            && Executable(s.data.pieces, req.body)
            && Written(s.data, req, t, s.now) == (s'.data, s'.txns[t].outcome.answer)
  {
    var Working(req, n, read, _) := s.txns[t];
    ReadIsCurrent(s, t);
    BatchSucceedsExactlyWhenExecutable(read, req.body);
    SamePiecesSameBatch(read, s.data.pieces, req.body, t);
  }

  // What a batch does depends on its own pieces only.
  lemma SamePiecesSameBatch(read: map<PieceId, Piece>, pieces: map<PieceId, Piece>, body: Body, t: Tid)
    requires Executable(read, body)
    requires forall p :: p in PiecesOf(body.items) ==> p in read && p in pieces && read[p] == pieces[p]
    ensures Executable(pieces, body)
    ensures forall item :: item in body.items ==> item.piece in read && item.piece in pieces
    ensures Rows(read, body, t) == Rows(pieces, body, t)
  {
    forall k | 0 <= k < |body.items|
      ensures body.items[k].piece in pieces && read[body.items[k].piece] == pieces[body.items[k].piece]
    {
      assert body.items[k].piece in PiecesOf(body.items);
    }
  }

  /** A committed move batch has the effect of running alone on the data of the moment it commits, although its
      pieces were read earlier and without a lock: the versions would have stopped it otherwise. In particular
      every row leaves from where its piece then is. */
  lemma CommittedMovesAreAtomic(ss: seq<Sys>, acts: seq<Action>, i: nat, t: Tid)
    requires Run(ss, acts) && i < |acts| && acts[i] == Finish(t) && ss[i + 1].data != ss[i].data
    requires ss[i].txns[t].req.body.kind == Move
    ensures var req := ss[i].txns[t].req;
            && Executable(ss[i].data.pieces, req.body)
            && Written(ss[i].data, req, t, ss[i].now) == (ss[i + 1].data, ss[i + 1].txns[t].outcome.answer)
  {
    RunKeepsReadInv(ss, acts, i);
    assert Step(ss[i], acts[i], ss[i + 1]);
    MoveCommitIsAtomic(ss[i], t, ss[i + 1]);
  }

  /** A verification writes no piece, so no version stops it. It records the truth, in the sense of the lemma
      above, if and only if every piece of the batch was, when the request got its lock, still a piece that is not
      deleted and is at the destination. */
  lemma CommittedVerificationIsTrueExactlyWhenFresh(ss: seq<Sys>, acts: seq<Action>, i: nat, t: Tid)
    requires Run(ss, acts) && i < |acts| && acts[i] == Finish(t) && ss[i + 1].data != ss[i].data
    requires ss[i].txns[t].req.body.kind == Verification
    ensures var req, locked := ss[i].txns[t].req, ss[i].txns[t].locked;
            && PiecesOf(req.body.items) <= locked.Keys
            && ((forall p :: p in PiecesOf(req.body.items) ==>
                   !locked[p].deleted && locked[p].location == Some(req.body.destination))
                <==>
                (&& Executable(ss[i].data.pieces, req.body)
                 && Written(ss[i].data, req, t, ss[i].now) == (ss[i + 1].data, ss[i + 1].txns[t].outcome.answer)))
  {
    RunKeepsReadInv(ss, acts, i);
    var s, s' := ss[i], ss[i + 1];
    assert Step(s, acts[i], s');
    var Working(req, n, read, locked) := s.txns[t];
    BatchSucceedsExactlyWhenExecutable(read, req.body);
    forall p | p in PiecesOf(req.body.items) ensures p in locked && s.data.pieces[p] == locked[p] {
      FinishHoldsItsPieces(s, t, p);
    }
    forall k | 0 <= k < n ensures req.body.items[k].piece in PiecesOf(req.body.items) {}
    if forall p :: p in PiecesOf(req.body.items) ==> !locked[p].deleted && locked[p].location == Some(req.body.destination) {
      assert Executable(s.data.pieces, req.body);
      assert Rows(read, req.body, t) == Rows(s.data.pieces, req.body, t);
    }
  }

  /** The condition can fail: a piece that leaves between the read and the lock is recorded as verified where it
      no longer is. */
  lemma StaleVerificationIsRecorded()
    ensures exists ss: seq<Sys>, acts: seq<Action> ::
              && Run(ss, acts)
              && RecordsAVerification(ss[|acts|].data, 7, 1)
              && 7 in ss[|acts|].data.pieces && ss[|acts|].data.pieces[7].location != Some(1)
  {
    var ss, acts := StaleRun();
  }

  ghost predicate RecordsAVerification(data: Data, p: PieceId, l: LocationId) {
    exists row :: row in data.movements && row.kind == Verification && row.piece == p && row.from == Some(l) && row.to == l
  }

  lemma StaleFinish(s: Sys, body: Body, here: Piece, gone: Piece) returns (s': Sys)
    requires body == Body(Verification, 1, None, [Item(7, None)]) && here == Piece(Some(1), None, false, 1)
    requires 0 in s.txns
    requires s.txns[0] == Working(Request("", body, None), 1, map[7 := here], map[7 := gone])
    ensures Step(s, Finish(0), s') && s'.data.pieces == s.data.pieces && RecordsAVerification(s'.data, 7, 1)
  {
    var read := map[7 := here];
    assert body.items[..0] == [];
    assert Failures(read, body, 0) == [];
    assert Failures(read, body, 1) == [];
    s' := Committed(s, 0);
    var row := Movement(0, 7, Verification, Some(1), 1);
    assert Rows(read, body, 0) == [row];
    assert row in s'.data.movements;
  }

  lemma StaleStart(body: Body, here: Piece) returns (s0: Sys, s1: Sys, s2: Sys)
    requires body == Body(Verification, 1, None, [Item(7, None)])
    ensures Init(s0) && Step(s0, Begin(0, Request("", body, None)), s1) && Step(s1, Lookup(0), s2)
    ensures 0 in s2.txns && s2.txns[0] == Working(Request("", body, None), 0, map[], map[])
    ensures s2.locks == map[] && s2.data.pieces == map[7 := here]
  {
    var req := Request("", body, None);
    var data := Data(map[7 := here], map[1 := Location(false, true, false)], [], map[]);
    s0 := Sys(data, map[], map[], 0, map[]);
    s1 := s0.(txns := s0.txns[0 := Begun(req)]);
    s2 := s1.(txns := s1.txns[0 := Working(req, 0, map[], map[])]);
  }

  // The piece is read at location 1, and then another writer takes it away before the lock is granted.
  lemma StaleRead(s: Sys, body: Body, here: Piece, gone: Piece) returns (s1: Sys, s2: Sys, s3: Sys)
    requires body == Body(Verification, 1, None, [Item(7, None)]) && gone.version == here.version + 1 && !here.deleted
    requires 0 in s.txns && s.txns[0] == Working(Request("", body, None), 0, map[], map[])
    requires s.locks == map[] && s.data.pieces == map[7 := here]
    ensures Step(s, Fetch(0), s1) && Step(s1, WritePiece(7, gone), s2) && Step(s2, Lock(0), s3)
    ensures 0 in s3.txns && s3.txns[0] == Working(Request("", body, None), 1, map[7 := here], map[7 := gone])
    ensures s3.data.pieces == map[7 := gone]
  {
    var req := Request("", body, None);
    assert body.items[..0] == [];
    s1 := s.(txns := s.txns[0 := Fetched(req, 0, map[][7 := here], map[])]);
    s2 := s1.(data := s1.data.(pieces := s1.data.pieces[7 := gone]));
    s3 := s2.(txns := s2.txns[0 := Working(req, 1, map[][7 := here], map[][7 := gone])], locks := s2.locks[7 := 0]);
  }

  lemma StaleRun() returns (ss: seq<Sys>, acts: seq<Action>)
    ensures Run(ss, acts)
    ensures RecordsAVerification(ss[|acts|].data, 7, 1)
    ensures 7 in ss[|acts|].data.pieces && ss[|acts|].data.pieces[7].location != Some(1)
  {
    var here, gone := Piece(Some(1), None, false, 1), Piece(Some(2), None, false, 2);
    var body := Body(Verification, 1, None, [Item(7, None)]);
    var req := Request("", body, None);
    var s0, s1, s2 := StaleStart(body, here);
    var s3, s4, s5 := StaleRead(s2, body, here, gone);
    var s6 := StaleFinish(s5, body, here, gone);
    ss := [s0, s1, s2, s3, s4, s5, s6];
    acts := [Begin(0, req), Lookup(0), Fetch(0), WritePiece(7, gone), Lock(0), Finish(0)];
  }
}
