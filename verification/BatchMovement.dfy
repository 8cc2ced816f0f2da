/**
The endpoint that moves or verifies a batch of pieces (`POST /movements/batch`) over one request session.

`Execute` and `Handle` say what a request that runs alone does to the stored data. `Session` is the session the
program mutates: writes are pending until `Commit`, and `get_session` rolls back on every exit.
*/
module BatchMovement {
  import opened Common

  type PieceId = nat
  type LocationId = nat
  type TermId = nat
  type ExecId = nat
  type Time = int

  const BATCH_LIMIT := 200
  const SCOPE := "movements_batch"
  const TTL: Time := 86400

  // `version` is the optimistic counter of the row: every update of a piece moves it.
  datatype Piece = Piece(location: Option<LocationId>, availability: Option<TermId>, deleted: bool, version: nat)

  datatype Location = Location(deleted: bool, active: bool, isSite: bool)

  datatype Kind = Move | Verification | OtherKind

  datatype Item = Item(piece: PieceId, expectedFrom: Option<LocationId>)

  datatype Body = Body(kind: Kind, destination: LocationId, reason: Option<string>, items: seq<Item>)

  // `proposed` is the availability that the space of the destination suggests; the tree that gives it is not
  // modelled. The hash of the body is taken to be the body itself.
  datatype Request = Request(key: string, body: Body, proposed: Option<TermId>)

  // `origin` is the reference that all the rows of one execution share.
  datatype Movement = Movement(origin: ExecId, piece: PieceId, kind: Kind, from: Option<LocationId>, to: LocationId)

  datatype Code = DuplicatePiece | PieceNotFound | SameLocation | LocationChanged | VerificationMismatch

  datatype Failure = Failure(piece: PieceId, code: Code)

  datatype Record = Record(scope: string, request: Body, response: seq<Movement>, expiresAt: Time)

  datatype Data = Data(
    pieces: map<PieceId, Piece>,
    locations: map<LocationId, Location>,
    movements: seq<Movement>,
    keys: map<string, Record>)

  datatype Rejection =
    | KeyReused | DestinationNotFound | BatchTooLarge | BatchEmpty | InvalidKind | InvalidDestination | SpaceRequired

  datatype Answer =
    | Registered(rows: seq<Movement>)         // 201, or the stored answer of the key
    | Conflict(failures: seq<Failure>)        // 409: some piece had changed its location
    | Unprocessable(failures: seq<Failure>)   // 422: other failures only
    | Rejected(reason: Rejection)
    | IntegrityError                          // 409: the unique index of the keys refused the row

  // ---------------------------------------------------------------------- what a batch does

  // The failure of one item, given the pieces of the earlier items. The tests are in the order of the program.
  function ItemFailure(pieces: map<PieceId, Piece>, body: Body, item: Item, seen: set<PieceId>): Option<Code> {
    if item.piece in seen then Some(DuplicatePiece)
    else if item.piece !in pieces || pieces[item.piece].deleted then Some(PieceNotFound)
    else
      var here := pieces[item.piece].location;
      if body.kind == Move then
        if here == Some(body.destination) then Some(SameLocation)
        else if item.expectedFrom.Some? && here != item.expectedFrom then Some(LocationChanged)
        else None
      else if here != Some(body.destination) then Some(VerificationMismatch)
      else None
  }

  function PiecesOf(items: seq<Item>): set<PieceId> {
    set i | 0 <= i < |items| :: items[i].piece
  }

  function Failures(pieces: map<PieceId, Piece>, body: Body, n: nat): seq<Failure>
    requires n <= |body.items|
  {
    if n == 0 then []
    else
      var item := body.items[n - 1];
      Failures(pieces, body, n - 1)
      + match ItemFailure(pieces, body, item, PiecesOf(body.items[..n - 1])) {
        case None => []
        case Some(code) => [Failure(item.piece, code)]
      }
  }

  function Rows(pieces: map<PieceId, Piece>, body: Body, exec: ExecId): (rows: seq<Movement>)
    requires forall item :: item in body.items ==> item.piece in pieces
    ensures |rows| == |body.items|
    ensures forall i :: 0 <= i < |rows| ==>
              rows[i] == Movement(exec, body.items[i].piece, body.kind, pieces[body.items[i].piece].location, body.destination)
  {
    seq(|body.items|, i requires 0 <= i < |body.items| =>
      Movement(exec, body.items[i].piece, body.kind, pieces[body.items[i].piece].location, body.destination))
  }

  function Moved(p: Piece, destination: LocationId, proposed: Option<TermId>): Piece {
    Piece(Some(destination), if proposed.Some? then proposed else p.availability, p.deleted, p.version + 1)
  }

  // A move takes every piece of the batch to its destination; a verification writes no piece.
  function MovedPieces(pieces: map<PieceId, Piece>, body: Body, proposed: Option<TermId>): map<PieceId, Piece> {
    if body.kind != Move then pieces
    else map p | p in pieces ::
           if p in PiecesOf(body.items) then Moved(pieces[p], body.destination, proposed) else pieces[p]
  }

  function OneMoved(pieces: map<PieceId, Piece>, body: Body, p: PieceId, proposed: Option<TermId>): map<PieceId, Piece>
    requires p in pieces
  {
    if body.kind == Move then pieces[p := Moved(pieces[p], body.destination, proposed)] else pieces
  }

  lemma OneMorePiece(items: seq<Item>, n: nat)
    requires n < |items|
    ensures PiecesOf(items[..n + 1]) == PiecesOf(items[..n]) + {items[n].piece}
  {
    assert items[..n + 1] == items[..n] + [items[n]];
  }

  // Writing the items one at a time builds up the effect of the whole batch.
  lemma OneMoreMoved(pieces: map<PieceId, Piece>, body: Body, n: nat, proposed: Option<TermId>)
    requires n < |body.items| && Executable(pieces, body)
    ensures var p, before := body.items[n].piece, MovedPieces(pieces, body.(items := body.items[..n]), proposed);
            && p in before && before[p] == pieces[p]
            && MovedPieces(pieces, body.(items := body.items[..n + 1]), proposed) == OneMoved(before, body, p, proposed)
  {
    OneMorePiece(body.items, n);
    assert body.items[n].piece !in PiecesOf(body.items[..n]);
  }

  /** The batch has no failures if and only if its pieces are distinct, exist and are where the kind of the batch
      needs them: away from the destination and where the caller saw them, or at the destination. */
  ghost predicate Executable(pieces: map<PieceId, Piece>, body: Body) {
    && (forall i, j :: 0 <= i < j < |body.items| ==> body.items[i].piece != body.items[j].piece)
    && forall i :: 0 <= i < |body.items| ==>
         var item := body.items[i];
         && item.piece in pieces && !pieces[item.piece].deleted
         && if body.kind == Move then
              && pieces[item.piece].location != Some(body.destination)
              && (item.expectedFrom.Some? ==> pieces[item.piece].location == item.expectedFrom)
            else
              pieces[item.piece].location == Some(body.destination)
  }

  lemma {:induction false} NoFailuresUpTo(pieces: map<PieceId, Piece>, body: Body, n: nat)
    requires n <= |body.items|
    ensures Failures(pieces, body, n) == [] <==> Executable(pieces, body.(items := body.items[..n]))
  {
    if n > 0 {
      NoFailuresUpTo(pieces, body, n - 1);
      var shorter, longer := body.(items := body.items[..n - 1]), body.(items := body.items[..n]);
      assert longer.items == shorter.items + [body.items[n - 1]];
      var item := body.items[n - 1];
      assert item.piece in PiecesOf(shorter.items) <==>
             exists i :: 0 <= i < n - 1 && longer.items[i].piece == longer.items[n - 1].piece;
      if Executable(pieces, longer) {
        assert longer.items[n - 1] == item;
        assert forall i :: 0 <= i < n - 1 ==> shorter.items[i] == longer.items[i];
      }
    }
  }

  lemma BatchSucceedsExactlyWhenExecutable(pieces: map<PieceId, Piece>, body: Body)
    ensures Failures(pieces, body, |body.items|) == [] <==> Executable(pieces, body)
  {
    NoFailuresUpTo(pieces, body, |body.items|);
    assert body.items[..|body.items|] == body.items;
  }

  // What a failure of an item says.
  ghost predicate Explains(pieces: map<PieceId, Piece>, body: Body, i: nat, code: Code)
    requires i < |body.items|
  {
    var item := body.items[i];
    var again := exists j :: 0 <= j < i && body.items[j].piece == item.piece;
    var found := item.piece in pieces && !pieces[item.piece].deleted;
    match code
    case DuplicatePiece => again
    case PieceNotFound => !again && !found
    case SameLocation => !again && found && body.kind == Move && pieces[item.piece].location == Some(body.destination)
    case LocationChanged =>
      && !again && found && body.kind == Move && pieces[item.piece].location != Some(body.destination)
      && item.expectedFrom.Some? && pieces[item.piece].location != item.expectedFrom
    case VerificationMismatch =>
      !again && found && body.kind != Move && pieces[item.piece].location != Some(body.destination)
  }

  /** A failure is listed if and only if some item has it, for the reason that its code names. */
  lemma {:induction false} FailuresExplainThemselves(pieces: map<PieceId, Piece>, body: Body, n: nat, f: Failure)
    requires n <= |body.items|
    ensures f in Failures(pieces, body, n) <==>
            exists i :: 0 <= i < n && body.items[i].piece == f.piece && Explains(pieces, body, i, f.code)
  {
    if n > 0 {
      FailuresExplainThemselves(pieces, body, n - 1, f);
      ItemFailureExplains(pieces, body, n - 1, f.code);
    }
  }

  lemma ItemFailureExplains(pieces: map<PieceId, Piece>, body: Body, i: nat, code: Code)
    requires i < |body.items|
    ensures ItemFailure(pieces, body, body.items[i], PiecesOf(body.items[..i])) == Some(code)
            <==> Explains(pieces, body, i, code)
  {
    var item := body.items[i];
    assert item.piece in PiecesOf(body.items[..i]) <==> exists j :: 0 <= j < i && body.items[j].piece == item.piece by {
      if j :| 0 <= j < i && body.items[j].piece == item.piece { assert body.items[..i][j].piece == item.piece; }
    }
  }

  // ---------------------------------------------------------------------- what a request does

  function FindValid(data: Data, key: string, now: Time): Option<Record> {
    if key in data.keys && data.keys[key].scope == SCOPE && now <= data.keys[key].expiresAt
    then Some(data.keys[key]) else None
  }

  // The tests before any piece is read.
  function Precheck(data: Data, body: Body): Option<Rejection> {
    if body.destination !in data.locations || data.locations[body.destination].deleted then Some(DestinationNotFound)
    else if |body.items| > BATCH_LIMIT then Some(BatchTooLarge)
    else if body.items == [] then Some(BatchEmpty)
    else if body.kind == OtherKind then Some(InvalidKind)
    else if !data.locations[body.destination].active then Some(InvalidDestination)
    else if data.locations[body.destination].isSite then Some(SpaceRequired)
    else None
  }

  // What a batch needs before its pieces are read.
  predicate Accepted(data: Data, body: Body) {
    && body.destination in data.locations
    && var place := data.locations[body.destination];
       && !place.deleted && place.active && !place.isSite
       && 1 <= |body.items| <= 200 && (body.kind == Move || body.kind == Verification)
  }

  // What a refusal says. A reason is given only where those before it do not hold.
  predicate Refuses(data: Data, body: Body, reason: Rejection) {
    var known := body.destination in data.locations && !data.locations[body.destination].deleted;
    var sized := known && 1 <= |body.items| <= 200;
    match reason
    case DestinationNotFound => !known
    case BatchTooLarge => known && |body.items| >= 201
    case BatchEmpty => known && |body.items| == 0
    case InvalidKind => sized && body.kind != Move && body.kind != Verification
    case InvalidDestination => sized && body.kind != OtherKind && !data.locations[body.destination].active
    case SpaceRequired =>
      sized && body.kind != OtherKind && data.locations[body.destination].active && data.locations[body.destination].isSite
    case KeyReused => false
  }

  /** The tests before the pieces accept a batch exactly when its destination is a space that is active, it has between 1
      and 200 items and its kind is known; a refusal gives the reason that holds. */
  lemma PrecheckMeans(data: Data, body: Body)
    ensures Precheck(data, body).None? <==> Accepted(data, body)
    ensures forall reason :: Precheck(data, body) == Some(reason) <==> Refuses(data, body, reason)
  {
  }

  function FailureAnswer(failures: seq<Failure>): Answer {
    if exists f :: f in failures && f.code == LocationChanged then Conflict(failures) else Unprocessable(failures)
  }

  // What the data is after a batch without failures, and the answer.
  function Written(data: Data, req: Request, exec: ExecId, now: Time): (Data, Answer)
    requires Executable(data.pieces, req.body)
  {
    assert forall item :: item in req.body.items ==> item.piece in data.pieces;
    var rows := Rows(data.pieces, req.body, exec);
    var written := data.(pieces := MovedPieces(data.pieces, req.body, req.proposed), movements := data.movements + rows);
    if req.key == "" then (written, Registered(rows))
    else if req.key in data.keys then (data, IntegrityError)
    else (written.(keys := data.keys[req.key := Record(SCOPE, req.body, rows, now + TTL)]), Registered(rows))
  }

  function Execute(data: Data, req: Request, exec: ExecId, now: Time): (Data, Answer) {
    var rejection := Precheck(data, req.body);
    if rejection.Some? then (data, Rejected(rejection.value))
    else
      var failures := Failures(data.pieces, req.body, |req.body.items|);
      if failures != [] then (data, FailureAnswer(failures))
      else
        BatchSucceedsExactlyWhenExecutable(data.pieces, req.body);
        Written(data, req, exec, now)
  }

  // A request that runs alone: the stored data after it, and its answer.
  function Handle(data: Data, req: Request, exec: ExecId, now: Time): (Data, Answer) {
    var cached := if req.key != "" then FindValid(data, req.key, now) else None;
    match cached
    case Some(record) =>
      if record.request != req.body then (data, Rejected(KeyReused)) else (data, Registered(record.response))
    case None => Execute(data, req, exec, now)
  }

  /** All or nothing. A request stores something exactly when its batch is accepted and executable and its key is
      free, and then it did everything: one row per item in the order of the batch, from where the piece was to the
      destination; every piece of a move at the destination; all other pieces, locations and keys as before; and its
      key recorded with its answer. */
  lemma AllOrNothing(data: Data, req: Request, exec: ExecId, now: Time)
    ensures var (after, answer) := Handle(data, req, exec, now);
            && (after != data <==> Accepted(data, req.body) && Executable(data.pieces, req.body)
                                   && (req.key == "" || req.key !in data.keys))
            && (after != data ==>
                && answer.Registered? && answer.rows != []
                && after.movements == data.movements + answer.rows
                && |answer.rows| == |req.body.items|
                && (forall i :: 0 <= i < |answer.rows| ==>
                      var p := req.body.items[i].piece;
                      && p in data.pieces && p in after.pieces
                      && answer.rows[i] == Movement(exec, p, req.body.kind, data.pieces[p].location, req.body.destination)
                      && after.pieces[p].location == Some(req.body.destination) && !after.pieces[p].deleted
                      && after.pieces[p].version == data.pieces[p].version + (if req.body.kind == Move then 1 else 0)
                      && after.pieces[p].availability
                         == (if req.body.kind == Move && req.proposed.Some? then req.proposed
                             else data.pieces[p].availability))
                && after.pieces.Keys == data.pieces.Keys
                && (forall p :: p in data.pieces && (req.body.kind != Move || p !in PiecesOf(req.body.items)) ==>
                      after.pieces[p] == data.pieces[p])
                && after.locations == data.locations
                && after.keys == if req.key == "" then data.keys
                                 else data.keys[req.key := Record("movements_batch", req.body, answer.rows, now + 24 * 60 * 60)])
  {
    var (after, answer) := Handle(data, req, exec, now);
    BatchSucceedsExactlyWhenExecutable(data.pieces, req.body);
    PrecheckMeans(data, req.body);
    if Precheck(data, req.body).None? && Executable(data.pieces, req.body) && (req.key == "" || req.key !in data.keys) {
      assert |after.movements| == |data.movements| + |req.body.items| > |data.movements|;
    }
    if after != data {
      forall i | 0 <= i < |req.body.items| ensures req.body.items[i].piece in PiecesOf(req.body.items) {}
    }
  }

  // The batch that takes the same pieces to a place, from where the first one took them.
  function BackTo(body: Body, place: LocationId): Body {
    Body(Move, place, body.reason,
         seq(|body.items|, i requires 0 <= i < |body.items| => Item(body.items[i].piece, Some(body.destination))))
  }

  /** There and back: after a registered move of pieces from one place, the batch back finds every piece where it expects
      it. If that place takes it, it is registered, and then every piece is where it was, undeleted, two versions later;
      with its availability, too, unless the space of one of the destinations proposed another. */
  lemma ThereAndBack(
      data: Data, req: Request, exec: ExecId, now: Time, place: LocationId, proposed: Option<TermId>, exec': ExecId, now': Time)
    requires req.body.kind == Move && Handle(data, req, exec, now).0 != data
    requires forall i :: 0 <= i < |req.body.items| ==>
               req.body.items[i].piece in data.pieces && data.pieces[req.body.items[i].piece].location == Some(place)
    ensures var after, back := Handle(data, req, exec, now).0, BackTo(req.body, place);
            && Executable(after.pieces, back)
            && (Accepted(after, back) ==>
                  var (again, answer) := Handle(after, Request("", back, proposed), exec', now');
                  && answer.Registered? && again.pieces.Keys == data.pieces.Keys
                  && forall p :: p in data.pieces ==>
                       && again.pieces[p].location == data.pieces[p].location
                       && again.pieces[p].deleted == data.pieces[p].deleted
                       && (req.proposed.None? && proposed.None? ==>
                             again.pieces[p].availability == data.pieces[p].availability)
                       && again.pieces[p].version
                          == data.pieces[p].version + if p in PiecesOf(req.body.items) then 2 else 0)
  {
    var after, back := Handle(data, req, exec, now).0, BackTo(req.body, place);
    AllOrNothing(data, req, exec, now);
    assert Executable(data.pieces, req.body);
    assert forall i :: 0 <= i < |back.items| ==> back.items[i].piece == req.body.items[i].piece;
    assert Executable(after.pieces, back);
    var again := Request("", back, proposed);
    if Accepted(after, back) {
      AllOrNothing(after, again, exec', now');
      SamePieces(req.body, back);
      forall p | p in PiecesOf(req.body.items)
        ensures exists i :: 0 <= i < |req.body.items| && req.body.items[i].piece == p
      {
      }
    }
  }

  lemma SamePieces(a: Body, b: Body)
    requires |a.items| == |b.items| && forall i :: 0 <= i < |a.items| ==> a.items[i].piece == b.items[i].piece
    ensures PiecesOf(a.items) == PiecesOf(b.items)
  {
    forall p ensures p in PiecesOf(a.items) <==> p in PiecesOf(b.items) {
      if p in PiecesOf(a.items) {
        var i :| 0 <= i < |a.items| && a.items[i].piece == p;
        assert b.items[i].piece == p;
      }
      if p in PiecesOf(b.items) {
        var i :| 0 <= i < |b.items| && b.items[i].piece == p;
        assert a.items[i].piece == p;
      }
    }
  }

  /** A request that is not accepted, and not answered from its key, stores nothing and is refused for the reason that
      holds; so is one whose key is stored for another body. */
  lemma RefusalsStoreNothing(data: Data, req: Request, exec: ExecId, now: Time)
    ensures var (after, answer) := Handle(data, req, exec, now);
            && (answer.Rejected? ==> after == data)
            && (answer.Rejected? <==>
                if req.key != "" && FindValid(data, req.key, now).Some? then data.keys[req.key].request != req.body
                else !Accepted(data, req.body))
            && (answer.Rejected? ==> answer.reason == KeyReused || Refuses(data, req.body, answer.reason))
            && (answer == Rejected(KeyReused) <==>
                  && req.key != "" && req.key in data.keys && data.keys[req.key].scope == "movements_batch"
                  && now <= data.keys[req.key].expiresAt && data.keys[req.key].request != req.body)
  {
    PrecheckMeans(data, req.body);
  }

  /** A request with a failure stores nothing, and leaves its key as it was, so a corrected batch may reuse it. The
      answer lists the failures of the items, each for the reason that its code names, and its status is a conflict if
      and only if some piece of a move is neither where the request expects it nor at the destination. */
  lemma FailuresStoreNothing(data: Data, req: Request, exec: ExecId, now: Time)
    requires (req.key == "" || FindValid(data, req.key, now).None?) && Accepted(data, req.body)
    requires !Executable(data.pieces, req.body)
    ensures var (after, answer) := Handle(data, req, exec, now);
            var failures := Failures(data.pieces, req.body, |req.body.items|);
            && after == data && failures != []
            && (forall f :: f in failures <==> HasReason(data.pieces, req.body, f))
            && (answer == Conflict(failures) <==> SomeLocationChanged(data.pieces, req.body))
            && (answer == Unprocessable(failures) <==> !SomeLocationChanged(data.pieces, req.body))
  {
    BatchSucceedsExactlyWhenExecutable(data.pieces, req.body);
    PrecheckMeans(data, req.body);
    var failures := Failures(data.pieces, req.body, |req.body.items|);
    forall f ensures f in failures <==> HasReason(data.pieces, req.body, f) {
      FailuresExplainThemselves(data.pieces, req.body, |req.body.items|, f);
    }
    if SomeLocationChanged(data.pieces, req.body) {
      var i: nat :| i < |req.body.items| && Explains(data.pieces, req.body, i, LocationChanged);
      assert HasReason(data.pieces, req.body, Failure(req.body.items[i].piece, LocationChanged));
    }
  }

  // Some item has the failure.
  ghost predicate HasReason(pieces: map<PieceId, Piece>, body: Body, f: Failure) {
    exists i: nat :: i < |body.items| && body.items[i].piece == f.piece && Explains(pieces, body, i, f.code)
  }

  ghost predicate SomeLocationChanged(pieces: map<PieceId, Piece>, body: Body) {
    exists i: nat :: i < |body.items| && Explains(pieces, body, i, LocationChanged)
  }

  /** Retrying a registered batch with its key, before the key expires and whatever happened to the pieces in
      between, stores nothing and answers the same rows; the same key with another body is refused. */
  lemma RetryAnswersTheSame(
      data: Data, req: Request, exec: ExecId, now: Time, later: Data, retry: Request, exec': ExecId, now': Time)
    requires req.key != "" && Handle(data, req, exec, now).0 != data
    requires retry.key == req.key && now <= now' <= now + 24 * 60 * 60
    requires later.keys == Handle(data, req, exec, now).0.keys
    ensures Handle(later, retry, exec', now') ==
            (later, if retry.body == req.body then Handle(data, req, exec, now).1 else Rejected(KeyReused))
  {
    AllOrNothing(data, req, exec, now);
  }

  /** After the key expires its row still holds the unique index. A retry whose batch is executable then stores
      nothing either, but it is refused instead of answered: the key cannot be used again until it is cleaned. */
  lemma ExpiredKeyRefusesTheRetry(data: Data, req: Request, exec: ExecId, now: Time)
    requires req.key != "" && req.key in data.keys && now > data.keys[req.key].expiresAt
    requires Accepted(data, req.body) && Executable(data.pieces, req.body)
    ensures Handle(data, req, exec, now) == (data, IntegrityError)
  {
    PrecheckMeans(data, req.body);
    BatchSucceedsExactlyWhenExecutable(data.pieces, req.body);
  }

  // ---------------------------------------------------------------------- the session

  class Database {
    var data: Data

    constructor (data: Data)
      ensures this.data == data
    {
      this.data := data;
    }
  }

  class Session {
    const db: Database
    var work: Data   // what this session sees: the stored data and its own pending writes

    constructor (db: Database)
      ensures this.db == db && work == db.data
    {
      this.db := db;
      work := db.data;
    }

    method Commit()
      modifies db
      ensures db.data == work
    {
      db.data := work;
    }

    method Rollback()
      modifies this`work
      ensures work == db.data
    {
      work := db.data;
    }

    method CheckItem(body: Body, item: Item, seen: set<PieceId>) returns (failures: seq<Failure>)
      requires body.kind != OtherKind
      ensures failures == match ItemFailure(work.pieces, body, item, seen) {
                            case None => []
                            case Some(code) => [Failure(item.piece, code)]
                          }
    {
      failures := [];
      if item.piece in seen {
        failures := [Failure(item.piece, DuplicatePiece)];
      } else if item.piece !in work.pieces || work.pieces[item.piece].deleted {
        failures := [Failure(item.piece, PieceNotFound)];
      } else if body.kind == Move {
        if work.pieces[item.piece].location == Some(body.destination) {
          failures := [Failure(item.piece, SameLocation)];
        } else if item.expectedFrom.Some? && work.pieces[item.piece].location != item.expectedFrom {
          failures := [Failure(item.piece, LocationChanged)];
        }
      } else if work.pieces[item.piece].location != Some(body.destination) {
        failures := [Failure(item.piece, VerificationMismatch)];
      }
    }

    method CheckItems(body: Body) returns (failures: seq<Failure>)
      requires body.kind != OtherKind
      ensures failures == Failures(work.pieces, body, |body.items|)
    {
      failures := [];
      var seen: set<PieceId> := {};
      for n := 0 to |body.items|
        invariant seen == PiecesOf(body.items[..n])
        invariant failures == Failures(work.pieces, body, n)
      {
        var item := body.items[n];
        var found := CheckItem(body, item, seen);
        failures := failures + found;
        OneMorePiece(body.items, n);
        seen := seen + {item.piece};
      }
    }

    method WriteItem(body: Body, item: Item, proposed: Option<TermId>, exec: ExecId) returns (row: Movement)
      requires item.piece in work.pieces
      modifies this`work
      ensures row == Movement(exec, item.piece, body.kind, old(work).pieces[item.piece].location, body.destination)
      ensures work == old(work).(pieces := OneMoved(old(work.pieces), body, item.piece, proposed),
                                 movements := old(work.movements) + [row])
    {
      var piece := work.pieces[item.piece];
      row := Movement(exec, item.piece, body.kind, piece.location, body.destination);
      work := work.(movements := work.movements + [row]);
      if body.kind == Move {
        work := work.(pieces := work.pieces[item.piece := Moved(piece, body.destination, proposed)]);
      }
    }

    method WriteItems(body: Body, proposed: Option<TermId>, exec: ExecId) returns (rows: seq<Movement>)
      requires Executable(work.pieces, body)
      modifies this`work
      ensures rows == Rows(old(work.pieces), body, exec)
      ensures work == old(work).(pieces := MovedPieces(old(work.pieces), body, proposed),
                                 movements := old(work.movements) + rows)
    {
      ghost var before := work;
      rows := [];
      assert body.items[..0] == [] && MovedPieces(before.pieces, body.(items := []), proposed) == before.pieces;
      for n := 0 to |body.items|
        invariant rows == Rows(before.pieces, body, exec)[..n]
        invariant work == before.(pieces := MovedPieces(before.pieces, body.(items := body.items[..n]), proposed),
                                  movements := before.movements + rows)
      {
        OneMoreMoved(before.pieces, body, n, proposed);
        var row := WriteItem(body, body.items[n], proposed, exec);
        rows := rows + [row];
      }
      assert body.items[..|body.items|] == body.items;
    }

    /** The batch service: a first loop checks every item and collects the failures; a second one writes, only if
        there were none. */
    method MovePiecesBatch(body: Body, proposed: Option<TermId>, exec: ExecId)
      returns (rows: seq<Movement>, failures: seq<Failure>)
      requires body.kind != OtherKind
      modifies this`work
      ensures failures == Failures(old(work.pieces), body, |body.items|)
      ensures failures != [] ==> work == old(work)
      ensures failures == [] ==>
                && Executable(old(work.pieces), body)
                && rows == Rows(old(work.pieces), body, exec)
                && work == old(work).(pieces := MovedPieces(old(work.pieces), body, proposed),
                                      movements := old(work.movements) + rows)
    {
      rows := [];
      failures := CheckItems(body);
      if failures != [] {
        return;
      }
      BatchSucceedsExactlyWhenExecutable(work.pieces, body);
      rows := WriteItems(body, proposed, exec);
    }

    /** The endpoint. It commits only at its end, after the answer is stored under the key. */
    method MoveEndpoint(req: Request, exec: ExecId, now: Time) returns (answer: Answer)
      requires work == db.data
      modifies this`work, db
      ensures (db.data, answer) == Handle(old(db.data), req, exec, now)
    {
      if req.key != "" {
        var cached := FindValid(work, req.key, now);
        if cached.Some? {
          if cached.value.request != req.body {
            return Rejected(KeyReused);
          }
          return Registered(cached.value.response);
        }
      }
      var rejection := Precheck(work, req.body);
      if rejection.Some? {
        return Rejected(rejection.value);
      }
      var rows, failures := MovePiecesBatch(req.body, req.proposed, exec);
      if failures != [] {
        return FailureAnswer(failures);
      }
      if req.key != "" {
        if req.key in work.keys {
          return IntegrityError;
        }
        work := work.(keys := work.keys[req.key := Record(SCOPE, req.body, rows, now + TTL)]);
      }
      Commit();
      return Registered(rows);
    }
  }

  /** `get_session` around the endpoint: whatever the exit, what was not committed is gone. */
  method ServeRequest(db: Database, req: Request, exec: ExecId, now: Time) returns (answer: Answer, session: Session)
    modifies db
    ensures (db.data, answer) == Handle(old(db.data), req, exec, now)
    ensures session.db == db && session.work == db.data
  {
    session := new Session(db);
    answer := session.MoveEndpoint(req, exec, now);
    session.Rollback();
  }
}
