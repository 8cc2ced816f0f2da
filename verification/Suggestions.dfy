/**
The review of AI suggestions (`app/api/v1/admin.py`): created as pending, then approved, whole or in part, or rejected,
by one reviewer at a time. An approval writes the catalogue in the same transaction.

What approved data does to a sheet is foreign code, given as a function; it may fail after it has written something.
*/
module Suggestions {
  import opened Common

  type SuggestionId = nat
  type PieceId = nat
  type UserId = nat
  type Time = int
  type Field = string

  datatype Status = Pending | Approved | PartiallyApproved | Rejected

  datatype ApprovedData = ApprovedData(fields: seq<Field>, dimensionsText: Option<string>)

  datatype Suggestion = Suggestion(
    status: Status,
    piece: Option<PieceId>,
    output: seq<Field>,
    approved: Option<ApprovedData>,
    reviewedBy: Option<UserId>,
    reviewedAt: Option<Time>,
    reason: Option<string>)

  datatype Sheet = Sheet(deleted: bool, content: string)

  // What an attempt to apply leaves on the sheet, and whether it raised.
  datatype Attempt = Attempt(sheet: Sheet, raised: bool)

  type Apply = (ApprovedData, Sheet) -> Attempt

  // One entry per application to the catalogue that was committed; it is not part of the program.
  datatype Application = Application(id: SuggestionId, piece: PieceId, approved: ApprovedData)

  datatype Data = Data(suggestions: map<SuggestionId, Suggestion>, sheets: map<PieceId, Sheet>, log: seq<Application>)

  datatype Request =
    | Create(id: SuggestionId, piece: PieceId, output: Option<seq<Field>>)  // None: the AI service did not answer
    | Approve(id: SuggestionId, body: ApprovedData, user: UserId, at: Time)
    | Reject(id: SuggestionId, reason: string, user: UserId, at: Time)

  datatype Answer = Done(suggestion: Suggestion) | NotFound | AlreadyReviewed | EmptyApproval | ServiceUnavailable
                  | ApplicationFailed | IntegrityError

  // The three CHECK constraints of the table.
  predicate Checks(s: Suggestion) {
    && (s.status == Rejected ==> s.reason.Some?)
    && (s.status != Pending ==> s.reviewedBy.Some? && s.reviewedAt.Some?)
    && (s.status in {Approved, PartiallyApproved} ==> s.approved.Some?)
  }

  predicate AllChecks(data: Data) {
    forall id :: id in data.suggestions ==> Checks(data.suggestions[id])
  }

  function Visible(data: Data, piece: PieceId): bool { piece in data.sheets && !data.sheets[piece].deleted }

  function ApprovedSuggestion(s: Suggestion, body: ApprovedData, user: UserId, at: Time): Suggestion {
    s.(approved := Some(body),
       status := if |body.fields| >= |s.output| then Approved else PartiallyApproved,
       reviewedBy := Some(user), reviewedAt := Some(at))
  }

  // A request that runs alone: the stored data after it, and its answer.
  function Handle(apply: Apply, data: Data, req: Request): (Data, Answer) {
    match req
    case Create(id, piece, output) =>
      if !Visible(data, piece) then (data, NotFound)
      else if output.None? then (data, ServiceUnavailable)
      else if id in data.suggestions then (data, IntegrityError)
      else
        var s := Suggestion(Pending, Some(piece), output.value, None, None, None, None);
        (data.(suggestions := data.suggestions[id := s]), Done(s))
    case Approve(id, body, user, at) =>
      if id !in data.suggestions then (data, NotFound)
      else if data.suggestions[id].status != Pending then (data, AlreadyReviewed)
      else if body.fields == [] then (data, EmptyApproval)
      else
        var s := ApprovedSuggestion(data.suggestions[id], body, user, at);
        var reviewed := data.(suggestions := data.suggestions[id := s]);
        if s.piece.None? then (reviewed, Done(s))
        else if !Visible(data, s.piece.value) then (data, NotFound)
        else
          var attempt := apply(body, data.sheets[s.piece.value]);
          if attempt.raised then (data, ApplicationFailed)
          else (reviewed.(sheets := data.sheets[s.piece.value := attempt.sheet],
                          log := data.log + [Application(id, s.piece.value, body)]),
                Done(s))
    case Reject(id, reason, user, at) =>
      if id !in data.suggestions then (data, NotFound)
      else if data.suggestions[id].status != Pending then (data, AlreadyReviewed)
      else
        var s := data.suggestions[id].(status := Rejected, reason := Some(reason),
                                       reviewedBy := Some(user), reviewedAt := Some(at));
        (data.(suggestions := data.suggestions[id := s]), Done(s))
  }

  // ---------------------------------------------------------------------- the session

  class Database {
    var data: Data

    constructor (data: Data)
      ensures this.data == data
    {
      this.data := data;
    }
  }

  class Session {
    const db: Database
    var work: Data

    constructor (db: Database)
      ensures this.db == db && work == db.data
    {
      this.db := db;
      work := db.data;
    }

    // The database refuses a commit with a row that breaks a constraint.
    method Commit() returns (ok: bool)
      modifies db
      ensures ok <==> AllChecks(work)
      ensures db.data == if ok then work else old(db.data)
    {
      ok := forall id :: id in work.suggestions ==> Checks(work.suggestions[id]);
      if ok {
        db.data := work;
      }
    }

    method Rollback()
      modifies this`work
      ensures work == db.data
    {
      work := db.data;
    }

    /** The suggestion is written before the catalogue is, and the attempt leaves what it wrote in the session
        even when it raises. */
    method ApproveEndpoint(apply: Apply, id: SuggestionId, body: ApprovedData, user: UserId, at: Time)
      returns (answer: Answer)
      requires work == db.data && AllChecks(db.data)
      modifies this`work, db
      ensures (db.data, answer) == Handle(apply, old(db.data), Approve(id, body, user, at))
      ensures AllChecks(db.data)
    {
      if id !in work.suggestions {
        return NotFound;
      }
      var suggestion := work.suggestions[id];
      if suggestion.status != Pending {
        return AlreadyReviewed;
      }
      if body.fields == [] {
        return EmptyApproval;
      }
      suggestion := ApprovedSuggestion(suggestion, body, user, at);
      work := work.(suggestions := work.suggestions[id := suggestion]);
      if suggestion.piece.Some? {
        var piece := suggestion.piece.value;
        if !Visible(work, piece) {
          return NotFound;
        }
        var attempt := apply(body, work.sheets[piece]);
        work := work.(sheets := work.sheets[piece := attempt.sheet]);
        if attempt.raised {
          return ApplicationFailed;
        }
        work := work.(log := work.log + [Application(id, piece, body)]);
      }
      var ok := Commit();
      return if ok then Done(suggestion) else IntegrityError;
    }

    method RejectEndpoint(ghost apply: Apply, id: SuggestionId, reason: string, user: UserId, at: Time)
      returns (answer: Answer)
      requires work == db.data && AllChecks(db.data)
      modifies this`work, db
      ensures (db.data, answer) == Handle(apply, old(db.data), Reject(id, reason, user, at))
      ensures AllChecks(db.data)
    {
      if id !in work.suggestions {
        return NotFound;
      }
      var suggestion := work.suggestions[id];
      if suggestion.status != Pending {
        return AlreadyReviewed;
      }
      suggestion := suggestion.(status := Rejected, reason := Some(reason),
                                reviewedBy := Some(user), reviewedAt := Some(at));
      work := work.(suggestions := work.suggestions[id := suggestion]);
      var ok := Commit();
      return if ok then Done(suggestion) else IntegrityError;
    }

    method SuggestEndpoint(ghost apply: Apply, id: SuggestionId, piece: PieceId, output: Option<seq<Field>>)
      returns (answer: Answer)
      requires work == db.data && AllChecks(db.data)
      modifies this`work, db
      ensures (db.data, answer) == Handle(apply, old(db.data), Create(id, piece, output))
      ensures AllChecks(db.data)
    {
      if !Visible(work, piece) {
        return NotFound;
      }
      if output.None? {
        return ServiceUnavailable;
      }
      if id in work.suggestions {
        return IntegrityError;
      }
      var suggestion := Suggestion(Pending, Some(piece), output.value, None, None, None, None);
      work := work.(suggestions := work.suggestions[id := suggestion]);
      var ok := Commit();
      return if ok then Done(suggestion) else IntegrityError;
    }
  }

  /** `get_session` around an endpoint: a failing application leaves neither the review nor what it wrote. */
  method Serve(apply: Apply, db: Database, req: Request) returns (answer: Answer, session: Session)
    requires AllChecks(db.data)
    modifies db
    ensures (db.data, answer) == Handle(apply, old(db.data), req)
    ensures AllChecks(db.data)
    ensures session.db == db && session.work == db.data
  {
    session := new Session(db);
    match req {
      case Create(id, piece, output) => answer := session.SuggestEndpoint(apply, id, piece, output);
      case Approve(id, body, user, at) => answer := session.ApproveEndpoint(apply, id, body, user, at);
      case Reject(id, reason, user, at) => answer := session.RejectEndpoint(apply, id, reason, user, at);
    }
    session.Rollback();
  }

  // ---------------------------------------------------------------------- serial runs

  // The stored data before each request and after the last one. A run starts from any stored data that meet the
  // constraints, with the applications counted from there.
  ghost predicate Run(apply: Apply, ds: seq<Data>, reqs: seq<Request>) {
    && |ds| == |reqs| + 1
    && AllChecks(ds[0]) && ds[0].log == []
    && forall i {:trigger reqs[i]} :: 0 <= i < |reqs| ==> ds[i + 1] == Handle(apply, ds[i], reqs[i]).0
  }

  // The catalogue that results from applications, in order, to an initial one.
  function Replay(apply: Apply, sheets: map<PieceId, Sheet>, log: seq<Application>): map<PieceId, Sheet> {
    if log == [] then sheets
    else
      var before := Replay(apply, sheets, log[..|log| - 1]);
      var last := log[|log| - 1];
      if last.piece in before then before[last.piece := apply(last.approved, before[last.piece]).sheet] else before
  }

  function Times(log: seq<Application>, id: SuggestionId): nat {
    if log == [] then 0 else Times(log[..|log| - 1], id) + if log[|log| - 1].id == id then 1 else 0
  }

  ghost predicate Inv(apply: Apply, first: Data, data: Data) {
    && AllChecks(data)
    && data.sheets == Replay(apply, first.sheets, data.log)
    && (forall i :: 0 <= i < |data.log| ==> Recorded(data, data.log[i]))
    && (forall id {:trigger Times(data.log, id)} :: Times(data.log, id) == if AppliedSince(first, data, id) then 1 else 0)
    && (forall id :: Reviewed(first, id) ==> id in data.suggestions && data.suggestions[id] == first.suggestions[id])
  }

  // An application is of a suggestion that is approved, on its piece, with the data stored as approved.
  predicate Recorded(data: Data, a: Application) {
    && a.id in data.suggestions
    && var s := data.suggestions[a.id];
       s.status in {Approved, PartiallyApproved} && s.piece == Some(a.piece) && s.approved == Some(a.approved)
  }

  predicate Reviewed(data: Data, id: SuggestionId) {
    id in data.suggestions && data.suggestions[id].status != Pending
  }

  // The suggestion was approved since the first data, and it has a piece.
  predicate AppliedSince(first: Data, data: Data, id: SuggestionId) {
    && id in data.suggestions && data.suggestions[id].status in {Approved, PartiallyApproved}
    && data.suggestions[id].piece.Some? && !Reviewed(first, id)
  }

  // What a request does to the suggestions and to the log.
  lemma OneReview(apply: Apply, data: Data, req: Request)
    ensures var after := Handle(apply, data, req).0;
            && (forall id :: id in data.suggestions && id != req.id ==>
                  id in after.suggestions && after.suggestions[id] == data.suggestions[id])
            && (forall id :: id in after.suggestions && id != req.id ==> id in data.suggestions)
            && (Reviewed(data, req.id) ==> after == data)
            && (after.log == data.log || (req.Approve? && |after.log| > 0 && after.log[..|after.log| - 1] == data.log
                                          && after.log[|after.log| - 1].id == req.id))
  {
    var after := Handle(apply, data, req).0;
    if after.log != data.log {
      assert after.log[..|after.log| - 1] == data.log;
    }
  }

  lemma RequestKeepsChecks(apply: Apply, data: Data, req: Request)
    requires AllChecks(data)
    ensures AllChecks(Handle(apply, data, req).0)
  {
  }

  lemma RequestKeepsReplay(apply: Apply, first: Data, data: Data, req: Request)
    requires data.sheets == Replay(apply, first.sheets, data.log)
    ensures var after := Handle(apply, data, req).0; after.sheets == Replay(apply, first.sheets, after.log)
  {
    OneReview(apply, data, req);
  }

  lemma RequestKeepsRecords(apply: Apply, data: Data, req: Request)
    requires forall i :: 0 <= i < |data.log| ==> Recorded(data, data.log[i])
    ensures var after := Handle(apply, data, req).0; forall i :: 0 <= i < |after.log| ==> Recorded(after, after.log[i])
  {
    OneReview(apply, data, req);
    var after := Handle(apply, data, req).0;
    forall i | 0 <= i < |after.log| ensures Recorded(after, after.log[i]) {
      if i < |data.log| { assert Recorded(data, data.log[i]); }
    }
  }

  lemma RequestKeepsTimes(apply: Apply, first: Data, data: Data, req: Request, id: SuggestionId)
    requires Times(data.log, id) == if AppliedSince(first, data, id) then 1 else 0
    requires Reviewed(first, req.id) ==> Reviewed(data, req.id)
    ensures var after := Handle(apply, data, req).0;
            Times(after.log, id) == if AppliedSince(first, after, id) then 1 else 0
  {
    OneReview(apply, data, req);
  }

  lemma HandleKeepsInv(apply: Apply, first: Data, data: Data, req: Request)
    requires Inv(apply, first, data)
    ensures Inv(apply, first, Handle(apply, data, req).0)
  {
    RequestKeepsChecks(apply, data, req);
    RequestKeepsReplay(apply, first, data, req);
    RequestKeepsRecords(apply, data, req);
    OneReview(apply, data, req);
    var after := Handle(apply, data, req).0;
    forall id {:trigger Times(after.log, id)} ensures Times(after.log, id) == if AppliedSince(first, after, id) then 1 else 0 {
      RequestKeepsTimes(apply, first, data, req, id);
    }
  }

  lemma {:induction false} RunKeepsInv(apply: Apply, ds: seq<Data>, reqs: seq<Request>, i: nat)
    requires Run(apply, ds, reqs) && i < |ds|
    ensures Inv(apply, ds[0], ds[i])
  {
    if i > 0 {
      RunKeepsInv(apply, ds, reqs, i - 1);
      assert ds[i] == Handle(apply, ds[i - 1], reqs[i - 1]).0;
      HandleKeepsInv(apply, ds[0], ds[i - 1], reqs[i - 1]);
    }
  }

  /** In every stored state of every serial run, from any stored data: the three constraints hold; the catalogue is the
      initial one with the committed applications and nothing else; each of them is of an approved suggestion, with its
      approved data; and a suggestion was applied once if it was approved since the start and has a piece, and
      otherwise never. */
  lemma LifecycleIsSafe(apply: Apply, ds: seq<Data>, reqs: seq<Request>, i: nat, id: SuggestionId)
    requires Run(apply, ds, reqs) && i < |ds|
    ensures id in ds[i].suggestions ==>
              var s := ds[i].suggestions[id];
              && (s.status == Rejected ==> s.reason.Some?)
              && (s.status != Pending ==> s.reviewedBy.Some? && s.reviewedAt.Some?)
              && (s.status == Approved || s.status == PartiallyApproved ==> s.approved.Some?)
    ensures ds[i].sheets == Replay(apply, ds[0].sheets, ds[i].log)
    ensures forall k :: 0 <= k < |ds[i].log| ==> Recorded(ds[i], ds[i].log[k])
    ensures Times(ds[i].log, id) == if AppliedSince(ds[0], ds[i], id) then 1 else 0
  {
    RunKeepsInv(apply, ds, reqs, i);
  }

  /** A suggestion leaves the pending state at most once: once reviewed it never changes again. */
  lemma {:induction false} ReviewIsFinal(apply: Apply, ds: seq<Data>, reqs: seq<Request>, i: nat, j: nat, id: SuggestionId)
    requires Run(apply, ds, reqs) && i <= j < |ds| && Reviewed(ds[i], id)
    ensures id in ds[j].suggestions && ds[j].suggestions[id] == ds[i].suggestions[id]
    ensures Times(ds[j].log, id) == Times(ds[i].log, id)
    decreases j
  {
    if i < j {
      ReviewIsFinal(apply, ds, reqs, i, j - 1, id);
      assert ds[j] == Handle(apply, ds[j - 1], reqs[j - 1]).0;
      OneReview(apply, ds[j - 1], reqs[j - 1]);
    }
  }

  // What a request decided about a suggestion: partly approved if it takes fewer data than were proposed. The proposal
  // stays.
  predicate Decided(before: Suggestion, req: Request, after: Suggestion) {
    && after.piece == before.piece && after.output == before.output
    && match req
       case Create(_, _, _) => false
       case Approve(_, body, user, at) =>
         && body.fields != [] && after.approved == Some(body) && after.reason == before.reason
         && after.reviewedBy == Some(user) && after.reviewedAt == Some(at)
         && (after.status == PartiallyApproved <==> |body.fields| < |before.output|)
         && (after.status == Approved <==> |body.fields| >= |before.output|)
       case Reject(_, reason, user, at) =>
         && after.status == Rejected && after.reason == Some(reason) && after.approved == before.approved
         && after.reviewedBy == Some(user) && after.reviewedAt == Some(at)
  }

  // The request finds the suggestion pending and leaves it as given.
  predicate Reviews(data: Data, req: Request, id: SuggestionId, after: Suggestion) {
    && req.id == id && id in data.suggestions && data.suggestions[id].status == Pending
    && Decided(data.suggestions[id], req, after)
  }

  // No other request of the run is a review of it that succeeds.
  ghost predicate TheOnlyReview(apply: Apply, ds: seq<Data>, reqs: seq<Request>, j: nat, k: nat, id: SuggestionId)
    requires j <= |reqs| < |ds|
  {
    forall m :: 0 <= m < j && m != k && reqs[m].id == id && !reqs[m].Create? ==> !Handle(apply, ds[m], reqs[m]).1.Done?
  }

  lemma SuccessReviews(apply: Apply, data: Data, req: Request, id: SuggestionId)
    ensures var (after, answer) := Handle(apply, data, req);
            && (Reviewed(after, id) && !Reviewed(data, id) ==> Reviews(data, req, id, after.suggestions[id]))
            && (answer.Done? && !req.Create? && req.id == id ==> Reviewed(after, id) && !Reviewed(data, id))
  {
  }

  /** What is stored of a reviewed suggestion is what one request of the run decided, when it found it pending, and no
      other review of it succeeded before or after. */
  lemma {:induction false} ReviewIsThatOfOneRequest(
      apply: Apply, ds: seq<Data>, reqs: seq<Request>, j: nat, id: SuggestionId)
    requires Run(apply, ds, reqs) && j < |ds| && Reviewed(ds[j], id) && !Reviewed(ds[0], id)
    ensures exists k :: 0 <= k < j && Reviews(ds[k], reqs[k], id, ds[j].suggestions[id])
                        && TheOnlyReview(apply, ds, reqs, j, k, id)
  {
    var k := FirstReview(apply, ds, reqs, j, id);
    SuccessReviews(apply, ds[k], reqs[k], id);
    ReviewIsFinal(apply, ds, reqs, k + 1, j, id);
    forall m | 0 <= m < j && m != k && reqs[m].id == id && !reqs[m].Create?
      ensures !Handle(apply, ds[m], reqs[m]).1.Done?
    {
      SuccessReviews(apply, ds[m], reqs[m], id);
      if m > k {
        ReviewIsFinal(apply, ds, reqs, k + 1, m, id);
      } else if Reviewed(ds[m + 1], id) {
        ReviewIsFinal(apply, ds, reqs, m + 1, k, id);
      }
    }
  }

  // The request after which the suggestion is reviewed for the first time.
  lemma {:induction false} FirstReview(apply: Apply, ds: seq<Data>, reqs: seq<Request>, j: nat, id: SuggestionId)
    returns (k: nat)
    requires Run(apply, ds, reqs) && j < |ds| && Reviewed(ds[j], id) && !Reviewed(ds[0], id)
    ensures k < j && !Reviewed(ds[k], id) && Reviewed(ds[k + 1], id)
    ensures ds[k + 1] == Handle(apply, ds[k], reqs[k]).0
  {
    if Reviewed(ds[j - 1], id) {
      k := FirstReview(apply, ds, reqs, j - 1, id);
    } else {
      k := j - 1;
      assert ds[j] == Handle(apply, ds[j - 1], reqs[j - 1]).0;
    }
  }

  /** A creation that succeeds stores a suggestion on the requested piece, with the whole output of the service, pending
      and without any trace of a review; and nothing else. */
  lemma CreationAwaitsReview(apply: Apply, data: Data, id: SuggestionId, piece: PieceId, output: Option<seq<Field>>)
    ensures var (after, answer) := Handle(apply, data, Create(id, piece, output));
            answer.Done? ==>
              && id !in data.suggestions && after == data.(suggestions := data.suggestions[id := answer.suggestion])
              && var s := answer.suggestion;
                 && s.status == Pending && s.piece == Some(piece) && Some(s.output) == output
                 && s.approved.None? && s.reviewedBy.None? && s.reviewedAt.None? && s.reason.None?
  {
  }

  // A suggestion keeps its piece and what was proposed.
  lemma {:induction false} ProposalStays(apply: Apply, ds: seq<Data>, reqs: seq<Request>, i: nat, j: nat, id: SuggestionId)
    requires Run(apply, ds, reqs) && i <= j < |ds| && id in ds[i].suggestions
    ensures id in ds[j].suggestions
    ensures ds[j].suggestions[id].piece == ds[i].suggestions[id].piece
    ensures ds[j].suggestions[id].output == ds[i].suggestions[id].output
    decreases j
  {
    if i < j {
      ProposalStays(apply, ds, reqs, i, j - 1, id);
      assert ds[j] == Handle(apply, ds[j - 1], reqs[j - 1]).0;
      ProposalStep(apply, ds[j - 1], reqs[j - 1], id);
    }
  }

  lemma ProposalStep(apply: Apply, data: Data, req: Request, id: SuggestionId)
    requires id in data.suggestions
    ensures var after := Handle(apply, data, req).0;
            && id in after.suggestions && after.suggestions[id].piece == data.suggestions[id].piece
            && after.suggestions[id].output == data.suggestions[id].output
  {
  }

  /** From creation to catalogue: a suggestion that some request of the run created for a piece was applied exactly once
      if it is approved, and otherwise never; and what was applied went to that piece, with the data stored as approved. */
  lemma CreatedThenAppliedOnce(
      apply: Apply, ds: seq<Data>, reqs: seq<Request>, i: nat, j: nat, id: SuggestionId, piece: PieceId,
      output: Option<seq<Field>>)
    requires Run(apply, ds, reqs) && i < j < |ds| && reqs[i] == Create(id, piece, output)
    requires Handle(apply, ds[i], reqs[i]).1.Done?
    ensures id in ds[j].suggestions && ds[j].suggestions[id].piece == Some(piece)
    ensures Some(ds[j].suggestions[id].output) == output
    ensures Times(ds[j].log, id) == if ds[j].suggestions[id].status in {Approved, PartiallyApproved} then 1 else 0
    ensures forall k :: 0 <= k < |ds[j].log| && ds[j].log[k].id == id ==>
              ds[j].log[k].piece == piece && Some(ds[j].log[k].approved) == ds[j].suggestions[id].approved
  {
    assert ds[i + 1] == Handle(apply, ds[i], reqs[i]).0;
    CreationAwaitsReview(apply, ds[i], id, piece, output);
    ProposalStays(apply, ds, reqs, i + 1, j, id);
    LifecycleIsSafe(apply, ds, reqs, j, id);
    if Reviewed(ds[0], id) {
      ReviewIsFinal(apply, ds, reqs, 0, i + 1, id);
    }
  }

  // What a request needs: a visible piece, an answer of the service and a new id; or a pending suggestion and, to approve
  // it, something to approve and a sheet that takes it, if it has one.
  predicate Acceptable(apply: Apply, data: Data, req: Request) {
    match req
    case Create(id, piece, output) => InCatalogue(data, piece) && output.Some? && id !in data.suggestions
    case Reject(id, _, _, _) => id in data.suggestions && !Reviewed(data, id)
    case Approve(id, body, _, _) =>
      && id in data.suggestions && !Reviewed(data, id) && body.fields != []
      && (data.suggestions[id].piece.Some? ==>
            var piece := data.suggestions[id].piece.value;
            InCatalogue(data, piece) && !apply(body, data.sheets[piece]).raised)
  }

  predicate InCatalogue(data: Data, piece: PieceId) {
    piece in data.sheets && data.sheets[piece].deleted == false
  }

  /** A request succeeds exactly when it is acceptable. One that does not changes nothing, neither the suggestion nor the
      catalogue; one that does answers what it stored, and only an approval writes, on the sheet of its own piece. */
  lemma FailureChangesNothing(apply: Apply, data: Data, req: Request)
    ensures var (after, answer) := Handle(apply, data, req);
            && (answer.Done? <==> Acceptable(apply, data, req))
            && (!answer.Done? ==> after == data)
            && (answer.Done? ==> req.id in after.suggestions && after.suggestions[req.id] == answer.suggestion
                                 && (req.Create? <==> answer.suggestion.status == Pending))
            && (answer.Done? && after.sheets != data.sheets ==> req.Approve? && |after.log| == |data.log| + 1)
            && (forall p :: p in data.sheets && after.sheets != data.sheets && Some(p) != answer.suggestion.piece ==>
                  p in after.sheets && after.sheets[p] == data.sheets[p])
  {
  }
}
