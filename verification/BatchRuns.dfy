/**
Runs put together one request at a time: what is reachable from a state, how a request moves on when nothing stops it,
and a run in which a key expires.
*/
module BatchRuns {
  import opened Common
  import opened BatchMovement
  import opened BatchProtocol

  ghost predicate Path(ss: seq<Sys>, acts: seq<Action>) {
    |ss| == |acts| + 1 && forall i {:trigger acts[i]} :: 0 <= i < |acts| ==> Step(ss[i], acts[i], ss[i + 1])
  }

  ghost predicate Reaches(s: Sys, s': Sys) {
    exists ss: seq<Sys>, acts: seq<Action> :: Path(ss, acts) && ss[0] == s && ss[|acts|] == s'
  }

  lemma ReachesSelf(s: Sys)
    ensures Reaches(s, s)
  {
    var ss, acts: seq<Action> := [s], [];
    assert Path(ss, acts) && ss[0] == s && ss[|acts|] == s;
  }

  lemma ReachesNext(start: Sys, s: Sys, a: Action, s': Sys)
    requires Reaches(start, s) && Step(s, a, s')
    ensures Reaches(start, s')
  {
    var ss, acts :| Path(ss, acts) && ss[0] == start && ss[|acts|] == s;
    var ss', acts' := ss + [s'], acts + [a];
    forall i | 0 <= i < |acts'| ensures Step(ss'[i], acts'[i], ss'[i + 1]) {
      if i < |acts| { assert acts'[i] == acts[i]; }
    }
    assert Path(ss', acts') && ss'[0] == start && ss'[|acts'|] == s';
  }

  const OPEN := Location(false, true, false)

  // The tests of a request that do not depend on the data.
  predicate WellFormed(body: Body) {
    0 < |body.items| <= BATCH_LIMIT && body.kind != OtherKind
  }

  // A fetch that asks for no lock.
  ghost predicate Skips(s: Sys, items: seq<Item>, n: nat)
    requires n < |items|
  {
    var p := items[n].piece;
    p in PiecesOf(items[..n]) || p !in s.data.pieces || s.data.pieces[p].deleted
  }

  lemma SkipOne(s: Sys, t: Tid) returns (s': Sys)
    requires t in s.txns && s.txns[t].Working? && s.txns[t].n < |s.txns[t].req.body.items|
    requires Skips(s, s.txns[t].req.body.items, s.txns[t].n)
    ensures Step(s, Fetch(t), s') && t in s'.txns && s'.txns[t].Working? && s' == s.(txns := s.txns[t := s'.txns[t]])
    ensures s'.txns[t].req == s.txns[t].req && s'.txns[t].n == s.txns[t].n + 1 && s'.txns[t].locked == s.txns[t].locked
  {
    var Working(req, n, read, locked) := s.txns[t];
    var p := req.body.items[n].piece;
    var read' := if p in PiecesOf(req.body.items[..n]) || p !in s.data.pieces then read else read[p := s.data.pieces[p]];
    s' := s.(txns := s.txns[t := Working(req, n + 1, read', locked)]);
  }

  lemma {:induction false} SkipTo(start: Sys, s: Sys, t: Tid, n: nat) returns (s': Sys)
    requires Reaches(start, s) && t in s.txns && s.txns[t].Working? && s.txns[t].n <= n <= |s.txns[t].req.body.items|
    requires forall i :: s.txns[t].n <= i < n ==> Skips(s, s.txns[t].req.body.items, i)
    ensures Reaches(start, s') && t in s'.txns && s'.txns[t].Working? && s' == s.(txns := s.txns[t := s'.txns[t]])
    ensures s'.txns[t].req == s.txns[t].req && s'.txns[t].n == n && s'.txns[t].locked == s.txns[t].locked
    decreases n - s.txns[t].n
  {
    if s.txns[t].n == n {
      s' := s;
    } else {
      var next := SkipOne(s, t);
      ReachesNext(start, s, Fetch(t), next);
      forall i | next.txns[t].n <= i < n ensures Skips(next, next.txns[t].req.body.items, i) {
        assert Skips(s, s.txns[t].req.body.items, i);
      }
      s' := SkipTo(start, next, t, n);
    }
  }

  ghost predicate MayEnter(s: Sys, t: Tid, req: Request) {
    && t !in s.txns && !Origin(s.data, t) && WellFormed(req.body)
    && req.body.destination in s.data.locations && s.data.locations[req.body.destination] == OPEN
    && (req.key in s.data.keys ==> s.now > s.data.keys[req.key].expiresAt)
  }

  lemma Enter(start: Sys, s: Sys, t: Tid, req: Request) returns (s': Sys)
    requires Reaches(start, s) && MayEnter(s, t, req)
    ensures Reaches(start, s') && s' == s.(txns := s.txns[t := Working(req, 0, map[], map[])])
  {
    var begun := s.(txns := s.txns[t := Begun(req)]);
    ReachesNext(start, s, Begin(t, req), begun);
    s' := s.(txns := s.txns[t := Working(req, 0, map[], map[])]);
    assert FindValid(begun.data, req.key, begun.now).None?;
    assert Precheck(begun.data, req.body).None?;
    assert s' == begun.(txns := begun.txns[t := Working(req, 0, map[], map[])]);
    ReachesNext(start, begun, Lookup(t), s');
  }

  // A fetch that asks for a lock.
  lemma AskOne(s: Sys, t: Tid) returns (s': Sys)
    requires t in s.txns && s.txns[t].Working? && s.txns[t].n < |s.txns[t].req.body.items|
    requires !Skips(s, s.txns[t].req.body.items, s.txns[t].n)
    ensures Step(s, Fetch(t), s') && t in s'.txns && s'.txns[t].Fetched? && s' == s.(txns := s.txns[t := s'.txns[t]])
    ensures s'.txns[t].req == s.txns[t].req && s'.txns[t].n == s.txns[t].n && s'.txns[t].locked == s.txns[t].locked
    ensures var p := s.txns[t].req.body.items[s.txns[t].n].piece;
            s'.txns[t].read == s.txns[t].read[p := s.data.pieces[p]]
  {
    var Working(req, n, read, locked) := s.txns[t];
    var p := req.body.items[n].piece;
    s' := s.(txns := s.txns[t := Fetched(req, n, read[p := s.data.pieces[p]], locked)]);
  }

  lemma Take(start: Sys, s: Sys, t: Tid) returns (s': Sys)
    requires Reaches(start, s) && t in s.txns && s.txns[t].Working? && s.txns[t].n < |s.txns[t].req.body.items|
    requires !Skips(s, s.txns[t].req.body.items, s.txns[t].n)
    requires s.txns[t].req.body.items[s.txns[t].n].piece !in s.locks
    ensures Reaches(start, s') && t in s'.txns && s'.txns[t].Working?
    ensures s'.txns[t].req == s.txns[t].req && s'.txns[t].n == s.txns[t].n + 1
    ensures var p := s.txns[t].req.body.items[s.txns[t].n].piece;
            s'.txns[t].read == s.txns[t].read[p := s.data.pieces[p]]
    ensures var p := s.txns[t].req.body.items[s.txns[t].n].piece;
            s' == s.(txns := s.txns[t := s'.txns[t]], locks := s.locks[p := t])
  {
    var asked := AskOne(s, t);
    ReachesNext(start, s, Fetch(t), asked);
    var Fetched(req, n, read, locked) := asked.txns[t];
    var p := req.body.items[n].piece;
    s' := asked.(txns := asked.txns[t := Working(req, n + 1, read, locked[p := s.data.pieces[p]])],
                 locks := asked.locks[p := t]);
    ReachesNext(start, asked, Lock(t), s');
    assert s'.txns == s.txns[t := s'.txns[t]];
  }

  // ---------------------------------------------------------------------- a lost answer

  /** Why the keys are there: from any state in which a request with a key has its rows, its answer may be lost, and as
      long as the key is valid the same request, sent again, is answered with the same rows and stores nothing more. */
  lemma LostAnswerIsGivenAgain(ss: seq<Sys>, acts: seq<Action>, i: nat, t: Tid, u: Tid)
    returns (lost: Sys, again: Sys, end: Sys)
    requires Run(ss, acts) && i < |ss| && t in ss[i].txns && Succeeded(ss[i], t) && ss[i].txns[t].req.key != ""
    requires FindValid(ss[i].data, ss[i].txns[t].req.key, ss[i].now).Some?
    requires u !in ss[i].txns && !Origin(ss[i].data, u)
    ensures var req := ss[i].txns[t].req;
            && Step(ss[i], LoseAnswer(t), lost) && Step(lost, Begin(u, req), again) && Step(again, Lookup(u), end)
            && t in end.txns && u in end.txns && end.data == ss[i].data
            && end.txns[t] == Done(req, Unanswered)
            && end.txns[u] == Done(req, ss[i].txns[t].outcome)
  {
    RunKeepsOnce(ss, acts, i);
    var s, req := ss[i], ss[i].txns[t].req;
    assert AnswerStored(s, t);
    lost := s.(txns := s.txns[t := Done(req, Unanswered)]);
    again := lost.(txns := lost.txns[u := Begun(req)]);
    end := End(again, u, s.txns[t].outcome);
  }

  // ---------------------------------------------------------------------- a key that expires

  lemma VerifiesHere(read: map<PieceId, Piece>, body: Body)
    requires |body.items| == 1 && body.items[0].piece in read && body.kind == Verification
    requires !read[body.items[0].piece].deleted && read[body.items[0].piece].location == Some(body.destination)
    ensures Failures(read, body, |body.items|) == [] && Executable(read, body)
  {
    assert Executable(read, body);
    BatchSucceedsExactlyWhenExecutable(read, body);
  }

  /** A run in which a batch is registered under a key, the key expires, and the same request is refused for good:
      it is neither answered as before nor run again. */
  lemma ExpiredKeyIsRefusedInARun()
    ensures exists ss: seq<Sys>, acts: seq<Action> :: Run(ss, acts) && RefusesItsRetry(ss[|acts|], 0, 1)
  {
    var body := Body(Verification, 1, None, [Item(7, None)]);
    var req := Request("key", body, None);
    var start := Sys(Data(map[7 := Piece(Some(1), None, false, 1)], map[1 := OPEN], [], map[]), map[], map[], 0, map[]);
    ReachesSelf(start);
    var stored := Register(start, req);
    var late := stored.(now := stored.now + TTL + 1);
    ReachesNext(start, stored, Tick(TTL + 1), late);
    var end := Refuse(start, late, req);
    var ss, acts :| Path(ss, acts) && ss[0] == start && ss[|acts|] == end;
    assert Run(ss, acts);
  }

  ghost predicate RefusesItsRetry(s: Sys, t: Tid, u: Tid) {
    && t in s.txns && u in s.txns && s.txns[t].Done? && s.txns[u].Done? && s.txns[t].req == s.txns[u].req
    && s.txns[t].req.key in s.data.keys && s.now > s.data.keys[s.txns[t].req.key].expiresAt
    && Succeeded(s, t) && s.txns[u].outcome == Answered(IntegrityError) && RowsOf(s.data.movements, u) == []
  }

  ghost predicate OnePieceHere(s: Sys, req: Request) {
    && |req.body.items| == 1 && req.body.items[0].piece in s.data.pieces && req.body.kind == Verification
    && !s.data.pieces[req.body.items[0].piece].deleted && s.locks == map[]
    && s.data.pieces[req.body.items[0].piece].location == Some(req.body.destination)
  }

  // The request comes to its end with nothing to object.
  lemma ReadyToFinish(start: Sys, s: Sys, t: Tid, req: Request) returns (s': Sys)
    requires Reaches(start, s) && MayEnter(s, t, req) && OnePieceHere(s, req)
    ensures Reaches(start, s') && s'.data == s.data && s'.now == s.now && s'.owner == s.owner && t in s'.txns
    ensures s'.txns == s.txns[t := s'.txns[t]] && s'.locks == map[req.body.items[0].piece := t]
    ensures s'.txns[t].Working? && s'.txns[t].req == req && s'.txns[t].n == 1
    ensures Failures(s'.txns[t].read, req.body, 1) == []
  {
    var entered := Enter(start, s, t, req);
    s' := Take(start, entered, t);
    VerifiesHere(s'.txns[t].read, req.body);
    assert s'.txns == s.txns[t := s'.txns[t]];
  }

  lemma Register(start: Sys, req: Request) returns (s: Sys)
    requires Reaches(start, start) && MayEnter(start, 0, req) && OnePieceHere(start, req) && req.key != ""
    requires start.data.movements == [] && start.data.keys == map[] && start.txns == map[]
    ensures Reaches(start, s) && OnePieceHere(s, req) && s.data.locations == start.data.locations && s.txns.Keys == {0}
    ensures s.txns[0].req == req && s.txns[0].Done? && Succeeded(s, 0)
    ensures req.key in s.data.keys && s.data.keys[req.key].expiresAt == s.now + TTL
    ensures forall i :: 0 <= i < |s.data.movements| ==> s.data.movements[i].origin == 0
  {
    var ready := ReadyToFinish(start, start, 0, req);
    s := Committed(ready, 0);
    ReachesNext(start, ready, Finish(0), s);
  }

  lemma Refuse(start: Sys, s: Sys, req: Request) returns (s': Sys)
    requires Reaches(start, s) && OnePieceHere(s, req) && WellFormed(req.body) && req.key != ""
    requires req.body.destination in s.data.locations && s.data.locations[req.body.destination] == OPEN
    requires s.txns.Keys == {0} && s.txns[0].req == req && s.txns[0].Done? && Succeeded(s, 0)
    requires req.key in s.data.keys && s.now > s.data.keys[req.key].expiresAt
    requires forall i :: 0 <= i < |s.data.movements| ==> s.data.movements[i].origin == 0
    ensures Reaches(start, s') && RefusesItsRetry(s', 0, 1)
  {
    var ready := ReadyToFinish(start, s, 1, req);
    s' := End(ready, 1, Answered(IntegrityError));
    ReachesNext(start, ready, Finish(1), s');
    NoOriginNoRows(s'.data.movements, 1);
  }
}
