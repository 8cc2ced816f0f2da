/**
The counters that the workers of the load test share (`scripts/perf/search_load.py`). The workers run on one event
loop: between a worker's request and its answer any others may run, but what a worker does with an answer is one step.
*/
module LoadCounters {
  import opened Common

  // What the await of the request gives.
  datatype Response = Ok(duration: real) | BadStatus(status: int) | Raises

  datatype Counts = Counts(latencies: seq<real>, byType: map<string, seq<real>>, errors: seq<string>)

  const QUERY_TYPES: seq<string> := ["code", "text", "filters", "description"]

  function Zero(): Counts {
    Counts([], map["code" := [], "text" := [], "filters" := [], "description" := []], [])
  }

  // The type that `generate_query` gives for its first draw.
  function QueryType(roll: real): (t: string)
    ensures t in QUERY_TYPES
  {
    if roll < 0.40 then "code" else if roll < 0.65 then "text" else if roll < 0.85 then "filters" else "description"
  }

  // The documented mix.
  function Share(t: string): real {
    if t == "code" then 0.40 else if t == "text" then 0.25 else if t == "filters" then 0.20 else 0.15
  }

  // The draws that give a type are those of an interval.
  ghost predicate DrawnFrom(t: string, low: real) {
    && 0.0 <= low && low + Share(t) <= 1.0
    && forall roll :: 0.0 <= roll < 1.0 ==> (QueryType(roll) == t <==> low <= roll < low + Share(t))
  }

  /** Each type gets the documented share of the draws: those that give it are an interval of that length. */
  lemma DrawsFollowTheMix(t: string)
    requires t in QUERY_TYPES
    ensures exists low :: DrawnFrom(t, low)
  {
    var low := if t == "code" then 0.0 else if t == "text" then 0.40 else if t == "filters" then 0.65 else 0.85;
    QueryTypesAreDistinct();
    assert t == QUERY_TYPES[0] || t == QUERY_TYPES[1] || t == QUERY_TYPES[2] || t == QUERY_TYPES[3];
    assert DrawnFrom(t, low);
  }

  // The counters after one answer. The look-up of an unknown type raises after the first append, and the handler
  // of the loop then counts the request among the errors too.
  function Recorded(c: Counts, queryType: string, r: Response): Counts {
    match r
    case Ok(duration) =>
      var c' := c.(latencies := c.latencies + [duration]);
      if queryType in c.byType then c'.(byType := c.byType[queryType := c.byType[queryType] + [duration]])
      else c'.(errors := c.errors + [queryType])
    case _ => c.(errors := c.errors + [queryType])
  }

  class Counters {
    var latencies: seq<real>
    var byType: map<string, seq<real>>
    var errors: seq<string>

    function Contents(): Counts
      reads this
    {
      Counts(latencies, byType, errors)
    }

    constructor ()
      ensures Contents() == Zero()
    {
      latencies, errors := [], [];
      byType := map["code" := [], "text" := [], "filters" := [], "description" := []];
    }

    method Record(queryType: string, r: Response)
      modifies this
      ensures Contents() == Recorded(old(Contents()), queryType, r)
    {
      var raised := r.Raises?;
      if r.Ok? {
        latencies := latencies + [r.duration];
        if queryType in byType {
          byType := byType[queryType := byType[queryType] + [r.duration]];
        } else {
          raised := true;
        }
      } else if r.BadStatus? {
        errors := errors + [queryType];
      }
      if raised {
        errors := errors + [queryType];
      }
    }
  }

  // ---------------------------------------------------------------------- any number of workers

  // How a draw gives a type of query. The program's is `QueryType`; what depends on it is stated for any other.
  type Draw = real -> string

  // `waiting` holds the type of the request that each waiting worker has sent.
  datatype State = State(counts: Counts, waiting: map<nat, string>, sent: nat, answered: nat)

  datatype Action = Send(worker: nat, roll: real) | Receive(worker: nat, response: Response)

  predicate Step(draw: Draw, s: State, a: Action, s': State) {
    match a
    case Send(w, roll) =>
      w !in s.waiting && s' == s.(waiting := s.waiting[w := draw(roll)], sent := s.sent + 1)
    case Receive(w, r) =>
      && w in s.waiting
      && s' == State(Recorded(s.counts, s.waiting[w], r), s.waiting - {w}, s.sent, s.answered + 1)
  }

  ghost predicate Run(draw: Draw, ss: seq<State>, acts: seq<Action>) {
    && |ss| == |acts| + 1
    && ss[0] == State(Zero(), map[], 0, 0)
    && forall i {:trigger StepAt(draw, ss, acts, i)} :: 0 <= i < |acts| ==> StepAt(draw, ss, acts, i)
  }

  predicate StepAt(draw: Draw, ss: seq<State>, acts: seq<Action>, i: nat)
    requires i < |acts| < |ss|
  {
    Step(draw, ss[i], acts[i], ss[i + 1])
  }

  // ---------------------------------------------------------------------- what the counters hold

  datatype Answer = Answer(queryType: string, response: Response)

  function Arrived(s: State, a: Action): seq<Answer> {
    match a
    case Send(_, _) => []
    case Receive(w, r) => if w in s.waiting then [Answer(s.waiting[w], r)] else []
  }

  // The answers that arrived in the first `n` steps, in their order.
  function Answers(ss: seq<State>, acts: seq<Action>, n: nat): seq<Answer>
    requires n <= |acts| < |ss|
  {
    if n == 0 then [] else Answers(ss, acts, n - 1) + Arrived(ss[n - 1], acts[n - 1])
  }

  predicate Good(a: Answer) { a.response.Ok? }

  predicate Known(a: Answer) { a.queryType in QUERY_TYPES }

  // The durations of the good answers; of those of one type; the types of the answers counted as errors.
  function Durations(answers: seq<Answer>): seq<real> {
    if answers == [] then []
    else
      var last := answers[|answers| - 1];
      Durations(answers[..|answers| - 1]) + if Good(last) then [last.response.duration] else []
  }

  function DurationsOf(answers: seq<Answer>, queryType: string): seq<real> {
    if answers == [] then []
    else
      var last := answers[|answers| - 1];
      DurationsOf(answers[..|answers| - 1], queryType)
      + if Good(last) && last.queryType == queryType then [last.response.duration] else []
  }

  function Failed(answers: seq<Answer>): seq<string> {
    if answers == [] then []
    else
      var last := answers[|answers| - 1];
      Failed(answers[..|answers| - 1]) + if Good(last) && Known(last) then [] else [last.queryType]
  }

  ghost predicate Holds(c: Counts, answers: seq<Answer>) {
    && c.latencies == Durations(answers)
    && c.errors == Failed(answers)
    && (forall t :: t in c.byType <==> t in QUERY_TYPES)
    && (forall t :: t in c.byType ==> c.byType[t] == DurationsOf(answers, t))
  }

  lemma RecordedHolds(c: Counts, answers: seq<Answer>, a: Answer)
    requires Holds(c, answers)
    ensures Holds(Recorded(c, a.queryType, a.response), answers + [a])
  {
    assert (answers + [a])[..|answers|] == answers;
  }

  lemma HoldsStep(draw: Draw, s: State, a: Action, s': State, answers: seq<Answer>)
    requires Step(draw, s, a, s') && Holds(s.counts, answers)
    ensures Holds(s'.counts, answers + Arrived(s, a))
  {
    if a.Receive? {
      RecordedHolds(s.counts, answers, Answer(s.waiting[a.worker], a.response));
    } else {
      assert answers + Arrived(s, a) == answers;
    }
  }

  lemma HoldsAtStart()
    ensures Holds(Zero(), [])
  {
    assert QUERY_TYPES[0] == "code" && QUERY_TYPES[1] == "text" && QUERY_TYPES[2] == "filters" && QUERY_TYPES[3] == "description";
  }

  /** In every state of every run, however types are drawn, the three lists are functions of the answers alone, in
      their order: the latencies are the durations of the good ones, each list by type those of its type, and the
      errors are the others, with the good ones of an unknown type among them. */
  lemma {:induction false} CountersHoldTheAnswers(draw: Draw, ss: seq<State>, acts: seq<Action>, i: nat)
    requires Run(draw, ss, acts) && i < |ss|
    ensures Holds(ss[i].counts, Answers(ss, acts, i))
  {
    if i == 0 {
      HoldsAtStart();
    } else {
      CountersHoldTheAnswers(draw, ss, acts, i - 1);
      assert StepAt(draw, ss, acts, i - 1);
      HoldsStep(draw, ss[i - 1], acts[i - 1], ss[i], Answers(ss, acts, i - 1));
    }
  }

  // ---------------------------------------------------------------------- conservation

  // The good answers of an unknown type.
  function Unknown(answers: seq<Answer>): nat {
    if answers == [] then 0
    else
      var last := answers[|answers| - 1];
      Unknown(answers[..|answers| - 1]) + if Good(last) && !Known(last) then 1 else 0
  }

  lemma {:induction false} NoneUnknown(answers: seq<Answer>)
    ensures Unknown(answers) == 0 <==> forall i :: 0 <= i < |answers| && Good(answers[i]) ==> Known(answers[i])
  {
    if answers != [] { NoneUnknown(answers[..|answers| - 1]); }
  }

  lemma {:induction false} AnswersAddUp(answers: seq<Answer>)
    ensures |Durations(answers)| + |Failed(answers)| == |answers| + Unknown(answers)
  {
    if answers != [] { AnswersAddUp(answers[..|answers| - 1]); }
  }

  // How many latencies there are by type, over a list of types.
  function Typed(byType: map<string, seq<real>>, types: seq<string>): nat
    requires forall t :: t in types ==> t in byType
  {
    if types == [] then 0 else |byType[types[|types| - 1]]| + Typed(byType, types[..|types| - 1])
  }

  lemma {:induction false} TypedIsTheGoodOnes(c: Counts, answers: seq<Answer>, types: seq<string>)
    requires NoDup(types) && forall t :: t in types ==> t in c.byType && c.byType[t] == DurationsOf(answers, t)
    ensures Typed(c.byType, types) == Matching(answers, types)
  {
    if types == [] {
      MatchingNothing(answers);
    } else {
      var front, last := types[..|types| - 1], types[|types| - 1];
      assert last in types && last !in front;
      TypedIsTheGoodOnes(c, answers, front);
      MatchingOneMore(answers, front, last);
      assert types == front + [last];
    }
  }

  // The good answers of one of some types.
  function Matching(answers: seq<Answer>, types: seq<string>): nat {
    if answers == [] then 0
    else
      var last := answers[|answers| - 1];
      Matching(answers[..|answers| - 1], types) + if Good(last) && last.queryType in types then 1 else 0
  }

  lemma {:induction false} MatchingNothing(answers: seq<Answer>)
    ensures Matching(answers, []) == 0
  {
    if answers != [] { MatchingNothing(answers[..|answers| - 1]); }
  }

  lemma {:induction false} MatchingOneMore(answers: seq<Answer>, types: seq<string>, t: string)
    requires t !in types
    ensures Matching(answers, types + [t]) == Matching(answers, types) + |DurationsOf(answers, t)|
  {
    if answers != [] { MatchingOneMore(answers[..|answers| - 1], types, t); }
  }

  lemma {:induction false} MatchingAll(answers: seq<Answer>)
    ensures Matching(answers, QUERY_TYPES) + Unknown(answers) == |Durations(answers)|
  {
    if answers != [] { MatchingAll(answers[..|answers| - 1]); }
  }

  lemma QueryTypesAreDistinct()
    ensures NoDup(QUERY_TYPES)
  {
    assert QUERY_TYPES[0][0] == 'c' && QUERY_TYPES[1][0] == 't' && QUERY_TYPES[2][0] == 'f' && QUERY_TYPES[3][0] == 'd';
  }

  lemma {:induction false} AnsweredIsWhatArrived(draw: Draw, ss: seq<State>, acts: seq<Action>, i: nat)
    requires Run(draw, ss, acts) && i < |ss|
    ensures ss[i].answered == |Answers(ss, acts, i)| && ss[i].sent == ss[i].answered + |ss[i].waiting|
  {
    if i > 0 {
      AnsweredIsWhatArrived(draw, ss, acts, i - 1);
      WaitingAt(draw, ss, acts, i - 1);
    }
  }

  lemma WaitingAt(draw: Draw, ss: seq<State>, acts: seq<Action>, i: nat)
    requires Run(draw, ss, acts) && i < |acts|
    ensures ss[i + 1].answered - ss[i].answered == |Answers(ss, acts, i + 1)| - |Answers(ss, acts, i)|
    ensures ss[i + 1].sent - ss[i + 1].answered - |ss[i + 1].waiting| == ss[i].sent - ss[i].answered - |ss[i].waiting|
  {
    assert StepAt(draw, ss, acts, i);
    WaitingStep(draw, ss[i], acts[i], ss[i + 1]);
  }

  lemma WaitingStep(draw: Draw, s: State, a: Action, s': State)
    requires Step(draw, s, a, s')
    ensures s'.answered == s.answered + |Arrived(s, a)|
    ensures s'.sent - s'.answered - |s'.waiting| == s.sent - s.answered - |s.waiting|
  {
    if a.Receive? {
      assert s.waiting.Keys == s'.waiting.Keys + {a.worker};
    } else {
      assert s'.waiting.Keys == s.waiting.Keys + {a.worker};
    }
  }

  // What the summary of the load test takes for granted.
  predicate Conserved(s: State)
    requires forall t :: t in QUERY_TYPES ==> t in s.counts.byType
  {
    && |s.counts.latencies| + |s.counts.errors| == s.answered
    && Typed(s.counts.byType, QUERY_TYPES) == |s.counts.latencies|
  }

  /** However the workers interleave and types are drawn, the total counts every answer once, and the latencies are
      those of the four types together, exactly as long as no good answer has a type without a list; each of those is
      counted twice and is in no list by type. What was sent and not answered is waiting. */
  lemma ConservedExactlyWhenTypesAreKnown(draw: Draw, ss: seq<State>, acts: seq<Action>, i: nat)
    requires Run(draw, ss, acts) && i < |ss|
    ensures forall t :: t in QUERY_TYPES ==> t in ss[i].counts.byType
    ensures var s, answers := ss[i], Answers(ss, acts, i);
            && s.sent == s.answered + |s.waiting| && s.answered == |answers|
            && |s.counts.latencies| + |s.counts.errors| == s.answered + Unknown(answers)
            && Typed(s.counts.byType, QUERY_TYPES) + Unknown(answers) == |s.counts.latencies|
            && (Conserved(s) <==> forall j :: 0 <= j < |answers| && Good(answers[j]) ==> Known(answers[j]))
  {
    var answers := Answers(ss, acts, i);
    CountersHoldTheAnswers(draw, ss, acts, i);
    AnsweredIsWhatArrived(draw, ss, acts, i);
    AnswersAddUp(answers);
    QueryTypesAreDistinct();
    TypedIsTheGoodOnes(ss[i].counts, answers, QUERY_TYPES);
    MatchingAll(answers);
    NoneUnknown(answers);
  }

  lemma {:induction false} DrawnTypesAreKnown(ss: seq<State>, acts: seq<Action>, i: nat)
    requires Run(QueryType, ss, acts) && i < |ss|
    ensures forall w :: w in ss[i].waiting ==> ss[i].waiting[w] in QUERY_TYPES
    ensures forall j :: 0 <= j < |Answers(ss, acts, i)| ==> Known(Answers(ss, acts, i)[j])
  {
    if i > 0 {
      DrawnTypesAreKnown(ss, acts, i - 1);
      assert StepAt(QueryType, ss, acts, i - 1);
    }
  }

  /** With the types that `generate_query` gives, the totals always agree. */
  lemma CountersAreConserved(ss: seq<State>, acts: seq<Action>, i: nat)
    requires Run(QueryType, ss, acts) && i < |ss|
    ensures forall t :: t in QUERY_TYPES ==> t in ss[i].counts.byType
    ensures Conserved(ss[i]) && ss[i].sent == ss[i].answered + |ss[i].waiting|
  {
    ConservedExactlyWhenTypesAreKnown(QueryType, ss, acts, i);
    DrawnTypesAreKnown(ss, acts, i);
  }
}
