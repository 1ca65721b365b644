/**
 Grouping the steps of an Antigravity transcript into turns (src/antigravity.rs:383-452).
 Results carry no call ID: each goes to the first slot of the turn that has none.
 */
module AntigravityTurns {
  import opened Wrappers

  datatype StepType = UserInput | ConversationHistory | SystemMessage | PlannerResponse | ErrorMessage | OtherStep(name: string)

  datatype Call = Call(name: string, args: string)

  datatype Step = Step(stepType: StepType, content: Option<string>, calls: Option<seq<Call>>, statusIsError: bool,
                       createdAt: Option<string>)

  datatype Result = Result(content: Option<string>, isError: bool, timestamp: Option<string>)

  datatype Slot = Slot(call: Call, result: Option<Result>)

  datatype Turn = Turn(turnIndex: nat, timestamp: Option<string>, userPrompt: Option<string>, prose: Option<string>,
                       slots: seq<Slot>)

  function Label(t: StepType): string {
    if t.SystemMessage? then "SYSTEM_MESSAGE" else "CONVERSATION_HISTORY"
  }

  function AddContext(prompt: Option<string>, s: Step): Option<string> {
    if s.content.None? then prompt
    else Some(prompt.UnwrapOr("") + "\n\n[" + Label(s.stepType) + "] " + s.content.value)
  }

  function ResultOf(s: Step): Result {
    Result(s.content, s.statusIsError || s.stepType == ErrorMessage, s.createdAt)
  }

  predicate IsResult(s: Step) {
    s.stepType.ErrorMessage? || s.stepType.OtherStep?
  }

  // ---------------------------------------------------------------- what is computed

  // A turn without slots: the calls in the order they came, and the results in the order
  // they were accepted.
  datatype Exchange = Exchange(timestamp: Option<string>, userPrompt: Option<string>, prose: Option<string>,
                               calls: seq<Call>, results: seq<Result>)

  function Planned(x: Exchange, s: Step): Exchange {
    x.(prose := if s.content.Some? then s.content else x.prose, calls := x.calls + s.calls.UnwrapOr([]))
  }

  // A result is accepted while a call of the turn waits for one.
  function Accepted(x: Exchange, s: Step): Exchange {
    if |x.results| < |x.calls| then x.(results := x.results + [ResultOf(s)]) else x
  }

  function OnLast(xs: seq<Exchange>, x: Exchange): seq<Exchange>
    requires xs != []
  {
    xs[|xs| - 1 := x]
  }

  function Next(xs: seq<Exchange>, s: Step): seq<Exchange> {
    match s.stepType
    case UserInput => xs + [Exchange(s.createdAt, s.content, None, [], [])]
    case PlannerResponse =>
      if xs == [] then [Planned(Exchange(s.createdAt, None, None, [], []), s)]
      else OnLast(xs, Planned(xs[|xs| - 1], s))
    case ConversationHistory =>
      if xs == [] then xs else OnLast(xs, xs[|xs| - 1].(userPrompt := AddContext(xs[|xs| - 1].userPrompt, s)))
    case SystemMessage =>
      if xs == [] then xs else OnLast(xs, xs[|xs| - 1].(userPrompt := AddContext(xs[|xs| - 1].userPrompt, s)))
    case _ => if xs == [] then xs else OnLast(xs, Accepted(xs[|xs| - 1], s))
  }

  function Run(steps: seq<Step>): seq<Exchange> {
    if steps == [] then [] else Next(Run(steps[..|steps| - 1]), steps[|steps| - 1])
  }

  // The slots of an exchange: the k-th call holds the k-th result.
  function Pair(calls: seq<Call>, results: seq<Result>): (slots: seq<Slot>)
    requires |results| <= |calls|
    ensures |slots| == |calls|
    ensures forall k :: 0 <= k < |calls| ==>
      slots[k] == Slot(calls[k], if k < |results| then Some(results[k]) else None)
  {
    seq(|calls|, k requires 0 <= k < |calls| => Slot(calls[k], if k < |results| then Some(results[k]) else None))
  }

  predicate Balanced(x: Exchange) {
    |x.results| <= |x.calls|
  }

  // `t` is exchange number `i`, laid out in slots.
  predicate Shows(t: Turn, i: nat, x: Exchange) {
    Balanced(x) && t == Turn(i, x.timestamp, x.userPrompt, x.prose, Pair(x.calls, x.results))
  }

  // ---------------------------------------------------------------- the code

  // `iter_mut().find(|slot| slot.result.is_none())`.
  method FirstPending(slots: seq<Slot>) returns (r: Option<nat>)
    ensures r.Some? ==> r.value < |slots| && slots[r.value].result.None?
    ensures r.Some? ==> forall k :: 0 <= k < r.value ==> slots[k].result.Some?
    ensures r.None? ==> forall k :: 0 <= k < |slots| ==> slots[k].result.Some?
  {
    for i := 0 to |slots|
      invariant forall k :: 0 <= k < i ==> slots[k].result.Some?
    {
      if slots[i].result.None? { return Some(i); }
    }
    r := None;
  }

  function AllTurns(done: seq<Turn>, current: Option<Turn>): seq<Turn> {
    if current.Some? then done + [current.value] else done
  }

  ghost predicate ShowsAll(turns: seq<Turn>, xs: seq<Exchange>) {
    |turns| == |xs| && forall i :: 0 <= i < |turns| ==> Shows(turns[i], i, xs[i])
  }

  ghost predicate Agrees(xs: seq<Exchange>, done: seq<Turn>, current: Option<Turn>, counter: nat) {
    && ShowsAll(AllTurns(done, current), xs) && counter == |xs|
    && (current.None? ==> done == [])
  }

  method PlanTurn(turn0: Turn, s: Step, ghost i: nat, ghost x: Exchange) returns (turn: Turn)
    requires Shows(turn0, i, x)
    ensures Shows(turn, i, Planned(x, s))
  {
    turn := turn0;
    if s.content.Some? { turn := turn.(prose := s.content); }
    var calls := s.calls.UnwrapOr([]);
    ghost var prose := turn.prose;
    for k := 0 to |calls|
      invariant turn == Turn(i, x.timestamp, x.userPrompt, prose, Pair(x.calls + calls[..k], x.results))
    {
      assert x.calls + calls[..k + 1] == x.calls + calls[..k] + [calls[k]];
      turn := turn.(slots := turn.slots + [Slot(calls[k], None)]);
    }
    assert calls[..|calls|] == calls;
  }

  method AnswerTurn(turn0: Turn, s: Step, ghost i: nat, ghost x: Exchange) returns (turn: Turn)
    requires Shows(turn0, i, x)
    ensures Shows(turn, i, Accepted(x, s))
  {
    turn := turn0;
    var k := FirstPending(turn.slots);
    if k.Some? {
      assert turn.slots[k.value].result.None? && k.value >= |x.results|;
      assert k.value > |x.results| ==> turn.slots[|x.results|].result.None?;
      turn := turn.(slots := turn.slots[k.value := turn.slots[k.value].(result := Some(ResultOf(s)))]);
    } else {
      assert |x.results| < |x.calls| ==> turn.slots[|x.results|].result.None?;
    }
  }

  lemma LastShown(done: seq<Turn>, t: Turn, t1: Turn, xs: seq<Exchange>, x1: Exchange)
    requires ShowsAll(done + [t], xs) && Shows(t1, |done|, x1)
    ensures |xs| == |done| + 1 && ShowsAll(done + [t1], OnLast(xs, x1))
  {
  }

  lemma NextShown(turns: seq<Turn>, xs: seq<Exchange>, t: Turn, x: Exchange)
    requires ShowsAll(turns, xs) && Shows(t, |turns|, x)
    ensures ShowsAll(turns + [t], xs + [x])
  {
  }

  method GroupSteps(steps: seq<Step>) returns (turns: seq<Turn>)
    ensures ShowsAll(turns, Run(steps))
  {
    turns := [];
    var current: Option<Turn> := None;
    var counter := 0;
    for n := 0 to |steps|
      invariant Agrees(Run(steps[..n]), turns, current, counter)
    {
      assert steps[..n + 1][..n] == steps[..n];
      turns, current, counter := GroupStep(turns, current, counter, steps[n], Run(steps[..n]));
    }
    assert steps[..|steps|] == steps;
    if current.Some? { turns := turns + [current.value]; }
  }

  method GroupStep(turns0: seq<Turn>, current0: Option<Turn>, counter0: nat, s: Step, ghost xs: seq<Exchange>)
    returns (turns: seq<Turn>, current: Option<Turn>, counter: nat)
    requires Agrees(xs, turns0, current0, counter0)
    ensures Agrees(Next(xs, s), turns, current, counter)
  {
    turns, current, counter := turns0, current0, counter0;
    if s.stepType == UserInput {
      if current.Some? { turns := turns + [current.value]; }
      current := Some(Turn(counter, s.createdAt, s.content, None, []));
      counter := counter + 1;
      NextShown(AllTurns(turns0, current0), xs, current.value, Exchange(s.createdAt, s.content, None, [], []));
    } else if s.stepType == ConversationHistory || s.stepType == SystemMessage {
      if current.Some? {
        if s.content.Some? {
          current := Some(current.value.(userPrompt := AddContext(current.value.userPrompt, s)));
        }
        assert Shows(current0.value, |turns0|, xs[|turns0|]);
        LastShown(turns, current0.value, current.value, xs, xs[|turns|].(userPrompt := AddContext(xs[|turns|].userPrompt, s)));
      }
    } else if s.stepType == PlannerResponse {
      turns, current, counter := PlanStep(turns, current, counter, s, xs);
    } else if current.Some? {
      assert Shows(current0.value, |turns0|, xs[|turns0|]);
      var t := AnswerTurn(current.value, s, |turns|, xs[|turns|]);
      LastShown(turns, current.value, t, xs, Accepted(xs[|turns|], s));
      current := Some(t);
    }
  }

  method PlanStep(turns0: seq<Turn>, current0: Option<Turn>, counter0: nat, s: Step, ghost xs: seq<Exchange>)
    returns (turns: seq<Turn>, current: Option<Turn>, counter: nat)
    requires Agrees(xs, turns0, current0, counter0) && s.stepType == PlannerResponse
    ensures Agrees(Next(xs, s), turns, current, counter)
  {
    turns, current, counter := turns0, current0, counter0;
    ghost var x := Exchange(s.createdAt, None, None, [], []);
    if current.None? {
      current := Some(Turn(counter, s.createdAt, None, None, []));
      counter := counter + 1;
    } else {
      assert Shows(current0.value, |turns0|, xs[|turns0|]);
      x := xs[|turns|];
    }
    var t := PlanTurn(current.value, s, |turns|, x);
    if xs != [] { LastShown(turns, current.value, t, xs, Planned(x, s)); }
    current := Some(t);
  }

  // ---------------------------------------------------------------- what it means

  // Filled slots come before pending ones.
  ghost predicate FilledFirst(slots: seq<Slot>) {
    forall j, k :: 0 <= j < k < |slots| && slots[k].result.Some? ==> slots[j].result.Some?
  }

  // A turn sits at its index, and its filled slots form a prefix.
  lemma TurnsInOrder(turns: seq<Turn>, xs: seq<Exchange>)
    requires ShowsAll(turns, xs)
    ensures forall i :: 0 <= i < |turns| ==> turns[i].turnIndex == i && FilledFirst(turns[i].slots)
  {
  }

  // The results the last turn accepts, one after another.
  function AcceptedResults(steps: seq<Step>): seq<Result> {
    if steps == [] then []
    else
      var front, last := steps[..|steps| - 1], steps[|steps| - 1];
      if last.stepType == UserInput then []
      else if IsResult(last) && |AcceptedResults(front)| < |PlannedCalls(front)| then AcceptedResults(front) + [ResultOf(last)]
      else AcceptedResults(front)
  }

  // The calls planned since the last user input.
  function PlannedCalls(steps: seq<Step>): seq<Call> {
    if steps == [] then []
    else
      var front, last := steps[..|steps| - 1], steps[|steps| - 1];
      if last.stepType == UserInput then []
      else if last.stepType == PlannerResponse then PlannedCalls(front) + last.calls.UnwrapOr([])
      else PlannedCalls(front)
  }

  // The last exchange has these calls and results, the k-th result for the k-th call.
  predicate Follows(xs: seq<Exchange>, calls: seq<Call>, results: seq<Result>) {
    if xs == [] then calls == [] && results == []
    else
      var x := xs[|xs| - 1];
      x.calls == calls && x.results == results && Balanced(x)
  }

  lemma NextFollows(xs: seq<Exchange>, s: Step, calls: seq<Call>, results: seq<Result>)
    requires Follows(xs, calls, results)
    ensures s.stepType == UserInput ==> Follows(Next(xs, s), [], [])
    ensures s.stepType == PlannerResponse ==> Follows(Next(xs, s), calls + s.calls.UnwrapOr([]), results)
    ensures s.stepType != UserInput && s.stepType != PlannerResponse ==>
      Follows(Next(xs, s), calls, if IsResult(s) && |results| < |calls| then results + [ResultOf(s)] else results)
  {
  }

  // The k-th accepted result of a turn belongs to its k-th call.
  lemma {:induction false} ResultsFollowCalls(steps: seq<Step>)
    ensures Follows(Run(steps), PlannedCalls(steps), AcceptedResults(steps))
  {
    if steps != [] {
      var front, last := steps[..|steps| - 1], steps[|steps| - 1];
      ResultsFollowCalls(front);
      NextFollows(Run(front), last, PlannedCalls(front), AcceptedResults(front));
    }
  }

  // What a turn has when the next one starts is what it keeps.
  lemma {:induction false} ClosedTurnsStay(steps: seq<Step>, n: nat, i: nat)
    requires n <= |steps| && i + 1 < |Run(steps[..n])|
    ensures i < |Run(steps)| && Run(steps)[i] == Run(steps[..n])[i]
    ensures |Run(steps[..n])| <= |Run(steps)|
  {
    if n == |steps| {
      assert steps[..n] == steps;
    } else {
      assert steps[..|steps| - 1][..n] == steps[..n];
      ClosedTurnsStay(steps[..|steps| - 1], n, i);
    }
  }
}
