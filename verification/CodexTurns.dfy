/**
 Grouping a Codex transcript into turns (src/codex.rs:485-567). The loop keeps a current
 turn and a map of calls in flight; what it computes is a plain fold over the events.
 */
module CodexTurns {
  import opened Wrappers

  datatype Id = Id(text: string)

  datatype Call = Call(callId: Id, name: string)
  datatype Output = Output(callId: Id, text: string)

  datatype Event =
    | SessionHeader(session: nat) | RolloutHeader(rollout: nat)
    | Message(assistant: bool, text: string)
    | FunctionCall(call: Call) | FunctionCallOutput(output: Output)
    | Interrupted(turn: nat) | Unknown

  datatype Line = Line(index: nat, event: Event)

  datatype Slot = Slot(call: Call, result: Option<Output>)

  datatype Turn = Turn(turnIndex: nat, message: string, slots: seq<Slot>)

  datatype Flavor = NoFlavor | Session(session: nat) | Rollout(rollout: nat)

  datatype Grouped = Grouped(flavor: Flavor, turns: seq<Turn>, unknown: seq<nat>, interruptions: seq<nat>)

  // ---------------------------------------------------------------- what is computed

  // The last slot that waits under a call ID: a repeated ID means its latest call.
  function SlotOf(slots: seq<Slot>, id: Id): (r: Option<nat>)
    ensures r.Some? ==> r.value < |slots| && slots[r.value].call.callId == id
    ensures r.Some? ==> forall k :: r.value < k < |slots| ==> slots[k].call.callId != id
    ensures r.None? ==> forall k :: 0 <= k < |slots| ==> slots[k].call.callId != id
  {
    if slots == [] then None
    else if slots[|slots| - 1].call.callId == id then Some(|slots| - 1)
    else SlotOf(slots[..|slots| - 1], id)
  }

  function LastSlots(turns: seq<Turn>): seq<Slot> {
    if turns == [] then [] else turns[|turns| - 1].slots
  }

  function WithLastSlots(turns: seq<Turn>, slots: seq<Slot>): seq<Turn>
    requires turns != []
  {
    turns[|turns| - 1 := turns[|turns| - 1].(slots := slots)]
  }

  // One event, on the list of all turns so far.
  function Step(g: Grouped, first: bool, line: Line): Grouped {
    match line.event
    case SessionHeader(h) => if first then g.(flavor := Session(h)) else g
    case RolloutHeader(h) => if first then g.(flavor := Rollout(h)) else g
    case Message(assistant, text) => if assistant then g.(turns := g.turns + [Turn(|g.turns|, text, [])]) else g
    case FunctionCall(call) =>
      if g.turns == [] then g.(unknown := g.unknown + [line.index])
      else g.(turns := WithLastSlots(g.turns, LastSlots(g.turns) + [Slot(call, None)]))
    case FunctionCallOutput(output) =>
      var k := SlotOf(LastSlots(g.turns), output.callId);
      if k.None? then g.(unknown := g.unknown + [line.index])
      else
        var slots := LastSlots(g.turns);
        g.(turns := WithLastSlots(g.turns, slots[k.value := slots[k.value].(result := Some(output))]))
    case Interrupted(i) => g.(interruptions := g.interruptions + [i])
    case Unknown => g.(unknown := g.unknown + [line.index])
  }

  function Run(lines: seq<Line>): Grouped {
    if lines == [] then Grouped(NoFlavor, [], [], [])
    else Step(Run(lines[..|lines| - 1]), |lines| == 1, lines[|lines| - 1])
  }

  // ---------------------------------------------------------------- the code

  // The map of calls in flight is the search for the last slot of the current turn.
  ghost predicate Tracks(pending: map<Id, nat>, slots: seq<Slot>) {
    forall id :: if id in pending then SlotOf(slots, id) == Some(pending[id]) else SlotOf(slots, id) == None
  }

  function AllTurns(done: seq<Turn>, current: Option<Turn>): seq<Turn> {
    if current.Some? then done + [current.value] else done
  }

  lemma TracksResult(pending: map<Id, nat>, slots: seq<Slot>, k: nat, output: Output)
    requires Tracks(pending, slots) && k < |slots|
    ensures Tracks(pending, slots[k := slots[k].(result := Some(output))])
  {
    forall id ensures SlotOf(slots[k := slots[k].(result := Some(output))], id) == SlotOf(slots, id) {
      SameSlot(slots, k, output, id);
    }
  }

  lemma SameSlot(slots: seq<Slot>, k: nat, output: Output, id: Id)
    requires k < |slots|
    ensures SlotOf(slots[k := slots[k].(result := Some(output))], id) == SlotOf(slots, id)
  {
    var filled := slots[k := slots[k].(result := Some(output))];
    assert forall j :: 0 <= j < |slots| ==> filled[j].call == slots[j].call;
  }

  // The current turn is the last of all turns.
  lemma CurrentIsLast(done: seq<Turn>, t: Turn, slots: seq<Slot>)
    ensures LastSlots(AllTurns(done, Some(t))) == t.slots
    ensures AllTurns(done, Some(t.(slots := slots))) == WithLastSlots(AllTurns(done, Some(t)), slots)
  {
  }

  // State of the loop against the fold.
  ghost predicate Agrees(g: Grouped, flavor: Flavor, done: seq<Turn>, current: Option<Turn>,
                         pending: map<Id, nat>, unknown: seq<nat>, interruptions: seq<nat>) {
    && g == Grouped(flavor, AllTurns(done, current), unknown, interruptions)
    && (current.None? ==> done == [] && pending == map[])
    && Tracks(pending, LastSlots(g.turns))
  }

  lemma CallAgrees(g: Grouped, first: bool, line: Line, flavor: Flavor, done: seq<Turn>, t: Turn,
                   pending: map<Id, nat>, unknown: seq<nat>, interruptions: seq<nat>)
    requires Agrees(g, flavor, done, Some(t), pending, unknown, interruptions) && line.event.FunctionCall?
    ensures var call := line.event.call;
      Agrees(Step(g, first, line), flavor, done, Some(t.(slots := t.slots + [Slot(call, None)])),
             pending[call.callId := |t.slots|], unknown, interruptions)
  {
  }

  lemma ResultAgrees(g: Grouped, first: bool, line: Line, flavor: Flavor, done: seq<Turn>, t: Turn,
                     pending: map<Id, nat>, unknown: seq<nat>, interruptions: seq<nat>)
    requires Agrees(g, flavor, done, Some(t), pending, unknown, interruptions) && line.event.FunctionCallOutput?
    requires line.event.output.callId in pending
    ensures var output := line.event.output;
      var k := pending[output.callId];
      && k < |t.slots|
      && Agrees(Step(g, first, line), flavor, done, Some(t.(slots := t.slots[k := t.slots[k].(result := Some(output))])),
                pending, unknown, interruptions)
  {
    var output := line.event.output;
    var k := pending[output.callId];
    CurrentIsLast(done, t, t.slots);
    assert SlotOf(t.slots, output.callId) == Some(k);
    TracksResult(pending, t.slots, k, output);
    CurrentIsLast(done, t, t.slots[k := t.slots[k].(result := Some(output))]);
  }

  // An output without a call in flight, or a call without a turn.
  lemma UnknownAgrees(g: Grouped, first: bool, line: Line, flavor: Flavor, done: seq<Turn>, current: Option<Turn>,
                      pending: map<Id, nat>, unknown: seq<nat>, interruptions: seq<nat>)
    requires Agrees(g, flavor, done, current, pending, unknown, interruptions)
    requires || line.event.Unknown? || (line.event.FunctionCall? && current.None?)
             || (line.event.FunctionCallOutput? && line.event.output.callId !in pending)
    ensures Agrees(Step(g, first, line), flavor, done, current, pending, unknown + [line.index], interruptions)
  {
  }

  lemma MessageAgrees(g: Grouped, first: bool, line: Line, flavor: Flavor, done: seq<Turn>, current: Option<Turn>,
                      pending: map<Id, nat>, unknown: seq<nat>, interruptions: seq<nat>)
    requires Agrees(g, flavor, done, current, pending, unknown, interruptions)
    requires line.event.Message? && line.event.assistant
    ensures var all := AllTurns(done, current);
      Agrees(Step(g, first, line), flavor, all, Some(Turn(|all|, line.event.text, [])), map[], unknown, interruptions)
  {
  }

  method GroupEvents(lines: seq<Line>) returns (g: Grouped)
    ensures g == Run(lines)
  {
    var flavor := NoFlavor;
    var turns: seq<Turn> := [];
    var current: Option<Turn> := None;
    var pending: map<Id, nat> := map[];
    var unknown: seq<nat> := [];
    var interruptions: seq<nat> := [];
    for i := 0 to |lines|
      invariant Agrees(Run(lines[..i]), flavor, turns, current, pending, unknown, interruptions)
    {
      ghost var before := Run(lines[..i]);
      assert lines[..i + 1][..i] == lines[..i];
      match lines[i].event {
        case SessionHeader(h) =>
          if i == 0 { flavor := Session(h); }
        case RolloutHeader(h) =>
          if i == 0 { flavor := Rollout(h); }
        case Message(assistant, text) =>
          if assistant {
            MessageAgrees(before, i == 0, lines[i], flavor, turns, current, pending, unknown, interruptions);
            if current.Some? { turns := turns + [current.value]; }
            pending := map[];
            current := Some(Turn(|turns|, text, []));
          }
        case FunctionCall(call) =>
          if current.Some? {
            CallAgrees(before, i == 0, lines[i], flavor, turns, current.value, pending, unknown, interruptions);
            pending := pending[call.callId := |current.value.slots|];
            current := Some(current.value.(slots := current.value.slots + [Slot(call, None)]));
          } else if turns != [] {
            assert false;
          } else {
            UnknownAgrees(before, i == 0, lines[i], flavor, turns, current, pending, unknown, interruptions);
            unknown := unknown + [lines[i].index];
          }
        case FunctionCallOutput(output) =>
          if output.callId in pending {
            var k := pending[output.callId];
            if current.Some? {
              ResultAgrees(before, i == 0, lines[i], flavor, turns, current.value, pending, unknown, interruptions);
              current := Some(current.value.(slots := current.value.slots[k := current.value.slots[k].(result := Some(output))]));
            } else {
              assert false;
            }
          } else {
            UnknownAgrees(before, i == 0, lines[i], flavor, turns, current, pending, unknown, interruptions);
            unknown := unknown + [lines[i].index];
          }
        case Interrupted(n) =>
          interruptions := interruptions + [n];
        case Unknown =>
          UnknownAgrees(before, i == 0, lines[i], flavor, turns, current, pending, unknown, interruptions);
          unknown := unknown + [lines[i].index];
      }
    }
    assert lines[..|lines|] == lines;
    if current.Some? { turns := turns + [current.value]; }
    g := Grouped(flavor, turns, unknown, interruptions);
  }

  // ---------------------------------------------------------------- what it means

  // A turn sits at its index, and a stored result answers the call it is stored with.
  ghost predicate WellGrouped(turns: seq<Turn>) {
    forall i :: 0 <= i < |turns| ==> turns[i].turnIndex == i && Answered(turns[i].slots)
  }

  ghost predicate Answered(slots: seq<Slot>) {
    forall k :: 0 <= k < |slots| && slots[k].result.Some? ==> slots[k].result.value.callId == slots[k].call.callId
  }

  lemma {:induction false} RunWellGrouped(lines: seq<Line>)
    ensures WellGrouped(Run(lines).turns)
  {
    if lines != [] {
      RunWellGrouped(lines[..|lines| - 1]);
      StepWellGrouped(Run(lines[..|lines| - 1]), |lines| == 1, lines[|lines| - 1]);
    }
  }

  lemma {:induction false} StepWellGrouped(g: Grouped, first: bool, line: Line)
    requires WellGrouped(g.turns)
    ensures WellGrouped(Step(g, first, line).turns)
  {
    var slots := LastSlots(g.turns);
    if g.turns != [] {
      match line.event
      case FunctionCall(call) =>
        LastStaysGrouped(g.turns, slots + [Slot(call, None)]);
      case FunctionCallOutput(output) =>
        var k := SlotOf(slots, output.callId);
        if k.Some? { LastStaysGrouped(g.turns, slots[k.value := slots[k.value].(result := Some(output))]); }
      case _ =>
    }
  }

  lemma {:induction false} LastStaysGrouped(turns: seq<Turn>, slots: seq<Slot>)
    requires turns != [] && WellGrouped(turns) && Answered(slots)
    ensures WellGrouped(WithLastSlots(turns, slots))
  {
  }

  // The function calls of a transcript, and those stored in slots, in order.
  function Calls(lines: seq<Line>): seq<Call> {
    if lines == [] then []
    else
      var front, last := Calls(lines[..|lines| - 1]), lines[|lines| - 1].event;
      if last.FunctionCall? then front + [last.call] else front
  }

  function SlotCalls(slots: seq<Slot>): (r: seq<Call>)
    ensures |r| == |slots| && forall k :: 0 <= k < |slots| ==> r[k] == slots[k].call
  {
    seq(|slots|, k requires 0 <= k < |slots| => slots[k].call)
  }

  function StoredCalls(turns: seq<Turn>): seq<Call> {
    if turns == [] then [] else StoredCalls(turns[..|turns| - 1]) + SlotCalls(turns[|turns| - 1].slots)
  }

  predicate HasAssistant(lines: seq<Line>) {
    exists i :: 0 <= i < |lines| && lines[i].event.Message? && lines[i].event.assistant
  }

  // The length of the transcript before its first assistant message.
  function Preamble(lines: seq<Line>): (n: nat)
    ensures n <= |lines| && !HasAssistant(lines[..n])
    ensures n < |lines| ==> lines[n].event.Message? && lines[n].event.assistant
  {
    if lines == [] then 0
    else
      var front, n := lines[..|lines| - 1], Preamble(lines[..|lines| - 1]);
      assert front[..n] == lines[..n];
      if n < |front| then n
      else if lines[|front|].event.Message? && lines[|front|].event.assistant then n
      else
        assert lines[..|lines|] == lines && front[..n] == front;
        |lines|
  }

  predicate OpensTurn(line: Line) {
    line.event.Message? && line.event.assistant
  }

  lemma PreambleGrows(lines: seq<Line>)
    requires lines != []
    ensures var front, n := lines[..|lines| - 1], Preamble(lines[..|lines| - 1]);
      && Preamble(lines) == (if n < |front| || OpensTurn(lines[|front|]) then n else |lines|)
      && lines[..n] == front[..n]
  {
  }

  lemma CallsGrow(lines: seq<Line>)
    requires lines != []
    ensures var last := lines[|lines| - 1].event;
      Calls(lines) == Calls(lines[..|lines| - 1]) + if last.FunctionCall? then [last.call] else []
  {
  }

  // Every function call becomes exactly one slot, in order, if an assistant message came
  // before it, and one unknown line otherwise.
  lemma {:induction false} CallsAreKept(lines: seq<Line>)
    ensures Calls(lines) == Calls(lines[..Preamble(lines)]) + StoredCalls(Run(lines).turns)
    ensures Run(lines).turns == [] <==> Preamble(lines) == |lines|
  {
    if lines != [] {
      var front, last := lines[..|lines| - 1], lines[|lines| - 1];
      CallsAreKept(front);
      PreambleGrows(lines);
      CallsGrow(lines);
      StepOpens(Run(front), |lines| == 1, last);
      StepStores(Run(front), |lines| == 1, last);
      assert lines[..|lines|] == lines && front[..|front|] == front;
      KeptOneMore(Calls(front), Calls(lines), Calls(front[..Preamble(front)]), Calls(lines[..Preamble(lines)]),
                  StoredCalls(Run(front).turns), StoredCalls(Run(lines).turns),
                  if last.event.FunctionCall? then [last.event.call] else [], Run(front).turns == []);
    }
  }

  // One more call is added before the first turn, or to the turns.
  lemma KeptOneMore(calls: seq<Call>, calls1: seq<Call>, early: seq<Call>, early1: seq<Call>,
                    stored: seq<Call>, stored1: seq<Call>, call: seq<Call>, noTurn: bool)
    requires calls == early + stored && calls1 == calls + call
    requires if noTurn then stored == stored1 == [] && early1 == calls1 else early1 == early && stored1 == stored + call
    ensures calls1 == early1 + stored1
  {
  }

  lemma StepOpens(g: Grouped, first: bool, line: Line)
    ensures Step(g, first, line).turns == [] <==> g.turns == [] && !OpensTurn(line)
  {
  }

  // One event stores its call, if it is one and there is a turn, and changes no other.
  lemma StepStores(g: Grouped, first: bool, line: Line)
    ensures StoredCalls(Step(g, first, line).turns)
         == StoredCalls(g.turns) + if line.event.FunctionCall? && g.turns != [] then [line.event.call] else []
  {
    var turns := Step(g, first, line).turns;
    match line.event
    case Message(assistant, text) =>
      var t := Turn(|g.turns|, text, []);
      NewTurnStores(g.turns, t);
      assert turns == if assistant then g.turns + [t] else g.turns;
    case FunctionCall(call) =>
      if g.turns != [] {
        CallStored(g.turns, call);
        assert turns == WithLastSlots(g.turns, LastSlots(g.turns) + [Slot(call, None)]);
      }
    case FunctionCallOutput(output) =>
      StepOutput(g, first, line);
    case _ =>
      assert turns == g.turns;
  }

  lemma {:induction false} StepOutput(g: Grouped, first: bool, line: Line)
    requires line.event.FunctionCallOutput?
    ensures StoredCalls(Step(g, first, line).turns) == StoredCalls(g.turns)
  {
    var slots := LastSlots(g.turns);
    var k := SlotOf(slots, line.event.output.callId);
    if k.Some? {
      ResultStored(g.turns, slots[k.value := slots[k.value].(result := Some(line.event.output))]);
    }
  }

  lemma {:induction false} ResultStored(turns: seq<Turn>, filled: seq<Slot>)
    requires turns != [] && SlotCalls(filled) == SlotCalls(LastSlots(turns))
    ensures StoredCalls(WithLastSlots(turns, filled)) == StoredCalls(turns)
  {
    StoredInLast(turns, LastSlots(turns));
    StoredInLast(turns, filled);
    assert WithLastSlots(turns, LastSlots(turns)) == turns;
  }

  lemma {:induction false} CallStored(turns: seq<Turn>, call: Call)
    requires turns != []
    ensures StoredCalls(WithLastSlots(turns, LastSlots(turns) + [Slot(call, None)])) == StoredCalls(turns) + [call]
  {
    var slots := LastSlots(turns);
    StoredInLast(turns, slots);
    StoredInLast(turns, slots + [Slot(call, None)]);
    assert WithLastSlots(turns, slots) == turns;
    assert SlotCalls(slots + [Slot(call, None)]) == SlotCalls(slots) + [call];
  }

  lemma {:induction false} StoredInLast(turns: seq<Turn>, slots: seq<Slot>)
    requires turns != []
    ensures StoredCalls(WithLastSlots(turns, slots)) == StoredCalls(turns[..|turns| - 1]) + SlotCalls(slots)
  {
    assert WithLastSlots(turns, slots)[..|turns| - 1] == turns[..|turns| - 1];
  }

  lemma {:induction false} NewTurnStores(turns: seq<Turn>, t: Turn)
    requires t.slots == []
    ensures StoredCalls(turns + [t]) == StoredCalls(turns)
  {
    assert (turns + [t])[..|turns|] == turns;
  }

  // The unknown lines: unrecognised events, calls before any assistant message, and
  // outputs without a call in the last turn, and nothing else.
  function UnknownLines(lines: seq<Line>): seq<nat> {
    if lines == [] then []
    else
      var front, last := lines[..|lines| - 1], lines[|lines| - 1];
      var orphan :=
        || last.event.Unknown?
        || (last.event.FunctionCall? && !HasAssistant(front))
        || (last.event.FunctionCallOutput? && !InFlight(front, last.event.output.callId));
      if orphan then UnknownLines(front) + [last.index] else UnknownLines(front)
  }

  // A call with this ID since the last assistant message.
  predicate InFlight(lines: seq<Line>, id: Id) {
    if lines == [] then false
    else
      var front, last := lines[..|lines| - 1], lines[|lines| - 1].event;
      if last.Message? && last.assistant then false
      else if last.FunctionCall? && last.call.callId == id && HasAssistant(front) then true
      else InFlight(front, id)
  }

  lemma {:induction false} InFlightIsWaiting(lines: seq<Line>, id: Id)
    ensures InFlight(lines, id) <==> SlotOf(LastSlots(Run(lines).turns), id).Some?
    ensures Run(lines).turns != [] <==> HasAssistant(lines)
  {
    if lines != [] {
      var front, last := lines[..|lines| - 1], lines[|lines| - 1];
      InFlightIsWaiting(front, id);
      AssistantAtEnd(lines);
      StepWaits(Run(front), |lines| == 1, last, id);
    }
  }

  lemma AssistantAtEnd(lines: seq<Line>)
    requires lines != []
    ensures HasAssistant(lines) <==>
      HasAssistant(lines[..|lines| - 1]) || (lines[|lines| - 1].event.Message? && lines[|lines| - 1].event.assistant)
  {
  }

  // Whether a slot waits under an ID after one event.
  lemma StepWaits(g: Grouped, first: bool, line: Line, id: Id)
    ensures SlotOf(LastSlots(Step(g, first, line).turns), id).Some? <==>
      !(line.event.Message? && line.event.assistant) &&
      (SlotOf(LastSlots(g.turns), id).Some? || (line.event.FunctionCall? && line.event.call.callId == id && g.turns != []))
    ensures Step(g, first, line).turns == [] <==> g.turns == [] && !(line.event.Message? && line.event.assistant)
  {
    var slots, turns := LastSlots(g.turns), Step(g, first, line).turns;
    match line.event
    case Message(assistant, text) =>
      assert turns == if assistant then g.turns + [Turn(|g.turns|, text, [])] else g.turns;
    case FunctionCall(call) =>
      CallWaits(slots, call, id);
      assert g.turns != [] ==> LastSlots(turns) == slots + [Slot(call, None)];
    case FunctionCallOutput(output) =>
      var k := SlotOf(slots, output.callId);
      if k.Some? { SameSlot(slots, k.value, output, id); }
    case _ =>
  }

  lemma CallWaits(slots: seq<Slot>, call: Call, id: Id)
    ensures SlotOf(slots + [Slot(call, None)], id).Some? <==> SlotOf(slots, id).Some? || call.callId == id
  {
  }

  lemma {:induction false} UnknownExactly(lines: seq<Line>)
    ensures Run(lines).unknown == UnknownLines(lines)
  {
    if lines != [] {
      var front, last := lines[..|lines| - 1], lines[|lines| - 1];
      UnknownExactly(front);
      var id := if last.event.FunctionCallOutput? then last.event.output.callId else Id("");
      InFlightIsWaiting(front, id);
    }
  }
}
