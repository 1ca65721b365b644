/**
 Grouping a Claude Code transcript into turns (src/claude_code.rs:362-499). A plain user
 message ends the current turn, yet results that come later still reach it: grouping is
 a fold in which the last turn is always the active one.
 */
module ClaudeTurns {
  import opened Wrappers

  datatype Id = Id(text: string)

  // `ToolUse` without an ID opens no slot.
  datatype Block =
    | Text(text: string)
    | ToolUse(id: Option<Id>, name: string)
    | ToolResult(toolUseId: Option<Id>, content: Option<string>, isError: bool)
    | OtherBlock

  datatype Event =
    | Assistant(timestamp: Option<string>, content: seq<Block>)
    | User(timestamp: Option<string>, content: seq<Block>)
    | Hook(hook: nat) | Summary(summary: nat) | Unknown

  datatype Line = Line(index: nat, event: Event)

  // A stored result keeps the ID it came with.
  datatype Result = Result(toolUseId: Id, content: Option<string>, isError: bool, timestamp: Option<string>)

  datatype Slot = Slot(toolUseId: Id, name: string, started: Option<string>, result: Option<Result>)

  datatype Turn = Turn(turnIndex: nat, userPrompt: Option<string>, slots: seq<Slot>, idToSlot: map<Id, nat>)

  datatype Grouped = Grouped(turns: seq<Turn>, hooks: seq<nat>, summaries: seq<(nat, nat)>, unknown: seq<nat>)

  // The text blocks of a message that say something, joined; the rule for blank text
  // and the separator are a parameter.
  datatype Env = Env(promptOf: seq<Block> -> Option<string>)

  // ---------------------------------------------------------------- slots

  function SlotOf(slots: seq<Slot>, id: Id): (r: Option<nat>)
    ensures r.Some? ==> r.value < |slots| && slots[r.value].toolUseId == id
    ensures r.Some? ==> forall k :: r.value < k < |slots| ==> slots[k].toolUseId != id
    ensures r.None? ==> forall k :: 0 <= k < |slots| ==> slots[k].toolUseId != id
  {
    if slots == [] then None
    else if slots[|slots| - 1].toolUseId == id then Some(|slots| - 1)
    else SlotOf(slots[..|slots| - 1], id)
  }

  function OpenSlots(content: seq<Block>, started: Option<string>): seq<Slot> {
    if content == [] then []
    else
      var front, last := OpenSlots(content[..|content| - 1], started), content[|content| - 1];
      if last.ToolUse? && last.id.Some? then front + [Slot(last.id.value, last.name, started, None)] else front
  }

  // The slots after the results of one message: each goes to the last slot with its ID,
  // one without a match is dropped.
  function FillSlots(slots: seq<Slot>, content: seq<Block>, finished: Option<string>): (r: seq<Slot>)
    ensures |r| == |slots|
  {
    if content == [] then slots
    else
      var front, last := FillSlots(slots, content[..|content| - 1], finished), content[|content| - 1];
      if !last.ToolResult? then front
      else
        var id := last.toolUseId.UnwrapOr(Id(""));
        var k := SlotOf(front, id);
        if k.None? then front
        else front[k.value := front[k.value].(result := Some(Result(id, last.content, last.isError, finished)))]
  }

  predicate HasToolResults(content: seq<Block>) {
    exists b :: b in content && b.ToolResult?
  }

  // ---------------------------------------------------------------- what is computed

  datatype State = State(grouped: Grouped, prompt: Option<string>)

  // The map of a turn is the search for the last slot with an ID.
  function MapOf(slots: seq<Slot>): map<Id, nat> {
    if slots == [] then map[] else MapOf(slots[..|slots| - 1])[slots[|slots| - 1].toolUseId := |slots| - 1]
  }

  function Step(env: Env, s: State, line: Line): State {
    var g := s.grouped;
    match line.event
    case Assistant(timestamp, content) =>
      var slots := OpenSlots(content, timestamp);
      State(g.(turns := g.turns + [Turn(|g.turns|, s.prompt, slots, MapOf(slots))]), None)
    case User(timestamp, content) =>
      if HasToolResults(content) then
        if g.turns == [] then s
        else
          var last := g.turns[|g.turns| - 1];
          s.(grouped := g.(turns := g.turns[|g.turns| - 1 := last.(slots := FillSlots(last.slots, content, timestamp))]))
      else
        var text := env.promptOf(content);
        if text.Some? then s.(prompt := text) else s
    case Hook(h) => s.(grouped := g.(hooks := g.hooks + [h]))
    case Summary(n) => s.(grouped := g.(summaries := g.summaries + [(line.index, n)]))
    case Unknown => s.(grouped := g.(unknown := g.unknown + [line.index]))
  }

  function Run(env: Env, lines: seq<Line>): State {
    if lines == [] then State(Grouped([], [], [], []), None)
    else Step(env, Run(env, lines[..|lines| - 1]), lines[|lines| - 1])
  }

  // ---------------------------------------------------------------- the code

  ghost predicate Tracks(idToSlot: map<Id, nat>, slots: seq<Slot>) {
    forall id :: if id in idToSlot then SlotOf(slots, id) == Some(idToSlot[id]) else SlotOf(slots, id) == None
  }

  lemma {:induction false} MapTracks(slots: seq<Slot>)
    ensures Tracks(MapOf(slots), slots)
  {
    if slots != [] { MapTracks(slots[..|slots| - 1]); }
  }

  lemma SameSlot(a: seq<Slot>, b: seq<Slot>, id: Id)
    requires |a| == |b| && forall k :: 0 <= k < |a| ==> a[k].toolUseId == b[k].toolUseId
    ensures SlotOf(a, id) == SlotOf(b, id)
  {
  }

  lemma {:induction false} FillingKeepsIds(slots: seq<Slot>, content: seq<Block>, finished: Option<string>)
    ensures forall k :: 0 <= k < |slots| ==> FillSlots(slots, content, finished)[k].toolUseId == slots[k].toolUseId
  {
    if content != [] { FillingKeepsIds(slots, content[..|content| - 1], finished); }
  }

  // A turn whose map fits its slots, in range for every result that may come.
  ghost predicate Fits(t: Turn) {
    Tracks(t.idToSlot, t.slots)
  }

  lemma FilledFits(t: Turn, content: seq<Block>, finished: Option<string>)
    requires Fits(t)
    ensures Fits(t.(slots := FillSlots(t.slots, content, finished)))
  {
    FillingKeepsIds(t.slots, content, finished);
    forall id ensures SlotOf(FillSlots(t.slots, content, finished), id) == SlotOf(t.slots, id) {
      SameSlot(FillSlots(t.slots, content, finished), t.slots, id);
    }
  }

  // One more block opens one more slot, or none.
  function SlotFor(block: Block, started: Option<string>): seq<Slot> {
    match block
    case ToolUse(Some(id), name) => [Slot(id, name, started, None)]
    case _ => []
  }

  lemma {:induction false} OpenGrows(content: seq<Block>, started: Option<string>, i: nat)
    requires i < |content|
    ensures OpenSlots(content[..i + 1], started) == OpenSlots(content[..i], started) + SlotFor(content[i], started)
  {
    assert content[..i + 1][..i] == content[..i];
  }

  lemma {:induction false} MapGrows(slots: seq<Slot>, slot: Slot)
    ensures MapOf(slots + [slot]) == MapOf(slots)[slot.toolUseId := |slots|]
  {
    assert (slots + [slot])[..|slots|] == slots;
  }

  method OpenTurn(timestamp: Option<string>, content: seq<Block>, index: nat, prompt: Option<string>) returns (turn: Turn)
    ensures turn == Turn(index, prompt, OpenSlots(content, timestamp), MapOf(OpenSlots(content, timestamp)))
  {
    var slots: seq<Slot>, idToSlot: map<Id, nat> := [], map[];
    for i := 0 to |content|
      invariant slots == OpenSlots(content[..i], timestamp) && idToSlot == MapOf(slots)
    {
      OpenGrows(content, timestamp, i);
      match content[i] {
        case ToolUse(Some(id), name) =>
          var slot := Slot(id, name, timestamp, None);
          MapGrows(slots, slot);
          idToSlot, slots := idToSlot[id := |slots|], slots + [slot];
        case _ =>
      }
    }
    assert content[..|content|] == content;
    turn := Turn(index, prompt, slots, idToSlot);
  }

  method FillTurn(turn0: Turn, timestamp: Option<string>, content: seq<Block>) returns (turn: Turn)
    requires Fits(turn0)
    ensures turn == turn0.(slots := FillSlots(turn0.slots, content, timestamp))
  {
    turn := turn0;
    for i := 0 to |content|
      invariant turn == turn0.(slots := FillSlots(turn0.slots, content[..i], timestamp))
      invariant Fits(turn)
    {
      assert content[..i + 1][..i] == content[..i];
      FilledFits(turn0, content[..i + 1], timestamp);
      match content[i] {
        case ToolResult(toolUseId, text, isError) =>
          var id := toolUseId.UnwrapOr(Id(""));
          if id in turn.idToSlot {
            var k := turn.idToSlot[id];
            assert SlotOf(turn.slots, id) == Some(k);
            turn := turn.(slots := turn.slots[k := turn.slots[k].(result := Some(Result(id, text, isError, timestamp)))]);
          } else {
            assert SlotOf(turn.slots, id) == None;
          }
        case _ =>
      }
    }
    assert content[..|content|] == content;
  }

  function AllTurns(done: seq<Turn>, current: Option<Turn>): seq<Turn> {
    if current.Some? then done + [current.value] else done
  }

  ghost predicate Agrees(s: State, done: seq<Turn>, current: Option<Turn>, g: Grouped, prompt: Option<string>) {
    && s.grouped == g.(turns := AllTurns(done, current)) && s.prompt == prompt
    && forall i :: 0 <= i < |s.grouped.turns| ==> Fits(s.grouped.turns[i])
  }

  method GroupEvents(env: Env, lines: seq<Line>) returns (g: Grouped)
    ensures g == Run(env, lines).grouped
  {
    var turns: seq<Turn> := [];
    var current: Option<Turn> := None;
    var prompt: Option<string> := None;
    g := Grouped([], [], [], []);
    for i := 0 to |lines|
      invariant Agrees(Run(env, lines[..i]), turns, current, g, prompt)
    {
      assert lines[..i + 1][..i] == lines[..i];
      match lines[i].event {
        case Assistant(timestamp, content) =>
          if current.Some? { turns := turns + [current.value]; }
          var turn := OpenTurn(timestamp, content, |turns|, prompt);
          MapTracks(turn.slots);
          current, prompt := Some(turn), None;
        case User(timestamp, content) =>
          if HasToolResults(content) {
            turns, current := FillActive(turns, current, timestamp, content);
          } else {
            if current.Some? { turns, current := turns + [current.value], None; }
            var text := env.promptOf(content);
            if text.Some? { prompt := text; }
          }
        case Hook(h) => g := g.(hooks := g.hooks + [h]);
        case Summary(n) => g := g.(summaries := g.summaries + [(lines[i].index, n)]);
        case Unknown => g := g.(unknown := g.unknown + [lines[i].index]);
      }
    }
    assert lines[..|lines|] == lines;
    g := g.(turns := AllTurns(turns, current));
  }

  // The active turn is the current one, or else the last one done.
  method FillActive(turns0: seq<Turn>, current0: Option<Turn>, timestamp: Option<string>, content: seq<Block>)
    returns (turns: seq<Turn>, current: Option<Turn>)
    requires forall i :: 0 <= i < |AllTurns(turns0, current0)| ==> Fits(AllTurns(turns0, current0)[i])
    ensures var all := AllTurns(turns0, current0);
      AllTurns(turns, current) == if all == [] then all
        else all[|all| - 1 := all[|all| - 1].(slots := FillSlots(all[|all| - 1].slots, content, timestamp))]
    ensures forall i :: 0 <= i < |AllTurns(turns, current)| ==> Fits(AllTurns(turns, current)[i])
  {
    ghost var all := AllTurns(turns0, current0);
    turns, current := turns0, current0;
    if current.Some? {
      assert current.value == all[|all| - 1];
      FilledFits(current.value, content, timestamp);
      var t := FillTurn(current.value, timestamp, content);
      current := Some(t);
    } else if turns != [] {
      FilledFits(turns[|turns| - 1], content, timestamp);
      var t := FillTurn(turns[|turns| - 1], timestamp, content);
      turns := turns[|turns| - 1 := t];
    }
  }

  // ---------------------------------------------------------------- what it means

  ghost predicate Answered(slots: seq<Slot>) {
    forall k :: 0 <= k < |slots| && slots[k].result.Some? ==> slots[k].result.value.toolUseId == slots[k].toolUseId
  }

  // A turn sits at its index; the slots its map names are in range and carry the ID;
  // a stored result answers the call it is stored with.
  ghost predicate WellGrouped(turns: seq<Turn>) {
    forall i :: 0 <= i < |turns| ==> turns[i].turnIndex == i && WellFormed(turns[i])
  }

  ghost predicate WellFormed(t: Turn) {
    && Answered(t.slots)
    && forall id :: id in t.idToSlot ==> t.idToSlot[id] < |t.slots| && t.slots[t.idToSlot[id]].toolUseId == id
  }

  lemma {:induction false} FilledAnswered(slots: seq<Slot>, content: seq<Block>, finished: Option<string>)
    requires Answered(slots)
    ensures Answered(FillSlots(slots, content, finished))
  {
    if content != [] { FilledAnswered(slots, content[..|content| - 1], finished); }
  }

  lemma {:induction false} OpenUnanswered(content: seq<Block>, started: Option<string>)
    ensures Answered(OpenSlots(content, started))
    ensures forall k :: 0 <= k < |OpenSlots(content, started)| ==> OpenSlots(content, started)[k].result.None?
  {
    if content != [] { OpenUnanswered(content[..|content| - 1], started); }
  }

  lemma OpenWellFormed(t: Turn, content: seq<Block>, started: Option<string>)
    requires t.slots == OpenSlots(content, started) && t.idToSlot == MapOf(t.slots)
    ensures WellFormed(t)
  {
    OpenUnanswered(content, started);
    MapTracks(t.slots);
    forall id | id in t.idToSlot ensures t.idToSlot[id] < |t.slots| && t.slots[t.idToSlot[id]].toolUseId == id {
      assert SlotOf(t.slots, id) == Some(t.idToSlot[id]);
    }
  }

  lemma FilledWellFormed(t: Turn, content: seq<Block>, finished: Option<string>)
    requires WellFormed(t)
    ensures WellFormed(t.(slots := FillSlots(t.slots, content, finished)))
  {
    FilledAnswered(t.slots, content, finished);
    FillingKeepsIds(t.slots, content, finished);
  }

  lemma {:induction false} RunWellGrouped(env: Env, lines: seq<Line>)
    ensures WellGrouped(Run(env, lines).grouped.turns)
  {
    if lines != [] {
      var front, last := lines[..|lines| - 1], lines[|lines| - 1];
      RunWellGrouped(env, front);
      var turns := Run(env, front).grouped.turns;
      match last.event
      case Assistant(timestamp, content) =>
        var slots := OpenSlots(content, timestamp);
        OpenWellFormed(Turn(|turns|, Run(env, front).prompt, slots, MapOf(slots)), content, timestamp);
      case User(timestamp, content) =>
        if turns != [] { FilledWellFormed(turns[|turns| - 1], content, timestamp); }
      case _ =>
    }
  }

  // Where a plain user message falls changes no turn but the prompt of the next one:
  // without its text, it may be left out.
  lemma SilentMessagesDoNotMatter(env: Env, before: seq<Line>, m: Line, after: seq<Line>)
    requires m.event.User? && !HasToolResults(m.event.content) && env.promptOf(m.event.content).None?
    ensures Run(env, before + [m] + after) == Run(env, before + after)
  {
    if after == [] {
      assert before + [m] + after == before + [m] && (before + [m])[..|before|] == before;
      assert before + after == before;
    } else {
      var front := after[..|after| - 1];
      SilentMessagesDoNotMatter(env, before, m, front);
      assert (before + [m] + after)[..|before + [m] + after| - 1] == before + [m] + front;
      assert (before + after)[..|before + after| - 1] == before + front;
    }
  }

  // ---------------------------------------------------------------- which calls and results are kept

  datatype Use = Use(id: Id, name: string, started: Option<string>)

  // The tool uses with an ID, in one message and over a transcript.
  function UsesIn(content: seq<Block>, started: Option<string>): seq<Use> {
    if content == [] then []
    else
      var front, last := UsesIn(content[..|content| - 1], started), content[|content| - 1];
      if last.ToolUse? && last.id.Some? then front + [Use(last.id.value, last.name, started)] else front
  }

  function Uses(lines: seq<Line>): seq<Use> {
    if lines == [] then []
    else
      var front, last := Uses(lines[..|lines| - 1]), lines[|lines| - 1].event;
      if last.Assistant? then front + UsesIn(last.content, last.timestamp) else front
  }

  function SlotUses(slots: seq<Slot>): (r: seq<Use>)
    ensures |r| == |slots|
    ensures forall k :: 0 <= k < |slots| ==> r[k] == Use(slots[k].toolUseId, slots[k].name, slots[k].started)
  {
    seq(|slots|, k requires 0 <= k < |slots| => Use(slots[k].toolUseId, slots[k].name, slots[k].started))
  }

  function StoredUses(turns: seq<Turn>): seq<Use> {
    if turns == [] then [] else StoredUses(turns[..|turns| - 1]) + SlotUses(turns[|turns| - 1].slots)
  }

  lemma {:induction false} OpenedUses(content: seq<Block>, started: Option<string>)
    ensures SlotUses(OpenSlots(content, started)) == UsesIn(content, started)
  {
    if content != [] { OpenedUses(content[..|content| - 1], started); }
  }

  lemma {:induction false} FillingKeepsUses(slots: seq<Slot>, content: seq<Block>, finished: Option<string>)
    ensures SlotUses(FillSlots(slots, content, finished)) == SlotUses(slots)
  {
    if content != [] { FillingKeepsUses(slots, content[..|content| - 1], finished); }
  }

  lemma {:induction false} OneMoreTurn(turns: seq<Turn>, t: Turn)
    ensures StoredUses(turns + [t]) == StoredUses(turns) + SlotUses(t.slots)
  {
    assert (turns + [t])[..|turns|] == turns;
  }

  lemma {:induction false} LastTurnChanged(turns: seq<Turn>, t: Turn)
    requires turns != [] && SlotUses(t.slots) == SlotUses(turns[|turns| - 1].slots)
    ensures StoredUses(turns[|turns| - 1 := t]) == StoredUses(turns)
  {
    assert turns[|turns| - 1 := t][..|turns| - 1] == turns[..|turns| - 1];
  }

  // Every tool use with an ID becomes exactly one slot, in order.
  lemma {:induction false} UsesAreKept(env: Env, lines: seq<Line>)
    ensures StoredUses(Run(env, lines).grouped.turns) == Uses(lines)
  {
    if lines != [] {
      var front, last := lines[..|lines| - 1], lines[|lines| - 1];
      UsesAreKept(env, front);
      StepKeepsUses(env, Run(env, front), last);
    }
  }

  lemma {:induction false} StepKeepsUses(env: Env, s: State, line: Line)
    ensures StoredUses(Step(env, s, line).grouped.turns) == StoredUses(s.grouped.turns) +
      if line.event.Assistant? then UsesIn(line.event.content, line.event.timestamp) else []
  {
    var turns := s.grouped.turns;
    match line.event
    case Assistant(timestamp, content) =>
      var slots := OpenSlots(content, timestamp);
      OpenedUses(content, timestamp);
      OneMoreTurn(turns, Turn(|turns|, s.prompt, slots, MapOf(slots)));
    case User(timestamp, content) =>
      if HasToolResults(content) && turns != [] {
        var t := turns[|turns| - 1];
        FillingKeepsUses(t.slots, content, timestamp);
        LastTurnChanged(turns, t.(slots := FillSlots(t.slots, content, timestamp)));
      }
    case _ =>
  }

  // The last result for an ID in a message, and since the last assistant message.
  function AnswerIn(content: seq<Block>, finished: Option<string>, id: Id): Option<Result> {
    if content == [] then None
    else
      var last := content[|content| - 1];
      if last.ToolResult? && last.toolUseId.UnwrapOr(Id("")) == id then Some(Result(id, last.content, last.isError, finished))
      else AnswerIn(content[..|content| - 1], finished, id)
  }

  function LastAnswer(lines: seq<Line>, id: Id): Option<Result> {
    if lines == [] then None
    else
      var front, last := lines[..|lines| - 1], lines[|lines| - 1].event;
      if last.Assistant? then None
      else if last.User? && AnswerIn(last.content, last.timestamp, id).Some? then AnswerIn(last.content, last.timestamp, id)
      else LastAnswer(front, id)
  }

  lemma {:induction false} NoResultNoAnswer(content: seq<Block>, finished: Option<string>, id: Id)
    requires !HasToolResults(content)
    ensures AnswerIn(content, finished, id) == None
  {
    if content != [] {
      assert content[|content| - 1] in content;
      NoResultNoAnswer(content[..|content| - 1], finished, id);
    }
  }

  lemma {:induction false} SlotsFilled(slots: seq<Slot>, content: seq<Block>, finished: Option<string>, k: nat)
    requires k < |slots|
    ensures var id := slots[k].toolUseId;
      FillSlots(slots, content, finished)[k].result ==
        if SlotOf(slots, id) == Some(k) && AnswerIn(content, finished, id).Some? then AnswerIn(content, finished, id)
        else slots[k].result
  {
    if content != [] {
      var front := content[..|content| - 1];
      SlotsFilled(slots, front, finished, k);
      FillingKeepsIds(slots, front, finished);
      var last := content[|content| - 1];
      if last.ToolResult? {
        SameSlot(FillSlots(slots, front, finished), slots, last.toolUseId.UnwrapOr(Id("")));
      }
    }
  }

  // The last slot with an ID holds the last result for it, and the others hold none.
  ghost predicate HoldsAnswers(slots: seq<Slot>, lines: seq<Line>) {
    forall k :: 0 <= k < |slots| ==> slots[k].result == ResultDue(slots, k, lines)
  }

  function ResultDue(slots: seq<Slot>, k: nat, lines: seq<Line>): Option<Result>
    requires k < |slots|
  {
    if SlotOf(slots, slots[k].toolUseId) == Some(k) then LastAnswer(lines, slots[k].toolUseId) else None
  }

  function LastSlots(turns: seq<Turn>): seq<Slot> {
    if turns == [] then [] else turns[|turns| - 1].slots
  }

  // In the turn that is open, exactly the last results since its assistant message are
  // stored; all others are overwritten or dropped.
  lemma {:induction false} OpenTurnHoldsAnswers(env: Env, lines: seq<Line>)
    ensures HoldsAnswers(LastSlots(Run(env, lines).grouped.turns), lines)
  {
    if lines != [] {
      OpenTurnHoldsAnswers(env, lines[..|lines| - 1]);
      StepSlots(env, Run(env, lines[..|lines| - 1]), lines[|lines| - 1]);
      if lines[|lines| - 1].event.Assistant? {
        NothingAnswered(lines);
      } else {
        AnswersAfter(LastSlots(Run(env, lines[..|lines| - 1]).grouped.turns), lines);
      }
    }
  }

  lemma StepSlots(env: Env, s: State, line: Line)
    ensures LastSlots(Step(env, s, line).grouped.turns) ==
            if line.event.Assistant? then OpenSlots(line.event.content, line.event.timestamp)
            else SlotsAfter(LastSlots(s.grouped.turns), line.event)
  {
  }

  // The slots of the open turn after one more event that opens none.
  function SlotsAfter(slots: seq<Slot>, event: Event): seq<Slot> {
    if event.User? && HasToolResults(event.content) then FillSlots(slots, event.content, event.timestamp) else slots
  }

  lemma NothingAnswered(lines: seq<Line>)
    requires lines != [] && lines[|lines| - 1].event.Assistant?
    ensures var e := lines[|lines| - 1].event; HoldsAnswers(OpenSlots(e.content, e.timestamp), lines)
  {
    OpenUnanswered(lines[|lines| - 1].event.content, lines[|lines| - 1].event.timestamp);
  }

  lemma AnswersAfter(slots: seq<Slot>, lines: seq<Line>)
    requires lines != [] && !lines[|lines| - 1].event.Assistant? && HoldsAnswers(slots, lines[..|lines| - 1])
    ensures HoldsAnswers(SlotsAfter(slots, lines[|lines| - 1].event), lines)
  {
    var front, event := lines[..|lines| - 1], lines[|lines| - 1].event;
    forall k | 0 <= k < |slots|
      ensures SlotsAfter(slots, event)[k].result == ResultDue(SlotsAfter(slots, event), k, lines)
    {
      assert slots[k].result == ResultDue(slots, k, front);
      if event.User? {
        if HasToolResults(event.content) {
          FilledResult(slots, event, k);
        } else {
          NoResultNoAnswer(event.content, event.timestamp, slots[k].toolUseId);
        }
      }
    }
  }

  lemma FilledResult(slots: seq<Slot>, event: Event, k: nat)
    requires event.User? && k < |slots|
    ensures var filled, id := FillSlots(slots, event.content, event.timestamp), slots[k].toolUseId;
      && SlotOf(filled, id) == SlotOf(slots, id) && filled[k].toolUseId == id
      && filled[k].result ==
           if SlotOf(slots, id) == Some(k) && AnswerIn(event.content, event.timestamp, id).Some?
           then AnswerIn(event.content, event.timestamp, id) else slots[k].result
  {
    FillingKeepsIds(slots, event.content, event.timestamp);
    SlotsFilled(slots, event.content, event.timestamp, k);
    SameSlot(FillSlots(slots, event.content, event.timestamp), slots, slots[k].toolUseId);
  }

  // After `j` lines turn `i` has been opened last, the next line, if any, opens another,
  // and the turn is at the end of `lines` what it is then: it holds the answers so far.
  ghost predicate IsFinal(env: Env, lines: seq<Line>, i: nat, j: nat) {
    && j <= |lines| && (j == |lines| || lines[j].event.Assistant?)
    && IsFinalTurn(Run(env, lines).grouped.turns, Run(env, lines[..j]).grouped.turns, i)
    && HoldsAnswers(LastSlots(Run(env, lines[..j]).grouped.turns), lines[..j])
  }

  predicate IsFinalTurn(turns: seq<Turn>, first: seq<Turn>, i: nat) {
    i < |turns| && |first| == i + 1 && turns[i] == first[i]
  }

  // A turn is never changed after the next assistant message: each holds the answers given
  // up to there, or to the end.
  lemma {:induction false} EveryTurnHoldsAnswers(env: Env, lines: seq<Line>, i: nat) returns (j: nat)
    requires i < |Run(env, lines).grouped.turns|
    ensures IsFinal(env, lines, i, j)
  {
    if i == |Run(env, lines).grouped.turns| - 1 {
      j := |lines|;
      assert lines[..j] == lines;
      OpenTurnHoldsAnswers(env, lines);
    } else {
      StepTurns(env, Run(env, lines[..|lines| - 1]), lines[|lines| - 1]);
      j := EveryTurnHoldsAnswers(env, lines[..|lines| - 1], i);
      FinalStays(env, lines, i, j);
    }
  }

  lemma {:induction false} FinalStays(env: Env, lines: seq<Line>, i: nat, j: nat)
    requires lines != [] && IsFinal(env, lines[..|lines| - 1], i, j) && i < |Run(env, lines).grouped.turns| - 1
    ensures IsFinal(env, lines, i, j)
  {
    var front := lines[..|lines| - 1];
    assert front[..j] == lines[..j];
    StepTurns(env, Run(env, front), lines[|lines| - 1]);
  }

  // One event opens a turn, or changes the last one at most.
  lemma StepTurns(env: Env, s: State, line: Line)
    ensures var turns, next := s.grouped.turns, Step(env, s, line).grouped.turns;
      && |next| == |turns| + (if line.event.Assistant? then 1 else 0)
      && forall i :: 0 <= i < |next| - 1 ==> next[i] == turns[i]
  {
  }
}
