/** What the pi extension records of a session: each turn's checkpoints. */
module Checkpoints {
  import opened Wrappers

  const NO_ANSWER := "No answer from Watershed"
  const NO_GUARD := "No checkout guard from Watershed"

  datatype Turn = Turn(session: string, id: int)

  datatype Phase = Start | End

  /** The core's answer: the dialog failed, was unreadable, or said this; `counts` are the safe
      integers it counted. */
  datatype Answer =
    | Fails(message: string)
    | Unreadable
    | Reply(canRun: bool, ok: bool, error: Option<string>, counts: map<string, int>)

  /** A stored checkpoint entry. */
  datatype Entry = Entry(turn: Turn, phase: Phase, error: Option<string>, counts: map<string, int>)

  /** The extension's variable, what it stored and the notices it aborted runs with. */
  datatype State = State(running: Option<Turn>, entries: seq<Entry>, aborted: seq<string>)

  predicate CanRun(a: Answer) {
    a.Reply? && a.canRun
  }

  function Recorded(turn: Turn, phase: Phase, a: Answer): Entry {
    if a.Reply? && a.ok then Entry(turn, phase, None, a.counts)
    else if a.Reply? && a.error.Some? then Entry(turn, phase, a.error, map[])
    else Entry(turn, phase, Some(NO_ANSWER), map[])
  }

  /** Why a run could not start. */
  function Reason(turn: Turn, a: Answer): string {
    if a.Fails? then a.message
    else if Recorded(turn, Start, a).error.Some? then Recorded(turn, Start, a).error.value
    else NO_GUARD
  }

  datatype Event =
    | BeforeAgentStart(rpc: bool, turn: Turn, answer: Answer)
    | AgentSettled(rpc: bool, answer: Answer)

  function Step(s: State, e: Event): State {
    match e
    case BeforeAgentStart(rpc, turn, answer) =>
      if !rpc then s
      else
        State(if CanRun(answer) then Some(turn) else None,
              s.entries + if answer.Fails? then [] else [Recorded(turn, Start, answer)],
              s.aborted + if CanRun(answer) then [] else [Reason(turn, answer)])
    case AgentSettled(rpc, answer) =>
      if !rpc || s.running.None? then s.(running := None)
      else if answer.Fails? then s
      else State(None, s.entries + [Recorded(s.running.value, End, answer)], s.aborted)
  }

  class Extension {
    var running: Option<Turn>
    var entries: seq<Entry>
    var aborted: seq<string>

    ghost function View(): State
      reads this
    {
      State(running, entries, aborted)
    }

    constructor ()
      ensures View() == State(None, [], [])
    {
      running, entries, aborted := None, [], [];
    }

    /** Asks the core for a checkpoint of the running turn and stores it; without one, does nothing. */
    method Checkpoint(phase: Phase, answer: Answer) returns (r: Option<(bool, string)>)
      requires !answer.Fails?
      modifies `entries
      ensures running.None? ==> r.None? && entries == old(entries)
      ensures running.Some? ==>
                && r == Some((CanRun(answer), var e := Recorded(running.value, phase, answer).error;
                                              if e.Some? then e.value else NO_GUARD))
                && entries == old(entries) + [Recorded(running.value, phase, answer)]
    {
      if running.None? {
        return None;
      }
      var recorded := Entry(running.value, phase, Some(NO_ANSWER), map[]);
      var canRun := false;
      if answer.Reply? {
        canRun := answer.canRun;
        if answer.ok {
          recorded := Entry(running.value, phase, None, answer.counts);
        } else if answer.error.Some? {
          recorded := Entry(running.value, phase, answer.error, map[]);
        }
      }
      entries := entries + [recorded];
      r := Some((canRun, if recorded.error.Some? then recorded.error.value else NO_GUARD));
    }

    method OnBeforeAgentStart(rpc: bool, turn: Turn, answer: Answer)
      modifies this
      ensures View() == Step(old(View()), BeforeAgentStart(rpc, turn, answer))
    {
      if !rpc {
        return;
      }
      running := Some(turn);
      var start: Option<(bool, string)>;
      if answer.Fails? {
        start := Some((false, answer.message));
      } else {
        start := Checkpoint(Start, answer);
      }
      if start.None? || !start.value.0 {
        running := None;
        aborted := aborted + [if start.Some? then start.value.1 else NO_ANSWER];
      }
    }

    /** A dialog that fails ends the handler before it forgets the turn. */
    method OnAgentSettled(rpc: bool, answer: Answer)
      modifies this
      ensures View() == Step(old(View()), AgentSettled(rpc, answer))
    {
      if rpc && running.Some? {
        if answer.Fails? {
          return;
        }
        var _ := Checkpoint(End, answer);
      }
      running := None;
    }
  }

  // ----- traces -----

  function Run(events: seq<Event>): State {
    if events == [] then State(None, [], []) else Step(Run(events[..|events| - 1]), events[|events| - 1])
  }

  /** No two runs get the same turn. */
  ghost predicate FreshTurns(events: seq<Event>) {
    forall i, j | 0 <= i < j < |events| && events[i].BeforeAgentStart? && events[j].BeforeAgentStart? ::
      events[i].turn != events[j].turn
  }

  /** The turn's start was asked for, and answered this way. */
  ghost predicate StartedWith(events: seq<Event>, turn: Turn, good: Answer -> bool) {
    exists i | 0 <= i < |events| ::
      events[i].BeforeAgentStart? && events[i].rpc && events[i].turn == turn && good(events[i].answer)
  }

  function Answered(): Answer -> bool {
    (a: Answer) => !a.Fails?
  }

  function Allowed(): Answer -> bool {
    (a: Answer) => CanRun(a)
  }

  ghost predicate Has(entries: seq<Entry>, turn: Turn, phase: Phase) {
    exists i | 0 <= i < |entries| :: IsOf(entries[i], turn, phase)
  }

  predicate IsOf(e: Entry, turn: Turn, phase: Phase) {
    e.turn == turn && e.phase == phase
  }

  /** At most one entry of a turn and a phase. */
  ghost predicate Once(entries: seq<Entry>) {
    forall i, j | 0 <= i < j < |entries| :: !IsOf(entries[j], entries[i].turn, entries[i].phase)
  }

  /** Every end entry follows the start entry of the same turn in the same session. */
  ghost predicate StartFirst(entries: seq<Entry>) {
    forall j | 0 <= j < |entries| && entries[j].phase.End? :: Has(entries[..j], entries[j].turn, Start)
  }

  ghost predicate Kept(events: seq<Event>, s: State) {
    && Once(s.entries) && StartFirst(s.entries)
    && (forall t :: Has(s.entries, t, Start) <==> StartedWith(events, t, Answered()))
    && (forall t :: Has(s.entries, t, End) ==> StartedWith(events, t, Allowed()))
    && (s.running.Some? ==> StartedWith(events, s.running.value, Allowed()) && !Has(s.entries, s.running.value, End))
  }

  lemma HasNext(entries: seq<Entry>, e: Entry, t: Turn, phase: Phase)
    ensures Has(entries + [e], t, phase) <==> Has(entries, t, phase) || IsOf(e, t, phase)
  {
    var all := entries + [e];
    assert forall i | 0 <= i < |entries| :: all[i] == entries[i];
    assert all[|entries|] == e;
  }

  lemma StartedNext(events: seq<Event>, e: Event, t: Turn, good: Answer -> bool)
    ensures StartedWith(events + [e], t, good) <==>
            StartedWith(events, t, good) || (e.BeforeAgentStart? && e.rpc && e.turn == t && good(e.answer))
  {
    var all := events + [e];
    assert forall i | 0 <= i < |events| :: all[i] == events[i];
    assert all[|events|] == e;
  }

  lemma AllowedAnswered(events: seq<Event>, t: Turn)
    requires StartedWith(events, t, Allowed())
    ensures StartedWith(events, t, Answered())
  {
    var i :| 0 <= i < |events| && events[i].BeforeAgentStart? && events[i].rpc && events[i].turn == t
             && Allowed()(events[i].answer);
    assert Answered()(events[i].answer);
  }

  /** One more entry, of a turn and phase that had none. */
  lemma EntryKeeps(entries: seq<Entry>, e: Entry)
    requires Once(entries) && StartFirst(entries) && !Has(entries, e.turn, e.phase)
    requires e.phase.End? ==> Has(entries, e.turn, Start)
    ensures Once(entries + [e]) && StartFirst(entries + [e])
  {
    var all := entries + [e];
    assert forall i | 0 <= i < |entries| :: all[i] == entries[i];
    forall i, j | 0 <= i < j < |all|
      ensures !IsOf(all[j], all[i].turn, all[i].phase)
    {
      assert !IsOf(entries[i], e.turn, e.phase);
    }
    forall j | 0 <= j < |all| && all[j].phase.End?
      ensures Has(all[..j], all[j].turn, Start)
    {
      assert all[..j] == if j == |entries| then entries else entries[..j];
    }
  }

  lemma NewTurn(events: seq<Event>, e: Event, good: Answer -> bool)
    requires FreshTurns(events + [e]) && e.BeforeAgentStart?
    ensures !StartedWith(events, e.turn, good)
  {
    var all := events + [e];
    assert all[|events|] == e && forall i | 0 <= i < |events| :: all[i] == events[i];
  }

  lemma StartKeeps(events: seq<Event>, s: State, e: Event)
    requires Kept(events, s) && FreshTurns(events + [e]) && e.BeforeAgentStart? && e.rpc
    ensures Kept(events + [e], Step(s, e))
  {
    var s' := Step(s, e);
    NewTurn(events, e, Answered());
    NewTurn(events, e, Allowed());
    var entry := Recorded(e.turn, Start, e.answer);
    if !e.answer.Fails? {
      EntryKeeps(s.entries, entry);
    } else {
      assert s'.entries == s.entries;
    }
    forall t
      ensures Has(s'.entries, t, Start) <==> StartedWith(events + [e], t, Answered())
      ensures Has(s'.entries, t, End) ==> StartedWith(events + [e], t, Allowed())
    {
      StartedNext(events, e, t, Answered());
      StartedNext(events, e, t, Allowed());
      HasNext(s.entries, entry, t, Start);
      HasNext(s.entries, entry, t, End);
    }
    if s'.running.Some? {
      StartedNext(events, e, e.turn, Allowed());
      HasNext(s.entries, entry, e.turn, End);
    }
  }

  lemma SettledKeeps(events: seq<Event>, s: State, e: Event)
    requires Kept(events, s) && e.AgentSettled?
    ensures Kept(events + [e], Step(s, e))
  {
    var s' := Step(s, e);
    if e.rpc && s.running.Some? && !e.answer.Fails? {
      var entry := Recorded(s.running.value, End, e.answer);
      AllowedAnswered(events, s.running.value);
      EntryKeeps(s.entries, entry);
      forall t
        ensures Has(s'.entries, t, Start) <==> Has(s.entries, t, Start)
        ensures Has(s'.entries, t, End) <==> Has(s.entries, t, End) || t == s.running.value
      {
        HasNext(s.entries, entry, t, Start);
        HasNext(s.entries, entry, t, End);
      }
    }
    forall t
      ensures StartedWith(events + [e], t, Answered()) <==> StartedWith(events, t, Answered())
      ensures StartedWith(events + [e], t, Allowed()) <==> StartedWith(events, t, Allowed())
    {
      StartedNext(events, e, t, Answered());
      StartedNext(events, e, t, Allowed());
    }
  }

  lemma OtherStartKeeps(events: seq<Event>, s: State, e: Event)
    requires Kept(events, s) && e.BeforeAgentStart? && !e.rpc
    ensures Kept(events + [e], Step(s, e))
  {
    forall t
      ensures StartedWith(events + [e], t, Answered()) <==> StartedWith(events, t, Answered())
      ensures StartedWith(events + [e], t, Allowed()) <==> StartedWith(events, t, Allowed())
    {
      StartedNext(events, e, t, Answered());
      StartedNext(events, e, t, Allowed());
    }
  }

  /** In every trace, a turn has at most one start entry and one end entry, in this order and of the
      same session; it has a start entry exactly if the core answered, and an end entry only if
      the core let it run. */
  lemma {:induction false} TraceKeeps(events: seq<Event>)
    requires FreshTurns(events)
    ensures Kept(events, Run(events))
    decreases |events|
  {
    if events != [] {
      var init, e := events[..|events| - 1], events[|events| - 1];
      assert events == init + [e];
      TraceKeeps(init);
      if e.AgentSettled? {
        SettledKeeps(init, Run(init), e);
      } else if e.rpc {
        StartKeeps(init, Run(init), e);
      } else {
        OtherStartKeeps(init, Run(init), e);
      }
    }
  }

  // ----- what an entry says -----

  /** An entry of a good answer has its counts; any other has the error, the core's own if it gave one. */
  ghost predicate Says(e: Entry, turn: Turn, phase: Phase, a: Answer) {
    && e.turn == turn && e.phase == phase
    && if a.Reply? && a.ok then e.error == None && e.counts == a.counts
       else
         e.counts == map[] && e.error == if a.Reply? && a.error.Some? then a.error else Some("No answer from Watershed")
  }

  /** Why a run that may not start was aborted. */
  ghost predicate Explains(reason: string, a: Answer) {
    match a
    case Fails(message) => reason == message
    case Unreadable => reason == "No answer from Watershed"
    case Reply(_, ok, error, _) =>
      reason == if ok then "No checkout guard from Watershed"
                else if error.Some? then error.value else "No answer from Watershed"
  }

  /** The event asked for the entry and its answer is what the entry says. */
  ghost predicate Stores(event: Event, e: Entry) {
    match event
    case BeforeAgentStart(rpc, turn, answer) => rpc && !answer.Fails? && Says(e, turn, Start, answer)
    case AgentSettled(rpc, answer) => rpc && !answer.Fails? && Says(e, e.turn, End, answer)
  }

  lemma RecordedSays(turn: Turn, phase: Phase, a: Answer)
    ensures Says(Recorded(turn, phase, a), turn, phase, a) && Explains(Reason(turn, a), a)
  {
  }

  /** In every trace, each entry says what the core answered to one event. */
  lemma {:induction false} EntriesAnswered(events: seq<Event>, i: nat)
    requires i < |Run(events).entries|
    ensures exists k | 0 <= k < |events| :: Stores(events[k], Run(events).entries[i])
    decreases |events|
  {
    var last := |events| - 1;
    var before := Run(events[..last]);
    if i < |before.entries| {
      EntriesAnswered(events[..last], i);
      var k :| 0 <= k < last && Stores(events[..last][k], before.entries[i]);
      assert Stores(events[k], Run(events).entries[i]);
    } else {
      assert Stores(events[last], Run(events).entries[i]);
    }
  }

  /** A turn that may run and settles is recorded with exactly its two entries; one that may not is
      aborted with a reason and records no end. */
  lemma TurnIsRecorded(events: seq<Event>, turn: Turn, start: Answer, end: Answer)
    requires !start.Fails? && !end.Fails?
    ensures var before := Run(events);
            var after := Run(events + [BeforeAgentStart(true, turn, start)] + [AgentSettled(true, end)]);
            var n := |before.entries|;
            && after.running.None? && before.entries <= after.entries && before.aborted <= after.aborted
            && if start.Reply? && start.canRun
               then
                 && |after.entries| == n + 2 && after.aborted == before.aborted
                 && Says(after.entries[n], turn, Start, start) && Says(after.entries[n + 1], turn, End, end)
               else
                 && |after.entries| == n + 1 && |after.aborted| == |before.aborted| + 1
                 && Says(after.entries[n], turn, Start, start) && Explains(after.aborted[|before.aborted|], start)
  {
    RunNext(events, BeforeAgentStart(true, turn, start));
    RunNext(events + [BeforeAgentStart(true, turn, start)], AgentSettled(true, end));
    RecordedSays(turn, Start, start);
    RecordedSays(turn, End, end);
  }

  /** A failing dialog records nothing: at the start it aborts the run with its message, at the end it leaves the
      turn running. */
  lemma FailureRecordsNothing(events: seq<Event>, turn: Turn, message: string)
    ensures var before := Run(events);
            && Run(events + [BeforeAgentStart(true, turn, Fails(message))])
               == State(None, before.entries, before.aborted + [message])
            && (before.running.Some? ==> Run(events + [AgentSettled(true, Fails(message))]) == before)
  {
    RunNext(events, BeforeAgentStart(true, turn, Fails(message)));
    RunNext(events, AgentSettled(true, Fails(message)));
  }

  lemma RunNext(events: seq<Event>, e: Event)
    ensures Run(events + [e]) == Step(Run(events), e)
  {
    assert (events + [e])[..|events|] == events;
  }
}
