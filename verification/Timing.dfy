/** How long each request to the model took, as the pi extension stores it. */
module Timing {
  import opened Wrappers

  /** A request under way; times are milliseconds on a monotonic clock. */
  datatype Request = Request(started: real, firstToken: Option<real>)

  datatype Entry = Entry(firstTokenMs: Option<int>, durationMs: int)

  datatype State = State(turnStarted: Option<real>, request: Option<Request>, entries: seq<Entry>)

  /** What pi tells the extension, and when. */
  datatype Event =
    | TurnStart(now: real)
    | MessageStart(now: real, assistant: bool)
    | MessageUpdate(now: real, delta: bool)
    | MessageEnd(now: real, assistant: bool)

  /** JavaScript's `Math.round`: to the nearest whole number, halves upward. */
  function Round(x: real): int {
    (x + 0.5).Floor
  }

  function Timed(r: Request, now: real): Entry {
    Entry(if r.firstToken.None? then None else Some(Round(r.firstToken.value - r.started)), Round(now - r.started))
  }

  function Step(s: State, e: Event): State {
    match e
    case TurnStart(now) => s.(turnStarted := Some(now))
    case MessageStart(now, assistant) =>
      if !assistant then s
      else
        var started := if s.turnStarted.Some? then s.turnStarted.value else now;
        State(None, Some(Request(started, None)), s.entries)
    case MessageUpdate(now, delta) =>
      if s.request.Some? && s.request.value.firstToken.None? && delta
      then s.(request := Some(Request(s.request.value.started, Some(now))))
      else s
    case MessageEnd(now, assistant) =>
      if !assistant || s.request.None? then s
      else s.(request := None, entries := s.entries + [Timed(s.request.value, now)])
  }

  class Extension {
    var turnStarted: Option<real>
    var request: Option<Request>
    var entries: seq<Entry>

    ghost function View(): State
      reads this
    {
      State(turnStarted, request, entries)
    }

    constructor ()
      ensures View() == State(None, None, [])
    {
      turnStarted, request, entries := None, None, [];
    }

    method OnTurnStart(now: real)
      modifies this
      ensures View() == Step(old(View()), TurnStart(now))
    {
      turnStarted := Some(now);
    }

    method OnMessageStart(now: real, assistant: bool)
      modifies this
      ensures View() == Step(old(View()), MessageStart(now, assistant))
    {
      if assistant {
        request := Some(Request(if turnStarted.Some? then turnStarted.value else now, None));
        turnStarted := None;
      }
    }

    method OnMessageUpdate(now: real, delta: bool)
      modifies this
      ensures View() == Step(old(View()), MessageUpdate(now, delta))
    {
      if request.Some? && request.value.firstToken.None? && delta {
        request := Some(request.value.(firstToken := Some(now)));
      }
    }

    method OnMessageEnd(now: real, assistant: bool)
      modifies this
      ensures View() == Step(old(View()), MessageEnd(now, assistant))
    {
      if !assistant || request.None? {
        return;
      }
      var r := request.value;
      request := None;
      var first := if r.firstToken.None? then None else Some(Round(r.firstToken.value - r.started));
      entries := entries + [Entry(first, Round(now - r.started))];
    }
  }

  // ----- traces -----

  function Run(s: State, events: seq<Event>): State {
    if events == [] then s else Step(Run(s, events[..|events| - 1]), events[|events| - 1])
  }

  /** The clock never goes back. */
  ghost predicate Monotone(events: seq<Event>) {
    forall i, j | 0 <= i <= j < |events| :: events[i].now <= events[j].now
  }

  ghost predicate InOrder(e: Entry) {
    0 <= e.durationMs && (e.firstTokenMs.Some? ==> 0 <= e.firstTokenMs.value <= e.durationMs)
  }

  /** Everything the state remembers happened by now. */
  ghost predicate Kept(s: State, now: real) {
    && (s.turnStarted.Some? ==> s.turnStarted.value <= now)
    && (s.request.Some? ==> s.request.value.started <= now)
    && (s.request.Some? && s.request.value.firstToken.Some? ==>
          s.request.value.started <= s.request.value.firstToken.value <= now)
    && forall i | 0 <= i < |s.entries| :: InOrder(s.entries[i])
  }

  lemma RoundMonotone(x: real, y: real)
    requires 0.0 <= x <= y
    ensures 0 <= Round(x) <= Round(y)
  {
  }

  lemma TimedInOrder(r: Request, now: real)
    requires r.started <= now && (r.firstToken.Some? ==> r.started <= r.firstToken.value <= now)
    ensures InOrder(Timed(r, now))
  {
    RoundMonotone(0.0, now - r.started);
    if r.firstToken.Some? {
      RoundMonotone(r.firstToken.value - r.started, now - r.started);
    }
  }

  lemma StepKeeps(s: State, before: real, e: Event)
    requires Kept(s, before) && before <= e.now
    ensures Kept(Step(s, e), e.now)
  {
    if e.MessageEnd? && s.request.Some? {
      TimedInOrder(s.request.value, e.now);
    }
  }

  /** Under a monotone clock, whatever the order of events, every stored request has
      0 <= its first token's time <= its duration. */
  lemma {:induction false} TimesInOrder(events: seq<Event>)
    requires Monotone(events)
    ensures var s := Run(State(None, None, []), events);
            && (events != [] ==> Kept(s, events[|events| - 1].now))
            && forall i | 0 <= i < |s.entries| :: InOrder(s.entries[i])
    decreases |events|
  {
    if events != [] {
      var k := |events| - 1;
      var init, e := events[..k], events[k];
      TimesInOrder(init);
      var s := Run(State(None, None, []), init);
      assert k > 0 ==> init[k - 1] == events[k - 1];
      StepKeeps(s, if k == 0 then e.now else events[k - 1].now, e);
    }
  }

  // ----- one request -----

  ghost predicate Updates(events: seq<Event>) {
    forall i | 0 <= i < |events| :: events[i].MessageUpdate?
  }

  /** When the first content came. */
  function FirstDelta(events: seq<Event>): Option<real> {
    if events == [] then None
    else if FirstDelta(events[..|events| - 1]).Some? then FirstDelta(events[..|events| - 1])
    else if events[|events| - 1].MessageUpdate? && events[|events| - 1].delta then Some(events[|events| - 1].now)
    else None
  }

  /** The first content is the first update that is one. */
  lemma {:induction false} FirstDeltaIsFirst(events: seq<Event>)
    requires Updates(events)
    ensures FirstDelta(events).None? <==> forall i | 0 <= i < |events| :: !events[i].delta
    ensures FirstDelta(events).Some? ==>
              exists k | 0 <= k < |events| ::
                events[k].delta && FirstDelta(events) == Some(events[k].now) && NoDelta(events, k)
    decreases |events|
  {
    if events != [] {
      var last := |events| - 1;
      var init := events[..last];
      FirstDeltaIsFirst(init);
      assert forall i | 0 <= i < last :: init[i] == events[i];
      if FirstDelta(init).Some? {
        var k :| 0 <= k < last && init[k].delta && FirstDelta(init) == Some(init[k].now) && NoDelta(init, k);
        assert events[k].delta && NoDelta(events, k);
      } else if events[last].delta {
        assert NoDelta(events, last);
      }
    }
  }

  ghost predicate NoDelta(events: seq<Event>, k: int) {
    forall i | 0 <= i < k && i < |events| :: events[i].MessageUpdate? ==> !events[i].delta
  }

  lemma {:induction false} UpdatesKeep(s: State, r: Request, events: seq<Event>)
    requires Updates(events) && s.request == Some(r) && r.firstToken.None?
    ensures Run(s, events) == s.(request := Some(r.(firstToken := FirstDelta(events))))
    decreases |events|
  {
    if events != [] {
      UpdatesKeep(s, r, events[..|events| - 1]);
    }
  }

  /** The whole number nearest to a time; of two, the later. */
  ghost predicate Nearest(n: int, x: real) {
    -0.5 <= x - n as real < 0.5
  }

  lemma RoundIsNearest(x: real, n: int)
    ensures n == Round(x) <==> Nearest(n, x)
  {
  }

  /** The entry has the time from the start to the first content, if there was any, and to the end. */
  ghost predicate Times(e: Entry, started: real, first: Option<real>, end: real) {
    && (e.firstTokenMs.Some? <==> first.Some?)
    && (first.Some? ==> Nearest(e.firstTokenMs.value, first.value - started))
    && Nearest(e.durationMs, end - started)
  }

  /** A response is timed from its turn's start, with all waiting in between, or from its own start if no turn
      started since the last one; the update that first carries content sets its first token; and it stores exactly
      one entry. */
  lemma RequestIsTimed(s: State, start: real, updates: seq<Event>, end: real)
    requires Updates(updates)
    ensures var after := Step(Run(Step(s, MessageStart(start, true)), updates), MessageEnd(end, true));
            var started := if s.turnStarted.Some? then s.turnStarted.value else start;
            && after.turnStarted.None? && after.request.None? && |after.entries| == |s.entries| + 1
            && after.entries[..|s.entries|] == s.entries
            && Times(after.entries[|s.entries|], started, FirstDelta(updates), end)
  {
    var begun := Step(s, MessageStart(start, true));
    var started, first := begun.request.value.started, FirstDelta(updates);
    UpdatesKeep(begun, Request(started, None), updates);
    if first.Some? { RoundIsNearest(first.value - started, Round(first.value - started)); }
    RoundIsNearest(end - started, Round(end - started));
  }

  /** A turn's start is what its next response is timed from, and stores nothing; nor do messages that are no
      response, or the end of one that did not start. */
  lemma OthersStoreNothing(s: State, e: Event)
    ensures e.TurnStart? ==> Step(s, e) == s.(turnStarted := Some(e.now))
    ensures (e.MessageStart? || e.MessageEnd?) && !e.assistant ==> Step(s, e) == s
    ensures e.MessageEnd? && s.request.None? ==> Step(s, e) == s
    ensures !e.MessageEnd? ==> Step(s, e).entries == s.entries
  {
  }
}
