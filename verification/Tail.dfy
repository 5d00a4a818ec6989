/** Following a run's log by polling until it ends, the output closes or the time is up. */
module Tail {
  import opened Wrappers

  const TAIL_POLL_INITIAL: nat := 25
  const TAIL_POLL_MAX: nat := 1000

  datatype Kind = ErrorEvent | SessionFailed | SessionCompleted | OtherEvent

  datatype Event = Event(sequence: nat, kind: Kind, code: Option<string>, message: Option<string>, reason: Option<string>)

  type Log = seq<Event>

  /** Sequence numbers start above the initial cursor and grow. */
  predicate Sequenced(log: Log) {
    && (forall i | 0 <= i < |log| :: log[i].sequence > 0)
    && (forall i, j | 0 <= i < j < |log| :: log[i].sequence < log[j].sequence)
  }

  /** The events a read visits. */
  function After(log: Log, cursor: nat): Log {
    if log == [] then [] else if log[0].sequence > cursor then log else After(log[1..], cursor)
  }

  datatype Observation = Observation(messages: map<string, string>, failed: bool, reason: Option<string>, terminal: bool)

  const NOTHING: Observation := Observation(map[], false, None, false)

  function Observe(o: Observation, e: Event): Observation {
    var o1 := if e.kind.ErrorEvent? && e.code.Some? && e.message.Some?
              then o.(messages := o.messages[e.code.value := e.message.value]) else o;
    var o2 := if e.kind.SessionFailed? then o1.(failed := true, reason := e.reason) else o1;
    o2.(terminal := o2.terminal || e.kind.SessionCompleted? || e.kind.SessionFailed?)
  }

  function ObserveAll(o: Observation, log: Log): Observation
    decreases |log|
  {
    if log == [] then o else ObserveAll(Observe(o, log[0]), log[1..])
  }

  class TailObservation {
    var messages: map<string, string>
    var failed: bool
    var reason: Option<string>
    var terminal: bool

    constructor ()
      ensures View() == NOTHING
    {
      messages, failed, reason, terminal := map[], false, None, false;
    }

    ghost function View(): Observation
      reads this
    {
      Observation(messages, failed, reason, terminal)
    }

    method Record(e: Event)
      modifies this
      ensures View() == Observe(old(View()), e)
    {
      if e.kind.ErrorEvent? && e.code.Some? && e.message.Some? {
        messages := messages[e.code.value := e.message.value];
      }
      if e.kind.SessionFailed? {
        failed := true;
        reason := e.reason;
      }
      terminal := terminal || e.kind.SessionCompleted? || e.kind.SessionFailed?;
    }
  }

  // ----- what an observation says -----

  predicate HasKind(log: Log, kind: Kind) {
    exists i | 0 <= i < |log| :: log[i].kind == kind
  }

  lemma {:induction false} ObserveAllFlags(o: Observation, log: Log)
    ensures ObserveAll(o, log).failed <==> o.failed || HasKind(log, SessionFailed)
    ensures ObserveAll(o, log).terminal <==> o.terminal || HasKind(log, SessionFailed) || HasKind(log, SessionCompleted)
    decreases |log|
  {
    if log != [] {
      ObserveAllFlags(Observe(o, log[0]), log[1..]);
      HasKindStep(log, SessionFailed);
      HasKindStep(log, SessionCompleted);
    }
  }

  lemma HasKindStep(log: Log, kind: Kind)
    requires log != []
    ensures HasKind(log, kind) <==> log[0].kind == kind || HasKind(log[1..], kind)
  {
    if HasKind(log[1..], kind) {
      var i :| 0 <= i < |log[1..]| && log[1..][i].kind == kind;
      assert log[i + 1].kind == kind;
    }
    if HasKind(log, kind) && log[0].kind != kind {
      var i :| 0 <= i < |log| && log[i].kind == kind;
      assert log[1..][i - 1].kind == kind;
    }
  }

  lemma {:induction false} ObserveJoins(o: Observation, s: Log, t: Log)
    ensures ObserveAll(o, s + t) == ObserveAll(ObserveAll(o, s), t)
    decreases |s|
  {
    if s == [] {
      assert s + t == t;
    } else {
      assert (s + t)[1..] == s[1..] + t;
      ObserveJoins(Observe(o, s[0]), s[1..], t);
    }
  }

  lemma ObserveOneMore(o: Observation, s: Log, e: Event)
    ensures ObserveAll(o, s + [e]) == Observe(ObserveAll(o, s), e)
  {
    ObserveJoins(o, s, [e]);
    assert [e][1..] == [];
  }

  /** The event is an error with this code and a message. */
  predicate Reports(e: Event, code: string) {
    e.kind.ErrorEvent? && e.code == Some(code) && e.message.Some?
  }

  lemma {:induction false} OthersTellNothing(o: Observation, log: Log, code: string)
    ensures !HasKind(log, SessionFailed) ==> ObserveAll(o, log).reason == o.reason
    ensures (forall i | 0 <= i < |log| :: !Reports(log[i], code)) ==>
              && (code in ObserveAll(o, log).messages <==> code in o.messages)
              && (code in o.messages ==> ObserveAll(o, log).messages[code] == o.messages[code])
    decreases |log|
  {
    if log != [] {
      OthersTellNothing(Observe(o, log[0]), log[1..], code);
      HasKindStep(log, SessionFailed);
      assert forall i | 0 <= i < |log| - 1 :: log[1..][i] == log[i + 1];
    }
  }

  lemma UpTo(log: Log, k: nat)
    requires k < |log|
    ensures ObserveAll(NOTHING, log) == ObserveAll(Observe(ObserveAll(NOTHING, log[..k]), log[k]), log[k + 1..])
  {
    assert log == log[..k + 1] + log[k + 1..] && log[..k + 1] == log[..k] + [log[k]];
    ObserveJoins(NOTHING, log[..k + 1], log[k + 1..]);
    ObserveOneMore(NOTHING, log[..k], log[k]);
  }

  /** What a tail tells of a log: the last failure's reason, and the last message of each error code. */
  lemma LastOnesTell(log: Log, k: nat, code: string)
    requires k < |log|
    ensures log[k].kind.SessionFailed? && !HasKind(log[k + 1..], SessionFailed) ==>
              ObserveAll(NOTHING, log).reason == log[k].reason
    ensures Reports(log[k], code) && (forall i | k < i < |log| :: !Reports(log[i], code)) ==>
              code in ObserveAll(NOTHING, log).messages && Some(ObserveAll(NOTHING, log).messages[code]) == log[k].message
    ensures (forall i | 0 <= i < |log| :: !Reports(log[i], code)) ==> code !in ObserveAll(NOTHING, log).messages
  {
    UpTo(log, k);
    OthersTellNothing(Observe(ObserveAll(NOTHING, log[..k]), log[k]), log[k + 1..], code);
    assert forall i | k < i < |log| :: log[i] == log[k + 1..][i - k - 1];
    OthersTellNothing(NOTHING, log, code);
  }

  function LastSequence(log: Log): nat {
    if log == [] then 0 else log[|log| - 1].sequence
  }

  /** A read after the last event seen of an older log visits exactly what was added. */
  lemma {:induction false} AfterPrefix(older: Log, added: Log)
    requires Sequenced(older + added)
    ensures After(older + added, LastSequence(older)) == added
  {
    if older == [] {
      assert older + added == added;
    } else {
      assert (older + added)[|older| - 1] == older[|older| - 1];
      assert (older + added)[|older|..] == added;
      AfterAt(older + added, |older|);
    }
  }

  lemma AfterAt(log: Log, n: nat)
    requires Sequenced(log) && 0 < n <= |log|
    ensures After(log, log[n - 1].sequence) == log[n..]
  {
    Below(log, n);
    SkipSeen(log, log[n - 1].sequence, n);
  }

  lemma Below(log: Log, n: nat)
    requires Sequenced(log) && 0 < n <= |log|
    ensures forall i | 0 <= i < n :: log[i].sequence <= log[n - 1].sequence
    ensures n < |log| ==> log[n].sequence > log[n - 1].sequence
  {
  }

  lemma {:induction false} SkipSeen(log: Log, cursor: nat, n: nat)
    requires n <= |log| && (forall i | 0 <= i < n :: log[i].sequence <= cursor) && (n < |log| ==> log[n].sequence > cursor)
    ensures After(log, cursor) == log[n..]
  {
    if n > 0 {
      assert forall i | 0 <= i < |log| - 1 :: log[1..][i] == log[i + 1];
      SkipSeen(log[1..], cursor, n - 1);
    }
  }

  // ----- the loop -----

  datatype Write = Written | BrokenPipe | WriteError

  datatype Options = Options(follow: bool, timeout: Option<nat>, jsonl: bool)

  /** The world a tail runs in: what each read of the log sees, how each write attempt is answered,
      and by how much the clock runs past each wait and each read of it. */
  datatype World = World(logs: nat -> Log, answers: nat -> Write, beforeNap: nat -> nat, afterNap: nat -> nat)

  /** Reads of an append-only log. */
  ghost predicate AppendOnly(w: World) {
    (forall i: nat :: InOrder(w, i)) && forall i: nat, j: nat | i <= j :: Extends(w, i, j)
  }

  ghost predicate InOrder(w: World, i: nat) {
    Sequenced(w.logs(i))
  }

  ghost predicate Extends(w: World, i: nat, j: nat) {
    w.logs(i) <= w.logs(j)
  }

  datatype Outcome = Outcome(failed: bool) | OutputFailed

  /** Visits what a read sees: writes each event while the output is open, and records all. */
  method Visit(events: Log, jsonl: bool, answers: nat -> Write, attempts: nat, wasOpen: bool, observation: TailObservation)
    returns (out: Log, open: bool, error: bool)
    modifies observation
    ensures out <= events
    ensures !error ==> observation.View() == ObserveAll(old(observation.View()), events)
    ensures !error && open && jsonl ==> wasOpen && out == events
    ensures !wasOpen ==> out == [] && !open && !error
    ensures forall k | attempts <= k < attempts + |out| :: answers(k) == Written
    ensures error ==> |out| < |events| && answers(attempts + |out|) == WriteError
    ensures !error && wasOpen && !open ==> |out| < |events| && answers(attempts + |out|) == BrokenPipe
    ensures !jsonl ==> out == [] && open == wasOpen && !error
  {
    open, out, error := wasOpen, [], false;
    for i := 0 to |events|
      invariant observation.View() == ObserveAll(old(observation.View()), events[..i])
      invariant out <= events[..i] && (jsonl && open ==> out == events[..i]) && (!jsonl ==> out == [] && open == wasOpen)
      invariant !wasOpen ==> out == [] && !open
      invariant forall k | attempts <= k < attempts + |out| :: answers(k) == Written
      invariant wasOpen && !open ==> |out| < i && answers(attempts + |out|) == BrokenPipe
    {
      if jsonl && open {
        match answers(attempts + |out|) {
          case Written => out := out + [events[i]];
          case BrokenPipe => open := false;
          case WriteError => return out, false, true;
        }
      }
      observation.Record(events[i]);
      ObserveOneMore(old(observation.View()), events[..i], events[i]);
      assert events[..i + 1] == events[..i] + [events[i]];
    }
    assert events[..|events|] == events;
  }

  /** Without a timeout a tail that follows ends once the log is terminal or the output is not open. */
  ghost predicate EndsBy(w: World, options: Options, last: nat) {
    || HasKind(w.logs(last), SessionFailed) || HasKind(w.logs(last), SessionCompleted)
    || (options.jsonl && exists k | 0 <= k < |w.logs(last)| :: w.answers(k) != Written)
  }

  /** What was observed and written after some reads. */
  ghost predicate CaughtUp(w: World, options: Options, seen: Log, cursor: nat, view: Observation, out: Log, open: bool) {
    && cursor == LastSequence(seen) && view == ObserveAll(NOTHING, seen)
    && out <= seen && (options.jsonl && open ==> out == seen)
    && (forall k | 0 <= k < |out| :: w.answers(k) == Written)
    && (!open ==> |out| < |seen| && w.answers(|out|) == BrokenPipe)
  }

  /** One read: visits what was added since `seen`. */
  method Poll(w: World, options: Options, ghost seen: Log, log: Log, cursor: nat, observation: TailObservation, out: Log, wasOpen: bool)
    returns (cursor': nat, out': Log, open: bool, error: bool)
    requires seen <= log && Sequenced(log) && CaughtUp(w, options, seen, cursor, observation.View(), out, wasOpen)
    modifies observation
    ensures out' <= log && (open ==> wasOpen)
    ensures !error ==> CaughtUp(w, options, log, cursor', observation.View(), out', open)
    ensures error ==> |out'| < |log| && w.answers(|out'|) == WriteError
  {
    ghost var added := log[|seen|..];
    assert log == seen + added;
    AfterPrefix(seen, added);
    var events := After(log, cursor);
    var wrote;
    wrote, open, error := Visit(events, options.jsonl, w.answers, |out|, wasOpen, observation);
    out' := out + wrote;
    cursor' := if events == [] then cursor else events[|events| - 1].sequence;
    OutExtends(out, wrote, seen, added);
    if !error {
      CatchesUp(w, options, seen, added, cursor, out, wrote, wasOpen, open);
    }
  }

  lemma CatchesUp(w: World, options: Options, seen: Log, added: Log, cursor: nat, out: Log, wrote: Log, wasOpen: bool, open: bool)
    requires CaughtUp(w, options, seen, cursor, ObserveAll(NOTHING, seen), out, wasOpen)
    requires wrote <= added && (open && options.jsonl ==> wasOpen && wrote == added)
    requires !wasOpen ==> wrote == [] && !open
    requires forall k | |out| <= k < |out| + |wrote| :: w.answers(k) == Written
    requires wasOpen && !open ==> |wrote| < |added| && w.answers(|out| + |wrote|) == BrokenPipe && options.jsonl
    requires !options.jsonl ==> wrote == []
    ensures CaughtUp(w, options, seen + added, if added == [] then cursor else added[|added| - 1].sequence,
                     ObserveAll(ObserveAll(NOTHING, seen), added), out + wrote, open)
  {
    ObserveJoins(NOTHING, seen, added);
    OutExtends(out, wrote, seen, added);
    assert added != [] ==> (seen + added)[|seen + added| - 1] == added[|added| - 1];
    assert added == [] ==> seen + added == seen;
  }

  lemma OutExtends(out: Log, wrote: Log, seen: Log, added: Log)
    requires out <= seen && wrote <= added && (out == seen || wrote == [])
    ensures out + wrote <= seen + added
  {
  }

  /** Sleeps until the next poll is due or the time is up, whichever comes first. */
  method Nap(timeout: Option<nat>, elapsed: nat, interval: nat, before: nat, after: nat) returns (elapsed': nat)
    requires timeout.Some? ==> elapsed < timeout.value
    requires interval > 0
    ensures elapsed < elapsed' && elapsed' >= elapsed + before + after
    ensures elapsed' >= elapsed + interval || (timeout.Some? && timeout.value <= elapsed')
    ensures elapsed' <= elapsed + before + interval + after
    ensures timeout.Some? ==> elapsed' <= after + if timeout.value < elapsed + before then elapsed + before else timeout.value
  {
    var now := elapsed + before;
    var wait := if timeout.None? then interval
                else Min(if now < timeout.value then timeout.value - now else 0, interval);
    elapsed' := now + wait + after;
  }

  /** The last read verifies the whole log; what it adds is observed and, if the output is open, written. */
  method Finish(w: World, options: Options, ghost seen: Log, polls: nat, cursor: nat, observation: TailObservation, out: Log, open: bool)
    returns (r: Outcome, out': Log)
    requires AppendOnly(w) && seen <= w.logs(polls) && CaughtUp(w, options, seen, cursor, observation.View(), out, open)
    modifies observation
    ensures Verdict(w, options, r, polls, out')
  {
    Grows(w, polls, polls);
    var last, stillOpen, error;
    last, out', stillOpen, error := Poll(w, options, seen, w.logs(polls), cursor, observation, out, open);
    if error { return OutputFailed, out'; }
    ObserveAllFlags(NOTHING, w.logs(polls));
    r := Outcome(observation.failed);
  }

  /** What a tail that verified the log of read `polls` answers. */
  ghost predicate Verdict(w: World, options: Options, r: Outcome, polls: nat, out: Log) {
    var log := w.logs(polls);
    && (r.Outcome? ==> r.failed == HasKind(log, SessionFailed))
    && out <= log
    && (r.Outcome? && options.jsonl && (forall k | 0 <= k < |log| :: w.answers(k) == Written) ==> out == log)
    && (r.OutputFailed? ==> exists k :: 0 <= k < |log| && w.answers(k) == WriteError)
  }

  lemma EndsAtLast(w: World, options: Options, last: nat, cursor: nat, view: Observation, out: Log)
    requires EndsBy(w, options, last) && CaughtUp(w, options, w.logs(last), cursor, view, out, true)
    ensures view.terminal
  {
    ObserveAllFlags(NOTHING, w.logs(last));
  }

  /** One round's read, which sets the interval back if it found new events. */
  method Read(w: World, options: Options, i: nat, cursor: nat, interval: nat, observation: TailObservation, out: Log)
    returns (cursor': nat, interval': nat, out': Log, open: bool, error: bool)
    requires AppendOnly(w) && interval == QuietInterval(w, i)
    requires CaughtUp(w, options, SeenBefore(w, i), cursor, observation.View(), out, true)
    modifies observation
    ensures out' <= w.logs(i)
    ensures !error ==> interval' == Interval(w, i) && CaughtUp(w, options, w.logs(i), cursor', observation.View(), out', open)
    ensures error ==> |out'| < |w.logs(i)| && w.answers(|out'|) == WriteError
  {
    CursorMoves(w, i);
    cursor', out', open, error := Poll(w, options, SeenBefore(w, i), w.logs(i), cursor, observation, out, true);
    interval' := if cursor' != cursor then TAIL_POLL_INITIAL else interval;
  }

  /** Where a tail stands before read `i`. */
  ghost predicate InLoop(w: World, options: Options, i: nat, cursor: nat, interval: nat, view: Observation, out: Log) {
    interval == QuietInterval(w, i) && CaughtUp(w, options, SeenBefore(w, i), cursor, view, out, true)
  }

  lemma InLoopNext(w: World, options: Options, i: nat, cursor: nat, nap: nat, view: Observation, out: Log)
    requires CaughtUp(w, options, w.logs(i), cursor, view, out, true) && nap == Interval(w, i)
    ensures InLoop(w, options, i + 1, cursor, Min(2 * nap, TAIL_POLL_MAX), view, out)
  {
  }

  /** One round: a read, and then the end or a nap. */
  method Round(w: World, options: Options, i: nat, cursor: nat, interval: nat, elapsed: nat,
               observation: TailObservation, out: Log, ghost last: nat)
    returns (cursor': nat, nap: nat, elapsed': nat, out': Log, r: Option<Outcome>)
    requires AppendOnly(w) && interval == QuietInterval(w, i)
    requires options.follow && options.timeout.None? ==> EndsBy(w, options, last)
    requires CaughtUp(w, options, SeenBefore(w, i), cursor, observation.View(), out, true)
    modifies observation
    ensures r.Some? ==> Verdict(w, options, r.value, i + 1, out') && elapsed' == elapsed
    ensures r.None? ==>
              && CaughtUp(w, options, w.logs(i), cursor', observation.View(), out', true) && nap == Interval(w, i)
              && options.follow && (options.timeout.None? ==> i != last) && elapsed < elapsed'
              && (options.timeout.Some? ==> elapsed < options.timeout.value
                                            && (elapsed + nap <= elapsed' || options.timeout.value <= elapsed'))
  {
    var open, error;
    elapsed' := elapsed;
    cursor', nap, out', open, error := Read(w, options, i, cursor, interval, observation, out);
    Grows(w, i, i + 1);
    if error {
      return cursor', nap, elapsed', out', Some(OutputFailed);
    }
    if !open || observation.terminal || !options.follow || (options.timeout.Some? && elapsed >= options.timeout.value) {
      var outcome;
      outcome, out' := Finish(w, options, w.logs(i), i + 1, cursor', observation, out', open);
      return cursor', nap, elapsed', out', Some(outcome);
    }
    if options.timeout.None? && i == last {
      EndsAtLast(w, options, last, cursor', observation.View(), out');
    }
    elapsed' := Nap(options.timeout, elapsed, nap, w.beforeNap(i), w.afterNap(i));
    r := None;
  }

  /** What a tail that naps knows before read `polls`. */
  ghost predicate Following(w: World, options: Options, last: nat, polls: nat, cursor: nat, interval: nat, elapsed: nat,
                            view: Observation, out: Log, naps: seq<nat>) {
    && InLoop(w, options, polls, cursor, interval, view, out) && |naps| == polls && Slept(w, naps)
    && (options.timeout.Some? ==> OnTime(options.timeout.value, polls, elapsed))
    && (!options.follow ==> polls == 0)
    && (options.follow && options.timeout.None? ==> polls <= last)
  }

  /** How a tail ended. */
  ghost predicate Ended(w: World, options: Options, last: nat, r: Outcome, polls: nat, out: Log, naps: seq<nat>) {
    && Verdict(w, options, r, polls, out) && |naps| + 1 == polls && Slept(w, naps)
    && (options.timeout.Some? ==> polls <= 1 || TAIL_POLL_INITIAL * (polls - 2) < options.timeout.value)
    && (options.follow && options.timeout.None? ==> polls <= last + 1)
    && (!options.follow ==> polls == 1)
  }

  /** A round that doubles the interval after its nap. */
  method Follow(w: World, options: Options, ghost last: nat, polls: nat, cursor: nat, interval: nat, elapsed: nat,
                observation: TailObservation, out: Log, ghost naps: seq<nat>)
    returns (cursor': nat, interval': nat, elapsed': nat, out': Log, ghost naps': seq<nat>, r: Option<Outcome>)
    requires AppendOnly(w) && (options.follow && options.timeout.None? ==> EndsBy(w, options, last))
    requires Following(w, options, last, polls, cursor, interval, elapsed, observation.View(), out, naps)
    modifies observation
    ensures r.Some? ==> Ended(w, options, last, r.value, polls + 1, out', naps')
    ensures r.None? ==>
              && Following(w, options, last, polls + 1, cursor', interval', elapsed', observation.View(), out', naps')
              && options.follow && (options.timeout.Some? ==> elapsed < options.timeout.value && elapsed < elapsed')
  {
    var nap;
    cursor', nap, elapsed', out', r := Round(w, options, polls, cursor, interval, elapsed, observation, out, last);
    naps', interval' := naps, Min(2 * nap, TAIL_POLL_MAX);
    if r.None? {
      if options.timeout.Some? {
        OnTimeNext(options.timeout.value, polls, elapsed, nap, elapsed');
      }
      InLoopNext(w, options, polls, cursor', nap, observation.View(), out');
      SleptNext(w, naps, nap);
      naps' := naps + [nap];
    }
  }

  lemma Begins(w: World, options: Options, last: nat)
    ensures Following(w, options, last, 0, 0, TAIL_POLL_INITIAL, 0, NOTHING, [], [])
  {
  }

  /** The tail's failure flag says whether the log it verified at the end holds a failure, however
      the events came in and whether or not the output closed. With a timeout the number of polls
      is bounded by it. Each nap is as long as the reads before it say. */
  method TailCommand(w: World, options: Options, ghost last: nat)
    returns (r: Outcome, polls: nat, out: Log, ghost naps: seq<nat>)
    requires AppendOnly(w)
    requires options.follow && options.timeout.None? ==> EndsBy(w, options, last)
    ensures Ended(w, options, last, r, polls, out, naps)
  {
    Begins(w, options, last);
    var observation := new TailObservation();
    var cursor, elapsed, interval, end := 0, 0, TAIL_POLL_INITIAL, None;
    polls, out, naps := 0, [], [];
    while end.None?
      invariant fresh(observation)
      invariant end.Some? ==> Ended(w, options, last, end.value, polls, out, naps)
      invariant end.None? ==>
                  Following(w, options, last, polls, cursor, interval, elapsed, observation.View(), out, naps)
      decreases end.None?, if options.timeout.Some? then Left(options.timeout.value, elapsed) else if options.follow then last - polls else 0
    {
      cursor, interval, elapsed, out, naps, end :=
        Follow(w, options, last, polls, cursor, interval, elapsed, observation, out, naps);
      polls := polls + 1;
    }
    r := end.value;
  }

  /** Every read so far but the last was within the time, each at least an interval after the other. */
  ghost predicate OnTime(timeout: nat, polls: nat, elapsed: nat) {
    && (TAIL_POLL_INITIAL * polls <= elapsed || timeout <= elapsed)
    && (polls > 0 ==> TAIL_POLL_INITIAL * (polls - 1) < timeout)
  }

  lemma OnTimeNext(timeout: nat, polls: nat, before: nat, nap: nat, elapsed: nat)
    requires OnTime(timeout, polls, before) && before < timeout && TAIL_POLL_INITIAL <= nap
    requires before + nap <= elapsed || timeout <= elapsed
    ensures OnTime(timeout, polls + 1, elapsed)
  {
  }

  // ----- the intervals -----

  /** What was seen before read `i`. */
  function SeenBefore(w: World, i: nat): Log {
    if i == 0 then [] else w.logs(i - 1)
  }

  /** The nap after read `i`: the first interval if the read found new events, else the one before,
      doubled up to the longest. */
  function Interval(w: World, i: nat): (r: nat)
    ensures 25 <= r <= 1_000
    decreases i, 1
  {
    if w.logs(i) != SeenBefore(w, i) then TAIL_POLL_INITIAL else QuietInterval(w, i)
  }

  /** The nap after read `i` if it finds nothing new. */
  function QuietInterval(w: World, i: nat): (r: nat)
    ensures TAIL_POLL_INITIAL <= r <= TAIL_POLL_MAX
    decreases i, 0
  {
    if i == 0 then TAIL_POLL_INITIAL else Min(2 * Interval(w, i - 1), TAIL_POLL_MAX)
  }

  /** Every nap was as long as the reads before it say. */
  ghost predicate Slept(w: World, naps: seq<nat>) {
    forall i | 0 <= i < |naps| :: naps[i] == Interval(w, i)
  }

  lemma SleptNext(w: World, naps: seq<nat>, nap: nat)
    requires Slept(w, naps) && nap == Interval(w, |naps|)
    ensures Slept(w, naps + [nap])
  {
  }

  function Doubled(n: nat, k: nat): nat {
    if k == 0 then n else 2 * Doubled(n, k - 1)
  }

  /** While nothing new comes, each nap is twice as long as the one before, up to a second. */
  lemma {:induction false} QuietReadsDouble(w: World, i: nat, k: nat)
    requires forall j | i < j <= i + k :: w.logs(j) == w.logs(j - 1)
    ensures Interval(w, i + k) == Min(Doubled(Interval(w, i), k), TAIL_POLL_MAX)
    decreases k
  {
    if k > 0 {
      QuietReadsDouble(w, i, k - 1);
      assert w.logs(i + k) == w.logs(i + k - 1);
    }
  }

  /** The cursor moves exactly if a read finds new events. */
  lemma CursorMoves(w: World, i: nat)
    requires AppendOnly(w)
    ensures SeenBefore(w, i) <= w.logs(i) && Sequenced(w.logs(i))
    ensures LastSequence(w.logs(i)) != LastSequence(SeenBefore(w, i)) <==> w.logs(i) != SeenBefore(w, i)
  {
    var older, log := SeenBefore(w, i), w.logs(i);
    Grows(w, if i == 0 then 0 else i - 1, i);
    if |older| < |log| && older != [] {
      assert log[|older| - 1] == older[|older| - 1];
    }
  }

  function Min(a: nat, b: nat): nat {
    if a < b then a else b
  }

  function Left(total: nat, spent: nat): nat {
    if spent < total then total - spent else 0
  }

  lemma Grows(w: World, i: nat, j: nat)
    requires AppendOnly(w) && i <= j
    ensures w.logs(i) <= w.logs(j) && Sequenced(w.logs(i)) && Sequenced(w.logs(j))
  {
    assert InOrder(w, i) && InOrder(w, j) && Extends(w, i, j);
  }
}
