/** Streaming a run's committed events live: the producer, the capacity-one wake-up channel
    and the consumer as one state machine under every schedule. */
module LiveStream {
  import opened Wrappers

  /** Committed events stand for their sequence numbers, which grow. */
  type Log = seq<nat>

  function LastOr(s: seq<nat>, otherwise: nat): nat {
    if s == [] then otherwise else s[|s| - 1]
  }

  predicate Growing(s: seq<nat>) {
    forall i, j | 0 <= i < j < |s| :: s[i] < s[j]
  }

  /** The events a reader visits: those above `cursor` and up to `through`, in order. */
  function Visited(log: Log, cursor: nat, through: nat): seq<nat> {
    if log == [] then []
    else (if cursor < log[0] <= through then [log[0]] else []) + Visited(log[1..], cursor, through)
  }

  function Max(a: nat, b: nat): nat {
    if a < b then b else a
  }

  // ----- writing what is visited -----

  /** The output: accepting, closed by its reader for good, or failed. */
  datatype Pipe = Open | Broken | Failed

  datatype Write = Written | BrokenPipe | WriteError

  /** What writing the visited events leaves behind. A broken pipe swallows the rest but lets the
      cursor go on; a failure stops the visit. */
  ghost predicate Emits(visited: seq<nat>, pipe: Pipe, cursor: nat, written: seq<nat>, pipe': Pipe, cursor': nat) {
    && written <= visited
    && match pipe'
       case Open => pipe.Open? && written == visited && cursor' == LastOr(visited, cursor)
       case Broken => !pipe.Failed? && (if pipe.Broken? then written == [] else written < visited) &&
                      cursor' == LastOr(visited, cursor)
       case Failed => pipe.Open? && written < visited && cursor' == LastOr(written, cursor)
  }

  /** Writes visited events to the pipe, which answers the write attempts in turn. */
  method WriteEvents(visited: seq<nat>, pipe: Pipe, cursor: nat, answers: nat -> Write)
    returns (written: seq<nat>, pipe': Pipe, cursor': nat)
    requires !pipe.Failed? && (pipe.Broken? ==> answers(0) == BrokenPipe)
    ensures Emits(visited, pipe, cursor, written, pipe', cursor')
  {
    var open := true;
    written, cursor', pipe' := [], cursor, pipe;
    for i := 0 to |visited|
      invariant open ==> pipe' == pipe && written == visited[..i]
      invariant !open ==> pipe'.Broken? && i > 0 && written <= visited[..i] && |written| < i
      invariant pipe.Broken? ==> written == [] && (i > 0 ==> !open)
      invariant cursor' == LastOr(visited[..i], cursor)
    {
      if open {
        match answers(|written|) {
          case Written => written := written + [visited[i]];
          case BrokenPipe => open, pipe' := false, Broken;
          case WriteError =>
            assert written == visited[..i] && written < visited;
            return written, Failed, cursor';
        }
      }
      cursor' := visited[i];
      assert visited[..i + 1] == visited[..i] + [visited[i]];
    }
    assert visited[..|visited|] == visited;
  }

  // ----- the system -----

  /** The consumer waits for a wake-up, holds one, has left its loop, or has drained for good. */
  datatype Consumer = Waiting | Holding(wake: nat) | Leaving | Done

  /** `sends` records every wake-up the producer tried to queue. */
  datatype System = System(
    log: Log, watermark: nat, slot: Option<nat>, producing: bool, sends: seq<nat>,
    consumer: Consumer, reading: bool, first: Option<nat>, cursor: nat, out: seq<nat>, pipe: Pipe)

  ghost predicate Init(s: System) {
    s == System([], 0, None, true, [], Waiting, false, None, 0, [], Open)
  }

  /** Events reach the log before anything is told about them. */
  ghost predicate Commit(s: System, s': System) {
    s.producing && exists n: nat :: n > LastOr(s.log, 0) && s' == s.(log := s.log + [n])
  }

  /** A notification first raises the watermark. Calls for committed events may come late, again
      or in any order. */
  ghost predicate Raise(s: System, s': System) {
    s.producing && exists n :: n in s.log && s' == s.(watermark := Max(s.watermark, n))
  }

  function Queued(s: System, n: nat): System {
    s.(sends := s.sends + [n], slot := if s.slot.None? then Some(n) else s.slot)
  }

  /** Then it tries to queue a wake-up, which is dropped if one is queued already. */
  ghost predicate Send(s: System, s': System) {
    s.producing &&
    exists n :: n in s.log && n <= s.watermark && s' == Queued(s, n)
  }

  ghost predicate Finish(s: System, s': System) {
    s.producing && s' == s.(producing := false)
  }

  ghost predicate Receive(s: System, s': System) {
    s.consumer.Waiting? && s.slot.Some? && s' == s.(slot := None, consumer := Holding(s.slot.value))
  }

  ghost predicate OpenFails(s: System, s': System) {
    s.consumer.Holding? && !s.reading && s' == s.(consumer := Leaving, pipe := Failed)
  }

  /** The first event of the run, as the first wake-up names it. */
  function FirstOf(s: System): nat
    requires s.consumer.Holding?
  {
    if s.first.Some? then s.first.value else s.consumer.wake
  }

  function Start(s: System): nat
    requires s.consumer.Holding?
  {
    Max(s.cursor, if FirstOf(s) == 0 then 0 else FirstOf(s) - 1)
  }

  /** Handles a wake-up: writes what was committed up to the watermark of now. */
  ghost predicate Drain(s: System, s': System) {
    s.consumer.Holding? && exists written, pipe, cursor ::
      Emits(Visited(s.log, Start(s), s.watermark), Open, Start(s), written, pipe, cursor) &&
      s' == s.(reading := true, first := Some(FirstOf(s)), cursor := cursor, out := s.out + written, pipe := pipe,
               consumer := if pipe.Open? then Waiting else Leaving)
  }

  ghost predicate Close(s: System, s': System) {
    s.consumer.Waiting? && s.slot.None? && !s.producing && s' == s.(consumer := Leaving)
  }

  /** After the producer was joined, what is left up to the final watermark is written. */
  ghost predicate FinalDrain(s: System, s': System) {
    s.consumer.Leaving? && !s.producing &&
    if s.pipe.Failed? || !s.reading then s' == s.(consumer := Done)
    else exists written, pipe, cursor ::
      Emits(Visited(s.log, s.cursor, s.watermark), s.pipe, s.cursor, written, pipe, cursor) &&
      s' == s.(cursor := cursor, out := s.out + written, pipe := pipe, consumer := Done)
  }

  ghost predicate Next(s: System, s': System) {
    || Commit(s, s') || Raise(s, s') || Send(s, s') || Finish(s, s')
    || Receive(s, s') || OpenFails(s, s') || Drain(s, s') || Close(s, s') || FinalDrain(s, s') || s' == s
  }

  ghost predicate Behavior(run: seq<System>) {
    run != [] && Init(run[0]) && forall i | 0 < i < |run| :: Next(run[i - 1], run[i])
  }

  // ----- what every step keeps -----

  /** A wake-up in flight names a committed event below the watermark; the first ever sent is the
      first ever received. */
  ghost predicate ChannelInv(s: System) {
    && Growing(s.log) && (s.log != [] ==> s.log[0] > 0)
    && (s.watermark == 0 || s.watermark in s.log)
    && (forall n | n in s.sends :: n in s.log && n <= s.watermark)
    && (s.slot.Some? ==> s.slot.value in s.sends)
    && (s.consumer.Holding? ==> s.consumer.wake in s.sends)
    && (s.first.Some? ==> s.sends != [] && s.first.value == s.sends[0])
    && (s.consumer.Holding? && s.first.None? ==> s.sends != [] && s.consumer.wake == s.sends[0])
    && (s.slot.Some? && s.first.None? && !s.consumer.Holding? && !s.pipe.Failed? ==> s.slot.value == s.sends[0])
    && (s.slot.None? && s.first.None? && !s.consumer.Holding? && !s.pipe.Failed? ==> s.sends == [])
  }

  /** What was written so far. */
  ghost predicate OutputInv(s: System) {
    && (s.reading <==> s.first.Some?) && (s.first.Some? ==> 0 < s.first.value <= s.watermark)
    && (s.first.None? ==> s.out == [] && s.cursor == 0 && !s.pipe.Broken?)
    && (s.first.Some? && !s.pipe.Failed? ==> s.first.value <= s.cursor <= s.watermark)
    && (s.first.Some? && s.pipe.Open? ==> s.out == Visited(s.log, s.first.value - 1, s.cursor))
    && (s.first.Some? && s.pipe.Broken? ==> s.out <= Visited(s.log, s.first.value - 1, s.cursor))
    && (s.first.Some? && s.pipe.Failed? ==> s.out <= Visited(s.log, s.first.value - 1, s.watermark))
    && (!s.pipe.Open? ==> s.consumer.Leaving? || s.consumer.Done?)
    && (s.consumer.Done? ==> !s.producing && (s.pipe.Open? && s.first.Some? ==> s.cursor == s.watermark))
    && (s.consumer.Leaving? && s.pipe.Open? ==> !s.producing && s.slot.None?)
    && (s.consumer.Done? && s.pipe.Open? ==> s.slot.None?)
  }

  /** No wake-up is lost: with none queued, a waiting consumer has drained all that was sent. */
  ghost predicate WakeInv(s: System) {
    s.consumer.Waiting? && s.slot.None? && s.pipe.Open? ==> forall n | n in s.sends :: n <= s.cursor
  }

  lemma {:induction false} VisitedHolds(log: Log, cursor: nat, through: nat)
    ensures forall n :: n in Visited(log, cursor, through) <==> n in log && cursor < n <= through
    ensures Growing(log) ==> Growing(Visited(log, cursor, through))
  {
    if log != [] {
      var rest := Visited(log[1..], cursor, through);
      VisitedHolds(log[1..], cursor, through);
      assert log == [log[0]] + log[1..];
      if Growing(log) {
        forall i | 0 <= i < |rest| ensures log[0] < rest[i] { assert rest[i] in log[1..]; }
      }
    }
  }

  lemma GrowingTail(log: Log)
    requires Growing(log) && log != []
    ensures Growing(log[1..]) && forall n | n in log[1..] :: n > log[0]
  {
    forall n | n in log[1..] ensures n > log[0] {
      var i :| 0 <= i < |log[1..]| && log[1..][i] == n;
      assert log[0] < log[i + 1];
    }
  }

  lemma {:induction false} VisitedJoins(log: Log, a: nat, b: nat, c: nat)
    requires Growing(log) && a <= b <= c
    ensures Visited(log, a, b) + Visited(log, b, c) == Visited(log, a, c)
  {
    if log != [] {
      var x, rest := log[0], log[1..];
      GrowingTail(log);
      VisitedJoins(rest, a, b, c);
      if b < x <= c {
        NothingBelow(rest, a, b);
      }
      JoinStep(x, Visited(rest, a, b), Visited(rest, b, c), a, b, c);
    }
  }

  lemma JoinStep(x: nat, v: seq<nat>, w: seq<nat>, a: nat, b: nat, c: nat)
    requires a <= b <= c && (b < x <= c ==> v == [])
    ensures ((if a < x <= b then [x] else []) + v) + ((if b < x <= c then [x] else []) + w) ==
            (if a < x <= c then [x] else []) + (v + w)
  {
  }

  lemma {:induction false} NothingBelow(log: Log, cursor: nat, through: nat)
    requires forall n | n in log :: n > through
    ensures Visited(log, cursor, through) == []
  {
    if log != [] {
      assert log[0] in log && forall n | n in log[1..] :: n in log;
      NothingBelow(log[1..], cursor, through);
    }
  }

  lemma {:induction false} NothingBetween(log: Log, cursor: nat, through: nat)
    requires through <= cursor
    ensures Visited(log, cursor, through) == []
  {
    if log != [] {
      NothingBetween(log[1..], cursor, through);
    }
  }

  /** Later commits do not change what is up to a watermark already there. */
  lemma {:induction false} VisitedKept(log: Log, n: nat, cursor: nat, through: nat)
    requires through < n
    ensures Visited(log + [n], cursor, through) == Visited(log, cursor, through)
  {
    if log == [] {
      assert log + [n] == [n] && [n][1..] == [];
    } else {
      assert (log + [n])[1..] == log[1..] + [n] && (log + [n])[0] == log[0];
      VisitedKept(log[1..], n, cursor, through);
    }
  }

  /** A visit up to a committed event ends there. */
  lemma VisitEnds(log: Log, cursor: nat, through: nat)
    requires Growing(log) && through in log && cursor < through
    ensures LastOr(Visited(log, cursor, through), cursor) == through
  {
    var v := Visited(log, cursor, through);
    VisitedHolds(log, cursor, through);
    assert through in v;
    var i :| 0 <= i < |v| && v[i] == through;
    var j := |v| - 1;
    assert v[j] in v && v[i] <= v[j];
  }

  lemma CursorAfter(log: Log, cursor: nat, through: nat)
    requires Growing(log) && (through == 0 || through in log)
    ensures LastOr(Visited(log, cursor, through), cursor) == Max(cursor, through)
  {
    if cursor < through {
      VisitEnds(log, cursor, through);
    } else {
      NothingBetween(log, cursor, through);
    }
  }

  lemma LogTop(log: Log, n: nat)
    requires Growing(log) && n > LastOr(log, 0)
    ensures Growing(log + [n]) && forall m | m in log :: m < n
  {
    forall m | m in log ensures m < n {
      var i :| 0 <= i < |log| && log[i] == m;
      assert i < |log| - 1 ==> log[i] < log[|log| - 1];
    }
  }

  lemma CommitKeepsChannel(s: System, s': System)
    requires ChannelInv(s) && Commit(s, s')
    ensures ChannelInv(s')
  {
    var n: nat :| n > LastOr(s.log, 0) && s' == s.(log := s.log + [n]);
    LogTop(s.log, n);
  }

  lemma NoticeKeepsChannel(s: System, s': System)
    requires ChannelInv(s) && (Raise(s, s') || Send(s, s') || Finish(s, s'))
    ensures ChannelInv(s')
  {
  }

  lemma ConsumerKeepsChannel(s: System, s': System)
    requires ChannelInv(s) && OutputInv(s)
    requires Receive(s, s') || OpenFails(s, s') || Drain(s, s') || Close(s, s') || FinalDrain(s, s')
    ensures ChannelInv(s')
  {
  }

  lemma ChannelKept(s: System, s': System)
    requires ChannelInv(s) && OutputInv(s) && Next(s, s')
    ensures ChannelInv(s')
  {
    if Commit(s, s') {
      CommitKeepsChannel(s, s');
    } else if Raise(s, s') || Send(s, s') || Finish(s, s') {
      NoticeKeepsChannel(s, s');
    } else if s' != s {
      ConsumerKeepsChannel(s, s');
    }
  }

  lemma ProducerKeepsOutput(s: System, s': System)
    requires ChannelInv(s) && OutputInv(s)
    requires Commit(s, s') || Raise(s, s') || Send(s, s') || Finish(s, s')
    ensures OutputInv(s')
  {
    if Commit(s, s') {
      var n: nat :| n > LastOr(s.log, 0) && s' == s.(log := s.log + [n]);
      LogTop(s.log, n);
      if s.first.Some? {
        VisitedKept(s.log, n, s.first.value - 1, s.watermark);
        if !s.pipe.Failed? {
          VisitedKept(s.log, n, s.first.value - 1, s.cursor);
        }
      }
    } else if Raise(s, s') && s.first.Some? {
      VisitedJoins(s.log, s.first.value - 1, s.watermark, s'.watermark);
    }
  }

  /** Where a drain starts and ends. */
  lemma DrainSpan(s: System)
    requires ChannelInv(s) && OutputInv(s) && s.consumer.Holding?
    ensures FirstOf(s) > 0 && FirstOf(s) - 1 <= Start(s) <= s.watermark && FirstOf(s) <= s.watermark
    ensures s.out == Visited(s.log, FirstOf(s) - 1, Start(s))
    ensures s.out + Visited(s.log, Start(s), s.watermark) == Visited(s.log, FirstOf(s) - 1, s.watermark)
    ensures LastOr(Visited(s.log, Start(s), s.watermark), Start(s)) == s.watermark
  {
    var f := FirstOf(s);
    assert f in s.sends && f in s.log;
    AllPositive(s.log, f);
    if s.first.None? {
      NothingBetween(s.log, f - 1, f - 1);
    }
    VisitedJoins(s.log, f - 1, Start(s), s.watermark);
    CursorAfter(s.log, Start(s), s.watermark);
  }

  lemma AllPositive(log: Log, n: nat)
    requires Growing(log) && n in log && log[0] > 0
    ensures n > 0
  {
    var i :| 0 <= i < |log| && log[i] == n;
    assert i > 0 ==> log[0] < log[i];
  }

  lemma PrefixOfJoin(out: seq<nat>, written: seq<nat>, visited: seq<nat>)
    requires written <= visited
    ensures out + written <= out + visited
  {
  }

  lemma DrainKeepsOutput(s: System, s': System)
    requires ChannelInv(s) && OutputInv(s) && Drain(s, s')
    ensures OutputInv(s')
  {
    DrainSpan(s);
    var visited := Visited(s.log, Start(s), s.watermark);
    var written, pipe, cursor :| Emits(visited, Open, Start(s), written, pipe, cursor) &&
      s' == s.(reading := true, first := Some(FirstOf(s)), cursor := cursor, out := s.out + written, pipe := pipe,
               consumer := if pipe.Open? then Waiting else Leaving);
    PrefixOfJoin(s.out, written, visited);
  }

  lemma FinalDrainKeepsOutput(s: System, s': System)
    requires ChannelInv(s) && OutputInv(s) && FinalDrain(s, s')
    ensures OutputInv(s')
  {
    if !s.pipe.Failed? && s.reading {
      var visited := Visited(s.log, s.cursor, s.watermark);
      var written, pipe, cursor :| Emits(visited, s.pipe, s.cursor, written, pipe, cursor) &&
        s' == s.(cursor := cursor, out := s.out + written, pipe := pipe, consumer := Done);
      VisitedJoins(s.log, s.first.value - 1, s.cursor, s.watermark);
      CursorAfter(s.log, s.cursor, s.watermark);
      PrefixOfJoin(s.out, written, visited);
    }
  }

  lemma StepKeepsInvariant(s: System, s': System)
    requires ChannelInv(s) && OutputInv(s) && Next(s, s')
    ensures ChannelInv(s') && OutputInv(s')
  {
    ChannelKept(s, s');
    if Commit(s, s') || Raise(s, s') || Send(s, s') || Finish(s, s') {
      ProducerKeepsOutput(s, s');
    } else if Drain(s, s') {
      DrainKeepsOutput(s, s');
    } else if FinalDrain(s, s') {
      FinalDrainKeepsOutput(s, s');
    }
  }

  /** A drain goes through the watermark of then, which every wake-up sent by then is below. */
  lemma WakeKept(s: System, s': System)
    requires ChannelInv(s) && OutputInv(s) && WakeInv(s) && Next(s, s')
    ensures WakeInv(s')
  {
    if Drain(s, s') && s'.pipe.Open? {
      DrainSpan(s);
      assert s'.cursor == s.watermark;
    }
  }

  lemma {:induction false} BehaviorKeepsInvariant(run: seq<System>, i: nat)
    requires Behavior(run) && i < |run|
    ensures ChannelInv(run[i]) && OutputInv(run[i]) && WakeInv(run[i])
  {
    if i > 0 {
      BehaviorKeepsInvariant(run, i - 1);
      StepKeepsInvariant(run[i - 1], run[i]);
      WakeKept(run[i - 1], run[i]);
    }
  }

  /** At any time, a consumer that waits with no wake-up queued has written every event from the
      first one named that a notification was sent for: nobody waits for an event already told of. */
  lemma NothingPending(run: seq<System>, i: nat, n: nat)
    requires Behavior(run) && i < |run|
    requires var s := run[i];
             s.consumer.Waiting? && s.slot.None? && s.pipe.Open? && n in s.sends && s.sends[0] <= n
    ensures n in run[i].out
  {
    var s := run[i];
    BehaviorKeepsInvariant(run, i);
    AllPositive(s.log, n);
    VisitedHolds(s.log, s.first.value - 1, s.cursor);
  }

  /** Once the stream has ended, every committed event from the first one a wake-up named through
      the highest watermark was written exactly once and in order; if the pipe broke or failed,
      what was written is the beginning of that. Without any wake-up nothing was written. */
  lemma ExactlyOnceInOrder(run: seq<System>)
    requires Behavior(run) && run[|run| - 1].consumer.Done?
    ensures var s := run[|run| - 1];
            if s.sends == [] then s.out == []
            else if s.pipe.Open? then s.sends[0] > 0 && s.out == Visited(s.log, s.sends[0] - 1, s.watermark)
            else s.sends[0] > 0 && s.out <= Visited(s.log, s.sends[0] - 1, s.watermark)
    ensures var s := run[|run| - 1]; forall n | n in s.sends :: n in s.log && n <= s.watermark
    ensures Growing(run[|run| - 1].out)
    ensures var s := run[|run| - 1];
            s.sends != [] && s.pipe.Open? ==> forall n :: n in s.out <==> n in s.log && s.sends[0] <= n <= s.watermark
  {
    var s := run[|run| - 1];
    BehaviorKeepsInvariant(run, |run| - 1);
    if s.sends != [] {
      assert s.sends[0] in s.sends;
      AllPositive(s.log, s.sends[0]);
      VisitedHolds(s.log, s.sends[0] - 1, s.watermark);
      if s.first.Some? && s.pipe.Broken? {
        VisitedJoins(s.log, s.sends[0] - 1, s.cursor, s.watermark);
      }
    }
  }
}
