/** Batching session events so that a run of streamed text crosses as one event. */
module Coalesce {
  import opened Wrappers

  datatype Kind = ContentDelta | OtherKind(name: string)

  /** An item; `details` stands for what it carries besides its id. */
  datatype Item = Item(id: int, details: string)

  /** An event; `rest` stands for the parts no merging looks at. */
  datatype Event = Event(kind: Kind, item: Option<Item>, text: Option<string>, rest: string)

  function ItemId(e: Event): Option<int> {
    if e.item.Some? then Some(e.item.value.id) else None
  }

  /** Two pieces of one text: deltas of the same item, or of no item, that carry text. */
  predicate Mergeable(a: Event, b: Event) {
    a.kind.ContentDelta? && b.kind.ContentDelta? && ItemId(a) == ItemId(b) && a.text.Some? && b.text.Some?
  }

  function Append(a: Event, more: string): Event
    requires a.text.Some?
  {
    a.(text := Some(a.text.value + more))
  }

  function Pushed(batch: seq<Event>, e: Event): seq<Event> {
    if batch != [] && Mergeable(batch[|batch| - 1], e)
    then batch[|batch| - 1 := Append(batch[|batch| - 1], e.text.value)]
    else batch + [e]
  }

  function PushAll(batch: seq<Event>, events: seq<Event>): seq<Event>
    decreases |events|
  {
    if events == [] then batch else PushAll(Pushed(batch, events[0]), events[1..])
  }

  function Coalesced(events: seq<Event>): seq<Event> {
    PushAll([], events)
  }

  // ----- maximal runs -----

  /** The events split into runs, as long as each next event continues the text. */
  function Runs(events: seq<Event>): (runs: seq<seq<Event>>)
    ensures events != [] ==> runs != [] && runs[0] != [] && runs[0][0] == events[0]
  {
    if events == [] then []
    else
      var runs := Runs(events[1..]);
      if runs != [] && Mergeable(events[0], runs[0][0]) then runs[0 := [events[0]] + runs[0]]
      else [[events[0]]] + runs
  }

  function Flatten(runs: seq<seq<Event>>): seq<Event> {
    if runs == [] then [] else runs[0] + Flatten(runs[1..])
  }

  function Texts(run: seq<Event>): string {
    if run == [] then "" else (if run[0].text.Some? then run[0].text.value else "") + Texts(run[1..])
  }

  /** A run as one event: its first, with all the text. */
  function Joined(run: seq<Event>): Event
    requires run != []
  {
    if |run| == 1 then run[0] else run[0].(text := Some(Texts(run)))
  }

  predicate NonEmpty(runs: seq<seq<Event>>) {
    forall i | 0 <= i < |runs| :: runs[i] != []
  }

  function JoinedAll(runs: seq<seq<Event>>): seq<Event>
    requires NonEmpty(runs)
  {
    seq(|runs|, i requires 0 <= i < |runs| => Joined(runs[i]))
  }

  /** All events of a run are pieces of one text. */
  ghost predicate OneText(run: seq<Event>) {
    forall k | 0 < k < |run| :: Mergeable(run[k - 1], run[k])
  }

  /** The first event of the second run does not continue the first. */
  ghost predicate Apart(first: seq<Event>, second: seq<Event>) {
    first != [] && second != [] && !Mergeable(first[|first| - 1], second[0])
  }

  /** Every event of a run continues the one before; the first of the next does not. */
  ghost predicate Maximal(runs: seq<seq<Event>>) {
    && NonEmpty(runs)
    && (forall i | 0 <= i < |runs| :: OneText(runs[i]))
    && (forall i | 0 < i < |runs| :: Apart(runs[i - 1], runs[i]))
  }

  lemma {:induction false} RunsAreMaximal(events: seq<Event>)
    ensures Maximal(Runs(events)) && Flatten(Runs(events)) == events
  {
    if events != [] {
      var rest := Runs(events[1..]);
      RunsAreMaximal(events[1..]);
      assert events == [events[0]] + events[1..];
      if rest != [] && Mergeable(events[0], rest[0][0]) {
        FirstRunGrows(events[0], rest);
        FlattenGrows(events[0], rest);
      } else {
        assert ([[events[0]]] + rest)[1..] == rest;
      }
    }
  }

  lemma RunGrows(e: Event, run: seq<Event>)
    requires OneText(run) && run != [] && Mergeable(e, run[0])
    ensures OneText([e] + run) && ([e] + run)[|run|] == run[|run| - 1]
  {
    var longer := [e] + run;
    forall k | 0 < k < |longer|
      ensures Mergeable(longer[k - 1], longer[k])
    {
      if k > 1 {
        assert Mergeable(run[k - 2], run[k - 1]);
      }
    }
  }

  lemma FirstRunGrows(e: Event, rest: seq<seq<Event>>)
    requires Maximal(rest) && rest != [] && Mergeable(e, rest[0][0])
    ensures Maximal(rest[0 := [e] + rest[0]])
  {
    RunGrows(e, rest[0]);
    var runs := rest[0 := [e] + rest[0]];
    forall i | 0 < i < |runs|
      ensures Apart(runs[i - 1], runs[i])
    {
      assert Apart(rest[i - 1], rest[i]);
    }
  }

  lemma FlattenGrows(e: Event, rest: seq<seq<Event>>)
    requires rest != []
    ensures Flatten(rest[0 := [e] + rest[0]]) == [e] + Flatten(rest)
  {
    var runs := rest[0 := [e] + rest[0]];
    assert runs[1..] == rest[1..];
    assert [e] + rest[0] + Flatten(rest[1..]) == [e] + (rest[0] + Flatten(rest[1..]));
  }

  lemma TailIsOneText(run: seq<Event>)
    requires OneText(run) && |run| > 1
    ensures OneText(run[1..]) && Mergeable(run[0], run[1..][0])
  {
    var rest := run[1..];
    forall k | 0 < k < |rest|
      ensures Mergeable(rest[k - 1], rest[k])
    {
      assert Mergeable(run[k], run[k + 1]);
    }
    assert Mergeable(run[0], run[1]);
  }

  /** A batch whose last event is a joined run takes the next run into one event, or after it. */
  lemma {:induction false} PushContinues(batch: seq<Event>, last: Event, run: seq<Event>)
    requires OneText(run) && run != [] && Mergeable(last, run[0])
    ensures PushAll(batch + [last], run) == batch + [Append(last, Texts(run))]
    decreases |run|
  {
    var next := Append(last, run[0].text.value);
    assert Pushed(batch + [last], run[0]) == batch + [next];
    if |run| == 1 {
      assert run[1..] == [];
      assert Texts(run) == run[0].text.value + Texts(run[1..]) == run[0].text.value;
    } else {
      TailIsOneText(run);
      PushContinues(batch, next, run[1..]);
      assert last.text.value + run[0].text.value + Texts(run[1..]) == last.text.value + Texts(run);
    }
  }

  lemma PushRun(batch: seq<Event>, run: seq<Event>)
    requires OneText(run) && run != [] && (batch != [] ==> !Mergeable(batch[|batch| - 1], run[0]))
    ensures PushAll(batch, run) == batch + [Joined(run)]
  {
    assert Pushed(batch, run[0]) == batch + [run[0]];
    if |run| > 1 {
      TailIsOneText(run);
      PushContinues(batch, run[0], run[1..]);
    } else {
      assert run[1..] == [];
    }
  }

  /** A joined run merges with what its last event merges with. */
  lemma {:induction false} JoinedMerges(run: seq<Event>, e: Event)
    requires OneText(run) && run != []
    ensures Mergeable(Joined(run), e) <==> Mergeable(run[|run| - 1], e)
  {
    if |run| > 1 {
      SameItem(run, |run| - 1);
      assert Mergeable(run[|run| - 2], run[|run| - 1]) && Mergeable(run[0], run[1]);
    }
  }

  lemma {:induction false} SameItem(run: seq<Event>, k: nat)
    requires OneText(run) && k < |run|
    ensures ItemId(run[k]) == ItemId(run[0])
  {
    if k > 0 {
      SameItem(run, k - 1);
      assert Mergeable(run[k - 1], run[k]);
    }
  }

  lemma {:induction false} PushJoins(batch: seq<Event>, s: seq<Event>, t: seq<Event>)
    ensures PushAll(batch, s + t) == PushAll(PushAll(batch, s), t)
    decreases |s|
  {
    if s == [] {
      assert s + t == t;
    } else {
      assert (s + t)[1..] == s[1..] + t && (s + t)[0] == s[0];
      PushJoins(Pushed(batch, s[0]), s[1..], t);
    }
  }

  lemma JoinedFirst(runs: seq<seq<Event>>)
    requires NonEmpty(runs) && runs != []
    ensures NonEmpty(runs[1..]) && JoinedAll(runs) == [Joined(runs[0])] + JoinedAll(runs[1..])
  {
    assert forall i | 0 <= i < |runs[1..]| :: runs[1..][i] == runs[i + 1];
  }

  lemma {:induction false} PushRuns(batch: seq<Event>, runs: seq<seq<Event>>)
    requires Maximal(runs)
    requires batch != [] && runs != [] ==> !Mergeable(batch[|batch| - 1], runs[0][0])
    ensures PushAll(batch, Flatten(runs)) == batch + JoinedAll(runs)
    decreases |runs|
  {
    if runs != [] {
      var run, rest := runs[0], runs[1..];
      PushJoins(batch, run, Flatten(rest));
      PushRun(batch, run);
      assert forall i | 0 <= i < |rest| :: rest[i] == runs[i + 1];
      if rest != [] {
        assert Apart(runs[0], runs[1]);
        JoinedMerges(run, rest[0][0]);
      }
      PushRuns(batch + [Joined(run)], rest);
      JoinedFirst(runs);
    }
  }

  /** Coalescing joins each maximal run of one text into one event with exactly its text; all other
      events are there as they came, in order. */
  lemma CoalescedIsRuns(events: seq<Event>)
    ensures NonEmpty(Runs(events)) && Coalesced(events) == JoinedAll(Runs(events))
  {
    RunsAreMaximal(events);
    PushRuns([], Runs(events));
    assert [] + JoinedAll(Runs(events)) == JoinedAll(Runs(events));
  }

  /** No two neighbours of a batch could be merged any more. */
  ghost predicate Settled(batch: seq<Event>) {
    forall i | 0 < i < |batch| :: !Mergeable(batch[i - 1], batch[i])
  }

  lemma {:induction false} PushAllSettles(batch: seq<Event>, events: seq<Event>)
    requires Settled(batch)
    ensures Settled(PushAll(batch, events))
    decreases |events|
  {
    if events != [] {
      assert Settled(Pushed(batch, events[0]));
      PushAllSettles(Pushed(batch, events[0]), events[1..]);
    }
  }

  /** A settled batch passes through unchanged. */
  lemma {:induction false} SettledUnchanged(batch: seq<Event>, more: seq<Event>)
    requires Settled(batch + more)
    ensures PushAll(batch, more) == batch + more
    decreases |more|
  {
    if more == [] {
      assert batch + more == batch;
    } else {
      var all := batch + more;
      if batch != [] {
        assert all[|batch| - 1] == batch[|batch| - 1] && all[|batch|] == more[0];
      }
      assert (batch + [more[0]]) + more[1..] == all;
      SettledUnchanged(batch + [more[0]], more[1..]);
    }
  }

  /** What was coalesced once does not change any more. */
  lemma CoalescedTwice(events: seq<Event>)
    ensures Coalesced(Coalesced(events)) == Coalesced(events)
  {
    PushAllSettles([], events);
    assert [] + Coalesced(events) == Coalesced(events);
    SettledUnchanged([], Coalesced(events));
  }

  /** Splitting the events anywhere, coalescing the parts and pushing the second part onto the
      first gives what coalescing all of them gives. */
  lemma {:induction false} SplitAnywhere(s: seq<Event>, t: seq<Event>)
    ensures PushAll(Coalesced(s), Coalesced(t)) == Coalesced(s + t)
  {
    PushJoins([], s, t);
    PushCoalesced(Coalesced(s), t);
  }

  lemma {:induction false} PushCoalesced(batch: seq<Event>, t: seq<Event>)
    ensures PushAll(batch, Coalesced(t)) == PushAll(batch, t)
  {
    if t != [] {
      var last := |t| - 1;
      var init, e := t[..last], t[last];
      assert t == init + [e];
      PushJoins([], init, [e]);
      PushJoins(batch, init, [e]);
      PushCoalesced(batch, init);
      var c := Coalesced(init);
      assert [e][1..] == [];
      assert Coalesced(t) == Pushed(c, e);
      if c != [] && Mergeable(c[|c| - 1], e) {
        MergeLast(batch, c, e);
      } else {
        PushJoins(batch, c, [e]);
      }
    }
  }

  /** Merging two pieces before or after pushing the first makes no difference. */
  lemma MergeOne(batch: seq<Event>, last: Event, e: Event)
    requires Mergeable(last, e)
    ensures Pushed(batch, Append(last, e.text.value)) == Pushed(Pushed(batch, last), e)
  {
    if batch != [] && Mergeable(batch[|batch| - 1], last) {
      var top := batch[|batch| - 1];
      assert top.text.value + (last.text.value + e.text.value) == top.text.value + last.text.value + e.text.value;
    }
  }

  lemma MergeLast(batch: seq<Event>, c: seq<Event>, e: Event)
    requires c != [] && Mergeable(c[|c| - 1], e)
    ensures PushAll(batch, Pushed(c, e)) == Pushed(PushAll(batch, c), e)
  {
    var front, last := c[..|c| - 1], c[|c| - 1];
    var more := Append(last, e.text.value);
    assert c == front + [last] && Pushed(c, e) == front + [more];
    PushJoins(batch, front, [last]);
    PushJoins(batch, front, [more]);
    var b := PushAll(batch, front);
    assert [last][1..] == [] && [more][1..] == [];
    MergeOne(b, last, e);
  }

  // ----- gathering -----

  predicate EndsInDelta(batch: seq<Event>) {
    batch != [] && batch[|batch| - 1].kind.ContentDelta?
  }

  /** The batch is one event per maximal run of the events, with exactly its text. */
  ghost predicate OnePerRun(batch: seq<Event>, events: seq<Event>) {
    NonEmpty(Runs(events)) && batch == JoinedAll(Runs(events))
  }

  lemma RunsPushed(events: seq<Event>, e: Event)
    ensures OnePerRun(Coalesced(events), events)
    ensures OnePerRun(Pushed(Coalesced(events), e), events + [e])
  {
    CoalescedIsRuns(events);
    CoalescedIsRuns(events + [e]);
    PushJoins([], events, [e]);
    assert [e][1..] == [];
  }

  /** The events that cross to the app together. */
  class Batch {
    var events: seq<Event>

    constructor (first: Event)
      ensures events == [first] && OnePerRun(events, [first])
    {
      events := [first];
      RunsPushed([], first);
      assert [] + [first] == [first];
    }

    /** Adds an event, joining it to the last one if it continues its text: a batch with one event per
        maximal run of what was pushed stays one. */
    method Push(e: Event, ghost pushed: seq<Event>)
      modifies this
      ensures events == Pushed(old(events), e)
      ensures OnePerRun(old(events), pushed) ==> OnePerRun(events, pushed + [e])
    {
      RunsPushed(pushed, e);
      if events != [] && Mergeable(events[|events| - 1], e) {
        var last := |events| - 1;
        events := events[last := Append(events[last], e.text.value)];
      } else {
        events := events + [e];
      }
    }

    /** Takes from the channel while the batch ends in streaming text and the window lasts; `window`
        is how many events arrive before it passes, and the channel may close. */
    method Gather(channel: seq<Event>, window: nat, ghost pushed: seq<Event>) returns (taken: nat)
      modifies this
      ensures taken <= |channel| && taken <= window && events == PushAll(old(events), channel[..taken])
      ensures forall i | 0 <= i < taken - 1 :: channel[i].kind.ContentDelta?
      ensures OnePerRun(old(events), pushed) ==> OnePerRun(events, pushed + channel[..taken])
      ensures !EndsInDelta(old(events)) ==> taken == 0
      ensures EndsInDelta(old(events)) && taken < |channel| && taken < window ==>
                taken > 0 && !channel[taken - 1].kind.ContentDelta?
    {
      taken := 0;
      assert pushed + channel[..0] == pushed;
      while EndsInDelta(events) && taken < window && taken < |channel|
        invariant taken <= |channel| && taken <= window && events == PushAll(old(events), channel[..taken])
        invariant forall i | 0 <= i < taken - 1 :: channel[i].kind.ContentDelta?
        invariant OnePerRun(old(events), pushed) ==> OnePerRun(events, pushed + channel[..taken])
        invariant taken == 0 ==> events == old(events)
        invariant taken > 0 ==>
                    EndsInDelta(old(events)) && (EndsInDelta(events) <==> channel[taken - 1].kind.ContentDelta?)
        decreases |channel| - taken
      {
        PushNext(old(events), channel, taken);
        assert pushed + channel[..taken] + [channel[taken]] == pushed + channel[..taken + 1];
        Push(channel[taken], pushed + channel[..taken]);
        taken := taken + 1;
      }
    }
  }

  lemma PushNext(batch: seq<Event>, channel: seq<Event>, k: nat)
    requires k < |channel|
    ensures PushAll(batch, channel[..k + 1]) == Pushed(PushAll(batch, channel[..k]), channel[k])
  {
    assert channel[..k + 1] == channel[..k] + [channel[k]];
    PushJoins(batch, channel[..k], [channel[k]]);
    assert [channel[k]][1..] == [];
  }

  /** Two events become one exactly if both are content of one item, or of no item, and carry text; it is the first
      with both texts. */
  lemma TwoCoalesce(a: Event, b: Event)
    ensures |Coalesced([a, b])| == 1 <==>
            && a.kind.ContentDelta? && b.kind.ContentDelta? && a.text.Some? && b.text.Some?
            && (a.item.Some? <==> b.item.Some?) && (a.item.Some? ==> a.item.value.id == b.item.value.id)
    ensures |Coalesced([a, b])| == 1 ==>
            && a.text.Some? && b.text.Some?
            && Coalesced([a, b]) == [Event(a.kind, a.item, Some(a.text.value + b.text.value), a.rest)]
    ensures |Coalesced([a, b])| != 1 ==> Coalesced([a, b]) == [a, b]
  {
    assert [a, b][1..] == [b] && [b][1..] == [];
    assert Pushed([], a) == [a];
    assert PushAll([], [a, b]) == PushAll([a], [b]) == PushAll(Pushed([a], b), []);
  }
}
