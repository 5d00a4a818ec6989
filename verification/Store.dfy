/** A document's stored chunks, a Workspace's commits, and the paged History. */
module Store {
  import opened Wrappers
  import opened Sequences

  type Document = int
  type Change = int

  /** Stored bytes: one change after the stored ones, or the whole document. */
  datatype Chunk = Single(change: Change) | Snapshot(changes: seq<Change>)

  datatype Action = Action(id: int, about: string)

  datatype Error = NotFound | StoreFailed

  /** The length at which a document's chunks are compacted. */
  const COMPACT_AFTER := 1_000

  datatype Write = Append(document: Document, chunk: Chunk) | Replace(document: Document, snapshot: Chunk)

  type Chunks = map<Document, seq<Chunk>>

  function ChunksOf(chunks: Chunks, d: Document): seq<Chunk> {
    if d in chunks then chunks[d] else []
  }

  /** The changes that loading the chunks, one after the other, gives. */
  function Replay(chunks: seq<Chunk>): seq<Change> {
    if chunks == [] then []
    else Replay(chunks[..|chunks| - 1]) + Contents(chunks[|chunks| - 1])
  }

  function Contents(chunk: Chunk): seq<Change> {
    match chunk
    case Single(change) => [change]
    case Snapshot(changes) => changes
  }

  /** A document's chunks after a write of it. */
  function Stored(chunks: seq<Chunk>, w: Write): seq<Chunk> {
    match w
    case Append(_, chunk) => chunks + [chunk]
    case Replace(_, snapshot) => [snapshot]
  }

  function Written(chunks: Chunks, w: Write): Chunks {
    chunks[w.document := Stored(ChunksOf(chunks, w.document), w)]
  }

  function WrittenAll(chunks: Chunks, writes: seq<Write>): Chunks {
    if writes == [] then chunks
    else Written(WrittenAll(chunks, writes[..|writes| - 1]), writes[|writes| - 1])
  }

  /** A document in memory: its committed changes, the number of its stored chunks, and what was written
      since the last commit. */
  datatype Loaded = Loaded(changes: seq<Change>, chunks: nat, pending: Option<Change>)

  type Docs = map<Document, Loaded>

  /** A document after its pending change is committed: a long one is compacted. */
  function CommittedDoc(l: Loaded): Loaded
    requires l.pending.Some?
  {
    Loaded(l.changes + [l.pending.value], if l.chunks >= COMPACT_AFTER then 1 else l.chunks + 1, None)
  }

  function WriteOf(d: Document, l: Loaded): Write
    requires l.pending.Some?
  {
    if l.chunks >= COMPACT_AFTER then Replace(d, Snapshot(l.changes + [l.pending.value]))
    else Append(d, Single(l.pending.value))
  }

  /** One touched document's commit, with what it writes. */
  function CommitOne(docs: Docs, d: Document): (Docs, seq<Write>) {
    if d !in docs || docs[d].pending.None? then (docs, [])
    else (docs[d := CommittedDoc(docs[d])], [WriteOf(d, docs[d])])
  }

  function CommitAll(docs: Docs, touched: seq<Document>): (Docs, seq<Write>) {
    if touched == [] then (docs, [])
    else
      var (before, writes) := CommitAll(docs, touched[..|touched| - 1]);
      var (after, more) := CommitOne(before, touched[|touched| - 1]);
      (after, writes + more)
  }

  // ----- what a commit stores -----

  /** Memory and store agree: each document in memory is its replayed chunks, and knows how many
      they are; no document has more chunks than compaction allows. */
  ghost predicate Kept(chunks: Chunks, docs: Docs) {
    && (forall d | d in docs :: Agrees(chunks, docs, d))
    && (forall d | d in chunks :: |chunks[d]| <= COMPACT_AFTER)
  }

  ghost predicate Agrees(chunks: Chunks, docs: Docs, d: Document)
    requires d in docs
  {
    Matches(docs[d], ChunksOf(chunks, d))
  }

  ghost predicate Matches(l: Loaded, chunks: seq<Chunk>) {
    l.changes == Replay(chunks) && l.chunks == |chunks|
  }

  /** What a commit of the touched documents adds to one document. */
  function Added(docs: Docs, touched: seq<Document>, d: Document): seq<Change> {
    if d in touched && d in docs && docs[d].pending.Some? then [docs[d].pending.value] else []
  }

  lemma ReplayAppend(chunks: seq<Chunk>, chunk: Chunk)
    ensures Replay(chunks + [chunk]) == Replay(chunks) + Contents(chunk)
  {
    assert (chunks + [chunk])[..|chunks|] == chunks;
  }

  lemma {:induction false} WritesJoin(chunks: Chunks, s: seq<Write>, t: seq<Write>)
    ensures WrittenAll(chunks, s + t) == WrittenAll(WrittenAll(chunks, s), t)
    decreases |t|
  {
    if t == [] {
      assert s + t == s;
    } else {
      var last := |t| - 1;
      assert (s + t)[..|s + t| - 1] == s + t[..last];
      WritesJoin(chunks, s, t[..last]);
    }
  }

  /** One document's commit stores its change, and memory goes along with the store. */
  lemma DocumentStores(d: Document, l: Loaded, chunks: seq<Chunk>)
    requires Matches(l, chunks) && l.pending.Some? && |chunks| <= COMPACT_AFTER
    ensures var after := Stored(chunks, WriteOf(d, l));
            Matches(CommittedDoc(l), after) && |after| <= COMPACT_AFTER
            && Replay(after) == Replay(chunks) + [l.pending.value]
            && (if |chunks| < 1_000 then |after| == |chunks| + 1 && chunks <= after else |after| == 1)
  {
    ReplayAppend(chunks, Single(l.pending.value));
    var snapshot := Snapshot(l.changes + [l.pending.value]);
    ReplayAppend([], snapshot);
    assert [] + [snapshot] == [snapshot];
  }

  lemma OneWrite(chunks: Chunks, w: Write)
    ensures WrittenAll(chunks, [w]) == Written(chunks, w)
  {
    assert [w][..0] == [];
  }

  lemma CommitOneKeeps(chunks: Chunks, docs: Docs, d: Document)
    requires Kept(chunks, docs)
    ensures var (after, writes) := CommitOne(docs, d);
            Kept(WrittenAll(chunks, writes), after) && after.Keys == docs.Keys
  {
    if d in docs && docs[d].pending.Some? {
      assert Agrees(chunks, docs, d);
      DocumentStores(d, docs[d], ChunksOf(chunks, d));
      OneWrite(chunks, WriteOf(d, docs[d]));
      var stored, after := Written(chunks, WriteOf(d, docs[d])), CommitOne(docs, d).0;
      forall e | e in after
        ensures Agrees(stored, after, e)
      {
        assert Agrees(chunks, docs, e);
      }
    }
  }

  lemma CommitOneStores(chunks: Chunks, docs: Docs, d: Document, d': Document)
    requires Kept(chunks, docs)
    ensures var (after, writes) := CommitOne(docs, d);
            Replay(ChunksOf(WrittenAll(chunks, writes), d')) == Replay(ChunksOf(chunks, d')) + Added(docs, [d], d')
  {
    if d in docs && docs[d].pending.Some? {
      assert Agrees(chunks, docs, d);
      DocumentStores(d, docs[d], ChunksOf(chunks, d));
      OneWrite(chunks, WriteOf(d, docs[d]));
    }
  }

  lemma CommitNext(docs: Docs, touched: seq<Document>, k: nat)
    requires k < |touched|
    ensures var (before, writes) := CommitAll(docs, touched[..k]); var (after, more) := CommitOne(before, touched[k]);
            CommitAll(docs, touched[..k + 1]) == (after, writes + more)
  {
    assert touched[..k + 1][..k] == touched[..k];
  }

  lemma {:induction false} CommitKeeps(chunks: Chunks, docs: Docs, touched: seq<Document>)
    requires Kept(chunks, docs)
    ensures var (after, writes) := CommitAll(docs, touched);
            Kept(WrittenAll(chunks, writes), after) && after.Keys == docs.Keys
    decreases |touched|
  {
    if touched != [] {
      var init, last := touched[..|touched| - 1], touched[|touched| - 1];
      CommitKeeps(chunks, docs, init);
      var (before, writes) := CommitAll(docs, init);
      CommitOneKeeps(WrittenAll(chunks, writes), before, last);
      WritesJoin(chunks, writes, CommitOne(before, last).1);
    }
  }

  /** What the last touched document adds, after the others were committed. */
  lemma AddedNext(docs: Docs, before: Docs, init: seq<Document>, last: Document, d: Document)
    requires before.Keys == docs.Keys
    requires d in docs ==> before[d].pending == if d in init then None else docs[d].pending
    ensures Added(docs, init + [last], d) == Added(docs, init, d) + Added(before, [last], d)
  {
  }

  lemma {:induction false} CommitClears(docs: Docs, touched: seq<Document>, d: Document)
    requires d in docs
    ensures var after := CommitAll(docs, touched).0;
            d in after && after[d].pending == if d in touched then None else docs[d].pending
    decreases |touched|
  {
    if touched != [] {
      var init, last := touched[..|touched| - 1], touched[|touched| - 1];
      assert touched == init + [last];
      CommitClears(docs, init, d);
    }
  }

  lemma Joins(x: seq<Change>, y: seq<Change>, z: seq<Change>)
    ensures x + y + z == x + (y + z)
  {
  }

  /** Committing the touched documents adds each one's pending change to its stored changes, once,
      whether it was appended or the document was compacted. */
  lemma {:induction false} CommitStores(chunks: Chunks, docs: Docs, touched: seq<Document>, d: Document)
    requires Kept(chunks, docs)
    ensures Replay(ChunksOf(WrittenAll(chunks, CommitAll(docs, touched).1), d))
            == Replay(ChunksOf(chunks, d)) + Added(docs, touched, d)
    decreases |touched|
  {
    if touched != [] {
      var init, last := touched[..|touched| - 1], touched[|touched| - 1];
      assert touched == init + [last];
      var (before, writes) := CommitAll(docs, init);
      var stored, more := WrittenAll(chunks, writes), CommitOne(before, last).1;
      assert CommitAll(docs, touched).1 == writes + more;
      assert WrittenAll(chunks, writes + more) == WrittenAll(stored, more) by {
        WritesJoin(chunks, writes, more);
      }
      assert Replay(ChunksOf(stored, d)) == Replay(ChunksOf(chunks, d)) + Added(docs, init, d) by {
        CommitStores(chunks, docs, init, d);
      }
      assert Replay(ChunksOf(WrittenAll(stored, more), d)) == Replay(ChunksOf(stored, d)) + Added(before, [last], d) by {
        CommitKeeps(chunks, docs, init);
        CommitOneStores(stored, before, last, d);
      }
      assert Added(docs, touched, d) == Added(docs, init, d) + Added(before, [last], d) by {
        CommitKeys(docs, init);
        if d in docs {
          CommitClears(docs, init, d);
        }
        AddedNext(docs, before, init, last, d);
      }
      Joins(Replay(ChunksOf(chunks, d)), Added(docs, init, d), Added(before, [last], d));
    }
  }

  // ----- runs -----

  /** A Workspace with its store. */
  datatype State = State(chunks: Chunks, actions: seq<Action>, docs: Docs)

  /** What happens to a Workspace: a document is loaded, a loaded one is written, uncommitted
      writes are rolled back, or an Action is recorded, in a store that may fail. */
  datatype Event =
    | Load(document: Document)
    | Edit(edited: Document, change: Change)
    | Rollback
    | Record(action: Action, touched: seq<Document>, created: map<Document, Change>, fails: bool)

  function RolledBack(docs: Docs): Docs {
    map d | d in docs :: docs[d].(pending := None)
  }

  function WithNew(docs: Docs, created: map<Document, Change>): Docs {
    docs + map d | d in created :: Loaded([], 0, Some(created[d]))
  }

  function Dropped(docs: Docs, touched: seq<Document>): Docs {
    map d | d in docs && d !in touched :: docs[d]
  }

  function Recorded(s: State, action: Action, touched: seq<Document>, created: map<Document, Change>, fails: bool): State {
    var (docs, writes) := CommitAll(WithNew(s.docs, created), touched);
    if fails then s.(docs := Dropped(docs, touched))
    else State(WrittenAll(s.chunks, writes), s.actions + [action], docs)
  }

  function LoadedFrom(chunks: seq<Chunk>): Loaded {
    Loaded(Replay(chunks), |chunks|, None)
  }

  function Step(s: State, e: Event): State {
    match e
    case Load(d) =>
      if d in s.docs || ChunksOf(s.chunks, d) == [] then s
      else s.(docs := s.docs[d := LoadedFrom(ChunksOf(s.chunks, d))])
    case Edit(d, change) =>
      if d in s.docs then s.(docs := s.docs[d := s.docs[d].(pending := Some(change))]) else s
    case Rollback => s.(docs := RolledBack(s.docs))
    case Record(action, touched, created, fails) => Recorded(s, action, touched, created, fails)
  }

  function Run(s: State, events: seq<Event>): State {
    if events == [] then s else Step(Run(s, events[..|events| - 1]), events[|events| - 1])
  }

  /** New documents have identities that no document had. */
  ghost predicate Fresh(s: State, e: Event) {
    e.Record? ==> forall d | d in e.created :: d !in s.docs && ChunksOf(s.chunks, d) == []
  }

  ghost predicate FreshRun(s: State, events: seq<Event>)
    decreases |events|
  {
    events != [] ==> FreshRun(s, events[..|events| - 1]) && Fresh(Run(s, events[..|events| - 1]), events[|events| - 1])
  }

  /** What one step commits to a document. */
  function StepAdds(s: State, e: Event, d: Document): seq<Change> {
    if e.Record? && !e.fails then Added(WithNew(s.docs, e.created), e.touched, d) else []
  }

  /** Everything the run commits to a document, in order. */
  function Committed(s: State, events: seq<Event>, d: Document): seq<Change> {
    if events == [] then []
    else
      var init := events[..|events| - 1];
      Committed(s, init, d) + StepAdds(Run(s, init), events[|events| - 1], d)
  }

  lemma NewKeeps(chunks: Chunks, docs: Docs, created: map<Document, Change>)
    requires Kept(chunks, docs) && forall d | d in created :: d !in docs && ChunksOf(chunks, d) == []
    ensures Kept(chunks, WithNew(docs, created))
  {
    var all := WithNew(docs, created);
    forall d | d in all
      ensures Agrees(chunks, all, d)
    {
      if d in created {
        assert all[d].changes == [] && ChunksOf(chunks, d) == [];
      } else {
        assert Agrees(chunks, docs, d);
      }
    }
  }

  /** Documents that no commit reached are as they were, so dropping the touched ones is enough. */
  lemma {:induction false} UntouchedStay(docs: Docs, touched: seq<Document>, d: Document)
    requires d in docs && d !in touched
    ensures d in CommitAll(docs, touched).0 && CommitAll(docs, touched).0[d] == docs[d]
    decreases |touched|
  {
    if touched != [] {
      UntouchedStay(docs, touched[..|touched| - 1], d);
    }
  }

  lemma {:induction false} CommitKeys(docs: Docs, touched: seq<Document>)
    ensures CommitAll(docs, touched).0.Keys == docs.Keys
    decreases |touched|
  {
    if touched != [] {
      CommitKeys(docs, touched[..|touched| - 1]);
    }
  }

  lemma DroppedKeeps(chunks: Chunks, docs: Docs, touched: seq<Document>)
    requires Kept(chunks, docs)
    ensures Kept(chunks, Dropped(CommitAll(docs, touched).0, touched))
  {
    CommitKeys(docs, touched);
    var kept := Dropped(CommitAll(docs, touched).0, touched);
    forall d | d in kept
      ensures Agrees(chunks, kept, d)
    {
      UntouchedStay(docs, touched, d);
      assert Agrees(chunks, docs, d);
    }
  }

  lemma RecordKeeps(s: State, e: Event, d: Document)
    requires e.Record? && Kept(s.chunks, s.docs) && Fresh(s, e)
    ensures var s' := Step(s, e);
            Kept(s'.chunks, s'.docs)
            && Replay(ChunksOf(s'.chunks, d)) == Replay(ChunksOf(s.chunks, d)) + StepAdds(s, e, d)
  {
    NewKeeps(s.chunks, s.docs, e.created);
    var docs := WithNew(s.docs, e.created);
    if e.fails {
      DroppedKeeps(s.chunks, docs, e.touched);
    } else {
      CommitKeeps(s.chunks, docs, e.touched);
      CommitStores(s.chunks, docs, e.touched, d);
    }
  }

  lemma StepKeeps(s: State, e: Event, d: Document)
    requires Kept(s.chunks, s.docs) && Fresh(s, e)
    ensures var s' := Step(s, e);
            Kept(s'.chunks, s'.docs)
            && Replay(ChunksOf(s'.chunks, d)) == Replay(ChunksOf(s.chunks, d)) + StepAdds(s, e, d)
  {
    if e.Record? {
      RecordKeeps(s, e, d);
    } else {
      var s' := Step(s, e);
      forall o | o in s'.docs
        ensures Agrees(s'.chunks, s'.docs, o)
      {
        if o in s.docs {
          assert Agrees(s.chunks, s.docs, o);
        }
      }
    }
  }

  /** Storage with compaction refines storage that only appends: whatever was loaded, written,
      rolled back, recorded or refused by the store, replaying a document's chunks gives what it
      held and then every change committed to it, in order, from at most `COMPACT_AFTER` chunks;
      and memory agrees with the store. */
  lemma {:induction false} RunReplays(s: State, events: seq<Event>, d: Document)
    requires Kept(s.chunks, s.docs) && FreshRun(s, events)
    ensures var s' := Run(s, events);
            Kept(s'.chunks, s'.docs)
            && |ChunksOf(s'.chunks, d)| <= 1_000
            && Replay(ChunksOf(s'.chunks, d)) == Replay(ChunksOf(s.chunks, d)) + Committed(s, events, d)
    decreases |events|
  {
    if events != [] {
      var init := events[..|events| - 1];
      RunReplays(s, init, d);
      StepKeeps(Run(s, init), events[|events| - 1], d);
    }
  }

  // ----- what is recorded -----

  /** The document is in memory or in the store. */
  predicate Exists(s: State, d: Document) {
    d in s.docs || ChunksOf(s.chunks, d) != []
  }

  function Edited(s: State, d: Document, change: Change): State {
    Step(Step(s, Load(d)), Edit(d, change))
  }

  lemma EditPends(s: State, d: Document, change: Change)
    requires Kept(s.chunks, s.docs) && Exists(s, d)
    ensures var e := Edited(s, d, change);
            && Kept(e.chunks, e.docs) && e.chunks == s.chunks && e.actions == s.actions
            && d in e.docs && e.docs[d].pending == Some(change)
  {
    StepKeeps(s, Load(d), d);
    StepKeeps(Step(s, Load(d)), Edit(d, change), d);
  }

  /** A change to a document that exists is stored after all earlier ones as soon as an Action that touches the
      document is recorded, and the Action with it. */
  lemma EditIsStored(s: State, d: Document, change: Change, action: Action, touched: seq<Document>)
    requires Kept(s.chunks, s.docs) && Exists(s, d) && d in touched
    ensures var after := Step(Edited(s, d, change), Record(action, touched, map[], false));
            && Replay(ChunksOf(after.chunks, d)) == Replay(ChunksOf(s.chunks, d)) + [change]
            && d in after.docs && after.docs[d].changes == Replay(ChunksOf(after.chunks, d)) && after.docs[d].pending.None?
            && after.actions == s.actions + [action]
  {
    var e := Edited(s, d, change);
    EditPends(s, d, change);
    assert WithNew(e.docs, map[]) == e.docs;
    RecordKeeps(e, Record(action, touched, map[], false), d);
    CommitKeys(e.docs, touched);
    CommitClears(e.docs, touched, d);
    var after := Step(e, Record(action, touched, map[], false));
    assert Agrees(after.chunks, after.docs, d);
  }

  /** If the store fails, nothing is recorded, and the document is read again as it is stored. */
  lemma FailureStoresNothing(s: State, d: Document, change: Change, action: Action, touched: seq<Document>)
    requires Kept(s.chunks, s.docs) && Exists(s, d) && d in touched
    ensures var after := Step(Edited(s, d, change), Record(action, touched, map[], true));
            && after.chunks == s.chunks && after.actions == s.actions && d !in after.docs
            && (ChunksOf(s.chunks, d) != [] ==>
                  Step(after, Load(d)).docs[d] == Loaded(Replay(ChunksOf(s.chunks, d)), |ChunksOf(s.chunks, d)|, None))
  {
    EditPends(s, d, change);
  }

  /** A change that is rolled back is not stored. */
  lemma RolledBackIsForgotten(s: State, d: Document, change: Change, action: Action, touched: seq<Document>)
    requires Kept(s.chunks, s.docs) && Exists(s, d)
    ensures var back := Step(Edited(s, d, change), Rollback); d in back.docs && back.docs[d].pending.None?
    ensures var after := Step(Step(Edited(s, d, change), Rollback), Record(action, touched, map[], false));
            Replay(ChunksOf(after.chunks, d)) == Replay(ChunksOf(s.chunks, d))
  {
    var back := Step(Edited(s, d, change), Rollback);
    EditPends(s, d, change);
    StepKeeps(Edited(s, d, change), Rollback, d);
    assert WithNew(back.docs, map[]) == back.docs;
    RecordKeeps(back, Record(action, touched, map[], false), d);
  }

  /** A new document is stored with its first change. */
  lemma NewIsStored(s: State, d: Document, change: Change, action: Action, touched: seq<Document>)
    requires Kept(s.chunks, s.docs) && !Exists(s, d) && d in touched
    ensures var after := Step(s, Record(action, touched, map[d := change], false));
            Replay(ChunksOf(after.chunks, d)) == [change]
  {
    RecordKeeps(s, Record(action, touched, map[d := change], false), d);
    var docs := WithNew(s.docs, map[d := change]);
    assert docs[d].pending == Some(change);
  }

  /** The Actions whose recording did not fail, in order. */
  function Successes(events: seq<Event>): seq<Action> {
    if events == [] then []
    else
      var e := events[|events| - 1];
      Successes(events[..|events| - 1]) + if e.Record? && !e.fails then [e.action] else []
  }

  lemma {:induction false} ActionsAreRecorded(s: State, events: seq<Event>)
    ensures Run(s, events).actions == s.actions + Successes(events)
    decreases |events|
  {
    if events != [] {
      ActionsAreRecorded(s, events[..|events| - 1]);
    }
  }

  // ----- History -----

  predicate HasId(actions: seq<Action>, id: int) {
    exists i | 0 <= i < |actions| :: actions[i].id == id
  }

  /** Where the first Action with the id stands. */
  function IndexOf(actions: seq<Action>, id: int): (k: nat)
    requires HasId(actions, id)
    ensures k < |actions| && actions[k].id == id && forall i | 0 <= i < k :: actions[i].id != id
  {
    if actions[0].id == id then 0
    else
      assert exists i | 0 <= i < |actions[1..]| :: actions[1..][i].id == id by {
        var i :| 0 <= i < |actions| && actions[i].id == id;
        assert actions[1..][i - 1].id == id;
      }
      1 + IndexOf(actions[1..], id)
  }

  function Take(actions: seq<Action>, limit: nat): seq<Action> {
    if |actions| <= limit then actions else actions[..limit]
  }

  /** A page of at most `limit` Actions that were recorded before the one given, the last of them first. */
  function History(actions: seq<Action>, before: Option<int>, limit: nat): Result<seq<Action>, Error> {
    if before.None? then Ok(Take(Reversed(actions), limit))
    else if HasId(actions, before.value) then Ok(Take(Reversed(actions[..IndexOf(actions, before.value)]), limit))
    else Err(NotFound)
  }

  ghost predicate UniqueIds(actions: seq<Action>) {
    forall i, j | 0 <= i < j < |actions| :: actions[i].id != actions[j].id
  }

  /** The position a page starts before. */
  function End(actions: seq<Action>, before: Option<int>): (n: nat)
    requires before.Some? ==> HasId(actions, before.value)
    ensures n <= |actions|
  {
    if before.None? then |actions| else IndexOf(actions, before.value)
  }

  /** A page can be had exactly if the Action it is to start before is known. */
  lemma PageIsKnown(actions: seq<Action>, before: Option<int>, limit: nat)
    ensures History(actions, before, limit).Ok? <==> (before.Some? ==> exists a :: a in actions && a.id == before.value)
    ensures History(actions, before, limit).Err? ==> History(actions, before, limit).error == NotFound
  {
    if before.Some? && HasId(actions, before.value) {
      assert actions[IndexOf(actions, before.value)] in actions;
    }
  }

  /** A page has as many Actions as the limit allows and there are, the ones recorded last. With unique
      ids, its last Action starts the next page just below it. */
  lemma NextPage(actions: seq<Action>, before: Option<int>, limit: nat)
    requires UniqueIds(actions) && (before.Some? ==> HasId(actions, before.value))
    ensures History(actions, before, limit).Ok?
    ensures var page := History(actions, before, limit).value; var n := End(actions, before);
            && |page| == (if n <= limit then n else limit)
            && page == Reversed(actions[n - |page|..n])
            && (page != [] ==> HasId(actions, page[|page| - 1].id)
                               && End(actions, Some(page[|page| - 1].id)) == n - |page|)
  {
    var page, n := History(actions, before, limit).value, End(actions, before);
    assert actions[..|actions|] == actions;
    assert page == Take(Reversed(actions[..n]), limit);
    assert page == Reversed(actions[n - |page|..n]);
    if page != [] {
      var k := n - |page|;
      assert page[|page| - 1] == actions[k];
      assert HasId(actions, actions[k].id);
    }
  }

  /** Everything that asking page after page, each before the last Action of the one before,
      returns until a page is empty. */
  ghost function Paged(actions: seq<Action>, before: Option<int>, limit: nat): seq<Action>
    requires UniqueIds(actions) && limit > 0 && (before.Some? ==> HasId(actions, before.value))
    decreases End(actions, before)
  {
    NextPage(actions, before, limit);
    var page := History(actions, before, limit).value;
    if page == [] then [] else page + Paged(actions, Some(page[|page| - 1].id), limit)
  }

  lemma ReversedSplits(actions: seq<Action>, k: nat, n: nat)
    requires k <= n <= |actions|
    ensures Reversed(actions[..n]) == Reversed(actions[k..n]) + Reversed(actions[..k])
  {
  }

  /** A page, and what is left below it. */
  lemma PageJoins(actions: seq<Action>, before: Option<int>, limit: nat)
    requires UniqueIds(actions) && limit > 0 && (before.Some? ==> HasId(actions, before.value))
    ensures History(actions, before, limit).Ok?
    ensures var page, all := History(actions, before, limit).value, Reversed(actions[..End(actions, before)]);
            if page == [] then all == []
            else
              var id := page[|page| - 1].id;
              && HasId(actions, id) && End(actions, Some(id)) < End(actions, before)
              && all == page + Reversed(actions[..End(actions, Some(id))])
  {
    NextPage(actions, before, limit);
    var page, n := History(actions, before, limit).value, End(actions, before);
    ReversedSplits(actions, n - |page|, n);
  }

  lemma {:induction false} PagedFrom(actions: seq<Action>, before: Option<int>, limit: nat)
    requires UniqueIds(actions) && limit > 0 && (before.Some? ==> HasId(actions, before.value))
    ensures Paged(actions, before, limit) == Reversed(actions[..End(actions, before)])
    decreases End(actions, before)
  {
    PageJoins(actions, before, limit);
    var page := History(actions, before, limit).value;
    if page != [] {
      PagedFrom(actions, Some(page[|page| - 1].id), limit);
    }
  }

  /** Paging by the last returned id, with any positive limit, lists every Action exactly once,
      newest first. */
  lemma PagingListsAll(actions: seq<Action>, limit: nat)
    requires UniqueIds(actions) && limit > 0
    ensures Paged(actions, None, limit) == Reversed(actions)
  {
    PagedFrom(actions, None, limit);
    assert actions[..|actions|] == actions;
  }

  /** The list at each later page goes on from the list before it. */
  ghost predicate Growing(lists: nat -> seq<Action>) {
    (forall i: nat :: UniqueIds(lists(i))) && forall i: nat :: lists(i) <= lists(i + 1)
  }

  /** An Action stands where it stood, whatever was recorded since. */
  lemma EndStays(actions: seq<Action>, more: seq<Action>, id: int)
    requires UniqueIds(actions + more) && HasId(actions, id)
    ensures HasId(actions + more, id) && End(actions + more, Some(id)) == End(actions, Some(id))
  {
    var k := IndexOf(actions, id);
    assert (actions + more)[k] == actions[k];
    assert HasId(actions + more, id);
  }

  /** A page before a known Action does not depend on what was recorded since. */
  lemma PageStays(actions: seq<Action>, more: seq<Action>, id: int, limit: nat)
    requires UniqueIds(actions + more) && HasId(actions, id)
    ensures History(actions + more, Some(id), limit) == History(actions, Some(id), limit)
  {
    EndStays(actions, more, id);
    var k := IndexOf(actions, id);
    assert (actions + more)[..k] == actions[..k];
  }

  lemma KnownLater(lists: nat -> seq<Action>, i: nat, id: int)
    requires Growing(lists) && HasId(lists(i), id)
    ensures HasId(lists(i + 1), id) && End(lists(i + 1), Some(id)) == End(lists(i), Some(id))
    ensures lists(i + 1)[..End(lists(i), Some(id))] == lists(i)[..End(lists(i), Some(id))]
  {
    var more := lists(i + 1)[|lists(i)|..];
    assert lists(i + 1) == lists(i) + more;
    EndStays(lists(i), more, id);
  }

  /** Everything that asking page after page returns while Actions go on being recorded: page `i` is
      cut from `lists(i)`. */
  ghost function PagedWhileGrowing(lists: nat -> seq<Action>, i: nat, before: Option<int>, limit: nat): seq<Action>
    requires Growing(lists) && limit > 0 && (before.Some? ==> HasId(lists(i), before.value))
    decreases End(lists(i), before)
  {
    assert UniqueIds(lists(i));
    NextPage(lists(i), before, limit);
    var page := History(lists(i), before, limit).value;
    if page == [] then []
    else
      KnownLater(lists, i, page[|page| - 1].id);
      page + PagedWhileGrowing(lists, i + 1, Some(page[|page| - 1].id), limit)
  }

  lemma {:induction false} PagedWhileGrowingFrom(lists: nat -> seq<Action>, i: nat, before: Option<int>, limit: nat)
    requires Growing(lists) && limit > 0 && (before.Some? ==> HasId(lists(i), before.value))
    ensures PagedWhileGrowing(lists, i, before, limit) == Reversed(lists(i)[..End(lists(i), before)])
    decreases End(lists(i), before)
  {
    assert UniqueIds(lists(i));
    PageJoins(lists(i), before, limit);
    var page := History(lists(i), before, limit).value;
    if page != [] {
      var id := page[|page| - 1].id;
      KnownLater(lists, i, id);
      assert PagedWhileGrowing(lists, i + 1, Some(id), limit) == Reversed(lists(i)[..End(lists(i), Some(id))]) by {
        PagedWhileGrowingFrom(lists, i + 1, Some(id), limit);
      }
    }
  }

  /** Paging lists every Action that was there at the first page exactly once, newest first, however many
      are recorded between one page and the next. */
  lemma PagingListsAllThere(lists: nat -> seq<Action>, limit: nat)
    requires Growing(lists) && limit > 0
    ensures PagedWhileGrowing(lists, 0, None, limit) == Reversed(lists(0))
  {
    PagedWhileGrowingFrom(lists, 0, None, limit);
    assert lists(0)[..|lists(0)|] == lists(0);
  }

  // ----- the store and the Workspace, in place -----

  class MemoryStore {
    var chunks: Chunks
    var actions: seq<Action>

    constructor ()
      ensures chunks == map[] && actions == []
    {
      chunks, actions := map[], [];
    }

    /** Applies the writes one after the other and records the Action. */
    method Commit(action: Action, writes: seq<Write>)
      modifies this
      ensures chunks == WrittenAll(old(chunks), writes) && actions == old(actions) + [action]
    {
      for i := 0 to |writes|
        invariant chunks == WrittenAll(old(chunks), writes[..i]) && actions == old(actions)
      {
        assert writes[..i + 1][..i] == writes[..i];
        match writes[i] {
          case Append(d, chunk) =>
            var stored := if d in chunks then chunks[d] else [];
            chunks := chunks[d := stored + [chunk]];
          case Replace(d, snapshot) =>
            chunks := chunks[d := [snapshot]];
        }
      }
      assert writes[..|writes|] == writes;
      actions := actions + [action];
    }
  }

  class Workspace {
    const store: MemoryStore
    var docs: Docs

    ghost function View(): State
      reads this, store
    {
      State(store.chunks, store.actions, docs)
    }

    constructor (store: MemoryStore)
      ensures this.store == store && docs == map[]
    {
      this.store := store;
      docs := map[];
    }

    /** A document, loaded on first use; one that was never stored is not found. */
    method Doc(d: Document) returns (r: Result<Loaded, Error>)
      modifies this
      ensures View() == Step(old(View()), Load(d))
      ensures r == if d in docs then Ok(docs[d]) else Err(NotFound)
    {
      if d !in docs {
        var chunks := if d in store.chunks then store.chunks[d] else [];
        if chunks == [] {
          return Err(NotFound);
        }
        docs := docs[d := Loaded(Replay(chunks), |chunks|, None)];
      }
      r := Ok(docs[d]);
    }

    /** Turns pending changes into chunks or snapshots and hands them over with the Action; a store that
        fails leaves only the untouched documents in memory. */
    method RecordAction(action: Action, touched: seq<Document>, created: map<Document, Change>, fails: bool)
      returns (r: Result<(), Error>)
      modifies this, store
      ensures View() == Step(old(View()), Record(action, touched, created, fails))
      ensures r.Err? <==> fails
    {
      docs := docs + map d | d in created :: Loaded([], 0, Some(created[d]));
      var writes: seq<Write> := [];
      ghost var all := docs;
      for i := 0 to |touched|
        invariant (docs, writes) == CommitAll(all, touched[..i])
        invariant store.chunks == old(store.chunks) && store.actions == old(store.actions)
      {
        CommitNext(all, touched, i);
        var d := touched[i];
        if d in docs && docs[d].pending.Some? {
          var change, chunks := docs[d].pending.value, docs[d].chunks;
          var changes := docs[d].changes + [change];
          if chunks >= COMPACT_AFTER {
            writes := writes + [Replace(d, Snapshot(changes))];
            chunks := 1;
          } else {
            writes := writes + [Append(d, Single(change))];
            chunks := chunks + 1;
          }
          docs := docs[d := Loaded(changes, chunks, None)];
        } else {
          assert writes + [] == writes;
        }
      }
      assert touched[..|touched|] == touched;
      if fails {
        docs := map d | d in docs && d !in touched :: docs[d];
        return Err(StoreFailed);
      }
      store.Commit(action, writes);
      r := Ok(());
    }
  }
}
