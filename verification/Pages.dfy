/** An area's Page tree, listed by a loop over an explicit stack. */
module Pages {
  import opened Wrappers
  import opened Sequences
  import opened Listing

  /** A Page as its area's document stores it; parents may be removed, missing or cyclic. */
  datatype Record = Record(title: string, parent: Option<Id>, sort: string, deleted: bool)

  datatype Page = Page(id: Id, parent: Option<Id>, title: string)

  type Area = map<Id, Record>

  predicate IsLive(area: Area, id: Id) {
    id in area && !area[id].deleted
  }

  function PageAt(area: Area, id: Id): Page
    requires id in area
  {
    Page(id, area[id].parent, area[id].title)
  }

  function LiveKeys(area: Area): set<Keyed> {
    set id | id in area && !area[id].deleted :: Keyed(area[id].sort, id)
  }

  function PagesAt(area: Area, order: seq<Keyed>): seq<Page>
    requires forall i | 0 <= i < |order| :: order[i].id in area
  {
    seq(|order|, i requires 0 <= i < |order| => PageAt(area, order[i].id))
  }

  /** The live Pages by sort key, then identity. */
  function Entries(area: Area): seq<Page> {
    AllListed(area);
    PagesAt(area, Listed(LiveKeys(area)))
  }

  lemma AllListed(area: Area)
    ensures forall i | 0 <= i < |Listed(LiveKeys(area))| :: Listed(LiveKeys(area))[i] in LiveKeys(area)
  {
    ListedHolds(LiveKeys(area));
    forall i | 0 <= i < |Listed(LiveKeys(area))| ensures Listed(LiveKeys(area))[i] in LiveKeys(area) {
      assert Listed(LiveKeys(area))[i] in Elements(Listed(LiveKeys(area)));
    }
  }

  predicate DistinctIds(s: seq<Page>) {
    forall i, j | 0 <= i < j < |s| :: s[i].id != s[j].id
  }

  function Ids(s: seq<Page>): set<Id> {
    set p | p in s :: p.id
  }

  lemma EntriesHold(area: Area)
    ensures DistinctIds(Entries(area))
    ensures forall p :: p in Entries(area) <==> IsLive(area, p.id) && p == PageAt(area, p.id)
  {
    var order, entries := Listed(LiveKeys(area)), Entries(area);
    ListedHolds(LiveKeys(area));
    AllListed(area);
    forall p: Page | IsLive(area, p.id) && p == PageAt(area, p.id) ensures p in entries {
      assert Keyed(area[p.id].sort, p.id) in Elements(order);
      var i :| 0 <= i < |order| && order[i] == Keyed(area[p.id].sort, p.id);
      assert entries[i] == p;
    }
    forall i, j | 0 <= i < j < |entries| ensures entries[i].id != entries[j].id {
      PrecedesTotal(order[i], order[j]);
      assert order[i] in LiveKeys(area) && order[j] in LiveKeys(area);
    }
  }

  /** The entries with one parent, in order. */
  function Children(entries: seq<Page>, parent: Option<Id>): seq<Page> {
    if entries == [] then []
    else (if entries[0].parent == parent then [entries[0]] else []) + Children(entries[1..], parent)
  }

  lemma {:induction false} ChildrenHold(entries: seq<Page>, parent: Option<Id>)
    ensures forall p :: p in Children(entries, parent) <==> p in entries && p.parent == parent
    ensures DistinctIds(entries) ==> DistinctIds(Children(entries, parent))
  {
    if entries != [] {
      ChildrenHold(entries[1..], parent);
      var rest := Children(entries[1..], parent);
      assert entries == [entries[0]] + entries[1..];
      if DistinctIds(entries) {
        forall i | 0 <= i < |rest| ensures rest[i].id != entries[0].id {
          assert rest[i] in entries[1..];
        }
      }
    }
  }

  // ----- the tree, recursively -----

  /** A Page and its descendants. `above` holds the Pages on the way down, so that even a cycle of
      parents ends; on the way down from a root it never cuts anything off. */
  function Tree(entries: seq<Page>, above: set<Id>, page: Page): seq<Page>
    decreases Ids(entries) - above, 1, 0
  {
    if page !in entries || page.id in above then []
    else
      assert page.id in Ids(entries);
      [page] + Forest(entries, above + {page.id}, Children(entries, Some(page.id)))
  }

  function Forest(entries: seq<Page>, above: set<Id>, pages: seq<Page>): seq<Page>
    decreases Ids(entries) - above, 2, |pages|
  {
    if pages == [] then [] else Tree(entries, above, pages[0]) + Forest(entries, above, pages[1..])
  }

  /** The whole tree: the trees of the roots, one after the other. */
  function Preorder(area: Area): seq<Page> {
    Forest(Entries(area), {}, Children(Entries(area), None))
  }

  /** `id` is a root `steps` parents up, each of them live. */
  predicate RootedIn(area: Area, id: Id, steps: nat)
    decreases steps
  {
    IsLive(area, id) &&
    if steps == 0 then area[id].parent.None?
    else area[id].parent.Some? && RootedIn(area, area[id].parent.value, steps - 1)
  }

  ghost predicate Rooted(area: Area, id: Id) {
    exists steps: nat :: RootedIn(area, id, steps)
  }

  /** `id` is `ancestor`, or below it, `steps` live parents down. */
  predicate Below(area: Area, id: Id, ancestor: Id, steps: nat)
    decreases steps
  {
    IsLive(area, id) &&
    if steps == 0 then id == ancestor
    else area[id].parent.Some? && Below(area, area[id].parent.value, ancestor, steps - 1)
  }

  ghost predicate Under(area: Area, id: Id, ancestor: Id) {
    exists steps: nat :: Below(area, id, ancestor, steps)
  }

  lemma {:induction false} DepthUnique(area: Area, id: Id, m: nat, n: nat)
    requires RootedIn(area, id, m) && RootedIn(area, id, n)
    ensures m == n
    decreases m
  {
    if m > 0 && n > 0 {
      DepthUnique(area, area[id].parent.value, m - 1, n - 1);
    }
  }

  /** Everything above is nearer to the root. */
  ghost predicate Higher(area: Area, above: set<Id>, depth: nat) {
    forall id | id in above :: exists steps | 0 <= steps < depth :: RootedIn(area, id, steps)
  }

  ghost predicate AtDepth(area: Area, pages: seq<Page>, depth: nat) {
    forall p | p in pages :: p in Entries(area) && RootedIn(area, p.id, depth)
  }

  lemma ChildrenAtDepth(area: Area, page: Page, depth: nat)
    requires page in Entries(area) && RootedIn(area, page.id, depth)
    ensures AtDepth(area, Children(Entries(area), Some(page.id)), depth + 1)
    ensures forall above | Higher(area, above, depth) :: Higher(area, above + {page.id}, depth + 1)
  {
    EntriesHold(area);
    ChildrenHold(Entries(area), Some(page.id));
  }

  lemma NotAbove(area: Area, above: set<Id>, page: Page, depth: nat)
    requires Higher(area, above, depth) && RootedIn(area, page.id, depth)
    ensures page.id !in above
  {
    if page.id in above {
      var steps :| 0 <= steps < depth && RootedIn(area, page.id, steps);
      DepthUnique(area, page.id, steps, depth);
    }
  }

  /** What is above does not matter to Pages further down. */
  lemma {:induction false} AboveIrrelevant(area: Area, above: set<Id>, above': set<Id>, pages: seq<Page>, depth: nat)
    requires AtDepth(area, pages, depth) && Higher(area, above, depth) && Higher(area, above', depth)
    ensures Forest(Entries(area), above, pages) == Forest(Entries(area), above', pages)
    decreases Ids(Entries(area)) - above, |pages|
  {
    var entries := Entries(area);
    if pages != [] {
      var p := pages[0];
      assert p in pages && p.id in Ids(entries);
      NotAbove(area, above, p, depth);
      NotAbove(area, above', p, depth);
      ChildrenAtDepth(area, p, depth);
      AboveIrrelevant(area, above + {p.id}, above' + {p.id}, Children(entries, Some(p.id)), depth + 1);
      assert forall q | q in pages[1..] :: q in pages;
      AboveIrrelevant(area, above, above', pages[1..], depth);
    }
  }

  /** A rooted Page's tree is the Page followed by its children's trees. */
  lemma TreeOpens(area: Area, page: Page, depth: nat)
    requires page in Entries(area) && RootedIn(area, page.id, depth)
    ensures Tree(Entries(area), {}, page) ==
            [page] + Forest(Entries(area), {}, Children(Entries(area), Some(page.id)))
  {
    ChildrenAtDepth(area, page, depth);
    assert Higher(area, {}, depth);
    assert {} + {page.id} == {page.id};
    AboveIrrelevant(area, {page.id}, {}, Children(Entries(area), Some(page.id)), depth + 1);
  }

  lemma {:induction false} ForestConcat(entries: seq<Page>, above: set<Id>, s: seq<Page>, t: seq<Page>)
    ensures Forest(entries, above, s + t) == Forest(entries, above, s) + Forest(entries, above, t)
  {
    if s == [] {
      assert s + t == t;
    } else {
      assert (s + t)[1..] == s[1..] + t;
      ForestConcat(entries, above, s[1..], t);
    }
  }

  // ----- what the tree holds -----

  lemma {:induction false} BelowStep(area: Area, id: Id, ancestor: Id, steps: nat)
    requires IsLive(area, ancestor) && area[ancestor].parent.Some? && IsLive(area, area[ancestor].parent.value)
    requires Below(area, id, ancestor, steps)
    ensures Below(area, id, area[ancestor].parent.value, steps + 1)
    decreases steps
  {
    if steps > 0 {
      BelowStep(area, area[id].parent.value, ancestor, steps - 1);
    }
  }

  /** The child of `ancestor` on the way down to `id`. */
  lemma {:induction false} BelowThroughChild(area: Area, id: Id, ancestor: Id, steps: nat) returns (child: Id)
    requires steps > 0 && Below(area, id, ancestor, steps)
    ensures IsLive(area, child) && area[child].parent == Some(ancestor) && Below(area, id, child, steps - 1)
    decreases steps
  {
    if steps == 1 {
      child := id;
    } else {
      child := BelowThroughChild(area, area[id].parent.value, ancestor, steps - 1);
    }
  }

  /** A tree holds nothing but its Page and what is below it. */
  lemma {:induction false} TreeHoldsBelow(area: Area, above: set<Id>, pages: seq<Page>, q: Page)
    requires q in Forest(Entries(area), above, pages) && forall p | p in pages :: p in Entries(area)
    ensures q in Entries(area) && exists p, steps: nat :: p in pages && Below(area, q.id, p.id, steps)
    decreases Ids(Entries(area)) - above, |pages|
  {
    var entries := Entries(area);
    var p := pages[0];
    assert p in pages;
    EntriesHold(area);
    if q in Forest(entries, above, pages[1..]) {
      TreeHoldsBelow(area, above, pages[1..], q);
      var p', steps: nat :| p' in pages[1..] && Below(area, q.id, p'.id, steps);
      assert p' in pages;
    } else if q == p {
      assert Below(area, q.id, p.id, 0);
    } else {
      ChildrenHold(entries, Some(p.id));
      assert p.id in Ids(entries);
      TreeHoldsBelow(area, above + {p.id}, Children(entries, Some(p.id)), q);
      var c, steps: nat :| c in Children(entries, Some(p.id)) && Below(area, q.id, c.id, steps);
      BelowStep(area, q.id, c.id, steps);
      assert Below(area, q.id, p.id, steps + 1);
    }
  }

  lemma {:induction false} InForest(entries: seq<Page>, above: set<Id>, pages: seq<Page>, p: Page, q: Page)
    requires p in pages && q in Tree(entries, above, p)
    ensures q in Forest(entries, above, pages)
  {
    if p != pages[0] || q !in Tree(entries, above, pages[0]) {
      InForest(entries, above, pages[1..], p, q);
    }
  }

  /** A rooted Page's tree holds everything below it. */
  lemma {:induction false} BelowInTree(area: Area, p: Page, q: Page, depth: nat, steps: nat)
    requires p in Entries(area) && q in Entries(area) && RootedIn(area, p.id, depth) && Below(area, q.id, p.id, steps)
    ensures q in Tree(Entries(area), {}, p)
    decreases steps
  {
    var entries := Entries(area);
    EntriesHold(area);
    TreeOpens(area, p, depth);
    if steps > 0 {
      var id := BelowThroughChild(area, q.id, p.id, steps);
      var c := PageAt(area, id);
      assert RootedIn(area, c.id, depth + 1);
      BelowInTree(area, c, q, depth + 1, steps - 1);
      ChildrenHold(entries, Some(p.id));
      InForest(entries, {}, Children(entries, Some(p.id)), c, q);
    }
  }

  /** A rooted Page's tree is exactly the Page and what is below it. */
  lemma TreeIsBelow(area: Area, p: Page, depth: nat)
    requires p in Entries(area) && RootedIn(area, p.id, depth)
    ensures forall q :: q in Tree(Entries(area), {}, p) <==>
                        q in Entries(area) && Under(area, q.id, p.id)
  {
    forall q ensures q in Tree(Entries(area), {}, p) <==> q in Entries(area) && Under(area, q.id, p.id) {
      TreeMember(area, p, q, depth);
    }
  }

  lemma TreeMember(area: Area, p: Page, q: Page, depth: nat)
    requires p in Entries(area) && RootedIn(area, p.id, depth)
    ensures q in Tree(Entries(area), {}, p) <==> q in Entries(area) && Under(area, q.id, p.id)
  {
    if q in Tree(Entries(area), {}, p) {
      assert Forest(Entries(area), {}, [p]) == Tree(Entries(area), {}, p) + Forest(Entries(area), {}, [p][1..]);
      TreeHoldsBelow(area, {}, [p], q);
      var p', steps: nat :| p' in [p] && Below(area, q.id, p'.id, steps);
      assert Below(area, q.id, p.id, steps);
    }
    if q in Entries(area) && Under(area, q.id, p.id) {
      var steps: nat :| Below(area, q.id, p.id, steps);
      BelowInTree(area, p, q, depth, steps);
    }
  }

  lemma {:induction false} RootedBelowRoot(area: Area, id: Id, steps: nat) returns (root: Id)
    requires RootedIn(area, id, steps)
    ensures IsLive(area, root) && area[root].parent.None? && Below(area, id, root, steps)
    decreases steps
  {
    if steps == 0 {
      root := id;
    } else {
      root := RootedBelowRoot(area, area[id].parent.value, steps - 1);
    }
  }

  lemma {:induction false} BelowRootRooted(area: Area, id: Id, root: Id, steps: nat)
    requires Below(area, id, root, steps) && IsLive(area, root) && area[root].parent.None?
    ensures RootedIn(area, id, steps)
    decreases steps
  {
    if steps > 0 {
      BelowRootRooted(area, area[id].parent.value, root, steps - 1);
    }
  }

  /** A live Page is listed if and only if its live parents lead to a root: Pages under removed or
      missing Pages and cycles of Pages are hidden. */
  lemma ListedIffRooted(area: Area, q: Page)
    ensures q in Preorder(area) <==> q in Entries(area) && Rooted(area, q.id)
    ensures q in Entries(area) <==>
            q.id in area && !area[q.id].deleted && q.parent == area[q.id].parent && q.title == area[q.id].title
  {
    var entries := Entries(area);
    var roots := Children(entries, None);
    EntriesHold(area);
    ChildrenHold(entries, None);
    if q in Preorder(area) {
      TreeHoldsBelow(area, {}, roots, q);
      var p, steps: nat :| p in roots && Below(area, q.id, p.id, steps);
      BelowRootRooted(area, q.id, p.id, steps);
    }
    if q in entries && Rooted(area, q.id) {
      var steps: nat :| RootedIn(area, q.id, steps);
      var root := RootedBelowRoot(area, q.id, steps);
      var p := PageAt(area, root);
      assert RootedIn(area, p.id, 0);
      BelowInTree(area, p, q, 0, steps);
      InForest(entries, {}, roots, p, q);
    }
  }

  lemma SamePage(area: Area, p: Page, q: Page)
    requires p in Entries(area) && q in Entries(area) && p.id == q.id
    ensures p == q
  {
    EntriesHold(area);
  }

  lemma ChildListed(area: Area, id: Id, parent: Id)
    requires IsLive(area, id) && area[id].parent == Some(parent)
    ensures PageAt(area, id) in Children(Entries(area), Some(parent))
  {
    EntriesHold(area);
    ChildrenHold(Entries(area), Some(parent));
  }

  /** Each of a forest's trees stands in it as one block. */
  lemma {:induction false} TreeInForest(entries: seq<Page>, pages: seq<Page>, p: Page)
    returns (before: seq<Page>, after: seq<Page>)
    requires p in pages
    ensures Forest(entries, {}, pages) == before + Tree(entries, {}, p) + after
  {
    if p == pages[0] {
      before, after := [], Forest(entries, {}, pages[1..]);
    } else {
      var b, c := TreeInForest(entries, pages[1..], p);
      before, after := Tree(entries, {}, pages[0]) + b, c;
    }
  }

  lemma Nested(b': seq<Page>, b: seq<Page>, x: seq<Page>, c: seq<Page>, c': seq<Page>)
    ensures b' + (b + x + c) + c' == (b' + b) + x + (c + c')
  {
  }

  /** So does the tree of each Page below one. */
  lemma {:induction false} TreeInTree(area: Area, a: Page, p: Page, depth: nat, steps: nat)
    returns (before: seq<Page>, after: seq<Page>)
    requires a in Entries(area) && p in Entries(area) && RootedIn(area, a.id, depth) && Below(area, p.id, a.id, steps)
    ensures Tree(Entries(area), {}, a) == before + Tree(Entries(area), {}, p) + after
    decreases steps
  {
    if steps == 0 {
      SamePage(area, a, p);
      before, after := [], [];
    } else {
      var id := BelowThroughChild(area, p.id, a.id, steps);
      ChildListed(area, id, a.id);
      ChildrenAtDepth(area, a, depth);
      var child, children := PageAt(area, id), Children(Entries(area), Some(a.id));
      var b, c := TreeInTree(area, child, p, depth + 1, steps - 1);
      var b', c' := TreeInForest(Entries(area), children, child);
      TreeOpens(area, a, depth);
      before, after := [a] + (b' + b), c + c';
      Nested(b', b, Tree(Entries(area), {}, p), c, c');
      Fronted([a], b' + b, Tree(Entries(area), {}, p), c + c');
    }
  }

  lemma Fronted(a: seq<Page>, b: seq<Page>, t: seq<Page>, c: seq<Page>)
    ensures a + (b + t + c) == (a + b) + t + c
  {
  }

  lemma TreeListed(area: Area, p: Page) returns (before: seq<Page>, after: seq<Page>)
    requires p in Preorder(area)
    ensures Preorder(area) == before + Tree(Entries(area), {}, p) + after
  {
    var roots := Children(Entries(area), None);
    ListedIffRooted(area, p);
    var depth: nat :| RootedIn(area, p.id, depth);
    var root := RootedBelowRoot(area, p.id, depth);
    RootListed(area, root);
    var b, c := TreeInTree(area, PageAt(area, root), p, 0, depth);
    var b', c' := TreeInForest(Entries(area), roots, PageAt(area, root));
    before, after := b' + b, c + c';
    Nested(b', b, Tree(Entries(area), {}, p), c, c');
  }

  /** A listed Page is followed at once by everything below it, and by that alone. */
  lemma DescendantsFollow(area: Area, p: Page) returns (before: seq<Page>, tree: seq<Page>, after: seq<Page>)
    requires p in Preorder(area)
    ensures Preorder(area) == before + ([p] + tree) + after
    ensures forall q :: q in [p] + tree <==> q in Entries(area) && Under(area, q.id, p.id)
  {
    ListedIffRooted(area, p);
    var depth: nat :| RootedIn(area, p.id, depth);
    before, after := TreeListed(area, p);
    TreeOpens(area, p, depth);
    TreeIsBelow(area, p, depth);
    tree := Tree(Entries(area), {}, p)[1..];
    assert [p] + tree == Tree(Entries(area), {}, p);
  }

  lemma RootListed(area: Area, root: Id)
    requires IsLive(area, root) && area[root].parent.None?
    ensures PageAt(area, root) in Entries(area) && PageAt(area, root) in Children(Entries(area), None)
    ensures RootedIn(area, root, 0)
  {
    EntriesHold(area);
    ChildrenHold(Entries(area), None);
  }

  // ----- siblings -----

  /** By sort key, then identity. */
  predicate PagePrecedes(area: Area, p: Page, q: Page) {
    p.id in area && q.id in area && Precedes(Keyed(area[p.id].sort, p.id), Keyed(area[q.id].sort, q.id))
  }

  ghost predicate PagesAscend(area: Area, s: seq<Page>) {
    forall i, j | 0 <= i < j < |s| :: PagePrecedes(area, s[i], s[j])
  }

  lemma EntriesAscend(area: Area)
    ensures PagesAscend(area, Entries(area))
  {
    var order := Listed(LiveKeys(area));
    ListedHolds(LiveKeys(area));
    AllListed(area);
    forall i, j | 0 <= i < j < |order| ensures PagePrecedes(area, Entries(area)[i], Entries(area)[j]) {
      assert Precedes(order[i], order[j]) && order[i] in LiveKeys(area) && order[j] in LiveKeys(area);
    }
  }

  lemma {:induction false} ChildrenAscend(area: Area, entries: seq<Page>, parent: Option<Id>)
    requires PagesAscend(area, entries)
    ensures PagesAscend(area, Children(entries, parent))
  {
    if entries != [] {
      var rest := Children(entries[1..], parent);
      ChildrenAscend(area, entries[1..], parent);
      ChildrenHold(entries[1..], parent);
      forall j | 0 <= j < |rest| ensures PagePrecedes(area, entries[0], rest[j]) {
        assert rest[j] in entries[1..];
      }
    }
  }

  /** One Page stands somewhere before another. */
  ghost predicate StandsBefore(s: seq<Page>, p: Page, q: Page) {
    exists i, j :: 0 <= i < j < |s| && s[i] == p && s[j] == q
  }

  lemma BeforeInBoth(s: seq<Page>, t: seq<Page>, p: Page, q: Page)
    requires p in s && q in t
    ensures StandsBefore(s + t, p, q)
  {
    var i :| 0 <= i < |s| && s[i] == p;
    var j :| 0 <= j < |t| && t[j] == q;
    assert (s + t)[i] == p && (s + t)[|s| + j] == q;
  }

  lemma BeforeInside(b: seq<Page>, s: seq<Page>, c: seq<Page>, p: Page, q: Page)
    requires StandsBefore(s, p, q)
    ensures StandsBefore(b + s + c, p, q)
  {
    var i, j :| 0 <= i < j < |s| && s[i] == p && s[j] == q;
    assert (b + s + c)[|b| + i] == p && (b + s + c)[|b| + j] == q;
  }

  lemma PageInForest(entries: seq<Page>, pages: seq<Page>, p: Page)
    requires p in pages && p in entries
    ensures p in Forest(entries, {}, pages)
  {
    InForest(entries, {}, pages, p, p);
  }

  /** A forest lists its Pages in their order. */
  lemma ForestInOrder(entries: seq<Page>, pages: seq<Page>, i: nat, j: nat)
    requires i < j < |pages| && pages[i] in entries && pages[j] in entries
    ensures StandsBefore(Forest(entries, {}, pages), pages[i], pages[j])
  {
    assert pages == pages[..j] + pages[j..] && pages[..j][i] == pages[i] && pages[j..][0] == pages[j];
    ForestConcat(entries, {}, pages[..j], pages[j..]);
    PageInForest(entries, pages[..j], pages[i]);
    PageInForest(entries, pages[j..], pages[j]);
    BeforeInBoth(Forest(entries, {}, pages[..j]), Forest(entries, {}, pages[j..]), pages[i], pages[j]);
  }

  lemma SiblingsInForest(area: Area, p: Page, q: Page)
    requires p in Entries(area) && q in Entries(area) && p.parent == q.parent && PagePrecedes(area, p, q)
    ensures StandsBefore(Forest(Entries(area), {}, Children(Entries(area), p.parent)), p, q)
  {
    var entries, pages := Entries(area), Children(Entries(area), p.parent);
    ChildrenHold(entries, p.parent);
    EntriesAscend(area);
    ChildrenAscend(area, entries, p.parent);
    var i :| 0 <= i < |pages| && pages[i] == p;
    var j :| 0 <= j < |pages| && pages[j] == q;
    PrecedesTotal(Keyed(area[p.id].sort, p.id), Keyed(area[q.id].sort, q.id));
    assert j < i ==> PagePrecedes(area, q, p);
    ForestInOrder(entries, pages, i, j);
  }

  lemma ParentListed(area: Area, p: Page)
    requires p in Preorder(area) && p.parent.Some?
    ensures IsLive(area, p.parent.value) && PageAt(area, p.parent.value) in Preorder(area)
  {
    ListedIffRooted(area, p);
    var depth: nat :| RootedIn(area, p.id, depth);
    var parent := p.parent.value;
    assert RootedIn(area, parent, depth - 1);
    EntriesHold(area);
    ListedIffRooted(area, PageAt(area, parent));
  }

  /** Listed Pages of one parent stand in the order of their sort keys, then identities. */
  lemma SiblingsInOrder(area: Area, p: Page, q: Page)
    requires p in Preorder(area) && q in Preorder(area) && p.parent == q.parent && PagePrecedes(area, p, q)
    ensures StandsBefore(Preorder(area), p, q)
  {
    ListedIffRooted(area, p);
    ListedIffRooted(area, q);
    SiblingsInForest(area, p, q);
    if p.parent.Some? {
      ParentListed(area, p);
      var parent := PageAt(area, p.parent.value);
      var children := Forest(Entries(area), {}, Children(Entries(area), p.parent));
      ListedIffRooted(area, parent);
      var depth: nat :| RootedIn(area, parent.id, depth);
      var before, after := TreeListed(area, parent);
      TreeOpens(area, parent, depth);
      BeforeInside([parent], children, [], p, q);
      assert [parent] + children + [] == Tree(Entries(area), {}, parent);
      BeforeInside(before, Tree(Entries(area), {}, parent), after, p, q);
    }
  }

  // ----- the loop -----

  /** What is still to be listed: the trees of the stack, from its top. */
  function Pending(entries: seq<Page>, stack: seq<Page>): seq<Page> {
    Forest(entries, {}, Reversed(stack))
  }

  lemma PendingPop(entries: seq<Page>, stack: seq<Page>)
    requires stack != []
    ensures var top := |stack| - 1;
            Pending(entries, stack) == Tree(entries, {}, stack[top]) + Pending(entries, stack[..top])
  {
    var top := |stack| - 1;
    assert Reversed(stack)[1..] == Reversed(stack[..top]);
  }

  lemma PendingPush(entries: seq<Page>, stack: seq<Page>, nested: seq<Page>)
    ensures Pending(entries, stack + Reversed(nested)) == Forest(entries, {}, nested) + Pending(entries, stack)
  {
    assert Reversed(stack + Reversed(nested)) == nested + Reversed(stack);
    ForestConcat(entries, {}, nested, Reversed(stack));
  }

  /** The stack and what was listed: distinct rooted Pages whose parents were listed before. */
  ghost predicate Progress(area: Area, tree: seq<Page>, stack: seq<Page>) {
    && DistinctIds(tree + stack)
    && (forall p | p in tree + stack :: p in Entries(area) && Rooted(area, p.id))
    && (forall p | p in tree + stack :: p.parent.None? || p.parent.value in Ids(tree))
  }

  /** The children not yet taken: those of Pages not yet listed. */
  ghost predicate Untaken(area: Area, children: map<Option<Id>, seq<Page>>, tree: seq<Page>) {
    forall id :: id !in Ids(tree) ==>
      Children(Entries(area), Some(id)) == if Some(id) in children then children[Some(id)] else []
  }

  lemma ProgressStep(area: Area, tree: seq<Page>, stack: seq<Page>)
    requires Progress(area, tree, stack) && stack != []
    ensures var p := stack[|stack| - 1];
            p in Entries(area) && Rooted(area, p.id) && p.id !in Ids(tree) &&
            Progress(area, tree + [p], stack[..|stack| - 1] + Reversed(Children(Entries(area), Some(p.id))))
  {
    var top := |stack| - 1;
    var p, rest, nested := stack[top], stack[..top], Children(Entries(area), Some(stack[top].id));
    var was := tree + stack;
    assert stack == rest + [p] && was[|tree| + top] == p;
    EntriesHold(area);
    ChildrenHold(Entries(area), Some(p.id));
    forall q | q in tree ensures q.id != p.id {
      var i :| 0 <= i < |tree| && tree[i] == q;
      assert was[i] == q;
    }
    NestedRooted(area, p, nested);
    forall q | q in nested ensures q !in was {
      assert q.parent == Some(p.id);
    }
    NewNames(area, was, nested);
    ProgressDistinct(tree, rest, p, nested);
    assert Ids(tree + [p]) == Ids(tree) + {p.id};
    forall q | q in (tree + [p]) + (rest + Reversed(nested))
      ensures q in Entries(area) && Rooted(area, q.id) && (q.parent.None? || q.parent.value in Ids(tree + [p]))
    {
      if q in Reversed(nested) {
        assert q in nested;
      } else {
        assert q in was;
      }
    }
  }

  lemma NestedRooted(area: Area, p: Page, nested: seq<Page>)
    requires p in Entries(area) && Rooted(area, p.id) && nested == Children(Entries(area), Some(p.id))
    ensures forall q | q in nested :: Rooted(area, q.id)
  {
    EntriesHold(area);
    ChildrenHold(Entries(area), Some(p.id));
    var depth: nat :| RootedIn(area, p.id, depth);
    forall q | q in nested ensures Rooted(area, q.id) {
      assert RootedIn(area, q.id, depth + 1);
    }
  }

  lemma NewNames(area: Area, was: seq<Page>, nested: seq<Page>)
    requires forall p | p in was || p in nested :: p in Entries(area)
    requires forall q | q in nested :: q !in was
    ensures forall p, q | p in was && q in nested :: p.id != q.id
  {
    EntriesHold(area);
  }

  lemma ProgressDistinct(tree: seq<Page>, rest: seq<Page>, p: Page, nested: seq<Page>)
    requires DistinctIds(tree + (rest + [p])) && DistinctIds(nested)
    requires forall q, q' | q in tree + (rest + [p]) && q' in nested :: q.id != q'.id
    ensures DistinctIds((tree + [p]) + (rest + Reversed(nested)))
  {
    var was, now := tree + (rest + [p]), (tree + [p]) + (rest + Reversed(nested));
    var t, n := |tree|, |tree| + 1 + |rest|;
    forall i, j | 0 <= i < j < |now| ensures now[i].id != now[j].id {
      var a := if i < t then i else if i == t then |was| - 1 else i - 1;
      var b := if j < t then j else if j == t then |was| - 1 else j - 1;
      if j < n {
        assert now[i] == was[a] && now[j] == was[b];
      } else if i < n {
        assert now[i] == was[a] && now[j] in nested;
      } else {
        assert now[i] == nested[|nested| - 1 - (i - n)] && now[j] == nested[|nested| - 1 - (j - n)];
      }
    }
  }

  ghost predicate Gathered(entries: seq<Page>, children: map<Option<Id>, seq<Page>>) {
    forall key :: Children(entries, key) == if key in children then children[key] else []
  }

  lemma GatherOne(entries: seq<Page>, entry: Page, children: map<Option<Id>, seq<Page>>)
    requires Gathered(entries, children)
    ensures var siblings := if entry.parent in children then children[entry.parent] else [];
            Gathered(entries + [entry], children[entry.parent := siblings + [entry]])
  {
    var siblings := if entry.parent in children then children[entry.parent] else [];
    var more := children[entry.parent := siblings + [entry]];
    forall key ensures Children(entries + [entry], key) == if key in more then more[key] else [] {
      ChildrenAppend(entries, entry, key);
    }
  }

  /** The children of each parent, gathered in one pass over the entries. */
  method Gather(entries: seq<Page>) returns (children: map<Option<Id>, seq<Page>>)
    ensures Gathered(entries, children)
  {
    children := map[];
    for i := 0 to |entries|
      invariant Gathered(entries[..i], children)
    {
      var entry := entries[i];
      var siblings := if entry.parent in children then children[entry.parent] else [];
      GatherOne(entries[..i], entry, children);
      assert entries[..i + 1] == entries[..i] + [entry];
      children := children[entry.parent := siblings + [entry]];
    }
    assert entries[..|entries|] == entries;
  }

  lemma {:induction false} ChildrenAppend(entries: seq<Page>, entry: Page, key: Option<Id>)
    ensures Children(entries + [entry], key) == Children(entries, key) + if entry.parent == key then [entry] else []
  {
    if entries == [] {
      assert entries + [entry] == [entry] && [entry][1..] == [];
    } else {
      var all := entries + [entry];
      assert all[1..] == entries[1..] + [entry] && all[0] == entries[0];
      ChildrenAppend(entries[1..], entry, key);
      assert Children(all, key) == (if entries[0].parent == key then [entries[0]] else []) + Children(all[1..], key);
    }
  }

  /** The loop lists the tree, each Page once, whatever the parents are. */
  method ListPages(area: Area) returns (tree: seq<Page>)
    ensures tree == Preorder(area)
    ensures DistinctIds(tree)
  {
    var entries := Entries(area);
    var children := Gather(entries);
    tree := [];
    var roots := if None in children then children[None] else [];
    children := children - {None};
    var pending := Reversed(roots);
    Started(area, roots);
    while pending != []
      invariant Progress(area, tree, pending) && Untaken(area, children, tree)
      invariant tree + Pending(entries, pending) == Preorder(area)
      decreases Ids(entries) - Ids(tree)
    {
      var entry := pending[|pending| - 1];
      ghost var nested := Children(entries, Some(entry.id));
      ProgressStep(area, tree, pending);
      ListsOneMore(area, tree, pending);
      TakesChildren(area, children, tree, entry);
      pending := pending[..|pending| - 1];
      if Some(entry.id) in children {
        pending := pending + Reversed(children[Some(entry.id)]);
        children := children - {Some(entry.id)};
      } else {
        assert pending + Reversed([]) == pending;
      }
      tree := tree + [entry];
    }
    assert tree + Pending(entries, []) == tree;
  }

  lemma ListsOneMore(area: Area, tree: seq<Page>, stack: seq<Page>)
    requires stack != [] && stack[|stack| - 1] in Entries(area) && Rooted(area, stack[|stack| - 1].id)
    ensures var p := stack[|stack| - 1];
            var nested := Children(Entries(area), Some(p.id));
            tree + Pending(Entries(area), stack) ==
            tree + [p] + Pending(Entries(area), stack[..|stack| - 1] + Reversed(nested))
  {
    var p := stack[|stack| - 1];
    var nested, rest := Children(Entries(area), Some(p.id)), stack[..|stack| - 1];
    var f, g := Forest(Entries(area), {}, nested), Pending(Entries(area), rest);
    PendingPop(Entries(area), stack);
    Opens(area, p);
    PendingPush(Entries(area), rest, nested);
    assert tree + (([p] + f) + g) == tree + [p] + (f + g);
  }

  lemma OneMoreId(tree: seq<Page>, p: Page)
    ensures Ids(tree + [p]) == Ids(tree) + {p.id}
  {
  }

  lemma UntakenStays(area: Area, children: map<Option<Id>, seq<Page>>, tree: seq<Page>, p: Page)
    requires Untaken(area, children, tree)
    ensures Untaken(area, children, tree + [p]) && Untaken(area, children - {Some(p.id)}, tree + [p])
  {
    OneMoreId(tree, p);
    var rest := children - {Some(p.id)};
    forall id | id !in Ids(tree + [p])
      ensures Children(Entries(area), Some(id)) == if Some(id) in children then children[Some(id)] else []
      ensures Some(id) in rest <==> Some(id) in children
    {
    }
  }

  lemma TakesChildren(area: Area, children: map<Option<Id>, seq<Page>>, tree: seq<Page>, p: Page)
    requires Untaken(area, children, tree) && p.id !in Ids(tree) && p in Entries(area)
    ensures Children(Entries(area), Some(p.id)) == if Some(p.id) in children then children[Some(p.id)] else []
    ensures Untaken(area, children - {Some(p.id)}, tree + [p]) && Untaken(area, children, tree + [p])
    ensures Ids(Entries(area)) - Ids(tree + [p]) < Ids(Entries(area)) - Ids(tree)
  {
    UntakenStays(area, children, tree, p);
    OneMoreId(tree, p);
    assert p.id in Ids(Entries(area));
  }

  lemma Opens(area: Area, p: Page)
    requires p in Entries(area) && Rooted(area, p.id)
    ensures Tree(Entries(area), {}, p) == [p] + Forest(Entries(area), {}, Children(Entries(area), Some(p.id)))
  {
    var depth: nat :| RootedIn(area, p.id, depth);
    TreeOpens(area, p, depth);
  }

  lemma Started(area: Area, roots: seq<Page>)
    requires roots == Children(Entries(area), None)
    ensures Progress(area, [], Reversed(roots))
    ensures [] + Pending(Entries(area), Reversed(roots)) == Preorder(area)
  {
    EntriesHold(area);
    ChildrenHold(Entries(area), None);
    assert Reversed(Reversed(roots)) == roots;
    forall p | p in [] + Reversed(roots) ensures p in Entries(area) && Rooted(area, p.id) && p.parent.None? {
      assert p in roots;
      assert RootedIn(area, p.id, 0);
    }
    assert [] + Reversed(roots) == Reversed(roots);
  }
}
