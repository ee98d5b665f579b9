/**
 * One mutation at a time: what a splice, a removal or a push of the arena means for the document.
 * These lemmas speak about the values of the arena's fields before (`nodes`, ...) and after (`nodes'`, ...).
 */
module DomSteps {
  import opened Options
  import opened RoseTree
  import opened DomForest
  import opened DomSpec
  import opened DomArena
  import opened Sequences

  /** Everything an operation knows once it has popped its stack arguments. */
  ghost predicate Split(nodes: Slots, free: seq<nat>, elementMap: seq<Option<nat>>, stack: seq<nat>,
                        base: seq<Tree>, popped: seq<Tree>, own: seq<bool>) {
    && StackOk(base, stack, own) && base[0].id == ROOT && base[0].eid == Some(0)
    && Holds(nodes, base, None) && Holds(nodes, popped, None)
    && SlotsOk(nodes, free, base + popped) && MapOk(nodes, elementMap)
  }

  /** The state after the top `m` stack entries of document `d` were popped. */
  ghost predicate Drawn(nodes: Slots, free: seq<nat>, elementMap: seq<Option<nat>>, stack: seq<nat>,
                        base: seq<Tree>, popped: seq<Tree>, own: seq<bool>, d: Doc, m: nat) {
    && Split(nodes, free, elementMap, stack, base, popped, own) && Poppable(d, m)
    && Erase(base) == Base(d, m) && Erase(popped) == Popped(d, m) && own == OwnBelow(d, m)
  }

  /** The trees `left` are cut off but not yet freed; otherwise all is well. */
  ghost predicate Pending(nodes: Slots, free: seq<nat>, elementMap: seq<Option<nat>>, stack: seq<nat>,
                          left: seq<Tree>, forest: seq<Tree>, own: seq<bool>) {
    && StackOk(forest, stack, own) && forest[0].id == ROOT && forest[0].eid == Some(0)
    && Holds(nodes, forest, None)
    && SlotsOk(nodes, free, left + forest) && MapOk(nodes, elementMap) && NoRepeats(left)
  }

  lemma NothingPending(nodes: Slots, free: seq<nat>, elementMap: seq<Option<nat>>, stack: seq<nat>, forest: seq<Tree>,
                       own: seq<bool>)
    requires Pending(nodes, free, elementMap, stack, [], forest, own)
    ensures Wf(nodes, free, elementMap, stack, forest, own)
  {
    assert [] + forest == forest;
  }

  /** The forest splits where the stack does. */
  lemma PopFacts(nodes: Slots, free: seq<nat>, elementMap: seq<Option<nat>>, stack: seq<nat>, forest: seq<Tree>,
                 own: seq<bool>, m: nat)
    returns (base: seq<Tree>, popped: seq<Tree>)
    requires Wf(nodes, free, elementMap, stack, forest, own) && Poppable(Doc(Erase(forest), own), m)
    ensures m <= |stack| == |own| && stack[|stack| - m..] == Roots(popped)
    ensures Drawn(nodes, free, elementMap, stack[..|stack| - m], base, popped, own[..|own| - m],
                  Doc(Erase(forest), own), m)
  {
    var k := |forest| - m;
    base, popped := forest[..k], forest[k..];
    assert forest == base + popped;
    PopSplits(forest, stack, own, m);
    HoldsConcat(nodes, base, popped, None);
    EraseConcat(base, popped);
  }

  lemma EditHead(ts: seq<Tree>, x: nat, rep: seq<Tree>)
    requires ts != [] && (ts[0].id == x ==> rep != [] && rep[0].eid == ts[0].eid)
    ensures Edit(ts, x, rep) != [] && Edit(ts, x, rep)[0].eid == ts[0].eid
  {
  }

  /** The popped trees became children of `p`, the first of them its child `at`. */
  lemma PutStep(nodes: Slots, free: seq<nat>, elementMap: seq<Option<nat>>, stack: seq<nat>, base: seq<Tree>,
                popped: seq<Tree>,
                own: seq<bool>, nodes': Slots, p: nat, at: nat)
    returns (forest': seq<Tree>)
    requires Split(nodes, free, elementMap, stack, base, popped, own) && Count(base, p) == 1
    requires Live(nodes, p) && at <= |nodes[p].value.children|
    requires SplicedTo(nodes, nodes', p, PutAt(nodes[p].value.children, at, Roots(popped)), Roots(popped))
    ensures Wf(nodes', free, elementMap, stack, forest', own)
    ensures var f := Find(base, p); at <= |f.kids| && forest' == Edit(base, p, [f.(kids := PutAt(f.kids, at, popped))])
  {
    Separate(nodes, free, base, popped);
    PutHolds(nodes, nodes', base, popped, p, at);
    PutSlots(nodes, nodes', free, base, popped, p, at);
    var f := Find(base, p);
    var rep := [f.(kids := PutAt(f.kids, at, popped))];
    forest' := Edit(base, p, rep);
    FindHolds(nodes, base, None, p);
    HoldsAt(nodes, base, None, 0);
    EditHead(base, p, rep);
    assert Roots(forest')[0] == base[0].id;
    MapOkSameIds(nodes, nodes', elementMap);
  }

  /** The popped trees became the last children of `p`. */
  lemma AppendStep(nodes: Slots, free: seq<nat>, elementMap: seq<Option<nat>>, stack: seq<nat>, base: seq<Tree>,
                   popped: seq<Tree>,
                   own: seq<bool>, nodes': Slots, p: nat, e: nat)
    returns (forest': seq<Tree>)
    requires Split(nodes, free, elementMap, stack, base, popped, own)
    requires HasEid(Erase(base), e) && Lookup(elementMap, e) == Some(p) && Live(nodes, p)
    requires SplicedTo(nodes, nodes', p, nodes[p].value.children + Roots(popped), Roots(popped))
    ensures Wf(nodes', free, elementMap, stack, forest', own)
    ensures var t := EFind(Erase(base), e);
            Erase(forest') == EEdit(Erase(base), e, [t.(kids := t.kids + Erase(popped))])
  {
    Separate(nodes, free, base, popped);
    LookupNames(nodes, elementMap, base, e);
    var cs, f := nodes[p].value.children, Find(base, p);
    AppendAt(cs, Roots(popped));
    FindHolds(nodes, base, None, p);
    AppendAt(f.kids, popped);
    forest' := PutStep(nodes, free, elementMap, stack, base, popped, own, nodes', p, |cs|);
    AppendErased(nodes, base, popped, f, p, e);
  }

  lemma AppendErased(nodes: Slots, base: seq<Tree>, popped: seq<Tree>, f: Tree, p: nat, e: nat)
    requires Holds(nodes, base, None) && Names(nodes, base, p, e) && Count(base, p) > 0 && f == Find(base, p)
    ensures HasEid(Erase(base), e)
    ensures var t := EFind(Erase(base), e);
            Erase(Edit(base, p, [f.(kids := f.kids + popped)])) ==
                EEdit(Erase(base), e, [t.(kids := t.kids + Erase(popped))])
  {
    var rep := [f.(kids := f.kids + popped)];
    EraseEdit(nodes, base, None, p, e, rep);
    EraseKids([f], 0);
    EraseKids(rep, 0);
    EraseConcat(f.kids, popped);
    assert Erase([f])[0] == EFind(Erase(base), e);
    assert Erase(rep) == [Erase([f])[0].(kids := Erase(f.kids) + Erase(popped))];
  }

  /** `rep` took the place of the child `x` of `p`; a subtree that is left over is still to be freed. */
  lemma InsertStep(nodes: Slots, free: seq<nat>, elementMap: seq<Option<nat>>, stack: seq<nat>, base: seq<Tree>,
                   popped: seq<Tree>,
                   own: seq<bool>, nodes': Slots, x: nat, p: nat, rep: seq<Tree>, left: seq<Tree>)
    requires Split(nodes, free, elementMap, stack, base, popped, own)
    requires Count(base, x) == 1 && Live(nodes, x) && nodes[x].value.parent == Some(p) && Live(nodes, p)
    requires Splicing(Find(base, x), popped, rep, left)
    requires SplicedTo(nodes, nodes', p, SpliceId(nodes[p].value.children, x, Roots(rep)), Roots(popped))
    ensures Pending(nodes', free, elementMap, stack, left, Edit(base, x, rep), own) && Holds(nodes', left, Some(p))
  {
    Separate(nodes, free, base, popped);
    InsertHolds(nodes, nodes', base, popped, x, p, rep, left);
    InsertSlots(nodes, nodes', free, base, popped, x, p, rep, left);
    RootHasNoParent(nodes, base, x);
    assert Roots(base)[0] == base[0].id != x;
    EditHead(base, x, rep);
    assert Roots(Edit(base, x, rep))[0] == ROOT;
    MapOkSameIds(nodes, nodes', elementMap);
    Separate(nodes', free, left, Edit(base, x, rep));
  }

  /** A node that is not the root of its tree stands in its parent's child list, once. */
  lemma PlaceOf(nodes: Slots, ts: seq<Tree>, x: nat)
    requires Holds(nodes, ts, None) && NoRepeats(ts) && Count(ts, x) == 1 && x !in Roots(ts)
    ensures Live(nodes, x) && nodes[x].value.parent.Some?
    ensures var p := nodes[x].value.parent.value;
            && Live(nodes, p) && x in nodes[p].value.children
            && (forall i, j | 0 <= i < j < |nodes[p].value.children| ::
                nodes[p].value.children[i] != nodes[p].value.children[j])
  {
    ParentHasChild(nodes, ts, None, x);
    ChildrenDistinct(nodes, ts, None, nodes[x].value.parent.value);
  }

  /** An element id with a place resolves to a node that is not a root. */
  lemma PlaceOfEid(nodes: Slots, elementMap: seq<Option<nat>>, ts: seq<Tree>, e: nat)
    requires Holds(nodes, ts, None) && NoRepeats(ts) && MapOk(nodes, elementMap) && HasPlace(Erase(ts), e)
    ensures Lookup(elementMap, e).Some? && Count(ts, Lookup(elementMap, e).value) == 1
    ensures Lookup(elementMap, e).value !in Roots(ts)
  {
    LookupNames(nodes, elementMap, ts, e);
    var x := Lookup(elementMap, e).value;
    forall k | 0 <= k < |ts| ensures ts[k].id != x {
      HoldsAt(nodes, ts, None, k);
      EraseKids(ts, k);
      assert Erase(ts)[k] in Erase(ts);
    }
  }

  /** Likewise for the target of a non-empty path. */
  lemma PlaceOfPath(nodes: Slots, ts: seq<Tree>, k: nat, path: seq<nat>)
    requires Holds(nodes, ts, None) && NoRepeats(ts) && path != [] && PathOk(Erase(ts), [k] + path)
    ensures TreeAt(ts, [k] + path).id !in Roots(ts)
  {
    assert ([k] + path)[1..] == path;
    EraseKids(ts, k);
    PathSlot(ts, [k] + path);
    CountSlices(ts, k);
    NoRepeatsSplit([ts[k]]);
    PathSlot(ts[k].kids, path);
    var x := TreeAt(ts[k].kids, path).id;
    assert ts[k].id != x && Count(ts[..k], x) == Count(ts[k + 1..], x) == 0;
    RootsCount(ts[..k], x);
    RootsCount(ts[k + 1..], x);
    forall j | 0 <= j < |ts| && j != k ensures ts[j].id != x {
      if j < k {
        assert Roots(ts[..k])[j] == ts[j].id;
      } else {
        assert Roots(ts[k + 1..])[j - k - 1] == ts[j].id;
      }
    }
  }

  /** The left-over subtree was freed. */
  lemma FreeStep(nodes: Slots, free: seq<nat>, elementMap: seq<Option<nat>>, nodes': Slots, free': seq<nat>,
                 elementMap': seq<Option<nat>>, stack: seq<nat>, t: Tree, forest: seq<Tree>, own: seq<bool>)
    requires Pending(nodes, free, elementMap, stack, [t], forest, own)
    requires FreedTo(nodes, nodes', [t]) && free' == free + PostOrder([t]) && MapOk(nodes', elementMap')
    ensures Wf(nodes', free', elementMap', stack, forest, own)
  {
    Separate(nodes, free, [t], forest);
    HoldsFrame(nodes, nodes', forest, None);
    forall i: nat ensures multiset(free')[i] + Count(forest, i) == if i < |nodes'| then 1 else 0 {
      PostOrderCount([t], i);
      CountConcat([t], forest, i);
    }
    forall i | i in free' ensures !Live(nodes', i) {
      PostOrderCount([t], i);
      if i !in free {
        assert multiset(PostOrder([t]))[i] > 0;
      }
    }
  }

  /** A node changed its kind or got its element id; nothing moved. */
  lemma RelabelStep(nodes: Slots, free: seq<nat>, elementMap: seq<Option<nat>>, stack: seq<nat>, forest: seq<Tree>,
                    own: seq<bool>,
                    nodes': Slots, elementMap': seq<Option<nat>>, x: nat, node: Node)
    returns (forest': seq<Tree>)
    requires Wf(nodes, free, elementMap, stack, forest, own) && Live(nodes, x)
    requires nodes' == nodes[x := Some(node)] && MapOk(nodes', elementMap')
    requires node.children == nodes[x].value.children && node.parent == nodes[x].value.parent
    requires x == ROOT ==> node.eid == Some(0)
    ensures Count(forest, x) == 1 && forest' == Edit(forest, x, [Find(forest, x).(kind := node.kind, eid := node.eid)])
    ensures Wf(nodes', free, elementMap', stack, forest', own)
  {
    LiveCount(nodes, free, forest, x);
    SlotsNoRepeats(nodes, free, forest);
    var f := Find(forest, x);
    var f' := f.(kind := node.kind, eid := node.eid);
    forest' := Edit(forest, x, [f']);
    FindHolds(nodes, forest, None, x);
    FoundCount(forest, x);
    assert Count(forest, x) <= 1;
    HoldsFrame(nodes, nodes', f.kids, Some(x));
    HoldsOne(nodes', f', node.parent);
    EditSelf(nodes, nodes', forest, x, f');
    assert Roots([f']) == [x];
    EditRoots(forest, x, [f']);
    ReplacedSelf(Roots(forest), x);
    EditHead(forest, x, [f']);
    assert Roots(forest')[0] == forest[0].id;
    forall i: nat ensures Count(forest', i) == Count(forest, i) {
      EditConservesSlots(forest, x, [f'], i);
      CountCons(f', [], i);
      assert [f'] + [] == [f'];
    }
  }

  /** A new tree whose slots come from the free list or from the end of the arena was pushed. */
  lemma PushStep(nodes: Slots, free: seq<nat>, elementMap: seq<Option<nat>>, stack: seq<nat>, forest: seq<Tree>,
                 own: seq<bool>,
                 nodes': Slots, free': seq<nat>, t: Tree)
    requires Wf(nodes, free, elementMap, stack, forest, own)
    requires GrownFrom(nodes, nodes') && Holds(nodes', [t], None) && SlotsOk(nodes', free', forest + [t])
    ensures Wf(nodes', free', elementMap, stack + [t.id], forest + [t], own + [true])
  {
    forall i: nat | Count(forest, i) > 0 && Live(nodes, i) ensures Live(nodes', i) && nodes'[i] == nodes[i] {}
    HoldsFrame(nodes, nodes', forest, None);
    HoldsConcat(nodes', forest, [t], None);
    PushOwned(stack, own, t.id, true);
    assert Roots(forest + [t])[1..] == Roots(forest)[1..] + [t.id];
  }

  lemma RootIsNamed(forest: seq<Tree>)
    requires forest != [] && forest[0].eid == Some(0)
    ensures HasEid(Erase(forest), 0)
  {
    EraseKids(forest, 0);
  }

  /** An owned stack top is the root of the last tree. */
  lemma TopIsRoot(forest: seq<Tree>, stack: seq<nat>, own: seq<bool>)
    requires StackOk(forest, stack, own) && own != [] && own[|own| - 1] && |forest| > 1
    ensures stack != [] && stack[|stack| - 1] == forest[|forest| - 1].id
  {
    PopSplits(forest, stack, own, 1);
    assert stack[|stack| - 1..][0] == Roots(forest[|forest| - 1..])[0];
  }

  /** What the splices make of a child list cut at `x`. */
  lemma CutAt(cs: seq<nat>, x: nat, moved: seq<nat>)
    requires x in cs && forall i, j | 0 <= i < j < |cs| :: cs[i] != cs[j]
    ensures var k := Position(cs, x);
            var rest := cs[..k] + cs[k + 1..];
            rest == SpliceId(cs, x, []) && rest[..k] + moved + rest[k..] == SpliceId(cs, x, moved)
  {
    var k := Position(cs, x);
    var rest := cs[..k] + cs[k + 1..];
    SpliceIdAt(cs, k, []);
    SpliceIdAt(cs, k, moved);
    InsertBetween(cs[..k], moved, cs[k + 1..]);
    assert |cs[..k]| == k;
  }

  lemma InsertBetween(a: seq<nat>, moved: seq<nat>, b: seq<nat>)
    ensures (a + b)[..|a|] + moved + (a + b)[|a|..] == a + moved + b
    ensures a + [] + b == a + b
  {
  }

  lemma AppendAt<T>(cs: seq<T>, moved: seq<T>)
    ensures PutAt(cs, |cs|, moved) == cs + moved
  {
  }

  lemma CutAfter(cs: seq<nat>, x: nat, moved: seq<nat>)
    requires x in cs && forall i, j | 0 <= i < j < |cs| :: cs[i] != cs[j]
    ensures var k := Position(cs, x); cs[..k + 1] + moved + cs[k + 1..] == SpliceId(cs, x, [x] + moved)
  {
    var k := Position(cs, x);
    var a, b := cs[..k], cs[k + 1..];
    SpliceIdAt(cs, k, [x] + moved);
    assert cs[..k + 1] == a + [x];
    RegroupFour(a, [x], moved, b);
  }

  lemma CutBefore(cs: seq<nat>, x: nat, moved: seq<nat>)
    requires x in cs && forall i, j | 0 <= i < j < |cs| :: cs[i] != cs[j]
    ensures var k := Position(cs, x); cs[..k] + moved + cs[k..] == SpliceId(cs, x, moved + [x])
  {
    var k := Position(cs, x);
    var a, b := cs[..k], cs[k + 1..];
    SpliceIdAt(cs, k, moved + [x]);
    assert cs[k..] == [x] + b;
    RegroupFour(a, moved, [x], b);
  }

  /** `popped` put after or before `f`. */
  ghost function Beside(f: Tree, popped: seq<Tree>, after: bool): seq<Tree> {
    if after then [f] + popped else popped + [f]
  }

  lemma EraseBeside(nodes: Slots, base: seq<Tree>, popped: seq<Tree>, x: nat, e: nat, after: bool)
    requires Holds(nodes, base, None) && Names(nodes, base, x, e) && Count(base, x) > 0
    ensures HasEid(Erase(base), e)
    ensures var t := EFind(Erase(base), e);
            Erase(Edit(base, x, Beside(Find(base, x), popped, after)))
              == EEdit(Erase(base), e, if after then [t] + Erase(popped) else Erase(popped) + [t])
  {
    var f := Find(base, x);
    EraseEdit(nodes, base, None, x, e, Beside(f, popped, after));
    EraseConcat([f], popped);
    EraseConcat(popped, [f]);
  }

  lemma RootsAround(f: Tree, ts: seq<Tree>)
    ensures Roots([f] + ts) == [f.id] + Roots(ts) && Roots(ts + [f]) == Roots(ts) + [f.id]
  {
  }

  // ---------------------------------------------------------------- what each operation has to achieve

  /** Insertion after or before the node `e` names. */
  function InsertOp(e: nat, m: nat, after: bool): Op {
    if after then InsertNodesAfter(e, m) else InsertNodesBefore(e, m)
  }

  /** For an insertion: the anchor, and the tree the document has to become. */
  lemma PlanInsert(nodes: Slots, free: seq<nat>, elementMap: seq<Option<nat>>, stack: seq<nat>, base: seq<Tree>,
                   popped: seq<Tree>, own: seq<bool>, d: Doc, e: nat, m: nat, after: bool)
    returns (x: nat)
    requires Drawn(nodes, free, elementMap, stack, base, popped, own, d, m)
    requires HasEid(d.trees, 0) && Legal(d, InsertOp(e, m, after))
    ensures x == Resolved(elementMap, e) && Count(base, x) == 1 && x !in Roots(base)
    ensures Doc(Erase(Edit(base, x, Beside(Find(base, x), popped, after))), own) == Step(d, InsertOp(e, m, after))
  {
    Separate(nodes, free, base, popped);
    PlaceOfEid(nodes, elementMap, base, e);
    LookupNames(nodes, elementMap, base, e);
    x := Resolved(elementMap, e);
    EraseBeside(nodes, base, popped, x, e, after);
  }

  lemma PlanReplacePath(nodes: Slots, free: seq<nat>, elementMap: seq<Option<nat>>, stack: seq<nat>, base: seq<Tree>,
                        popped: seq<Tree>, own: seq<bool>, d: Doc, path: seq<nat>, m: nat)
    returns (x: nat)
    requires Drawn(nodes, free, elementMap, stack, base, popped, own, d, m)
    requires HasEid(d.trees, 0) && Legal(d, ReplacePlaceholderWithNodes(path, m))
    ensures stack != [] && base != [] && stack[|stack| - 1] == base[|base| - 1].id
    ensures PathOk(Erase(base), [|base| - 1] + path) && x == TreeAt(base, [|base| - 1] + path).id
    ensures Count(base, x) == 1 && x !in Roots(base)
    ensures Doc(Erase(Edit(base, x, popped)), own) == Step(d, ReplacePlaceholderWithNodes(path, m))
  {
    TopIsRoot(base, stack, own);
    Separate(nodes, free, base, popped);
    x := PathTarget(nodes, base, popped, |base| - 1, path, [|base| - 1] + path);
  }

  lemma PathTarget(nodes: Slots, base: seq<Tree>, popped: seq<Tree>, k: nat, path: seq<nat>, full: seq<nat>)
    returns (x: nat)
    requires Holds(nodes, base, None) && NoRepeats(base)
    requires full == [k] + path && path != [] && PathOk(Erase(base), full)
    ensures x == TreeAt(base, full).id && Count(base, x) == 1 && x !in Roots(base)
    ensures Erase(Edit(base, x, popped)) == PathEdit(Erase(base), full, Erase(popped))
  {
    PlaceOfPath(nodes, base, k, path);
    PathSlot(base, full);
    ErasePathEdit(base, full, popped);
    x := TreeAt(base, full).id;
  }

  lemma PlanReplace(nodes: Slots, free: seq<nat>, elementMap: seq<Option<nat>>, stack: seq<nat>, base: seq<Tree>,
                    popped: seq<Tree>, own: seq<bool>, d: Doc, e: nat, m: nat)
    returns (x: nat)
    requires Drawn(nodes, free, elementMap, stack, base, popped, own, d, m)
    requires HasEid(d.trees, 0) && Legal(d, ReplaceNodeWith(e, m))
    ensures x == Resolved(elementMap, e) && Count(base, x) == 1 && x !in Roots(base)
    ensures Doc(Erase(Edit(base, x, popped)), own) == Step(d, ReplaceNodeWith(e, m))
  {
    Separate(nodes, free, base, popped);
    PlaceOfEid(nodes, elementMap, base, e);
    LookupNames(nodes, elementMap, base, e);
    x := Resolved(elementMap, e);
    EraseEdit(nodes, base, None, x, e, popped);
  }

  lemma PlanRemove(nodes: Slots, free: seq<nat>, elementMap: seq<Option<nat>>, stack: seq<nat>, forest: seq<Tree>,
                   own: seq<bool>, e: nat)
    returns (base: seq<Tree>, x: nat)
    requires Wf(nodes, free, elementMap, stack, forest, own) && HasEid(Erase(forest), 0)
    requires Legal(Doc(Erase(forest), own), RemoveNode(e))
    ensures Split(nodes, free, elementMap, stack, base, [], own)
    ensures x == Resolved(elementMap, e) && Count(base, x) == 1 && x !in Roots(base)
    ensures Doc(Erase(Edit(base, x, [])), own) == Step(Doc(Erase(forest), own), RemoveNode(e))
  {
    base := forest;
    assert base + [] == base;
    SlotsNoRepeats(nodes, free, base);
    PlaceOfEid(nodes, elementMap, base, e);
    LookupNames(nodes, elementMap, base, e);
    x := Resolved(elementMap, e);
    EraseEdit(nodes, base, None, x, e, []);
  }

  lemma PlanAppend(nodes: Slots, free: seq<nat>, elementMap: seq<Option<nat>>, stack: seq<nat>, forest: seq<Tree>,
                   own: seq<bool>, e: nat, m: nat)
    returns (key: nat)
    requires Wf(nodes, free, elementMap, stack, forest, own)
    requires Legal(Doc(Erase(forest), own), AppendChildren(e, m))
    ensures key == Key(Doc(Erase(forest), own), e) && Lookup(elementMap, key) == Some(Resolved(elementMap, e))
    ensures HasEid(Base(Doc(Erase(forest), own), m), key)
  {
    ResolvedKey(nodes, free, elementMap, stack, forest, own, e);
    key := Key(Doc(Erase(forest), own), e);
  }

  // ---------------------------------------------------------------- naming and relabelling

  lemma FreshEid(nodes: Slots, free: seq<nat>, elementMap: seq<Option<nat>>, stack: seq<nat>, forest: seq<Tree>,
                 own: seq<bool>, e: nat)
    requires Wf(nodes, free, elementMap, stack, forest, own) && !HasEid(Erase(forest), e)
    ensures Lookup(elementMap, e) == None
  {
    SlotsNoRepeats(nodes, free, forest);
    LookupNames(nodes, elementMap, forest, e);
    if Lookup(elementMap, e).Some? {
      LiveCount(nodes, free, forest, Lookup(elementMap, e).value);
    }
  }

  lemma MapFresh(nodes: Slots, elementMap: seq<Option<nat>>, n: nat, e: nat, elementMap': seq<Option<nat>>)
    requires MapOk(nodes, elementMap) && Live(nodes, n) && nodes[n].value.eid == None && Lookup(elementMap, e) == None
    requires forall k: nat :: Lookup(elementMap', k) == if k == e then Some(n) else Lookup(elementMap, k)
    ensures MapOk(nodes[n := Some(nodes[n].value.(eid := Some(e)))], elementMap')
  {
  }

  /** A new tree was built, its root named `e`, and pushed. */
  lemma PushNamed(nodes: Slots, free: seq<nat>, elementMap: seq<Option<nat>>, stack: seq<nat>, forest: seq<Tree>,
                  own: seq<bool>,
                  nodes': Slots, free': seq<nat>, t: Tree, e: nat, elementMap': seq<Option<nat>>)
    returns (forest': seq<Tree>)
    requires Wf(nodes, free, elementMap, stack, forest, own) && Lookup(elementMap, e) == None
    requires GrownFrom(nodes, nodes') && Holds(nodes', [t], None) && SlotsOk(nodes', free', forest + [t])
    requires t.eid == None
    requires forall k: nat :: Lookup(elementMap', k) == if k == e then Some(t.id) else Lookup(elementMap, k)
    ensures Live(nodes', t.id)
    ensures Wf(nodes'[t.id := Some(nodes'[t.id].value.(eid := Some(e)))], free', elementMap', stack + [t.id], forest',
               own + [true])
    ensures Erase(forest') == Erase(forest) + [Erase([t])[0].(eid := Some(e))]
  {
    PushStep(nodes, free, elementMap, stack, forest, own, nodes', free', t);
    MapFresh(nodes', elementMap, t.id, e, elementMap');
    var node := nodes'[t.id].value.(eid := Some(e));
    RootIsTaken(nodes', free', elementMap, stack + [t.id], forest + [t], own + [true], t.id);
    forest' := RelabelStep(nodes', free', elementMap, stack + [t.id], forest + [t], own + [true],
                           nodes'[t.id := Some(node)], elementMap', t.id, node);
    var t' := t.(eid := Some(e));
    CountConcat(forest, [t], t.id);
    assert Count([t], t.id) > 0;
    FindConcat(forest, [t], t.id);
    EditConcat(forest, [t], t.id, [t']);
    EditAbsent(forest, t.id, [t']);
    assert forest' == forest + [t'];
    EraseConcat(forest, [t']);
    EraseKids([t'], 0);
    EraseKids([t], 0);
  }

  lemma RootIsTaken(nodes: Slots, free: seq<nat>, elementMap: seq<Option<nat>>, stack: seq<nat>, forest: seq<Tree>,
                    own: seq<bool>, n: nat)
    requires Wf(nodes, free, elementMap, stack, forest, own) && Live(nodes, n) && nodes[n].value.eid == None
    ensures n != ROOT
  {
    HoldsAt(nodes, forest, None, 0);
  }

  /** One node of the document got a new kind. */
  lemma KindStep(nodes: Slots, free: seq<nat>, elementMap: seq<Option<nat>>, stack: seq<nat>, forest: seq<Tree>,
                 own: seq<bool>,
                 nodes': Slots, e: nat, op: Op)
    returns (forest': seq<Tree>)
    requires Wf(nodes, free, elementMap, stack, forest, own) && HasEid(Erase(forest), 0)
    requires Live(nodes, Resolved(elementMap, e))
    requires var n := nodes[Resolved(elementMap, e)].value;
             nodes' == nodes[Resolved(elementMap, e) := Some(n.(kind := NewKind(n.kind, op)))]
    ensures Wf(nodes', free, elementMap, stack, forest', own)
    ensures Doc(Erase(forest'), own) == UpdateKind(Doc(Erase(forest), own), e, op)
  {
    var x, key := Resolved(elementMap, e), Key(Doc(Erase(forest), own), e);
    var node := nodes[x].value;
    SlotsNoRepeats(nodes, free, forest);
    ResolvedKey(nodes, free, elementMap, stack, forest, own, e);
    LookupNames(nodes, elementMap, forest, key);
    MapOkSameIds(nodes, nodes', elementMap);
    HoldsAt(nodes, forest, None, 0);
    forest' := RelabelStep(nodes, free, elementMap, stack, forest, own, nodes', elementMap, x,
                           node.(kind := NewKind(node.kind, op)));
    var f := Find(forest, x);
    FindHolds(nodes, forest, None, x);
    var f' := f.(kind := NewKind(f.kind, op));
    assert forest' == Edit(forest, x, [f']);
    EraseEdit(nodes, forest, None, x, key, [f']);
    EraseRelabelled(f, f', EFind(Erase(forest), key));
  }

  lemma EraseRelabelled(f: Tree, f': Tree, t: ETree)
    requires Erase([f]) == [t] && f' == f.(kind := f'.kind)
    ensures t.kind == f.kind && Erase([f']) == [t.(kind := f'.kind)]
  {
    EraseKids([f], 0);
    EraseKids([f'], 0);
  }

  lemma ResolvedLive(nodes: Slots, free: seq<nat>, elementMap: seq<Option<nat>>, stack: seq<nat>, forest: seq<Tree>,
                     own: seq<bool>, e: nat)
    requires Wf(nodes, free, elementMap, stack, forest, own)
    ensures Live(nodes, Resolved(elementMap, e))
  {
    HoldsAt(nodes, forest, None, 0);
  }

  /** The target of a path below the stack top, and what naming it makes of the document. */
  lemma PlanAssign(nodes: Slots, free: seq<nat>, elementMap: seq<Option<nat>>, stack: seq<nat>, forest: seq<Tree>,
                   own: seq<bool>,
                   path: seq<nat>, e: nat)
    returns (x: nat)
    requires Wf(nodes, free, elementMap, stack, forest, own) && HasEid(Erase(forest), 0)
    requires Legal(Doc(Erase(forest), own), AssignNodeId(path, e))
    ensures stack != [] && stack[|stack| - 1] == forest[|forest| - 1].id && Lookup(elementMap, e) == None
    ensures PathOk(Erase(forest), [|forest| - 1] + path) && x == TreeAt(forest, [|forest| - 1] + path).id
    ensures Live(nodes, x) && nodes[x].value.eid == None && x != ROOT && Count(forest, x) > 0
    ensures Doc(Erase(Edit(forest, x, [Find(forest, x).(kind := nodes[x].value.kind, eid := Some(e))])), own)
            == Step(Doc(Erase(forest), own), AssignNodeId(path, e))
  {
    FreshEid(nodes, free, elementMap, stack, forest, own, e);
    SlotsNoRepeats(nodes, free, forest);
    TopIsRoot(forest, stack, own);
    var full := [|forest| - 1] + path;
    PathSlot(forest, full);
    x := TreeAt(forest, full).id;
    var t := Find(forest, x);
    FindHolds(nodes, forest, None, x);
    RootIsTaken(nodes, free, elementMap, stack, forest, own, x);
    var t' := t.(eid := Some(e));
    ErasePathEdit(forest, full, [t']);
    EraseKids([t'], 0);
    assert t' == t.(kind := nodes[x].value.kind, eid := Some(e));
    assert Erase([t']) == [PathGet(Erase(forest), full).(eid := Some(e))];
  }
}
