/**
 * Exactly when splicing stack entries is sound.
 *
 * `splice_into_parent` links nodes under their new parent but never unlinks them from an old one, so a
 * node that `push_root` took out of the tree ends up in two child lists. Below, `nodes'` is what a splice
 * of `moved`, before child `at` of `p`, makes of the arena; the theorem says for which entries any forest
 * at all fits the result.
 */
module DomLimits {
  import opened Options
  import opened RoseTree
  import opened DomForest
  import opened DomSpec
  import opened DomArena
  import opened DomSteps
  import opened DomInterpreter

  /** The three things a caller can look up before it splices node `n` under node `p`. */
  ghost predicate Movable(nodes: Slots, forest: seq<Tree>, n: nat, p: nat) {
    && Live(nodes, n) && nodes[n].value.parent == None  // not linked anywhere yet
    && n != ROOT                                        // not the document itself
    && Count(forest, n) > 0 && Count([Find(forest, n)], p) == 0  // the new parent is not inside the moved tree
  }

  /** The entries are movable, and none of them is spliced twice. */
  ghost predicate AllMovable(nodes: Slots, forest: seq<Tree>, moved: seq<nat>, p: nat) {
    && (forall i, j | 0 <= i < j < |moved| :: moved[i] != moved[j])
    && (forall i | 0 <= i < |moved| :: Movable(nodes, forest, moved[i], p))
  }

  /** The arena holds some forest in its tree slots, whatever that forest is. */
  ghost predicate Fits(nodes: Slots, free: seq<nat>, forest: seq<Tree>) {
    Holds(nodes, forest, None) && SlotsOk(nodes, free, forest)
  }

  // ---------------------------------------------------------------- what breaks the arena

  /** The tree at a live slot reaches every slot below it. */
  lemma {:induction false} SubtreeReached(nodes: Slots, ts: seq<Tree>, q: Option<nat>,
                                          nodes': Slots, us: seq<Tree>, q': Option<nat>, i: nat)
    requires Holds(nodes, ts, q) && Holds(nodes', us, q')
    requires forall t | t in ts :: Count(us, t.id) > 0
    requires forall j: nat | Count(ts, j) > 0 :: ChildrenStay(nodes, nodes', j)
    requires Count(ts, i) > 0
    ensures Count(us, i) > 0
    decreases ts
  {
    var t := ts[0];
    if t.id == i {
      assert t in ts;
    } else if Count(t.kids, i) > 0 {
      assert t in ts && Count(ts, t.id) > 0;
      forall c | c in t.kids ensures Count(us, c.id) > 0 {
        var k :| 0 <= k < |t.kids| && t.kids[k] == c;
        assert Roots(t.kids)[k] == c.id;
        assert ChildrenStay(nodes, nodes', t.id);
        ChildPointsBack(nodes', us, q', t.id, c.id);
      }
      SubtreeReached(nodes, t.kids, Some(t.id), nodes', us, q', i);
    } else {
      forall u | u in ts[1..] ensures Count(us, u.id) > 0 { assert u in ts; }
      SubtreeReached(nodes, ts[1..], q, nodes', us, q', i);
    }
  }

  ghost predicate ChildrenStay(nodes: Slots, nodes': Slots, j: nat) {
    Live(nodes, j) && Live(nodes', j) && forall c | c in nodes[j].value.children :: c in nodes'[j].value.children
  }

  lemma SplicedChildrenStay(nodes: Slots, nodes': Slots, p: nat, at: nat, moved: seq<nat>, j: nat)
    requires Live(nodes, p) && at <= |nodes[p].value.children| && Live(nodes, j)
    requires SplicedTo(nodes, nodes', p, PutAt(nodes[p].value.children, at, moved), moved)
    ensures ChildrenStay(nodes, nodes', j)
    ensures Live(nodes', j) && (j != p ==> nodes'[j].value.children == nodes[j].value.children)
    ensures j in moved ==> nodes'[j].value.parent == Some(p)
  {
    var cs := nodes[p].value.children;
    forall c | c in cs ensures c in PutAt(cs, at, moved) {
      assert c in cs[..at] || c in cs[at..];
    }
  }

  /** A child list that names a node twice is nobody's. */
  lemma TwiceBreaks(nodes': Slots, free: seq<nat>, forest': seq<Tree>, p: nat, cs: seq<nat>, at: nat, moved: seq<nat>)
    requires Fits(nodes', free, forest') && Live(nodes', p) && at <= |cs|
    requires nodes'[p].value.children == PutAt(cs, at, moved)
    ensures forall i, j | 0 <= i < j < |moved| :: moved[i] != moved[j]
    ensures forall n | n in moved :: n !in cs
  {
    SlotsNoRepeats(nodes', free, forest');
    LiveCount(nodes', free, forest', p);
    ChildrenDistinct(nodes', forest', None, p);
    var all := PutAt(cs, at, moved);
    forall i, j | 0 <= i < j < |moved| ensures moved[i] != moved[j] {
      assert all[at + i] == moved[i] && all[at + j] == moved[j];
    }
    forall n | n in moved ensures n !in cs {
      var i :| 0 <= i < |moved| && moved[i] == n;
      assert all[at + i] == n;
      assert forall k | 0 <= k < at :: all[k] == cs[k];
      assert forall k | at <= k < |cs| :: all[k + |moved|] == cs[k];
    }
  }

  /** A node that is already linked breaks the arena for good: no forest at all fits what the splice leaves. */
  lemma LinkedNodeBreaks(nodes: Slots, free: seq<nat>, forest: seq<Tree>, nodes': Slots, forest': seq<Tree>,
                         p: nat, at: nat, moved: seq<nat>, n: nat)
    requires Fits(nodes, free, forest) && Live(nodes, p) && at <= |nodes[p].value.children|
    requires SplicedTo(nodes, nodes', p, PutAt(nodes[p].value.children, at, moved), moved)
    requires n in moved && nodes[n].value.parent.Some?
    ensures !Fits(nodes', free, forest')
  {
    LiveCount(nodes, free, forest, n);
    ParentHasChild(nodes, forest, None, n);
    var p0 := nodes[n].value.parent.value;
    SplicedChildrenStay(nodes, nodes', p, at, moved, p0);
    SplicedChildrenStay(nodes, nodes', p, at, moved, p);
    SplicedChildrenStay(nodes, nodes', p, at, moved, n);
    if Fits(nodes', free, forest') {
      if p0 == p {
        TwiceBreaks(nodes', free, forest', p, nodes[p].value.children, at, moved);
        assert false;
      } else {
        LiveCount(nodes', free, forest', p0);
        ChildPointsBack(nodes', forest', None, p0, n);
        assert false;
      }
    }
  }

  /** A tree spliced into itself hangs from nowhere. */
  lemma CycleBreaks(nodes: Slots, free: seq<nat>, forest: seq<Tree>, nodes': Slots, forest': seq<Tree>,
                    p: nat, at: nat, moved: seq<nat>, n: nat)
    requires Fits(nodes, free, forest) && Live(nodes, p) && at <= |nodes[p].value.children|
    requires SplicedTo(nodes, nodes', p, PutAt(nodes[p].value.children, at, moved), moved)
    requires n in moved && Count(forest, n) > 0 && Count([Find(forest, n)], p) > 0
    ensures !Fits(nodes', free, forest')
  {
    if Fits(nodes', free, forest') {
      var t := Find(forest, n);
      FindHolds(nodes, forest, None, n);
      SplicedChildrenStay(nodes, nodes', p, at, moved, n);
      LiveCount(nodes', free, forest', n);
      SlotsNoRepeats(nodes', free, forest');
      FindHolds(nodes', forest', None, n);
      FoundCount(forest', n);
      forall j: nat | Count([t], j) > 0 ensures ChildrenStay(nodes, nodes', j) {
        HoldsLive(nodes, [t], nodes[n].value.parent, j);
        SplicedChildrenStay(nodes, nodes', p, at, moved, j);
      }
      SubtreeReached(nodes, [t], nodes[n].value.parent, nodes', [Find(forest', n)], nodes'[n].value.parent, p);
      ParentOutside(nodes', forest', None, n, p);
      assert false;
    }
  }

  /** Whatever still fits after the splice, the entries were movable. */
  lemma FitsMovable(nodes: Slots, free: seq<nat>, forest: seq<Tree>, nodes': Slots, forest': seq<Tree>,
                    p: nat, at: nat, moved: seq<nat>)
    requires Fits(nodes, free, forest) && Live(nodes, p) && at <= |nodes[p].value.children|
    requires SplicedTo(nodes, nodes', p, PutAt(nodes[p].value.children, at, moved), moved)
    requires Fits(nodes', free, forest') && forest' != [] && forest'[0].id == ROOT
    ensures AllMovable(nodes, forest, moved, p)
  {
    SplicedChildrenStay(nodes, nodes', p, at, moved, p);
    TwiceBreaks(nodes', free, forest', p, nodes[p].value.children, at, moved);
    forall i | 0 <= i < |moved| ensures Movable(nodes, forest, moved[i], p) {
      var n := moved[i];
      LiveCount(nodes, free, forest, n);
      SplicedChildrenStay(nodes, nodes', p, at, moved, n);
      if nodes[n].value.parent.Some? {
        LinkedNodeBreaks(nodes, free, forest, nodes', forest', p, at, moved, n);
      }
      if Count([Find(forest, n)], p) > 0 {
        CycleBreaks(nodes, free, forest, nodes', forest', p, at, moved, n);
      }
      assert nodes'[forest'[0].id].value.parent == None;
    }
  }

  // ---------------------------------------------------------------- what does not

  /** Trees were taken out of `forest`: `base` is left, with the stack entries that own it, and `popped` are out. */
  ghost predicate Parted(nodes: Slots, forest: seq<Tree>, stack: seq<nat>, base: seq<Tree>, popped: seq<Tree>,
                         own: seq<bool>) {
    && StackOk(base, stack, own) && forest != [] && base[0] == forest[0]
    && Holds(nodes, base, None) && Holds(nodes, popped, None)
    && forall i: nat :: Count(base + popped, i) == Count(forest, i)
  }

  /** Some stack position owns the `k`-th owned tree; without it, that tree is out. */
  lemma {:induction false} Disowned(stack: seq<nat>, own: seq<bool>, k: nat) returns (own': seq<bool>)
    requires |stack| == |own| && k < |Owned(stack, own)|
    ensures |own'| == |stack| && Owned(stack, own') == Owned(stack, own)[..k] + Owned(stack, own)[k + 1..]
  {
    var rest := Owned(stack[1..], own[1..]);
    if own[0] && k == 0 {
      own' := [false] + own[1..];
      assert own'[1..] == own[1..];
    } else {
      var tail := Disowned(stack[1..], own[1..], if own[0] then k - 1 else k);
      own' := [own[0]] + tail;
      assert own'[1..] == tail;
      if own[0] {
        assert Owned(stack, own)[..k] == [stack[0]] + rest[..k - 1];
      }
    }
  }

  lemma PartCount(ts: seq<Tree>, k: nat, popped: seq<Tree>, i: nat)
    requires k < |ts|
    ensures Count(ts[..k] + ts[k + 1..] + (popped + [ts[k]]), i) == Count(ts + popped, i)
  {
    var a, t, b := ts[..k], ts[k], ts[k + 1..];
    assert ts == a + ([t] + b);
    CountConcat(a, [t] + b, i);
    CountConcat([t], b, i);
    CountConcat(ts, popped, i);
    CountConcat(a, b, i);
    CountConcat(popped, [t], i);
    CountConcat(a + b, popped + [t], i);
  }

  lemma PartHolds(nodes: Slots, ts: seq<Tree>, k: nat, popped: seq<Tree>)
    requires k < |ts| && Holds(nodes, ts, None) && Holds(nodes, popped, None)
    ensures Holds(nodes, ts[..k] + ts[k + 1..], None) && Holds(nodes, popped + [ts[k]], None)
  {
    assert ts == ts[..k] + ts[k..] == ts[..k + 1] + ts[k + 1..];
    HoldsConcat(nodes, ts[..k], ts[k..], None);
    HoldsConcat(nodes, ts[..k + 1], ts[k + 1..], None);
    HoldsConcat(nodes, ts[..k], ts[k + 1..], None);
    HoldsAt(nodes, ts, None, k);
    HoldsConcat(nodes, popped, [ts[k]], None);
  }

  lemma PartOne(nodes: Slots, forest: seq<Tree>, stack: seq<nat>, base: seq<Tree>, popped: seq<Tree>, own: seq<bool>,
                k: nat)
    returns (base': seq<Tree>, own': seq<bool>)
    requires Parted(nodes, forest, stack, base, popped, own) && 0 < k < |base|
    ensures Parted(nodes, forest, stack, base', popped + [base[k]], own')
  {
    base' := base[..k] + base[k + 1..];
    own' := Disowned(stack, own, k - 1);
    assert Roots(base)[1..][..k - 1] + Roots(base)[1..][k..] == Roots(base')[1..];
    PartHolds(nodes, base, k, popped);
    forall i: nat ensures Count(base' + (popped + [base[k]]), i) == Count(forest, i) {
      PartCount(base, k, popped, i);
    }
  }

  /** A node that is nowhere linked, and not out yet, is the root of a tree that is left. */
  lemma StillThere(nodes: Slots, forest: seq<Tree>, stack: seq<nat>, base: seq<Tree>, popped: seq<Tree>,
                   own: seq<bool>, n: nat)
    returns (k: nat)
    requires Parted(nodes, forest, stack, base, popped, own) && n !in Roots(popped) && n != forest[0].id
    requires Live(nodes, n) && nodes[n].value.parent == None && Count(forest, n) > 0
    ensures 0 < k < |base| && base[k].id == n
  {
    HoldsConcat(nodes, base, popped, None);
    ParentHasChild(nodes, base + popped, None, n);
    RootsConcat(base, popped);
    assert n in Roots(base);
    k :| 0 <= k < |base| && Roots(base)[k] == n;
  }

  lemma {:induction false} PartAll(nodes: Slots, forest: seq<Tree>, stack: seq<nat>, own: seq<bool>, moved: seq<nat>,
                                   p: nat)
    returns (base: seq<Tree>, popped: seq<Tree>, own': seq<bool>)
    requires StackOk(forest, stack, own) && forest[0].id == ROOT && Holds(nodes, forest, None)
    requires AllMovable(nodes, forest, moved, p)
    ensures Parted(nodes, forest, stack, base, popped, own') && Roots(popped) == moved
    decreases |moved|
  {
    if moved == [] {
      base, popped, own' := forest, [], own;
      assert base + popped == forest;
    } else {
      var last := |moved| - 1;
      base, popped, own' := PartAll(nodes, forest, stack, own, moved[..last], p);
      assert Movable(nodes, forest, moved[last], p);
      var k := StillThere(nodes, forest, stack, base, popped, own', moved[last]);
      var t := base[k];
      base, own' := PartOne(nodes, forest, stack, base, popped, own', k);
      RootsConcat(popped, [t]);
      popped := popped + [t];
      assert moved == moved[..last] + [moved[last]];
    }
  }

  lemma OwnedOnStack(stack: seq<nat>, own: seq<bool>)
    requires |stack| == |own|
    ensures forall n | n in Owned(stack, own) :: n in stack
  {
  }

  /** Once the trees are out, no popped entry owns one. */
  lemma NoneOwned(nodes: Slots, free: seq<nat>, forest: seq<Tree>, stack: seq<nat>, base: seq<Tree>, popped: seq<Tree>,
                  own: seq<bool>)
    requires SlotsOk(nodes, free, forest) && Parted(nodes, forest, stack + Roots(popped), base, popped, own)
    ensures StackOk(base, stack, own[..|stack|])
  {
    var below, above, moved := own[..|stack|], own[|stack|..], Roots(popped);
    assert own == below + above;
    OwnedConcat(stack, moved, below, above);
    OwnedOnStack(moved, above);
    if Owned(moved, above) != [] {
      var n := Owned(moved, above)[0];
      assert n in moved && n in Owned(stack + moved, own);
      assert n in Roots(base) by { assert forall r | r in Roots(base)[1..] :: r in Roots(base); }
      RootsCount(base, n);
      RootsCount(popped, n);
      CountConcat(base, popped, n);
      SlotsNoRepeats(nodes, free, forest);
      assert Count(forest, n) <= 1;
    }
  }

  /** A target inside none of the trees that go out stays in. */
  lemma {:induction false} TargetOutside(nodes: Slots, forest: seq<Tree>, popped: seq<Tree>, p: nat)
    requires Holds(nodes, forest, None) && Holds(nodes, popped, None)
    requires forall k | 0 <= k < |popped| ::
      Count(forest, popped[k].id) > 0 && Count([Find(forest, popped[k].id)], p) == 0
    ensures Count(popped, p) == 0
  {
    if popped != [] {
      var t, rest := popped[0], popped[1..];
      FindHolds(nodes, forest, None, t.id);
      HoldsAt(nodes, popped, None, 0);
      HoldsDetermines(nodes, [Find(forest, t.id)], [t], nodes[t.id].value.parent, None);
      assert popped == [t] + rest;
      CountConcat([t], rest, p);
      TargetOutside(nodes, forest, rest, p);
    }
  }

  lemma MovableSplices(nodes: Slots, free: seq<nat>, elementMap: seq<Option<nat>>, stack: seq<nat>, forest: seq<Tree>,
                       own: seq<bool>,
                       nodes': Slots, p: nat, at: nat, moved: seq<nat>)
    returns (forest': seq<Tree>, own': seq<bool>)
    requires Wf(nodes, free, elementMap, stack + moved, forest, own) && AllMovable(nodes, forest, moved, p)
    requires Live(nodes, p) && at <= |nodes[p].value.children|
    requires SplicedTo(nodes, nodes', p, PutAt(nodes[p].value.children, at, moved), moved)
    ensures Wf(nodes', free, elementMap, stack, forest', own')
  {
    var base, popped, owned := PartAll(nodes, forest, stack + moved, own, moved, p);
    NoneOwned(nodes, free, forest, stack, base, popped, owned);
    own' := owned[..|stack|];
    LiveCount(nodes, free, forest, p);
    forall k | 0 <= k < |popped|
      ensures Count(forest, popped[k].id) > 0 && Count([Find(forest, popped[k].id)], p) == 0
    {
      assert Movable(nodes, forest, moved[k], p) && Roots(popped)[k] == moved[k];
    }
    TargetOutside(nodes, forest, popped, p);
    CountConcat(base, popped, p);
    forest' := PutStep(nodes, free, elementMap, stack, base, popped, own', nodes', p, at);
  }

  // ---------------------------------------------------------------- the theorem

  /** Some forest, and some reading of the stack, make the arena sound. */
  ghost predicate Sound(nodes: Slots, free: seq<nat>, elementMap: seq<Option<nat>>, stack: seq<nat>) {
    exists forest: seq<Tree>, own: seq<bool> :: Wf(nodes, free, elementMap, stack, forest, own)
  }

  /**
   * Popping the top entries `moved` and splicing them anywhere leaves a sound arena if and only if they are movable.
   */
  lemma SpliceSoundIff(nodes: Slots, free: seq<nat>, elementMap: seq<Option<nat>>, stack: seq<nat>, forest: seq<Tree>,
                       own: seq<bool>,
                       nodes': Slots, p: nat, at: nat, moved: seq<nat>)
    requires Wf(nodes, free, elementMap, stack + moved, forest, own)
    requires Live(nodes, p) && at <= |nodes[p].value.children|
    requires SplicedTo(nodes, nodes', p, PutAt(nodes[p].value.children, at, moved), moved)
    ensures Sound(nodes', free, elementMap, stack) <==> AllMovable(nodes, forest, moved, p)
  {
    if AllMovable(nodes, forest, moved, p) {
      var forest', own' := MovableSplices(nodes, free, elementMap, stack, forest, own, nodes', p, at, moved);
      assert Wf(nodes', free, elementMap, stack, forest', own');
    }
    if Sound(nodes', free, elementMap, stack) {
      var forest', own' :| Wf(nodes', free, elementMap, stack, forest', own');
      FitsMovable(nodes, free, forest, nodes', forest', p, at, moved);
    }
  }

  // ---------------------------------------------------------------- a run that gets there

  /** A child of the document root, found by its element id, is linked to it. */
  lemma ChildOfRoot(nodes: Slots, free: seq<nat>, elementMap: seq<Option<nat>>, stack: seq<nat>, forest: seq<Tree>,
                    own: seq<bool>,
                    k: nat, e: nat)
    requires Wf(nodes, free, elementMap, stack, forest, own)
    requires k < |Erase(forest)[0].kids| && Erase(forest)[0].kids[k].eid == Some(e)
    ensures var n := Resolved(elementMap, e);
            Live(nodes, n) && nodes[n].value.parent == Some(ROOT) && Live(nodes, ROOT)
                && n in nodes[ROOT].value.children
  {
    EraseKids(forest, 0);
    EraseKids(forest[0].kids, k);
    HoldsAt(nodes, forest, None, 0);
    HoldsAt(nodes, forest[0].kids, Some(ROOT), k);
    assert Roots(forest[0].kids)[k] == Resolved(elementMap, e);
  }

  /** What `push_root` does before a splice to a node that is still linked. */
  lemma LinkedSplice(nodes: Slots, free: seq<nat>, elementMap: seq<Option<nat>>, stack: seq<nat>, forest: seq<Tree>,
                     own: seq<bool>,
                     nodes': Slots, p: nat, at: nat, n: nat)
    requires Wf(nodes, free, elementMap, stack + [n], forest, own) && Live(nodes, n) && nodes[n].value.parent.Some?
    requires Live(nodes, p) && at <= |nodes[p].value.children|
    requires SplicedTo(nodes, nodes', p, PutAt(nodes[p].value.children, at, [n]), [n])
    ensures !Sound(nodes', free, elementMap, stack)
  {
    SpliceSoundIff(nodes, free, elementMap, stack, forest, own, nodes', p, at, [n]);
    assert !Movable(nodes, forest, [n][0], p);
  }

  ghost const FIRST := ETree(Placeholder, Some(1), [])
  ghost const SECOND := ETree(Placeholder, Some(2), [])
  ghost const EMPTY_ROOT := ETree(Element("root", []), Some(0), [])

  /** What three mutations make of an empty document. */
  lemma TwoPlaceholdersRun()
    ensures var pushed := Doc([EMPTY_ROOT, FIRST, SECOND], [true, true]);
      && Legal(Doc([EMPTY_ROOT], []), CreatePlaceholder(1))
      && Legal(Doc([EMPTY_ROOT, FIRST], [true]), CreatePlaceholder(2))
      && Legal(pushed, AppendChildren(0, 2)) && HasEid(pushed.trees, 0)
      && Step(pushed, AppendChildren(0, 2)) == Doc([EMPTY_ROOT.(kids := [FIRST, SECOND])], [])
  {
    var d := Doc([EMPTY_ROOT, FIRST, SECOND], [true, true]);
    assert [EMPTY_ROOT, FIRST][1..] == [FIRST] && !HasEid([FIRST], 2);
    assert Base(d, 2) == [EMPTY_ROOT] && Popped(d, 2) == [FIRST, SECOND] && OwnBelow(d, 2) == [];
    assert HasEid([EMPTY_ROOT], 0) && EFind([EMPTY_ROOT], 0) == EMPTY_ROOT;
    assert HasEid(d.trees, 0) && Key(d, 0) == 0;
    assert EMPTY_ROOT.kids + [FIRST, SECOND] == [FIRST, SECOND];
    assert EEdit([EMPTY_ROOT], 0, [EMPTY_ROOT.(kids := [FIRST, SECOND])]) == [EMPTY_ROOT.(kids := [FIRST, SECOND])];
  }

  /** A document root with two placeholders. */
  method TwoPlaceholders() returns (d: Dom)
    ensures fresh(d) && d.Valid() && d.View() == Doc([EMPTY_ROOT.(kids := [FIRST, SECOND])], [])
  {
    TwoPlaceholdersRun();
    d := new Dom();
    d.CreatePlaceholder(1);
    assert d.View() == Doc([EMPTY_ROOT, FIRST], [true]);
    d.CreatePlaceholder(2);
    assert d.View() == Doc([EMPTY_ROOT, FIRST, SECOND], [true, true]);
    d.AppendChildren(0, 2);
  }

  lemma BothBelowRoot(nodes: Slots, free: seq<nat>, elementMap: seq<Option<nat>>, stack: seq<nat>, forest: seq<Tree>,
                      own: seq<bool>)
    requires Wf(nodes, free, elementMap, stack, forest, own) && Erase(forest)[0].kids == [FIRST, SECOND]
    ensures var anchor, second := Resolved(elementMap, 1), Resolved(elementMap, 2);
      && Live(nodes, anchor) && nodes[anchor].value.parent == Some(ROOT) && Live(nodes, ROOT)
      && anchor in nodes[ROOT].value.children && Live(nodes, second) && nodes[second].value.parent.Some?
  {
    ChildOfRoot(nodes, free, elementMap, stack, forest, own, 0, 1);
    ChildOfRoot(nodes, free, elementMap, stack, forest, own, 1, 2);
  }

  /** Moving the second placeholder before the first, as `push_root` and `insert_nodes_before(ElementId(1), 1)` do. */
  method MoveInPlace() returns (d: Dom)
    ensures fresh(d) && !Sound(d.nodes, d.free, d.elementMap, d.stack)
  {
    d := TwoPlaceholders();
    d.PushRoot(2);
    ghost var nodes, stack := d.nodes, d.stack;
    BothBelowRoot(nodes, d.free, d.elementMap, stack, d.forest, d.own);
    var anchor := d.Resolve(1);
    var moved := d.PopN(1);
    ghost var second := Resolved(d.elementMap, 2);
    assert moved == [second] && stack == d.stack + [second];
    var parent := d.nodes[anchor].value.parent.value;
    var at := Position(d.nodes[parent].value.children, anchor);
    d.SpliceIntoParent(parent, at, moved);
    LinkedSplice(nodes, d.free, d.elementMap, d.stack, d.forest, d.own, d.nodes, parent, at, second);
  }
}
