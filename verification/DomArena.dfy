/**
 * Facts about arena contents that the interpreter's steps share: slot accounting, the element map,
 * the render stack, splicing and the effect on the pure document.
 */
module DomArena {
  import opened Options
  import opened RoseTree
  import opened DomForest
  import opened DomSpec
  import opened Sequences

  const ROOT: nat := 0

  /** No leak and no double use: every slot is once in the free list or once in a tree, never both. */
  ghost predicate SlotsOk(nodes: Slots, free: seq<nat>, trees: seq<Tree>) {
    && (forall i: nat :: multiset(free)[i] + Count(trees, i) == if i < |nodes| then 1 else 0)
    && (forall i | i in free :: !Live(nodes, i))
  }

  function Lookup(elementMap: seq<Option<nat>>, e: nat): Option<nat> {
    if e < |elementMap| then elementMap[e] else None
  }

  /** `element_map` and `Node::element_id` are inverse to each other. */
  ghost predicate MapOk(nodes: Slots, elementMap: seq<Option<nat>>) {
    && (forall i: nat | Live(nodes, i) && nodes[i].value.eid.Some? ::
          Lookup(elementMap, nodes[i].value.eid.value) == Some(i))
    && (forall e: nat | Lookup(elementMap, e).Some? ::
          var i := Lookup(elementMap, e).value;
          Live(nodes, i) && nodes[i].value.eid == Some(e))
  }

  /** The stack entries that own a tree. */
  function Owned(stack: seq<nat>, own: seq<bool>): seq<nat>
    requires |stack| == |own|
  {
    if stack == [] then [] else (if own[0] then [stack[0]] else []) + Owned(stack[1..], own[1..])
  }

  ghost predicate StackOk(forest: seq<Tree>, stack: seq<nat>, own: seq<bool>) {
    |stack| == |own| && forest != [] && Roots(forest)[1..] == Owned(stack, own)
  }

  /** The whole invariant, over the values of the fields. */
  ghost predicate Wf(nodes: Slots, free: seq<nat>, elementMap: seq<Option<nat>>, stack: seq<nat>, forest: seq<Tree>,
                     own: seq<bool>) {
    && StackOk(forest, stack, own)
    && forest[0].id == ROOT && forest[0].eid == Some(0)
    && Holds(nodes, forest, None)
    && SlotsOk(nodes, free, forest)
    && MapOk(nodes, elementMap)
  }

  lemma SlotsNoRepeats(nodes: Slots, free: seq<nat>, trees: seq<Tree>)
    requires SlotsOk(nodes, free, trees)
    ensures NoRepeats(trees)
  {
    forall i: nat ensures Count(trees, i) <= 1 {
      assert multiset(free)[i] + Count(trees, i) <= 1;
    }
  }

  lemma LiveCount(nodes: Slots, free: seq<nat>, trees: seq<Tree>, i: nat)
    requires SlotsOk(nodes, free, trees) && Live(nodes, i)
    ensures Count(trees, i) == 1
  {
    assert i !in free;
  }

  // ---------------------------------------------------------------- stack

  lemma {:induction false} OwnedConcat(a: seq<nat>, b: seq<nat>, oa: seq<bool>, ob: seq<bool>)
    requires |a| == |oa| && |b| == |ob|
    ensures Owned(a + b, oa + ob) == Owned(a, oa) + Owned(b, ob)
  {
    if a == [] {
      assert a + b == b && oa + ob == ob;
    } else {
      TailConcat(a, b);
      TailConcat(oa, ob);
      OwnedConcat(a[1..], b, oa[1..], ob);
      Regroup(if oa[0] then [a[0]] else [], Owned(a[1..], oa[1..]), Owned(b, ob));
    }
  }

  lemma TailConcat<T>(a: seq<T>, b: seq<T>)
    requires a != []
    ensures (a + b)[1..] == a[1..] + b && (a + b)[0] == a[0]
  {
  }

  lemma AllOwned(stack: seq<nat>, own: seq<bool>)
    requires |stack| == |own| && forall i | 0 <= i < |own| :: own[i]
    ensures Owned(stack, own) == stack
  {
  }

  lemma PopOwned(ids: seq<nat>, stack: seq<nat>, own: seq<bool>, n: nat)
    requires |stack| == |own| && n <= |own| && ids == Owned(stack, own)
    requires forall i | n <= i < |own| :: own[i]
    ensures var k := |ids| - (|stack| - n);
            k >= 0 && ids[k..] == stack[n..] && ids[..k] == Owned(stack[..n], own[..n])
  {
    var s, o := stack[n..], own[n..];
    assert stack[..n] + s == stack && own[..n] + o == own;
    OwnedConcat(stack[..n], s, own[..n], o);
    AllOwned(s, o);
  }

  /** Popping `m` owning entries takes exactly the roots of the last `m` detached trees. */
  lemma PopSplits(forest: seq<Tree>, stack: seq<nat>, own: seq<bool>, m: nat)
    requires StackOk(forest, stack, own) && m < |forest| && m <= |own|
    requires forall i | |own| - m <= i < |own| :: own[i]
    ensures stack[|stack| - m..] == Roots(forest[|forest| - m..])
    ensures StackOk(forest[..|forest| - m], stack[..|stack| - m], own[..|own| - m])
  {
    var ids, k := Roots(forest)[1..], |forest| - m;
    PopOwned(ids, stack, own, |stack| - m);
    assert ids[k - 1..] == Roots(forest[k..]);
    assert ids[..k - 1] == Roots(forest[..k])[1..];
  }

  lemma PushOwned(stack: seq<nat>, own: seq<bool>, n: nat, mine: bool)
    requires |stack| == |own|
    ensures Owned(stack + [n], own + [mine]) == Owned(stack, own) + if mine then [n] else []
  {
    OwnedConcat(stack, [n], own, [mine]);
  }

  // ---------------------------------------------------------------- element ids

  /** The element map finds the one node of `ts` that carries an element id, if there is one. */
  lemma LookupNames(nodes: Slots, elementMap: seq<Option<nat>>, ts: seq<Tree>, e: nat)
    requires Holds(nodes, ts, None) && NoRepeats(ts) && MapOk(nodes, elementMap)
    ensures HasEid(Erase(ts), e) <==>
            Lookup(elementMap, e).Some? && Count(ts, Lookup(elementMap, e).value) > 0
    ensures HasEid(Erase(ts), e) ==>
              var x := Lookup(elementMap, e).value;
              && Live(nodes, x) && Count(ts, x) == 1 && Names(nodes, ts, x, e)
              && Erase([Find(ts, x)]) == [EFind(Erase(ts), e)]
  {
    var x := if Lookup(elementMap, e).Some? then Lookup(elementMap, e).value else |nodes|;
    if Count(ts, x) > 0 {
      HoldsLive(nodes, ts, None, x);
    }
    assert Names(nodes, ts, x, e);
    EraseEdit(nodes, ts, None, x, e, []);
  }

  lemma MapOkSameIds(nodes: Slots, nodes': Slots, elementMap: seq<Option<nat>>)
    requires MapOk(nodes, elementMap)
    requires forall i: nat :: Live(nodes, i) <==> Live(nodes', i)
    requires forall i: nat | Live(nodes, i) && Live(nodes', i) :: nodes'[i].value.eid == nodes[i].value.eid
    ensures MapOk(nodes', elementMap)
  {
  }

  // ---------------------------------------------------------------- splicing

  /**
   * From `nodes` to `nodes'` the slots `moved` got parent `p`, the child list of `p` became `cs`, and
   * nothing else happened.
   */
  ghost predicate SplicedTo(nodes: Slots, nodes': Slots, p: nat, cs: seq<nat>, moved: seq<nat>) {
    && |nodes'| == |nodes| && Live(nodes, p)
    && (forall n | n in moved :: Live(nodes, n))
    && (forall i: nat | i < |nodes| ::
          nodes'[i] ==
            if i == p then Some(nodes[p].value.(children := cs,
                                             parent := if p in moved then Some(p) else nodes[p].value.parent))
            else if i in moved then Some(nodes[i].value.(parent := Some(p)))
            else nodes[i])
  }

  /** Detached trees become children of `p`, and no other tree notices. */
  lemma SplicedHolds(nodes: Slots, nodes': Slots, a: seq<Tree>, moved: seq<Tree>, p: nat, cs: seq<nat>)
    requires Holds(nodes, a, None) && Holds(nodes, moved, None) && NoRepeats(a + moved)
    requires SplicedTo(nodes, nodes', p, cs, Roots(moved))
    requires Count(moved, p) == 0
    ensures Holds(nodes', moved, Some(p))
    ensures forall i: nat | Count(a, i) > 0 && i != p && Live(nodes, i) :: Live(nodes', i) && nodes'[i] == nodes[i]
  {
    forall i: nat | Count(a, i) > 0 && i != p && Live(nodes, i) ensures Live(nodes', i) && nodes'[i] == nodes[i] {
      CountConcat(a, moved, i);
      RootsCount(moved, i);
      assert Count(a + moved, i) <= 1;
      assert i !in Roots(moved);
    }
    forall i ensures Count(moved, i) <= 1 { CountConcat(a, moved, i); assert Count(a + moved, i) <= 1; }
    ReparentHolds(nodes, nodes', moved, p, Roots(moved));
  }

  lemma {:induction false} ReparentHolds(nodes: Slots, nodes': Slots, ts: seq<Tree>, p: nat, moved: seq<nat>)
    requires Holds(nodes, ts, None) && NoRepeats(ts) && Count(ts, p) == 0
    requires forall t | t in ts :: t.id in moved
    requires forall i: nat | Count(ts, i) > 0 && i in moved :: i in Roots(ts)
    requires forall i: nat | Live(nodes, i) && i != p ::
               Live(nodes', i) && nodes'[i].value == if i in moved then nodes[i].value.(parent := Some(p))
                   else nodes[i].value
    ensures Holds(nodes', ts, Some(p))
    decreases ts
  {
    if ts != [] {
      NoRepeatsSplit(ts);
      forall i: nat | Count(ts[0].kids, i) > 0 && Live(nodes, i) ensures Live(nodes', i) && nodes'[i] == nodes[i] {
        assert Count(ts, i) > 0;
        RootsCount(ts[1..], i);
        assert Roots(ts) == [ts[0].id] + Roots(ts[1..]);
        assert i !in Roots(ts);
      }
      HoldsFrame(nodes, nodes', ts[0].kids, Some(ts[0].id));
      forall i: nat | Count(ts[1..], i) > 0 && i in moved ensures i in Roots(ts[1..]) {
        assert Count(ts, i) > 0;
        assert Roots(ts) == [ts[0].id] + Roots(ts[1..]);
      }
      ReparentHolds(nodes, nodes', ts[1..], p, moved);
    }
  }

  lemma ReplacedSelf(ids: seq<nat>, x: nat)
    ensures SpliceId(ids, x, [x]) == ids
  {
  }

  ghost predicate Apart(a: seq<Tree>, b: seq<Tree>) {
    forall i :: Count(a, i) + Count(b, i) <= 1
  }

  lemma Separate(nodes: Slots, free: seq<nat>, a: seq<Tree>, b: seq<Tree>)
    requires SlotsOk(nodes, free, a + b)
    ensures NoRepeats(a + b) && NoRepeats(a) && NoRepeats(b) && Apart(a, b)
  {
    SlotsNoRepeats(nodes, free, a + b);
    forall i ensures Count(a, i) + Count(b, i) <= 1 {
      CountConcat(a, b, i);
      assert Count(a + b, i) <= 1;
    }
  }

  // ---------------------------------------------------------------- the two ways to splice

  lemma FoundCount(ts: seq<Tree>, x: nat)
    requires Count(ts, x) > 0
    ensures var f := Find(ts, x);
            forall i :: Count([f], i) == Count(f.kids, i) + (if i == x then 1 else 0) <= Count(ts, i)
  {
    var f := Find(ts, x);
    forall i: nat ensures Count([f], i) == Count(f.kids, i) + (if i == x then 1 else 0) <= Count(ts, i) {
      CountCons(f, [], i);
      assert [f] + [] == [f];
      FindCount(ts, x, i);
    }
  }

  lemma HoldsOne(nodes: Slots, t: Tree, parent: Option<nat>)
    requires Live(nodes, t.id) && nodes[t.id].value == Node(t.kind, Roots(t.kids), parent, t.eid)
    requires Holds(nodes, t.kids, Some(t.id))
    ensures Holds(nodes, [t], parent)
  {
    assert [t][1..] == [];
  }

  /** `moved` between the first `at` of `cs` and the others. */
  function PutAt<T>(cs: seq<T>, at: nat, moved: seq<T>): seq<T>
    requires at <= |cs|
  {
    cs[..at] + moved + cs[at..]
  }

  lemma RootsPutAt(ts: seq<Tree>, at: nat, moved: seq<Tree>)
    requires at <= |ts|
    ensures Roots(PutAt(ts, at, moved)) == PutAt(Roots(ts), at, Roots(moved))
  {
  }

  /** The tree that grew holds. */
  lemma GrownHolds(nodes: Slots, nodes': Slots, base: seq<Tree>, popped: seq<Tree>, p: nat, at: nat)
    requires Holds(nodes, base, None) && NoRepeats(base) && Count(base, p) == 1 && Live(nodes, p)
    requires Holds(nodes', popped, Some(p))
    requires at <= |nodes[p].value.children|
    requires Live(nodes', p)
    requires nodes'[p].value == nodes[p].value.(children := PutAt(nodes[p].value.children, at, Roots(popped)))
    requires forall i: nat | Count(base, i) > 0 && i != p && Live(nodes, i) :: Live(nodes', i) && nodes'[i] == nodes[i]
    ensures var f := Find(base, p); at <= |f.kids| && Holds(nodes', [f.(kids := PutAt(f.kids, at, popped))],
                                                            nodes[p].value.parent)
  {
    var f := Find(base, p);
    FindHolds(nodes, base, None, p);
    FoundCount(base, p);
    HoldsFrame(nodes, nodes', f.kids, Some(p));
    assert f.kids == f.kids[..at] + f.kids[at..];
    HoldsConcat(nodes', f.kids[..at], f.kids[at..], Some(p));
    HoldsConcat(nodes', f.kids[..at], popped, Some(p));
    HoldsConcat(nodes', f.kids[..at] + popped, f.kids[at..], Some(p));
    RootsPutAt(f.kids, at, popped);
    HoldsOne(nodes', f.(kids := PutAt(f.kids, at, popped)), nodes[p].value.parent);
  }

  /** `popped` goes into the child list of `p`. */
  lemma PutHolds(nodes: Slots, nodes': Slots, base: seq<Tree>, popped: seq<Tree>, p: nat, at: nat)
    requires Holds(nodes, base, None) && Holds(nodes, popped, None) && NoRepeats(base + popped) && NoRepeats(base)
    requires Apart(base, popped) && Count(base, p) == 1 && Live(nodes, p) && at <= |nodes[p].value.children|
    requires SplicedTo(nodes, nodes', p, PutAt(nodes[p].value.children, at, Roots(popped)), Roots(popped))
    ensures var f := Find(base, p);
            at <= |f.kids| && Holds(nodes', Edit(base, p, [f.(kids := PutAt(f.kids, at, popped))]), None)
  {
    var f := Find(base, p);
    assert Count(popped, p) == 0;
    RootsCount(popped, p);
    SplicedHolds(nodes, nodes', base, popped, p, PutAt(nodes[p].value.children, at, Roots(popped)));
    GrownHolds(nodes, nodes', base, popped, p, at);
    EditSelf(nodes, nodes', base, p, f.(kids := PutAt(f.kids, at, popped)));
  }

  /** An edit that puts another tree with the same root slot in place: no child list above changes. */
  lemma EditSelf(nodes: Slots, nodes': Slots, ts: seq<Tree>, x: nat, f': Tree)
    requires Holds(nodes, ts, None) && NoRepeats(ts) && Count(ts, x) == 1 && f'.id == x
    requires Live(nodes, x) && Holds(nodes', [f'], nodes[x].value.parent)
    requires forall i: nat | Count(ts, i) > 0 && i != x && Live(nodes, i) :: Live(nodes', i) && nodes'[i] == nodes[i]
    ensures Holds(nodes', Edit(ts, x, [f']), None)
  {
    FoundCount(ts, x);
    assert Roots([f']) == [x];
    forall i: nat | Count(ts, i) > 0 && Count([Find(ts, x)], i) == 0
      ensures Respliced(nodes, nodes', i, x, Roots([f']))
    {
      HoldsLive(nodes, ts, None, i);
      ReplacedSelf(nodes[i].value.children, x);
    }
    EditHolds(nodes, nodes', ts, None, x, [f']);
  }

  lemma PutSlots(nodes: Slots, nodes': Slots, free: seq<nat>, base: seq<Tree>, popped: seq<Tree>, p: nat, at: nat)
    requires SlotsOk(nodes, free, base + popped) && Count(base, p) == 1 && Live(nodes, p) && at <= |Find(base, p).kids|
    requires at <= |nodes[p].value.children|
    requires SplicedTo(nodes, nodes', p, PutAt(nodes[p].value.children, at, Roots(popped)), Roots(popped))
    ensures var f := Find(base, p);
            var forest' := Edit(base, p, [f.(kids := PutAt(f.kids, at, popped))]);
            SlotsOk(nodes', free, forest') && Roots(forest') == Roots(base)
  {
    var f := Find(base, p);
    var rep := [f.(kids := PutAt(f.kids, at, popped))];
    forall i: nat ensures Count(Edit(base, p, rep), i) == Count(base + popped, i) {
      PutCount(base, popped, p, at, i);
    }
    EditRoots(base, p, rep);
    assert Roots(rep) == [p];
    ReplacedSelf(Roots(base), p);
  }

  lemma PutCount(base: seq<Tree>, popped: seq<Tree>, p: nat, at: nat, i: nat)
    requires Count(base, p) == 1 && at <= |Find(base, p).kids|
    ensures var f := Find(base, p);
            Count(Edit(base, p, [f.(kids := PutAt(f.kids, at, popped))]), i) == Count(base + popped, i)
  {
    var f := Find(base, p);
    var f' := f.(kids := PutAt(f.kids, at, popped));
    EditConservesSlots(base, p, [f'], i);
    CountCons(f, [], i);
    CountCons(f', [], i);
    assert [f'] + [] == [f'] && [f] + [] == [f];
    assert f.kids == f.kids[..at] + f.kids[at..];
    CountConcat(f.kids[..at], f.kids[at..], i);
    CountConcat(f.kids[..at], popped, i);
    CountConcat(f.kids[..at] + popped, f.kids[at..], i);
    CountConcat(base, popped, i);
  }

  /** `rep` is `popped`, with or without the subtree `f` it is spliced beside; `left` is `f` if `rep` is without. */
  ghost predicate Splicing(f: Tree, popped: seq<Tree>, rep: seq<Tree>, left: seq<Tree>) {
    || (rep == popped && left == [f])
    || (rep == [f] + popped && left == [])
    || (rep == popped + [f] && left == [])
  }

  /** `rep` stands where the child `x` of `p` stood; the replaced subtree, if any, is untouched. */
  lemma InsertHolds(nodes: Slots, nodes': Slots, base: seq<Tree>, popped: seq<Tree>, x: nat, p: nat, rep: seq<Tree>,
                    left: seq<Tree>)
    requires Holds(nodes, base, None) && Holds(nodes, popped, None) && NoRepeats(base + popped)
    requires Apart(base, popped) && NoRepeats(base) && Count(base, x) == 1
    requires Live(nodes, x) && nodes[x].value.parent == Some(p) && Live(nodes, p)
    requires Splicing(Find(base, x), popped, rep, left)
    requires SplicedTo(nodes, nodes', p, SpliceId(nodes[p].value.children, x, Roots(rep)), Roots(popped))
    ensures Holds(nodes', Edit(base, x, rep), None) && Holds(nodes', left, Some(p))
  {
    var f := Find(base, x);
    ParentHasChild(nodes, base, None, x);
    assert Count(popped, p) == 0;
    SplicedHolds(nodes, nodes', base, popped, p, SpliceId(nodes[p].value.children, x, Roots(rep)));
    FindHolds(nodes, base, None, x);
    ParentOutside(nodes, base, None, x, p);
    forall i: nat ensures Count([f], i) <= Count(base, i) { FindCount(base, x, i); }
    HoldsFrame(nodes, nodes', [f], Some(p));
    HoldsConcat(nodes', [f], popped, Some(p));
    HoldsConcat(nodes', popped, [f], Some(p));
    RootsCount(popped, p);
    EditBelow(nodes, nodes', base, x, p, rep);
  }

  lemma InsertSlots(nodes: Slots, nodes': Slots, free: seq<nat>, base: seq<Tree>, popped: seq<Tree>, x: nat, p: nat,
                    rep: seq<Tree>, left: seq<Tree>)
    requires Holds(nodes, base, None) && SlotsOk(nodes, free, base + popped) && Count(base, x) == 1
    requires Live(nodes, x) && nodes[x].value.parent == Some(p) && Live(nodes, p)
    requires Splicing(Find(base, x), popped, rep, left)
    requires SplicedTo(nodes, nodes', p, SpliceId(nodes[p].value.children, x, Roots(rep)), Roots(popped))
    ensures SlotsOk(nodes', free, left + Edit(base, x, rep)) && Roots(Edit(base, x, rep)) == Roots(base)
  {
    var f := Find(base, x);
    forall i: nat ensures Count(left + Edit(base, x, rep), i) == Count(base + popped, i) {
      EditConservesSlots(base, x, rep, i);
      CountConcat([f], popped, i);
      CountConcat(popped, [f], i);
      CountConcat(base, popped, i);
      CountConcat(left, Edit(base, x, rep), i);
    }
    RootHasNoParent(nodes, base, x);
    EditRoots(base, x, rep);
    SpliceIdAbsent(Roots(base), x, Roots(rep));
  }

  lemma RootHasNoParent(nodes: Slots, ts: seq<Tree>, x: nat)
    requires Holds(nodes, ts, None) && Live(nodes, x) && nodes[x].value.parent.Some?
    ensures x !in Roots(ts)
  {
    if x in Roots(ts) {
      var k :| 0 <= k < |ts| && ts[k].id == x;
      HoldsAt(nodes, ts, None, k);
    }
  }

  /** The parent of `x` is not inside the subtree at `x`. */
  lemma ParentOutside(nodes: Slots, ts: seq<Tree>, q: Option<nat>, x: nat, p: nat)
    requires Holds(nodes, ts, q) && NoRepeats(ts) && Count(ts, x) == 1
    requires Live(nodes, x) && nodes[x].value.parent == Some(p)
    requires q == Some(p) ==> Count(ts, p) == 0
    ensures Count([Find(ts, x)], p) == 0
    decreases ts
  {
    NoRepeatsSplit(ts);
    var t := ts[0];
    if t.id == x {
      assert nodes[x].value.parent == q;
      CountCons(t, [], p);
      CountCons(t, ts[1..], p);
      assert [t] + [] == [t];
    } else if Count(t.kids, x) > 0 {
      ParentOutside(nodes, t.kids, Some(t.id), x, p);
    } else {
      ParentOutside(nodes, ts[1..], q, x, p);
    }
  }

  // ---------------------------------------------------------------- what a state gives an operation

  /** The node an element id resolves to: unknown ids mean the document root. */
  function Resolved(elementMap: seq<Option<nat>>, e: nat): nat {
    match Lookup(elementMap, e)
    case Some(n) => n
    case None => ROOT
  }

  lemma ResolvedKey(nodes: Slots, free: seq<nat>, elementMap: seq<Option<nat>>, stack: seq<nat>, forest: seq<Tree>,
                    own: seq<bool>, e: nat)
    requires Wf(nodes, free, elementMap, stack, forest, own)
    ensures Lookup(elementMap, Key(Doc(Erase(forest), own), e)) == Some(Resolved(elementMap, e))
    ensures HasEid(Erase(forest), 0) && HasEid(Erase(forest), Key(Doc(Erase(forest), own), e))
  {
    SlotsNoRepeats(nodes, free, forest);
    LookupNames(nodes, elementMap, forest, e);
    EraseKids(forest, 0);
    if Lookup(elementMap, e).Some? {
      LiveCount(nodes, free, forest, Lookup(elementMap, e).value);
    }
  }

  // ---------------------------------------------------------------- allocating and freeing

  /** The order in which a subtree's slots are handed back. */
  ghost function PostOrder(ts: seq<Tree>): seq<nat>
    decreases ts
  {
    if ts == [] then [] else PostOrder(ts[0].kids) + [ts[0].id] + PostOrder(ts[1..])
  }

  lemma PostOrderCount(ts: seq<Tree>, i: nat)
    ensures multiset(PostOrder(ts))[i] == Count(ts, i)
    decreases ts
  {
    if ts != [] {
      PostOrderCount(ts[0].kids, i);
      PostOrderCount(ts[1..], i);
    }
  }

  lemma PostOrderConcat(a: seq<Tree>, b: seq<Tree>)
    ensures PostOrder(a + b) == PostOrder(a) + PostOrder(b)
  {
    if a != [] {
      assert (a + b)[1..] == a[1..] + b;
      PostOrderConcat(a[1..], b);
    } else {
      assert a + b == b;
    }
  }

  lemma BlankConcat(a: seq<Template>, b: seq<Template>)
    ensures Blank(a + b) == Blank(a) + Blank(b)
  {
    if a != [] {
      assert (a + b)[1..] == a[1..] + b;
      BlankConcat(a[1..], b);
    } else {
      assert a + b == b;
    }
  }

  /** One tree of a forest, and what the trees before it leave alone. */
  lemma OneOf(ts: seq<Tree>, k: nat)
    requires k < |ts| && NoRepeats(ts)
    ensures NoRepeats([ts[k]]) && ts[..k + 1] == ts[..k] + [ts[k]]
    ensures forall i :: Count(ts[..k + 1], i) == Count(ts[..k], i) + Count([ts[k]], i)
    ensures forall i | Count([ts[k]], i) > 0 :: Count(ts[..k], i) == 0
    ensures PostOrder(ts[..k + 1]) == PostOrder(ts[..k]) + PostOrder([ts[k]])
  {
    CountSlices(ts, k);
    assert ts[..k + 1] == ts[..k] + [ts[k]];
    PostOrderConcat(ts[..k], [ts[k]]);
    forall i ensures Count(ts[..k + 1], i) == Count(ts[..k], i) + Count([ts[k]], i) {
      CountConcat(ts[..k], [ts[k]], i);
    }
    forall i: nat | Count([ts[k]], i) > 0 ensures Count(ts[..k], i) == 0 {
      assert Count(ts, i) <= 1;
    }
  }

  /** `node` went into the slot freed last, or into a new slot if none was free. */
  ghost predicate Allocated(nodes: Slots, free: seq<nat>, nodes': Slots, free': seq<nat>, slot: nat, node: Node) {
    if free == [] then
      slot == |nodes| && nodes' == nodes + [Some(node)] && free' == []
    else
      && slot == free[|free| - 1] && free' == free[..|free| - 1]
      && slot < |nodes| && nodes' == nodes[slot := Some(node)]
  }

  /** Old nodes are as they were; new ones carry no element id. */
  ghost predicate GrownFrom(nodes: Slots, nodes': Slots) {
    && (forall i: nat | Live(nodes, i) :: Live(nodes', i) && nodes'[i] == nodes[i])
    && (forall i: nat | Live(nodes', i) && !Live(nodes, i) :: nodes'[i].value.eid == None)
  }

  lemma SplitLast(s: seq<nat>)
    requires s != []
    ensures s == s[..|s| - 1] + [s[|s| - 1]] && s[|s| - 1] in s
    ensures multiset(s) == multiset(s[..|s| - 1]) + multiset{s[|s| - 1]}
  {
    assert s == s[..|s| - 1] + [s[|s| - 1]];
  }

  lemma AllocatedOk(nodes: Slots, free: seq<nat>, nodes': Slots, free': seq<nat>, node: Node, live: seq<Tree>, t: Tree)
    requires SlotsOk(nodes, free, live) && Allocated(nodes, free, nodes', free', t.id, node) && t.kids == []
    ensures node.eid == None ==> GrownFrom(nodes, nodes')
    ensures SlotsOk(nodes', free', live + [t]) && !Live(nodes, t.id)
  {
    assert [t] + [] == [t];
    if free != [] {
      SplitLast(free);
    }
    forall i: nat ensures multiset(free')[i] + Count(live + [t], i) == if i < |nodes'| then 1 else 0 {
      CountConcat(live, [t], i);
      CountCons(t, [], i);
      assert multiset(free)[i] + Count(live, i) == if i < |nodes| then 1 else 0;
    }
    forall i | i in free' ensures !Live(nodes', i) {
      CountConcat(live, [t], t.id);
      CountCons(t, [], t.id);
      assert multiset(free')[t.id] + Count(live + [t], t.id) <= 1;
      assert i != t.id && i in free;
    }
  }

  lemma AssembledGrown(nodes: Slots, free: seq<nat>, mid: Slots, nodes': Slots, free': seq<nat>, live: seq<Tree>,
                       bare: Tree, us: seq<Tree>)
    requires SlotsOk(nodes, free, live) && SlotsOk(mid, free', live + [bare] + us)
    requires GrownFrom(nodes, mid) && SplicedTo(mid, nodes', bare.id, Roots(us), Roots(us))
    ensures GrownFrom(nodes, nodes')
  {
    assert live + [bare] + us == live + ([bare] + us);
    Separate(mid, free', live, [bare] + us);
    forall i: nat | Live(nodes, i) ensures nodes'[i] == mid[i] {
      LiveCount(nodes, free, live, i);
      RootsCount(us, i);
      CountCons(bare, us, i);
    }
  }

  /** The parent slot and its finished children form the new tree. */
  lemma AssembledOk(nodes: Slots, nodes': Slots, free: seq<nat>, live: seq<Tree>, bare: Tree, us: seq<Tree>)
    requires bare.kids == [] && SlotsOk(nodes, free, live + [bare] + us)
    requires Live(nodes, bare.id) && nodes[bare.id].value == Node(bare.kind, [], None, bare.eid)
    requires Holds(nodes, us, None) && SplicedTo(nodes, nodes', bare.id, Roots(us), Roots(us))
    ensures var t := bare.(kids := us); SlotsOk(nodes', free, live + [t]) && Holds(nodes', [t], None)
    ensures forall i: nat | Count(live, i) > 0 && Live(nodes, i) :: nodes'[i] == nodes[i]
  {
    var t := bare.(kids := us);
    forall i: nat
      ensures Count(live + [t], i) == Count(live + [bare] + us, i) ==
              Count(live, i) + (if i == bare.id then 1 else 0) + Count(us, i)
    {
      CountConcat(live + [bare], us, i);
      CountConcat(live, [bare], i);
      CountConcat(live, [t], i);
      CountCons(bare, [], i);
      CountCons(t, [], i);
      assert [bare] + [] == [bare] && [t] + [] == [t];
    }
    SlotsNoRepeats(nodes, free, live + [bare] + us);
    forall i ensures Count(us, i) <= 1 { assert Count(live + [bare] + us, i) <= 1; }
    forall i: nat ensures i in Roots(us) ==> Count(us, i) == 1 && i != bare.id { RootsCount(us, i); }
    ReparentHolds(nodes, nodes', us, bare.id, Roots(us));
    assert [t][1..] == [];
  }

  lemma SlotsInRange(nodes: Slots, free: seq<nat>, live: seq<Tree>)
    requires SlotsOk(nodes, free, live)
    ensures forall i | i in free :: i < |nodes|
  {
    forall i | i in free ensures i < |nodes| {
      assert multiset(free)[i] > 0;
    }
  }

  lemma RootLive(nodes: Slots, ts: seq<Tree>, q: Option<nat>, n: nat)
    requires Holds(nodes, ts, q) && n in Roots(ts)
    ensures Live(nodes, n)
  {
    var k :| 0 <= k < |ts| && ts[k].id == n;
    HoldsAt(nodes, ts, q, k);
  }

  /** From `nodes` to `nodes'` exactly the slots of `ts` died. */
  ghost predicate FreedTo(nodes: Slots, nodes': Slots, ts: seq<Tree>) {
    && |nodes'| == |nodes|
    && (forall i: nat :: Live(nodes', i) <==> (Live(nodes, i) && Count(ts, i) == 0))
    && (forall i: nat | Live(nodes', i) :: nodes'[i] == nodes[i])
  }

  lemma FreedNext(nodes: Slots, mid: Slots, nodes': Slots, ts: seq<Tree>, k: nat)
    requires k < |ts| && NoRepeats(ts)
    requires FreedTo(nodes, mid, ts[..k]) && FreedTo(mid, nodes', [ts[k]])
    ensures FreedTo(nodes, nodes', ts[..k + 1])
  {
    OneOf(ts, k);
  }

  /** A node goes last: its children are gone and its own child list was emptied first. */
  lemma FreedRoot(nodes: Slots, mid: Slots, t: Tree, elementMap: seq<Option<nat>>)
    requires Live(nodes, t.id) && Count(t.kids, t.id) == 0 && MapOk(mid, elementMap)
    requires FreedTo(nodes[t.id := Some(nodes[t.id].value.(children := []))], mid, t.kids)
    ensures Live(mid, t.id) && mid[t.id].value == nodes[t.id].value.(children := [])
    ensures FreedTo(nodes, mid[t.id := None], [t])
    ensures var e := mid[t.id].value.eid;
            MapOk(mid[t.id := None], if e.Some? then Unmapped(elementMap, e.value) else elementMap)
    ensures PostOrder([t]) == PostOrder(t.kids) + [t.id]
  {
    assert [t] + [] == [t];
    forall i ensures Count([t], i) == Count(t.kids, i) + if i == t.id then 1 else 0 { CountCons(t, [], i); }
    var nodes', e := mid[t.id := None], mid[t.id].value.eid;
    var elementMap' := if e.Some? then Unmapped(elementMap, e.value) else elementMap;
    forall k: nat | Lookup(elementMap', k).Some?
      ensures var i := Lookup(elementMap', k).value; Live(nodes', i) && nodes'[i].value.eid == Some(k)
    {
      assert Lookup(elementMap', k) == Lookup(elementMap, k);
    }
  }

  function Unmapped(elementMap: seq<Option<nat>>, e: nat): seq<Option<nat>> {
    if e < |elementMap| then elementMap[e := None] else elementMap
  }

  lemma InitialWf()
    ensures Wf([Some(Node(Element("root", []), [], None, Some(0)))], [], [Some(ROOT)], [],
               [Tree(ROOT, Element("root", []), Some(0), [])], [])
  {
    var nodes := [Some(Node(Element("root", []), [], None, Some(0)))];
    var forest := [Tree(ROOT, Element("root", []), Some(0), [])];
    assert forest[1..] == [] && Roots(forest)[1..] == [];
    forall i: nat ensures multiset([])[i] + Count(forest, i) == if i < |nodes| then 1 else 0 {
      assert Count(forest, i) == if i == ROOT then 1 else 0;
    }
    HoldsOne(nodes, forest[0], None);
    assert MapOk(nodes, [Some(ROOT)]);
  }

  lemma EraseBlank(t: Tree, tn: Template)
    requires t.kind == KindOf(tn) && t.eid == None
    requires Erase(t.kids) == if tn.TElement? then Blank(tn.kids) else []
    ensures Erase([t]) == Blank([tn])
  {
    assert [t][1..] == [] && [tn][1..] == [];
  }

  /** Index of the first occurrence of `x`. */
  function Position(cs: seq<nat>, x: nat): (k: nat)
    requires x in cs
    ensures k < |cs| && cs[k] == x && x !in cs[..k]
  {
    if cs[0] == x then 0 else 1 + Position(cs[1..], x)
  }
}
