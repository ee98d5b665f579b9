/**
 * The retained node tree and its mutation interpreter.
 *
 * The arena refines the pure interpreter of `DomSpec`: every mutation method keeps `Valid()` and takes
 * `View()` to exactly what `Step` makes of it.
 */
module DomInterpreter {
  import opened Options
  import opened RoseTree
  import opened DomForest
  import opened DomSpec
  import opened DomArena
  import opened DomSteps
  import opened Sequences

  class Dom {
    var nodes: Slots
    var free: seq<nat>
    var elementMap: seq<Option<nat>>
    var stack: seq<nat>

    /** The forest the arena holds: the document, then the detached trees on the stack. */
    ghost var forest: seq<Tree>
    /** Which stack entries own a detached tree. */
    ghost var own: seq<bool>

    ghost predicate Valid()
      reads this
    {
      Wf(nodes, free, elementMap, stack, forest, own)
    }

    ghost function View(): (d: Doc)
      reads this
      ensures Valid() ==> HasEid(d.trees, 0)
    {
      if Valid() then RootIsNamed(forest); Doc(Erase(forest), own) else Doc(Erase(forest), own)
    }

    constructor ()
      ensures Valid()
      ensures View() == Doc([ETree(Element("root", []), Some(0), [])], [])
    {
      nodes := [Some(Node(Element("root", []), [], None, Some(0)))];
      free := [];
      elementMap := [Some(ROOT)];
      stack := [];
      forest := [Tree(ROOT, Element("root", []), Some(0), [])];
      own := [];
      new;
      InitialWf();
      assert forest[1..] == [];
    }

    method Alloc(node: Node) returns (slot: nat)
      requires forall i | i in free :: i < |nodes|
      modifies this`nodes, this`free
      ensures Allocated(old(nodes), old(free), nodes, free, slot, node)
    {
      if free != [] {
        slot := free[|free| - 1];
        assert slot in free;
        free := free[..|free| - 1];
        nodes := nodes[slot := Some(node)];
      } else {
        nodes := nodes + [Some(node)];
        slot := |nodes| - 1;
      }
    }

    method MapElement(e: nat, node: nat)
      requires Live(nodes, node)
      modifies this`nodes, this`elementMap
      ensures nodes == old(nodes)[node := Some(old(nodes)[node].value.(eid := Some(e)))]
      ensures forall k: nat :: Lookup(elementMap, k) == if k == e then Some(node) else Lookup(old(elementMap), k)
    {
      if |elementMap| <= e {
        elementMap := elementMap + seq(e + 1 - |elementMap|, _ => None);
      }
      elementMap := elementMap[e := Some(node)];
      nodes := nodes[node := Some(nodes[node].value.(eid := Some(e)))];
    }

    function Resolve(e: nat): nat
      reads this
    {
      Resolved(elementMap, e)
    }

    /** Walk down child indices; the ghost argument is the forest the walk takes place in. */
    method Navigate(root: nat, path: seq<nat>, ghost ts: seq<Tree>, ghost q: Option<nat>, ghost k: nat)
      returns (cur: nat)
      requires Holds(nodes, ts, q) && k < |ts| && ts[k].id == root
      requires PathOk(Erase(ts), [k] + path)
      ensures cur == TreeAt(ts, [k] + path).id
    {
      cur := root;
      ghost var us, q', i: nat := ts, q, k;
      for j := 0 to |path|
        invariant Holds(nodes, us, q') && i < |us| && us[i].id == cur
        invariant PathOk(Erase(us), [i] + path[j..])
        invariant TreeAt(us, [i] + path[j..]) == TreeAt(ts, [k] + path)
      {
        HoldsAt(nodes, us, q', i);
        EraseKids(us, i);
        assert ([i] + path[j..])[1..] == [path[j]] + path[j + 1..];
        us, q', i := us[i].kids, Some(us[i].id), path[j];
        cur := nodes[cur].value.children[path[j]];
      }
    }

    /** Materialise a static template node, its dynamic slots as placeholders, in fresh slots. */
    method Instantiate(tn: Template, ghost live: seq<Tree>) returns (id: nat, ghost t: Tree)
      requires SlotsOk(nodes, free, live)
      modifies this`nodes, this`free
      ensures t.id == id && Holds(nodes, [t], None) && SlotsOk(nodes, free, live + [t])
      ensures Erase([t]) == Blank([tn])
      ensures GrownFrom(old(nodes), nodes)
      decreases tn, 1
    {
      SlotsInRange(nodes, free, live);
      id := Alloc(Node(KindOf(tn), [], None, None));
      ghost var bare := Tree(id, KindOf(tn), None, []);
      AllocatedOk(old(nodes), old(free), nodes, free, Node(KindOf(tn), [], None, None), live, bare);
      t := bare;
      HoldsOne(nodes, bare, None);
      if !tn.TElement? {
        EraseBlank(t, tn);
      }
      if tn.TElement? {
        var ids, us := InstantiateAll(tn.kids, live + [bare]);
        ghost var built := nodes;
        forall n | n in ids ensures Live(nodes, n) { RootLive(nodes, us, None, n); }
        SetParents(ids, id);
        nodes := nodes[id := Some(nodes[id].value.(children := ids))];
        AssembledOk(built, nodes, free, live, bare, us);
        AssembledGrown(old(nodes), old(free), built, nodes, free, live, bare, us);
        t := bare.(kids := us);
        EraseBlank(t, tn);
      }
    }

    /** The children of a template node, in order. */
    method InstantiateAll(tns: seq<Template>, ghost live: seq<Tree>) returns (ids: seq<nat>, ghost us: seq<Tree>)
      requires SlotsOk(nodes, free, live)
      modifies this`nodes, this`free
      ensures ids == Roots(us) && Holds(nodes, us, None) && SlotsOk(nodes, free, live + us)
      ensures Erase(us) == Blank(tns)
      ensures GrownFrom(old(nodes), nodes)
      decreases tns, 0
    {
      ids, us := [], [];
      assert live + us == live;
      for k := 0 to |tns|
        invariant ids == Roots(us) && Holds(nodes, us, None) && Erase(us) == Blank(tns[..k])
        invariant SlotsOk(nodes, free, live + us)
        invariant GrownFrom(old(nodes), nodes)
      {
        ghost var before := nodes;
        var c, u := Instantiate(tns[k], live + us);
        HoldsFrame(before, nodes, us, None);
        HoldsConcat(nodes, us, [u], None);
        EraseConcat(us, [u]);
        BlankConcat(tns[..k], [tns[k]]);
        assert tns[..k + 1] == tns[..k] + [tns[k]];
        assert live + us + [u] == live + (us + [u]);
        ids, us := ids + [c], us + [u];
      }
      assert tns[..|tns|] == tns;
    }

    /** `node_mut(c).parent = Some(p)` for each `c` of `ids`. */
    method SetParents(ids: seq<nat>, p: nat)
      requires Live(nodes, p) && forall n | n in ids :: Live(nodes, n)
      modifies this`nodes
      ensures SplicedTo(old(nodes), nodes, p, old(nodes)[p].value.children, ids)
    {
      for k := 0 to |ids|
        invariant SplicedTo(old(nodes), nodes, p, old(nodes)[p].value.children, ids[..k])
      {
        assert ids[k] in ids && Live(nodes, ids[k]);
        nodes := nodes[ids[k] := Some(nodes[ids[k]].value.(parent := Some(p)))];
        assert ids[..k + 1] == ids[..k] + [ids[k]];
      }
      assert ids[..|ids|] == ids;
    }

    method PopN(m: nat) returns (popped: seq<nat>)
      requires m <= |stack|
      modifies this`stack
      ensures stack == old(stack)[..|old(stack)| - m] && popped == old(stack)[|old(stack)| - m..]
    {
      var at := |stack| - m;
      popped := stack[at..];
      stack := stack[..at];
    }

    /** Take `node` out of its parent's child list; its own parent link stays. */
    method Detach(node: nat)
      requires Live(nodes, node)
      requires nodes[node].value.parent.Some? ==> Live(nodes, nodes[node].value.parent.value)
      modifies this`nodes
      ensures var p := old(nodes)[node].value.parent;
              if p.Some? && node in old(nodes)[p.value].value.children then
                var cs := old(nodes)[p.value].value.children;
                var k := Position(cs, node);
                nodes == old(nodes)[p.value := Some(old(nodes)[p.value].value.(children := cs[..k] + cs[k + 1..]))]
              else nodes == old(nodes)
    {
      match nodes[node].value.parent {
        case Some(p) =>
          var cs := nodes[p].value.children;
          if node in cs {
            var k := Position(cs, node);
            nodes := nodes[p := Some(nodes[p].value.(children := cs[..k] + cs[k + 1..]))];
          }
        case None =>
      }
    }

    /** Free a node and its whole subtree, and clear the element map entries that named it. */
    method FreeSubtree(node: nat, ghost t: Tree, ghost q: Option<nat>)
      requires t.id == node && Holds(nodes, [t], q) && NoRepeats([t]) && MapOk(nodes, elementMap)
      modifies this`nodes, this`free, this`elementMap
      ensures MapOk(nodes, elementMap)
      ensures free == old(free) + PostOrder([t])
      ensures FreedTo(old(nodes), nodes, [t])
      decreases t
    {
      CountCons(t, [], node);
      assert [t] + [] == [t];
      NoRepeatsSplit([t]);
      var kids := nodes[node].value.children;
      nodes := nodes[node := Some(nodes[node].value.(children := []))];
      ghost var start := nodes;
      HoldsFrame(old(nodes), start, t.kids, Some(node));
      MapOkSameIds(old(nodes), start, elementMap);
      for k := 0 to |kids|
        invariant MapOk(nodes, elementMap)
        invariant free == old(free) + PostOrder(t.kids[..k])
        invariant FreedTo(start, nodes, t.kids[..k])
      {
        ghost var mid := nodes;
        OneOf(t.kids, k);
        HoldsAt(start, t.kids, Some(node), k);
        HoldsFrame(start, nodes, [t.kids[k]], Some(node));
        FreeSubtree(kids[k], t.kids[k], Some(node));
        FreedNext(start, mid, nodes, t.kids, k);
        Regroup(old(free), PostOrder(t.kids[..k]), PostOrder([t.kids[k]]));
      }
      assert t.kids[..|kids|] == t.kids;
      FreedRoot(old(nodes), nodes, t, elementMap);
      if nodes[node].value.eid.Some? {
        elementMap := Unmapped(elementMap, nodes[node].value.eid.value);
      }
      nodes := nodes[node := None];
      Regroup(old(free), PostOrder(t.kids), [node]);
      free := free + [node];
    }

    /** Insert `moved` into the child list of `parent`, in order, starting at index `at`. */
    method SpliceIntoParent(parent: nat, at: nat, moved: seq<nat>)
      requires Live(nodes, parent) && at <= |nodes[parent].value.children|
      requires forall n | n in moved :: Live(nodes, n)
      modifies this`nodes
      ensures var cs := old(nodes)[parent].value.children;
              SplicedTo(old(nodes), nodes, parent, PutAt(cs, at, moved), moved)
    {
      ghost var cs := nodes[parent].value.children;
      for k := 0 to |moved|
        invariant Live(nodes, parent) && nodes[parent].value.children == cs[..at] + moved[..k] + cs[at..]
        invariant SplicedTo(old(nodes), nodes, parent, cs[..at] + moved[..k] + cs[at..], moved[..k])
      {
        var n := moved[k];
        assert n in moved && Live(old(nodes), n) && Live(nodes, n);
        nodes := nodes[n := Some(nodes[n].value.(parent := Some(parent)))];
        var now := nodes[parent].value.children;
        nodes := nodes[parent := Some(nodes[parent].value.(children := now[..at + k] + [n] + now[at + k..]))];
        assert moved[..k + 1] == moved[..k] + [n];
        assert now[..at + k] + [n] + now[at + k..] == cs[..at] + moved[..k + 1] + cs[at..];
      }
      assert moved[..|moved|] == moved;
    }

    // -------------------------------------------------------------- WriteMutations

    /** Pop `m` stack entries and the trees they own. */
    method PopTrees(m: nat) returns (moved: seq<nat>, ghost base: seq<Tree>, ghost popped: seq<Tree>)
      requires Valid() && Poppable(View(), m)
      modifies this`stack, this`own
      ensures Drawn(nodes, free, elementMap, stack, base, popped, own, old(View()), m) && moved == Roots(popped)
    {
      base, popped := PopFacts(nodes, free, elementMap, stack, forest, own, m);
      moved := PopN(m);
      own := own[..|own| - m];
    }

    /** Splice `moved` at the end of the child list of `parent`. */
    method SpliceAtEnd(parent: nat, moved: seq<nat>, ghost e: nat, ghost base: seq<Tree>, ghost popped: seq<Tree>)
      requires Split(nodes, free, elementMap, stack, base, popped, own) && moved == Roots(popped)
      requires HasEid(Erase(base), e) && Lookup(elementMap, e) == Some(parent)
      modifies this`nodes, this`forest
      ensures Valid()
      ensures var t := EFind(Erase(base), e);
              Erase(forest) == EEdit(Erase(base), e, [t.(kids := t.kids + Erase(popped))])
    {
      Separate(nodes, free, base, popped);
      LookupNames(nodes, elementMap, base, e);
      forall n | n in moved ensures Live(nodes, n) { RootLive(nodes, popped, None, n); }
      var at := |nodes[parent].value.children|;
      AppendAt(nodes[parent].value.children, moved);
      SpliceIntoParent(parent, at, moved);
      forest := AppendStep(old(nodes), free, elementMap, stack, base, popped, own, nodes, parent, e);
    }

    method AppendChildren(e: nat, m: nat)
      requires Valid() && Legal(View(), Op.AppendChildren(e, m))
      modifies this
      ensures Valid() && View() == Step(old(View()), Op.AppendChildren(e, m))
    {
      ghost var key := PlanAppend(nodes, free, elementMap, stack, forest, own, e, m);
      var parent := Resolve(e);
      var moved, base, popped := PopTrees(m);
      SpliceAtEnd(parent, moved, key, base, popped);
    }

    /** Put `moved` in the place of `target`, which stays behind unlinked. */
    method SwapIn(target: nat, moved: seq<nat>, ghost base: seq<Tree>, ghost popped: seq<Tree>)
      requires Split(nodes, free, elementMap, stack, base, popped, own) && moved == Roots(popped)
      requires Count(base, target) == 1 && target !in Roots(base)
      modifies this`nodes
      ensures Pending(nodes, free, elementMap, stack, [Find(base, target)], Edit(base, target, popped), own)
      ensures Live(nodes, target) && Holds(nodes, [Find(base, target)], nodes[target].value.parent)
    {
      Separate(nodes, free, base, popped);
      PlaceOf(nodes, base, target);
      forall n | n in moved ensures Live(nodes, n) { RootLive(nodes, popped, None, n); }
      var parent := nodes[target].value.parent.value;
      var cs := nodes[parent].value.children;
      var at := if target in cs then Position(cs, target) else 0;
      CutAt(cs, target, moved);
      Detach(target);
      SpliceIntoParent(parent, at, moved);
      InsertStep(old(nodes), free, elementMap, stack, base, popped, own, nodes, target, parent, popped,
        [Find(base, target)]);
    }

    /** Free the unlinked subtree at `target`. */
    method FreeUnlinked(target: nat, ghost t: Tree, ghost rest: seq<Tree>)
      requires Pending(nodes, free, elementMap, stack, [t], rest, own) && t.id == target
      requires Live(nodes, target) && Holds(nodes, [t], nodes[target].value.parent)
      modifies this`nodes, this`free, this`elementMap, this`forest
      ensures Valid() && forest == rest
    {
      FreeSubtree(target, t, nodes[target].value.parent);
      FreeStep(old(nodes), old(free), old(elementMap), nodes, free, elementMap, stack, t, rest, own);
      forest := rest;
    }

    /** Put `moved` in the place of `target` and free `target`. */
    method ReplaceAt(target: nat, moved: seq<nat>, ghost base: seq<Tree>, ghost popped: seq<Tree>)
      requires Split(nodes, free, elementMap, stack, base, popped, own) && moved == Roots(popped)
      requires Count(base, target) == 1 && target !in Roots(base)
      modifies this`nodes, this`free, this`elementMap, this`forest
      ensures Valid() && forest == Edit(base, target, popped)
    {
      SwapIn(target, moved, base, popped);
      FreeUnlinked(target, Find(base, target), Edit(base, target, popped));
    }

    method ReplaceNodeWith(e: nat, m: nat)
      requires Valid() && Legal(View(), Op.ReplaceNodeWith(e, m))
      modifies this
      ensures Valid() && View() == Step(old(View()), Op.ReplaceNodeWith(e, m))
    {
      ghost var d := View();
      var target := Resolve(e);
      var moved, base, popped := PopTrees(m);
      ghost var x := PlanReplace(nodes, free, elementMap, stack, base, popped, own, d, e, m);
      ReplaceAt(target, moved, base, popped);
    }

    /** Put `moved` in the place of the node `path` leads to below the stack top, and free that node. */
    method ReplaceBelowTop(path: seq<nat>, moved: seq<nat>, ghost base: seq<Tree>, ghost popped: seq<Tree>,
                           ghost x: nat)
      requires Split(nodes, free, elementMap, stack, base, popped, own) && moved == Roots(popped)
      requires stack != [] && base != [] && stack[|stack| - 1] == base[|base| - 1].id
      requires PathOk(Erase(base), [|base| - 1] + path) && x == TreeAt(base, [|base| - 1] + path).id
      requires Count(base, x) == 1 && x !in Roots(base)
      modifies this`nodes, this`free, this`elementMap, this`forest
      ensures Valid() && forest == Edit(base, x, popped)
    {
      var root := stack[|stack| - 1];
      var target := Navigate(root, path, base, None, |base| - 1);
      ReplaceAt(target, moved, base, popped);
    }

    method ReplacePlaceholderWithNodes(path: seq<nat>, m: nat)
      requires Valid() && Legal(View(), Op.ReplacePlaceholderWithNodes(path, m))
      modifies this
      ensures Valid() && View() == Step(old(View()), Op.ReplacePlaceholderWithNodes(path, m))
    {
      ghost var d := View();
      PoppableLess(d, m);
      var moved, base, popped := PopTrees(m);
      ghost var x := PlanReplacePath(nodes, free, elementMap, stack, base, popped, own, d, path, m);
      ReplaceBelowTop(path, moved, base, popped, x);
    }

    /** Splice `moved` next to `anchor`, in its parent's child list. */
    method SpliceBeside(anchor: nat, moved: seq<nat>, after: bool, ghost base: seq<Tree>, ghost popped: seq<Tree>)
      requires Split(nodes, free, elementMap, stack, base, popped, own) && moved == Roots(popped)
      requires Count(base, anchor) == 1 && anchor !in Roots(base)
      modifies this`nodes, this`forest
      ensures Valid() && forest == Edit(base, anchor, Beside(Find(base, anchor), popped, after))
    {
      Separate(nodes, free, base, popped);
      PlaceOf(nodes, base, anchor);
      forall n | n in moved ensures Live(nodes, n) { RootLive(nodes, popped, None, n); }
      var parent := nodes[anchor].value.parent.value;
      var cs := nodes[parent].value.children;
      var at := if anchor in cs then Position(cs, anchor) + (if after then 1 else 0) else 0;
      CutAfter(cs, anchor, moved);
      CutBefore(cs, anchor, moved);
      RootsAround(Find(base, anchor), popped);
      SpliceIntoParent(parent, at, moved);
      ghost var rep := Beside(Find(base, anchor), popped, after);
      InsertStep(old(nodes), free, elementMap, stack, base, popped, own, nodes, anchor, parent, rep, []);
      NothingPending(nodes, free, elementMap, stack, Edit(base, anchor, rep), own);
      forest := Edit(base, anchor, rep);
    }

    /** Insert the popped nodes next to the node `e` names. */
    method InsertBeside(e: nat, m: nat, after: bool)
      requires Valid() && Legal(View(), InsertOp(e, m, after))
      modifies this
      ensures Valid() && View() == Step(old(View()), InsertOp(e, m, after))
    {
      ghost var d := View();
      var anchor := Resolve(e);
      var moved, base, popped := PopTrees(m);
      ghost var x := PlanInsert(nodes, free, elementMap, stack, base, popped, own, d, e, m, after);
      SpliceBeside(anchor, moved, after, base, popped);
    }

    method InsertNodesAfter(e: nat, m: nat)
      requires Valid() && Legal(View(), Op.InsertNodesAfter(e, m))
      modifies this
      ensures Valid() && View() == Step(old(View()), Op.InsertNodesAfter(e, m))
    {
      InsertBeside(e, m, true);
    }

    method InsertNodesBefore(e: nat, m: nat)
      requires Valid() && Legal(View(), Op.InsertNodesBefore(e, m))
      modifies this
      ensures Valid() && View() == Step(old(View()), Op.InsertNodesBefore(e, m))
    {
      InsertBeside(e, m, false);
    }

    method RemoveNode(e: nat)
      requires Valid() && Legal(View(), Op.RemoveNode(e))
      modifies this
      ensures Valid() && View() == Step(old(View()), Op.RemoveNode(e))
    {
      ghost var base, x := PlanRemove(nodes, free, elementMap, stack, forest, own, e);
      var node := Resolve(e);
      Unlink(node, base);
      FreeUnlinked(node, Find(base, x), Edit(base, x, []));
    }

    /** Detach `node`, which stays behind unlinked. */
    method Unlink(node: nat, ghost base: seq<Tree>)
      requires Split(nodes, free, elementMap, stack, base, [], own)
      requires Count(base, node) == 1 && node !in Roots(base)
      modifies this`nodes
      ensures Pending(nodes, free, elementMap, stack, [Find(base, node)], Edit(base, node, []), own)
      ensures Live(nodes, node) && Holds(nodes, [Find(base, node)], nodes[node].value.parent)
    {
      Separate(nodes, free, base, []);
      PlaceOf(nodes, base, node);
      ghost var parent := nodes[node].value.parent.value;
      CutAt(nodes[parent].value.children, node, []);
      Detach(node);
      InsertStep(old(nodes), free, elementMap, stack, base, [], own, nodes, node, parent, [], [Find(base, node)]);
    }

    method PushRoot(e: nat)
      requires Valid() && Legal(View(), Op.PushRoot(e))
      modifies this`stack, this`own
      ensures Valid() && View() == Step(old(View()), Op.PushRoot(e)) && stack == old(stack) + [Resolved(elementMap, e)]
    {
      var node := Resolve(e);
      PushOwned(stack, own, node, false);
      stack := stack + [node];
      own := own + [false];
    }

    method AssignNodeId(path: seq<nat>, e: nat)
      requires Valid() && Legal(View(), Op.AssignNodeId(path, e))
      modifies this
      ensures Valid() && View() == Step(old(View()), Op.AssignNodeId(path, e))
    {
      ghost var x := PlanAssign(nodes, free, elementMap, stack, forest, own, path, e);
      var root := stack[|stack| - 1];
      var target := Navigate(root, path, forest, None, |forest| - 1);
      MapElement(e, target);
      MapFresh(old(nodes), old(elementMap), x, e, elementMap);
      forest := RelabelStep(old(nodes), free, old(elementMap), stack, forest, own, nodes, elementMap, x,
                            nodes[x].value);
    }

    /** Allocate a childless node, name it and push it. */
    method PushNew(kind: Kind, e: nat)
      requires Valid() && !HasEid(View().trees, e)
      modifies this
      ensures Valid() && View() == Push(old(View()), ETree(kind, Some(e), []))
    {
      FreshEid(nodes, free, elementMap, stack, forest, own, e);
      SlotsInRange(nodes, free, forest);
      var n := Alloc(Node(kind, [], None, None));
      ghost var t := Tree(n, kind, None, []);
      AllocatedOk(old(nodes), old(free), nodes, free, Node(kind, [], None, None), forest, t);
      HoldsOne(nodes, t, None);
      EraseKids([t], 0);
      ghost var mid := nodes;
      MapElement(e, n);
      forest := PushNamed(old(nodes), old(free), old(elementMap), stack, forest, own, mid, free, t, e, elementMap);
      stack := stack + [n];
      own := own + [true];
    }

    method CreatePlaceholder(e: nat)
      requires Valid() && Legal(View(), Op.CreatePlaceholder(e))
      modifies this
      ensures Valid() && View() == Step(old(View()), Op.CreatePlaceholder(e))
    {
      PushNew(Placeholder, e);
    }

    method CreateTextNode(text: string, e: nat)
      requires Valid() && Legal(View(), Op.CreateTextNode(text, e))
      modifies this
      ensures Valid() && View() == Step(old(View()), Op.CreateTextNode(text, e))
    {
      PushNew(Text(text), e);
    }

    method LoadTemplate(roots: seq<Template>, index: nat, e: nat)
      requires Valid() && Legal(View(), Op.LoadTemplate(roots, index, e))
      modifies this
      ensures Valid() && View() == Step(old(View()), Op.LoadTemplate(roots, index, e))
    {
      FreshEid(nodes, free, elementMap, stack, forest, own, e);
      var root, t := Instantiate(roots[index], forest);
      ghost var mid := nodes;
      EraseKids([t], 0);
      MapElement(e, root);
      forest := PushNamed(old(nodes), old(free), old(elementMap), stack, forest, own, mid, free, t, e, elementMap);
      stack := stack + [root];
      own := own + [true];
    }

    method SetNodeText(text: string, e: nat)
      requires Valid() && Legal(View(), Op.SetNodeText(text, e))
      modifies this
      ensures Valid() && View() == Step(old(View()), Op.SetNodeText(text, e))
    {
      var node := Resolve(e);
      ResolvedLive(nodes, free, elementMap, stack, forest, own, e);
      if nodes[node].value.kind.Text? {
        nodes := nodes[node := Some(nodes[node].value.(kind := Text(text)))];
      }
      forest := KindStep(old(nodes), free, elementMap, stack, forest, own, nodes, e, Op.SetNodeText(text, e));
    }

    method CreateEventListener(name: string, e: nat)
      requires Valid() && Legal(View(), Op.CreateEventListener(name, e))
      modifies this
      ensures Valid() && View() == Step(old(View()), Op.CreateEventListener(name, e))
    {
      var node := Resolve(e);
      ResolvedLive(nodes, free, elementMap, stack, forest, own, e);
      match nodes[node].value.kind {
        case Element(tag, listeners) =>
          if name !in listeners {
            nodes := nodes[node := Some(nodes[node].value.(kind := Element(tag, listeners + [name])))];
          }
        case _ =>
      }
      forest := KindStep(old(nodes), free, elementMap, stack, forest, own, nodes, e, Op.CreateEventListener(name, e));
    }

    method RemoveEventListener(name: string, e: nat)
      requires Valid() && Legal(View(), Op.RemoveEventListener(name, e))
      modifies this
      ensures Valid() && View() == Step(old(View()), Op.RemoveEventListener(name, e))
    {
      var node := Resolve(e);
      ResolvedLive(nodes, free, elementMap, stack, forest, own, e);
      match nodes[node].value.kind {
        case Element(tag, listeners) =>
          nodes := nodes[node := Some(nodes[node].value.(kind := Element(tag, Without(listeners, name))))];
        case _ =>
      }
      forest := KindStep(old(nodes), free, elementMap, stack, forest, own, nodes, e, Op.RemoveEventListener(name, e));
    }

    // -------------------------------------------------------------- whole runs

    method Apply(op: Op)
      requires Valid() && Legal(View(), op)
      modifies this
      ensures Valid() && View() == Step(old(View()), op)
    {
      match op {
        case AppendChildren(e, m) => AppendChildren(e, m);
        case AssignNodeId(path, e) => AssignNodeId(path, e);
        case CreatePlaceholder(e) => CreatePlaceholder(e);
        case CreateTextNode(text, e) => CreateTextNode(text, e);
        case LoadTemplate(roots, index, e) => LoadTemplate(roots, index, e);
        case ReplaceNodeWith(e, m) => ReplaceNodeWith(e, m);
        case ReplacePlaceholderWithNodes(path, m) => ReplacePlaceholderWithNodes(path, m);
        case InsertNodesAfter(e, m) => InsertNodesAfter(e, m);
        case InsertNodesBefore(e, m) => InsertNodesBefore(e, m);
        case SetNodeText(text, e) => SetNodeText(text, e);
        case CreateEventListener(name, e) => CreateEventListener(name, e);
        case RemoveEventListener(name, e) => RemoveEventListener(name, e);
        case RemoveNode(e) => RemoveNode(e);
        case PushRoot(e) => PushRoot(e);
      }
    }

    /** Every legal run of mutations keeps the arena sound and ends in the document the pure run ends in. */
    method Run(ops: seq<Op>)
      requires Valid() && LegalRun(View(), ops)
      modifies this
      ensures Valid() && View() == RunDoc(old(View()), ops)
    {
      for i := 0 to |ops|
        invariant Valid() && LegalRun(View(), ops[i..])
        invariant RunDoc(View(), ops[i..]) == RunDoc(old(View()), ops)
      {
        assert ops[i..][1..] == ops[i + 1..];
        Apply(ops[i]);
      }
    }
  }
}
