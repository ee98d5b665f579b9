/**
 * What the mutations mean for a reader of the document: order, identity, conservation, undoing.
 */
module DomDocument {
  import opened Options
  import opened RoseTree
  import opened DomSpec

  /** How many nodes carry element id `e`. */
  ghost function CountEid(ts: seq<ETree>, e: nat): nat
    decreases ts
  {
    if ts == [] then 0
    else (if ts[0].eid == Some(e) then 1 else 0) + CountEid(ts[0].kids, e) + CountEid(ts[1..], e)
  }

  ghost predicate UniqueIds(ts: seq<ETree>) {
    forall e :: CountEid(ts, e) <= 1
  }

  lemma CountEidConcat(a: seq<ETree>, b: seq<ETree>, e: nat)
    ensures CountEid(a + b, e) == CountEid(a, e) + CountEid(b, e)
  {
    if a != [] {
      assert (a + b)[1..] == a[1..] + b;
      CountEidConcat(a[1..], b, e);
    } else {
      assert a + b == b;
    }
  }

  lemma CountEidCons(t: ETree, rest: seq<ETree>, e: nat)
    ensures CountEid([t] + rest, e) == (if t.eid == Some(e) then 1 else 0) + CountEid(t.kids, e) + CountEid(rest, e)
  {
    assert ([t] + rest)[1..] == rest;
  }

  lemma HasEidCount(ts: seq<ETree>, e: nat)
    ensures HasEid(ts, e) <==> CountEid(ts, e) > 0
    decreases ts
  {
    if ts != [] {
      HasEidCount(ts[0].kids, e);
      HasEidCount(ts[1..], e);
    }
  }

  lemma EEditAbsent(ts: seq<ETree>, e: nat, rep: seq<ETree>)
    requires CountEid(ts, e) == 0
    ensures EEdit(ts, e, rep) == ts
    decreases ts
  {
    if ts != [] {
      EEditAbsent(ts[0].kids, e, rep);
      EEditAbsent(ts[1..], e, rep);
    }
  }

  /** An edit gives up exactly the ids of the subtree it replaces and takes exactly those of `rep`. */
  lemma {:induction false} EEditConservesIds(ts: seq<ETree>, e: nat, rep: seq<ETree>, k: nat)
    requires CountEid(ts, e) == 1 && HasEid(ts, e)
    ensures CountEid(EEdit(ts, e, rep), k) + CountEid([EFind(ts, e)], k) == CountEid(ts, k) + CountEid(rep, k)
    decreases ts
  {
    var t, rest := ts[0], ts[1..];
    HasEidCount(t.kids, e);
    HasEidCount(rest, e);
    CountEidCons(t, [], k);
    assert [t] + [] == [t];
    if t.eid == Some(e) {
      EEditAbsent(rest, e, rep);
      CountEidConcat(rep, rest, k);
    } else {
      CountEidCons(t.(kids := EEdit(t.kids, e, rep)), EEdit(rest, e, rep), k);
      if HasEid(t.kids, e) {
        EEditAbsent(rest, e, rep);
        EEditConservesIds(t.kids, e, rep, k);
      } else {
        EEditAbsent(t.kids, e, rep);
        EEditConservesIds(rest, e, rep, k);
      }
    }
  }

  lemma {:induction false} PathEditConservesIds(ts: seq<ETree>, path: seq<nat>, rep: seq<ETree>, k: nat)
    requires PathOk(ts, path)
    ensures CountEid(PathEdit(ts, path, rep), k) + CountEid([PathGet(ts, path)], k) ==
            CountEid(ts, k) + CountEid(rep, k)
    decreases path
  {
    var i := path[0];
    var a, t, b := ts[..i], ts[i], ts[i + 1..];
    assert ts == a + ([t] + b);
    CountEidConcat(a, [t] + b, k);
    CountEidCons(t, b, k);
    CountEidCons(t, [], k);
    assert [t] + [] == [t];
    if |path| == 1 {
      assert PathEdit(ts, path, rep) == a + (rep + b);
      CountEidConcat(a, rep + b, k);
      CountEidConcat(rep, b, k);
    } else {
      var t' := t.(kids := PathEdit(t.kids, path[1..], rep));
      PathEditConservesIds(t.kids, path[1..], rep, k);
      assert PathEdit(ts, path, rep) == a + ([t'] + b);
      CountEidConcat(a, [t'] + b, k);
      CountEidCons(t', b, k);
    }
  }

  lemma BlankUnnamed(ts: seq<Template>, k: nat)
    ensures CountEid(Blank(ts), k) == 0
    decreases ts
  {
    if ts != [] {
      if ts[0].TElement? {
        BlankUnnamed(ts[0].kids, k);
      }
      BlankUnnamed(ts[1..], k);
      assert Blank(ts)[1..] == Blank(ts[1..]);
    }
  }

  /** The ids a mutation brings in. */
  function Introduced(op: Op): set<nat> {
    match op
    case AssignNodeId(_, e) => {e}
    case CreatePlaceholder(e) => {e}
    case CreateTextNode(_, e) => {e}
    case LoadTemplate(_, _, e) => {e}
    case _ => {}
  }

  /** Splitting off the popped trees loses no id. */
  lemma PopConserves(d: Doc, m: nat, k: nat)
    requires Poppable(d, m)
    ensures CountEid(d.trees, k) == CountEid(Base(d, m), k) + CountEid(Popped(d, m), k)
  {
    assert d.trees == Base(d, m) + Popped(d, m);
    CountEidConcat(Base(d, m), Popped(d, m), k);
  }

  /**
   * Ids stay unique over every step, and the only ids that appear are those the mutation brings in:
   * moving trees about neither copies nor invents a node.
   */
  lemma StepKeepsIds(d: Doc, op: Op, k: nat)
    requires HasEid(d.trees, 0) && UniqueIds(d.trees) && Legal(d, op)
    ensures CountEid(Step(d, op).trees, k) <= CountEid(d.trees, k) + if k in Introduced(op) then 1 else 0
    ensures CountEid(Step(d, op).trees, k) <= 1
    ensures op.AppendChildren? || op.InsertNodesAfter? || op.InsertNodesBefore? ==>
              CountEid(Step(d, op).trees, k) == CountEid(d.trees, k)
  {
    HasEidCount(d.trees, k);
    assert CountEid(d.trees, k) <= 1;
    match op
    case AppendChildren(e, m) =>
      AppendKeepsIds(d, e, m, k);
    case AssignNodeId(path, e) =>
      AssignAddsId(d.trees, [|d.trees| - 1] + path, e, k);
    case CreatePlaceholder(e) =>
      PushKeepsIds(d, ETree(Placeholder, Some(e), []), k);
    case CreateTextNode(text, e) =>
      PushKeepsIds(d, ETree(Text(text), Some(e), []), k);
    case LoadTemplate(roots, index, e) =>
      LoadAddsId(d, roots[index], e, k);
    case ReplaceNodeWith(e, m) =>
      ReplaceKeepsIds(d, e, m, Popped(d, m), k);
    case ReplacePlaceholderWithNodes(path, m) =>
      ReplacePathKeepsIds(d, path, m, k);
    case InsertNodesAfter(e, m) =>
      var t := EFind(Base(d, m), e);
      ReplaceKeepsIds(d, e, m, [t] + Popped(d, m), k);
      CountEidConcat([t], Popped(d, m), k);
    case InsertNodesBefore(e, m) =>
      var t := EFind(Base(d, m), e);
      ReplaceKeepsIds(d, e, m, Popped(d, m) + [t], k);
      CountEidConcat(Popped(d, m), [t], k);
    case SetNodeText(_, e) =>
      UpdateKeepsIds(d, e, op, k);
    case CreateEventListener(_, e) =>
      UpdateKeepsIds(d, e, op, k);
    case RemoveEventListener(_, e) =>
      UpdateKeepsIds(d, e, op, k);
    case RemoveNode(e) =>
      HasEidCount(d.trees, e);
      EEditConservesIds(d.trees, e, [], k);
    case PushRoot(_) =>
  }

  lemma AssignAddsId(ts: seq<ETree>, p: seq<nat>, e: nat, k: nat)
    requires PathOk(ts, p) && PathGet(ts, p).eid == None
    ensures CountEid(PathEdit(ts, p, [PathGet(ts, p).(eid := Some(e))]), k) == CountEid(ts, k) + if k == e then 1 else 0
  {
    var t := PathGet(ts, p);
    PathEditConservesIds(ts, p, [t.(eid := Some(e))], k);
    CountEidCons(t, [], k);
    CountEidCons(t.(eid := Some(e)), [], k);
    assert [t] + [] == [t] && [t.(eid := Some(e))] + [] == [t.(eid := Some(e))];
  }

  lemma LoadAddsId(d: Doc, tn: Template, e: nat, k: nat)
    ensures CountEid(Push(d, Blank([tn])[0].(eid := Some(e))).trees, k)
            == CountEid(d.trees, k) + if k == e then 1 else 0
  {
    var t := Blank([tn])[0];
    BlankUnnamed([tn], k);
    CountEidCons(t, [], k);
    assert Blank([tn]) == [t] + [];
    PushKeepsIds(d, t.(eid := Some(e)), k);
  }

  lemma ReplacePathKeepsIds(d: Doc, path: seq<nat>, m: nat, k: nat)
    requires HasEid(d.trees, 0) && Legal(d, ReplacePlaceholderWithNodes(path, m))
    ensures CountEid(Step(d, ReplacePlaceholderWithNodes(path, m)).trees, k) <= CountEid(d.trees, k)
  {
    PoppableLess(d, m);
    PopConserves(d, m, k);
    PathEditConservesIds(Base(d, m), [|Base(d, m)| - 1] + path, Popped(d, m), k);
  }

  lemma PushKeepsIds(d: Doc, t: ETree, k: nat)
    requires CountEid(t.kids, k) == 0
    ensures CountEid(Push(d, t).trees, k) == CountEid(d.trees, k) + if t.eid == Some(k) then 1 else 0
  {
    CountEidConcat(d.trees, [t], k);
    CountEidCons(t, [], k);
    assert [t] + [] == [t];
  }

  lemma AppendKeepsIds(d: Doc, e: nat, m: nat, k: nat)
    requires HasEid(d.trees, 0) && UniqueIds(d.trees) && Legal(d, AppendChildren(e, m))
    ensures CountEid(Step(d, AppendChildren(e, m)).trees, k) == CountEid(d.trees, k)
  {
    var key := Key(d, e);
    var base, popped := Base(d, m), Popped(d, m);
    var t := EFind(base, key);
    var t' := t.(kids := t.kids + popped);
    PopConserves(d, m, key);
    PopConserves(d, m, k);
    HasEidCount(base, key);
    assert CountEid(d.trees, key) <= 1;
    EEditConservesIds(base, key, [t'], k);
    CountEidCons(t, [], k);
    CountEidCons(t', [], k);
    assert [t] + [] == [t] && [t'] + [] == [t'];
    CountEidConcat(t.kids, popped, k);
  }

  lemma ReplaceKeepsIds(d: Doc, e: nat, m: nat, rep: seq<ETree>, k: nat)
    requires UniqueIds(d.trees) && Poppable(d, m) && HasEid(Base(d, m), e)
    ensures CountEid(EEdit(Base(d, m), e, rep), k) + CountEid([EFind(Base(d, m), e)], k) + CountEid(Popped(d, m), k)
            == CountEid(d.trees, k) + CountEid(rep, k)
  {
    PopConserves(d, m, e);
    PopConserves(d, m, k);
    HasEidCount(Base(d, m), e);
    assert CountEid(d.trees, e) <= 1;
    EEditConservesIds(Base(d, m), e, rep, k);
  }

  lemma UpdateKeepsIds(d: Doc, e: nat, op: Op, k: nat)
    requires HasEid(d.trees, 0) && UniqueIds(d.trees)
    ensures CountEid(UpdateKind(d, e, op).trees, k) == CountEid(d.trees, k)
  {
    var t := EFind(d.trees, Key(d, e));
    var t' := t.(kind := NewKind(t.kind, op));
    HasEidCount(d.trees, Key(d, e));
    assert CountEid(d.trees, Key(d, e)) <= 1;
    EEditConservesIds(d.trees, Key(d, e), [t'], k);
    CountEidCons(t, [], k);
    CountEidCons(t', [], k);
    assert [t] + [] == [t] && [t'] + [] == [t'];
  }

  /** Over a whole legal run no element id is ever carried by two nodes. */
  lemma {:induction false} RunKeepsIdsUnique(d: Doc, ops: seq<Op>)
    requires LegalRun(d, ops) && UniqueIds(d.trees)
    ensures UniqueIds(RunDoc(d, ops).trees)
    decreases |ops|
  {
    if ops != [] {
      forall k ensures CountEid(Step(d, ops[0]).trees, k) <= 1 {
        StepKeepsIds(d, ops[0], k);
      }
      RunKeepsIdsUnique(Step(d, ops[0]), ops[1..]);
    }
  }

  /** Inserting a tree named `g` next to `e` and removing `g` again gives the old trees back. */
  lemma {:induction false} InsertThenRemove(ts: seq<ETree>, e: nat, t: ETree, g: nat, after: bool)
    requires CountEid(ts, e) == 1 && HasEid(ts, e)
    requires t.eid == Some(g) && CountEid(ts, g) == 0
    ensures var f := EFind(ts, e);
            EEdit(EEdit(ts, e, if after then [f, t] else [t, f]), g, []) == ts
    decreases ts
  {
    var h, rest := ts[0], ts[1..];
    HasEidCount(h.kids, e);
    HasEidCount(rest, e);
    var f := EFind(ts, e);
    var rep := if after then [f, t] else [t, f];
    if h.eid == Some(e) {
      EEditAbsent(rest, e, rep);
      EEditAbsent(ts, g, []);
      assert ts == [h] + rest && [t, h] + rest == [t] + ([h] + rest);
      InsertedAfter(h, t, rest, g);
      RemovedHead(t, [h] + rest, g);
    } else {
      var h' := h.(kids := EEdit(h.kids, e, rep));
      var rest' := EEdit(rest, e, rep);
      KeptHead(h', rest', g);
      assert ts == [h] + rest;
      if HasEid(h.kids, e) {
        InsertThenRemove(h.kids, e, t, g, after);
        EEditAbsent(rest, e, rep);
        EEditAbsent(rest, g, []);
      } else {
        EEditAbsent(h.kids, e, rep);
        EEditAbsent(h.kids, g, []);
        InsertThenRemove(rest, e, t, g, after);
      }
    }
  }

  lemma InsertedAfter(h: ETree, t: ETree, rest: seq<ETree>, g: nat)
    requires t.eid == Some(g) && h.eid != Some(g)
    ensures EEdit([h, t] + rest, g, []) == EEdit([h] + rest, g, [])
  {
    assert [h, t] + rest == [h] + ([t] + rest);
    KeptHead(h, [t] + rest, g);
    RemovedHead(t, rest, g);
    KeptHead(h, rest, g);
  }

  lemma RemovedHead(t: ETree, rest: seq<ETree>, g: nat)
    requires t.eid == Some(g)
    ensures EEdit([t] + rest, g, []) == EEdit(rest, g, [])
  {
    assert ([t] + rest)[1..] == rest;
  }

  lemma KeptHead(h: ETree, rest: seq<ETree>, g: nat)
    requires h.eid != Some(g)
    ensures EEdit([h] + rest, g, []) == [h.(kids := EEdit(h.kids, g, []))] + EEdit(rest, g, [])
  {
    assert ([h] + rest)[1..] == rest;
  }
}
