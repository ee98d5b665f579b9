/**
 * When an arena of optional nodes holds a given forest, and what keeps it holding one.
 */
module DomForest {
  import opened Options
  import opened RoseTree

  datatype Node = Node(kind: Kind, children: seq<nat>, parent: Option<nat>, eid: Option<nat>)

  type Slots = seq<Option<Node>>

  predicate Live(nodes: Slots, i: nat) {
    i < |nodes| && nodes[i].Some?
  }

  /** Every node of `ts` sits in its slot with the right kind, id, child list and parent link. */
  ghost predicate Holds(nodes: Slots, ts: seq<Tree>, parent: Option<nat>)
    decreases ts
  {
    ts == [] ||
    (&& Live(nodes, ts[0].id)
     && nodes[ts[0].id].value == Node(ts[0].kind, Roots(ts[0].kids), parent, ts[0].eid)
     && Holds(nodes, ts[0].kids, Some(ts[0].id))
     && Holds(nodes, ts[1..], parent))
  }

  ghost predicate NoRepeats(ts: seq<Tree>) {
    forall i :: Count(ts, i) <= 1
  }

  lemma HoldsConcat(nodes: Slots, a: seq<Tree>, b: seq<Tree>, parent: Option<nat>)
    ensures Holds(nodes, a + b, parent) <==> Holds(nodes, a, parent) && Holds(nodes, b, parent)
  {
    if a != [] {
      assert (a + b)[1..] == a[1..] + b;
      HoldsConcat(nodes, a[1..], b, parent);
    } else {
      assert a + b == b;
    }
  }

  lemma HoldsLive(nodes: Slots, ts: seq<Tree>, parent: Option<nat>, i: nat)
    requires Holds(nodes, ts, parent) && Count(ts, i) > 0
    ensures Live(nodes, i)
    decreases ts
  {
    if ts[0].id != i {
      if Count(ts[0].kids, i) > 0 {
        HoldsLive(nodes, ts[0].kids, Some(ts[0].id), i);
      } else {
        HoldsLive(nodes, ts[1..], parent, i);
      }
    }
  }

  lemma HoldsFrame(nodes: Slots, nodes': Slots, ts: seq<Tree>, parent: Option<nat>)
    requires Holds(nodes, ts, parent)
    requires forall i: nat | Count(ts, i) > 0 && Live(nodes, i) :: Live(nodes', i) && nodes'[i] == nodes[i]
    ensures Holds(nodes', ts, parent)
    decreases ts
  {
    if ts != [] {
      HoldsFrame(nodes, nodes', ts[0].kids, Some(ts[0].id));
      HoldsFrame(nodes, nodes', ts[1..], parent);
    }
  }

  /** The arena determines the forest it holds: two forests with the same roots are the same. */
  lemma {:induction false} HoldsDetermines(nodes: Slots, ts: seq<Tree>, us: seq<Tree>, p: Option<nat>, q: Option<nat>)
    requires Holds(nodes, ts, p) && Holds(nodes, us, q) && Roots(ts) == Roots(us)
    ensures ts == us
    decreases ts
  {
    if ts != [] {
      assert Roots(ts)[0] == Roots(us)[0];
      HoldsDetermines(nodes, ts[0].kids, us[0].kids, Some(ts[0].id), Some(us[0].id));
      assert Roots(ts)[1..] == Roots(ts[1..]) && Roots(us)[1..] == Roots(us[1..]);
      HoldsDetermines(nodes, ts[1..], us[1..], p, q);
    }
  }

  lemma FindHolds(nodes: Slots, ts: seq<Tree>, parent: Option<nat>, x: nat)
    requires Holds(nodes, ts, parent) && Count(ts, x) > 0
    ensures Live(nodes, x) && Holds(nodes, [Find(ts, x)], nodes[x].value.parent)
    decreases ts
  {
    if ts[0].id != x {
      if Count(ts[0].kids, x) > 0 {
        FindHolds(nodes, ts[0].kids, Some(ts[0].id), x);
      } else {
        FindHolds(nodes, ts[1..], parent, x);
      }
    }
  }

  lemma FindCount(ts: seq<Tree>, x: nat, i: nat)
    requires Count(ts, x) > 0
    ensures Count([Find(ts, x)], i) <= Count(ts, i)
    decreases ts
  {
    if ts[0].id == x {
      CountCons(ts[0], [], i);
      assert [ts[0]] + [] == [ts[0]];
    } else if Count(ts[0].kids, x) > 0 {
      FindCount(ts[0].kids, x, i);
    } else {
      FindCount(ts[1..], x, i);
    }
  }

  /** Child lists point at nodes of the same forest, and those nodes point back. */
  lemma ChildPointsBack(nodes: Slots, ts: seq<Tree>, parent: Option<nat>, i: nat, c: nat)
    requires Holds(nodes, ts, parent) && Count(ts, i) > 0
    requires Live(nodes, i) && c in nodes[i].value.children
    ensures Count(ts, c) > 0 && Live(nodes, c) && nodes[c].value.parent == Some(i)
  {
    FindHolds(nodes, ts, parent, i);
    var kids := Find(ts, i).kids;
    var k :| 0 <= k < |kids| && kids[k].id == c;
    HoldsAt(nodes, kids, Some(i), k);
    FindCount(ts, i, c);
    RootsCount(kids, c);
    assert Roots(kids)[k] == c;
    CountCons(Find(ts, i), [], c);
    assert [Find(ts, i)] + [] == [Find(ts, i)];
  }

  lemma HoldsAt(nodes: Slots, ts: seq<Tree>, parent: Option<nat>, k: nat)
    requires Holds(nodes, ts, parent) && k < |ts|
    ensures Holds(nodes, [ts[k]], parent) && Holds(nodes, ts[k].kids, Some(ts[k].id))
    ensures Live(nodes, ts[k].id)
    ensures nodes[ts[k].id].value == Node(ts[k].kind, Roots(ts[k].kids), parent, ts[k].eid)
  {
    if k > 0 {
      HoldsAt(nodes, ts[1..], parent, k - 1);
    }
  }

  /** A node of the forest is one of its roots or stands in its parent's child list. */
  lemma ParentHasChild(nodes: Slots, ts: seq<Tree>, q: Option<nat>, x: nat)
    requires Holds(nodes, ts, q) && Count(ts, x) > 0
    ensures Live(nodes, x)
    ensures (x in Roots(ts) && nodes[x].value.parent == q) ||
            (nodes[x].value.parent.Some? &&
             var p := nodes[x].value.parent.value;
             Count(ts, p) > 0 && Live(nodes, p) && x in nodes[p].value.children)
    decreases ts
  {
    if ts[0].id == x {
      assert Roots(ts)[0] == x;
    } else if Count(ts[0].kids, x) > 0 {
      ParentHasChild(nodes, ts[0].kids, Some(ts[0].id), x);
    } else {
      ParentHasChild(nodes, ts[1..], q, x);
      assert Roots(ts) == [ts[0].id] + Roots(ts[1..]);
    }
  }

  lemma ChildrenDistinct(nodes: Slots, ts: seq<Tree>, parent: Option<nat>, i: nat)
    requires Holds(nodes, ts, parent) && NoRepeats(ts) && Count(ts, i) > 0
    ensures Live(nodes, i)
    ensures forall j, k | 0 <= j < k < |nodes[i].value.children| ::
            nodes[i].value.children[j] != nodes[i].value.children[k]
  {
    FindHolds(nodes, ts, parent, i);
    var kids := Find(ts, i).kids;
    forall j, k | 0 <= j < k < |kids| ensures kids[j].id != kids[k].id {
      var c := kids[k].id;
      FindCount(ts, i, c);
      CountCons(Find(ts, i), [], c);
      assert [Find(ts, i)] + [] == [Find(ts, i)];
      RootsDistinct(kids, j, k);
    }
  }

  lemma RootsDistinct(ts: seq<Tree>, j: nat, k: nat)
    requires j < k < |ts| && Count(ts, ts[k].id) <= 1
    ensures ts[j].id != ts[k].id
  {
    if j > 0 {
      RootsDistinct(ts[1..], j - 1, k - 1);
    } else {
      RootsCount(ts[1..], ts[k].id);
      assert Roots(ts[1..])[k - 1] == ts[k].id;
    }
  }

  // ---------------------------------------------------------------- edits

  /** Slot `i` is unchanged, except that `ids` stands for `x` in its child list. */
  ghost predicate Respliced(nodes: Slots, nodes': Slots, i: nat, x: nat, ids: seq<nat>) {
    && Live(nodes, i) && Live(nodes', i)
    && nodes'[i].value == nodes[i].value.(children := SpliceId(nodes[i].value.children, x, ids))
  }

  /** If every slot outside the replaced subtree is respliced and the new trees are in place, the edit is in place. */
  lemma {:induction false} EditHolds(nodes: Slots, nodes': Slots, ts: seq<Tree>, q: Option<nat>, x: nat, rep: seq<Tree>)
    requires Holds(nodes, ts, q) && NoRepeats(ts) && Count(ts, x) == 1
    requires Live(nodes, x) && Holds(nodes', rep, nodes[x].value.parent)
    requires forall i: nat | Count(ts, i) > 0 && Count([Find(ts, x)], i) == 0 ::
             Respliced(nodes, nodes', i, x, Roots(rep))
    ensures Holds(nodes', Edit(ts, x, rep), q)
    decreases ts
  {
    var t, rest := ts[0], ts[1..];
    NoRepeatsSplit(ts);
    if t.id == x {
      EditHoldsHere(nodes, nodes', ts, q, rep);
    } else if Count(t.kids, x) > 0 {
      FindsDisjoint(t.kids, rest, x);
      FindsDisjoint(t.kids, [t.(kids := [])], x);
      EditHolds(nodes, nodes', t.kids, Some(t.id), x, rep);
      EditHoldsAbsent(nodes, nodes', rest, q, x, rep);
      EditAbsent(rest, x, rep);
      EditUnder(nodes, nodes', t, rest, q, x, rep);
    } else {
      FindsDisjoint(rest, t.kids, x);
      FindsDisjoint(rest, [t.(kids := [])], x);
      EditHoldsAbsent(nodes, nodes', t.kids, Some(t.id), x, rep);
      EditAbsent(t.kids, x, rep);
      EditHolds(nodes, nodes', rest, q, x, rep);
      EditUnder(nodes, nodes', t, rest, q, x, rep);
    }
  }

  lemma EditHoldsHere(nodes: Slots, nodes': Slots, ts: seq<Tree>, q: Option<nat>, rep: seq<Tree>)
    requires ts != [] && Holds(nodes, ts, q) && NoRepeats(ts) && Holds(nodes', rep, q)
    requires forall i: nat | Count(ts, i) > 0 && Count([ts[0]], i) == 0 ::
             Respliced(nodes, nodes', i, ts[0].id, Roots(rep))
    ensures Holds(nodes', Edit(ts, ts[0].id, rep), q)
  {
    var t, rest := ts[0], ts[1..];
    NoRepeatsSplit(ts);
    forall i: nat | Count(rest, i) > 0 ensures Respliced(nodes, nodes', i, t.id, Roots(rep)) {
      CountCons(t, [], i);
      assert [t] + [] == [t];
    }
    EditHoldsAbsent(nodes, nodes', rest, q, t.id, rep);
    HoldsConcat(nodes', rep, rest, q);
  }

  lemma EditUnder(nodes: Slots, nodes': Slots, t: Tree, rest: seq<Tree>, q: Option<nat>, x: nat, rep: seq<Tree>)
    requires t.id != x && Live(nodes, t.id) && nodes[t.id].value == Node(t.kind, Roots(t.kids), q, t.eid)
    requires Respliced(nodes, nodes', t.id, x, Roots(rep))
    requires Holds(nodes', Edit(t.kids, x, rep), Some(t.id)) && Holds(nodes', Edit(rest, x, rep), q)
    ensures Holds(nodes', [t.(kids := Edit(t.kids, x, rep))] + Edit(rest, x, rep), q)
  {
    EditRoots(t.kids, x, rep);
    var t' := t.(kids := Edit(t.kids, x, rep));
    assert ([t'] + Edit(rest, x, rep))[1..] == Edit(rest, x, rep);
  }

  lemma NoRepeatsSplit(ts: seq<Tree>)
    requires NoRepeats(ts) && ts != []
    ensures NoRepeats(ts[0].kids) && NoRepeats(ts[1..])
    ensures forall i :: Count(ts[0].kids, i) + Count(ts[1..], i) + (if ts[0].id == i then 1 else 0) <= 1
    ensures forall i :: Count(ts[1..], i) + Count(ts[0].kids, i) <= 1
  {
    forall i ensures Count(ts[0].kids, i) + Count(ts[1..], i) + (if ts[0].id == i then 1 else 0) <= 1 {
      assert Count(ts, i) <= 1;
    }
  }

  /** A subtree of `a` shares no slot with `b` when `a` and `b` together repeat none. */
  lemma FindsDisjoint(a: seq<Tree>, b: seq<Tree>, x: nat)
    requires Count(a, x) > 0
    requires forall i :: Count(a, i) + Count(b, i) <= 1
    ensures forall i | Count(b, i) > 0 :: Count([Find(a, x)], i) == 0
  {
    forall i: nat | Count(b, i) > 0 ensures Count([Find(a, x)], i) == 0 {
      FindCount(a, x, i);
    }
  }

  lemma EditHoldsAbsent(nodes: Slots, nodes': Slots, ts: seq<Tree>, q: Option<nat>, x: nat, rep: seq<Tree>)
    requires Holds(nodes, ts, q) && Count(ts, x) == 0
    requires forall i: nat | Count(ts, i) > 0 :: Respliced(nodes, nodes', i, x, Roots(rep))
    ensures Edit(ts, x, rep) == ts && Holds(nodes', ts, q)
  {
    EditAbsent(ts, x, rep);
    forall i: nat | Count(ts, i) > 0 && Live(nodes, i) ensures Live(nodes', i) && nodes'[i] == nodes[i] {
      assert Respliced(nodes, nodes', i, x, Roots(rep));
      if x in nodes[i].value.children {
        ChildPointsBack(nodes, ts, q, i, x);
      }
      SpliceIdAbsent(nodes[i].value.children, x, Roots(rep));
    }
    HoldsFrame(nodes, nodes', ts, q);
  }

  /** The form the interpreter uses: below the parent `p` of `x`, only the child list of `p` changes. */
  lemma EditBelow(nodes: Slots, nodes': Slots, ts: seq<Tree>, x: nat, p: nat, rep: seq<Tree>)
    requires Holds(nodes, ts, None) && NoRepeats(ts) && Count(ts, x) == 1
    requires Live(nodes, x) && nodes[x].value.parent == Some(p) && Holds(nodes', rep, Some(p))
    requires Respliced(nodes, nodes', p, x, Roots(rep))
    requires forall i: nat | Count(ts, i) > 0 && Live(nodes, i) && i != p && Count([Find(ts, x)], i) == 0 ::
               Live(nodes', i) && nodes'[i] == nodes[i]
    ensures Holds(nodes', Edit(ts, x, rep), None)
  {
    forall i: nat | Count(ts, i) > 0 && Count([Find(ts, x)], i) == 0
      ensures Respliced(nodes, nodes', i, x, Roots(rep))
    {
      HoldsLive(nodes, ts, None, i);
      if i != p {
        if x in nodes[i].value.children {
          ChildPointsBack(nodes, ts, None, i, x);
        }
        SpliceIdAbsent(nodes[i].value.children, x, Roots(rep));
      }
    }
    EditHolds(nodes, nodes', ts, None, x, rep);
  }

  // ---------------------------------------------------------------- from slots to element ids

  /** Among the nodes of `ts`, exactly the one in slot `x` is named `e`. */
  ghost predicate Names(nodes: Slots, ts: seq<Tree>, x: nat, e: nat) {
    forall i: nat | Count(ts, i) > 0 && Live(nodes, i) :: nodes[i].value.eid == Some(e) <==> i == x
  }

  /** Editing at a slot is, seen from outside, editing at the element id stored there. */
  lemma {:induction false} EraseEdit(nodes: Slots, ts: seq<Tree>, q: Option<nat>, x: nat, e: nat, rep: seq<Tree>)
    requires Holds(nodes, ts, q) && Names(nodes, ts, x, e)
    ensures Erase(Edit(ts, x, rep)) == EEdit(Erase(ts), e, Erase(rep))
    ensures HasEid(Erase(ts), e) <==> Count(ts, x) > 0
    ensures Count(ts, x) > 0 ==> Erase([Find(ts, x)]) == [EFind(Erase(ts), e)]
    decreases ts
  {
    if ts != [] {
      var t, rest := ts[0], ts[1..];
      EraseEdit(nodes, t.kids, Some(t.id), x, e, rep);
      EraseEdit(nodes, rest, q, x, e, rep);
      assert Erase(ts)[1..] == Erase(rest);
      var t' := t.(kids := Edit(t.kids, x, rep));
      EraseConcat(if t.id == x then rep else [t'], Edit(rest, x, rep));
      assert Erase([t']) == [ETree(t.kind, t.eid, Erase(t'.kids))] by { assert [t'][1..] == []; }
      assert Live(nodes, t.id) && (t.eid == Some(e) <==> t.id == x);
      assert Erase([t]) == [ETree(t.kind, t.eid, Erase(t.kids))] by { assert [t][1..] == []; }
    }
  }

  /** The tree a path of child indices leads to. */
  ghost function TreeAt(ts: seq<Tree>, path: seq<nat>): Tree
    requires PathOk(Erase(ts), path)
    decreases path
  {
    EraseKids(ts, path[0]);
    if |path| == 1 then ts[path[0]] else TreeAt(ts[path[0]].kids, path[1..])
  }

  lemma {:induction false} EraseKids(ts: seq<Tree>, k: nat)
    requires k < |ts|
    ensures Erase(ts)[k] == ETree(ts[k].kind, ts[k].eid, Erase(ts[k].kids))
    decreases k
  {
    if k > 0 {
      EraseKids(ts[1..], k - 1);
    }
  }

  /** A path leads to a slot that occurs once, and the tree found at that slot is the one at the path. */
  lemma {:induction false} PathSlot(ts: seq<Tree>, path: seq<nat>)
    requires PathOk(Erase(ts), path) && NoRepeats(ts)
    ensures var t := TreeAt(ts, path);
            && Count(ts, t.id) == 1 && Find(ts, t.id) == t
            && Count([ts[path[0]]], t.id) == 1
            && PathGet(Erase(ts), path) == ETree(t.kind, t.eid, Erase(t.kids))
    decreases path
  {
    var k, x := path[0], TreeAt(ts, path).id;
    var a, t, b := ts[..k], ts[k], ts[k + 1..];
    EraseKids(ts, k);
    CountSlices(ts, k);
    assert NoRepeats([t]);
    NoRepeatsSplit([t]);
    if |path| > 1 {
      PathSlot(t.kids, path[1..]);
    }
    assert Count([t], x) > 0 && Find([t], x) == TreeAt(ts, path);
    assert ts == a + ([t] + b);
    FindConcat(a, [t] + b, x);
    FindConcat([t], b, x);
  }

  lemma CountSlices(ts: seq<Tree>, k: nat)
    requires k < |ts| && NoRepeats(ts)
    ensures forall i :: Count(ts[..k], i) + Count([ts[k]], i) + Count(ts[k + 1..], i) == Count(ts, i)
    ensures NoRepeats([ts[k]])
  {
    forall i ensures Count(ts[..k], i) + Count([ts[k]], i) + Count(ts[k + 1..], i) == Count(ts, i) <= 1 {
      assert ts == ts[..k] + ([ts[k]] + ts[k + 1..]);
      CountConcat(ts[..k], [ts[k]] + ts[k + 1..], i);
      CountConcat([ts[k]], ts[k + 1..], i);
    }
  }

  /** Editing at the slot a path leads to is, seen from outside, editing at that path. */
  lemma {:induction false} ErasePathEdit(ts: seq<Tree>, path: seq<nat>, rep: seq<Tree>)
    requires PathOk(Erase(ts), path) && NoRepeats(ts)
    ensures Erase(Edit(ts, TreeAt(ts, path).id, rep)) == PathEdit(Erase(ts), path, Erase(rep))
    decreases path
  {
    var k, x := path[0], TreeAt(ts, path).id;
    var t := ts[k];
    PathSlot(ts, path);
    CountSlices(ts, k);
    EraseKids(ts, k);
    EditInside(ts, k, x, rep);
    if |path| > 1 {
      NoRepeatsSplit([t]);
      PathSlot(t.kids, path[1..]);
      ErasePathEdit(t.kids, path[1..], rep);
      var t' := t.(kids := Edit(t.kids, x, rep));
      assert Edit([t], x, rep) == [t'];
      EraseKids([t'], 0);
      assert Erase([t']) == [Erase(ts)[k].(kids := PathEdit(Erase(t.kids), path[1..], Erase(rep)))];
    } else {
      assert Edit([t], x, rep) == rep;
    }
  }

  lemma EditInside(ts: seq<Tree>, k: nat, x: nat, rep: seq<Tree>)
    requires k < |ts| && Count(ts[..k], x) == 0 && Count(ts[k + 1..], x) == 0
    ensures Erase(Edit(ts, x, rep)) == Erase(ts)[..k] + Erase(Edit([ts[k]], x, rep)) + Erase(ts)[k + 1..]
  {
    var a, m, b := ts[..k], [ts[k]], ts[k + 1..];
    assert ts == a + (m + b);
    EditConcat(a, m + b, x, rep);
    EditConcat(m, b, x, rep);
    EditAbsent(a, x, rep);
    EditAbsent(b, x, rep);
    EraseConcat(a, Edit(m, x, rep) + b);
    EraseConcat(Edit(m, x, rep), b);
    EraseSlices(ts, k);
  }

  lemma FindConcat(a: seq<Tree>, b: seq<Tree>, x: nat)
    requires Count(a, x) + Count(b, x) > 0
    ensures Count(a + b, x) > 0
    ensures Find(a + b, x) == if Count(a, x) > 0 then Find(a, x) else Find(b, x)
  {
    CountConcat(a, b, x);
    if a == [] {
      assert a + b == b;
    } else {
      assert (a + b)[1..] == a[1..] + b;
      if a[0].id != x && Count(a[0].kids, x) == 0 {
        FindConcat(a[1..], b, x);
      }
    }
  }

  lemma EraseSlices(ts: seq<Tree>, k: nat)
    requires k < |ts|
    ensures Erase(ts[..k]) == Erase(ts)[..k] && Erase(ts[k + 1..]) == Erase(ts)[k + 1..]
  {
    assert ts == ts[..k] + ts[k..] == ts[..k + 1] + ts[k + 1..];
    EraseConcat(ts[..k], ts[k..]);
    EraseConcat(ts[..k + 1], ts[k + 1..]);
  }
}
