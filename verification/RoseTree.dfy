/**
 * Rose trees in two forms, and the edits the mutation interpreter performs on them.
 *
 * `ETree` is what dioxus believes it is editing: nodes carry element ids only. `Tree` is the same
 * shape with the arena slot of every node written in; `Erase` forgets the slots. Functions take a
 * list of trees, so that one recursion covers a node's children, its descendants and its siblings.
 */
module RoseTree {
  import opened Options

  datatype Kind =
    | Element(tag: string, listeners: seq<string>)
    | Text(text: string)
    | Placeholder

  /** A pure tree: no arena slots, only the public element ids. */
  datatype ETree = ETree(kind: Kind, eid: Option<nat>, kids: seq<ETree>)

  /** A tree that also records which arena slot holds each node. */
  datatype Tree = Tree(id: nat, kind: Kind, eid: Option<nat>, kids: seq<Tree>)

  // ---------------------------------------------------------------- erasure

  ghost function Erase(ts: seq<Tree>): (es: seq<ETree>)
    ensures |es| == |ts|
    decreases ts
  {
    if ts == [] then []
    else [ETree(ts[0].kind, ts[0].eid, Erase(ts[0].kids))] + Erase(ts[1..])
  }

  lemma EraseConcat(a: seq<Tree>, b: seq<Tree>)
    ensures Erase(a + b) == Erase(a) + Erase(b)
  {
    if a != [] {
      assert (a + b)[1..] == a[1..] + b;
      EraseConcat(a[1..], b);
    } else {
      assert a + b == b;
    }
  }

  // ---------------------------------------------------------------- edits of pure trees

  /** Does a node of `ts` carry element id `e`? */
  ghost predicate HasEid(ts: seq<ETree>, e: nat)
    decreases ts
  {
    ts != [] && (ts[0].eid == Some(e) || HasEid(ts[0].kids, e) || HasEid(ts[1..], e))
  }

  /** The subtree named `e`. */
  ghost function EFind(ts: seq<ETree>, e: nat): (t: ETree)
    requires HasEid(ts, e)
    ensures t.eid == Some(e)
    decreases ts
  {
    if ts[0].eid == Some(e) then ts[0]
    else if HasEid(ts[0].kids, e) then EFind(ts[0].kids, e)
    else EFind(ts[1..], e)
  }

  /** `ts` with the subtree named `e` replaced, where it stands, by the trees `rep`. */
  ghost function EEdit(ts: seq<ETree>, e: nat, rep: seq<ETree>): seq<ETree>
    decreases ts
  {
    if ts == [] then []
    else (if ts[0].eid == Some(e) then rep else [ts[0].(kids := EEdit(ts[0].kids, e, rep))])
         + EEdit(ts[1..], e, rep)
  }

  /** Is `path` a walk down child indices that ends at a node of the forest `ts`? */
  ghost predicate PathOk(ts: seq<ETree>, path: seq<nat>)
    decreases path
  {
    path != [] && path[0] < |ts| && (|path| == 1 || PathOk(ts[path[0]].kids, path[1..]))
  }

  ghost function PathGet(ts: seq<ETree>, path: seq<nat>): ETree
    requires PathOk(ts, path)
    decreases path
  {
    if |path| == 1 then ts[path[0]] else PathGet(ts[path[0]].kids, path[1..])
  }

  /** `ts` with the subtree at `path` replaced by the trees `rep`. */
  ghost function PathEdit(ts: seq<ETree>, path: seq<nat>, rep: seq<ETree>): seq<ETree>
    requires PathOk(ts, path)
    decreases path
  {
    var t := ts[path[0]];
    ts[..path[0]]
    + (if |path| == 1 then rep else [t.(kids := PathEdit(t.kids, path[1..], rep))])
    + ts[path[0] + 1..]
  }

  // ---------------------------------------------------------------- slots of a forest

  /** How often slot `i` occurs in `ts`. */
  ghost function Count(ts: seq<Tree>, i: nat): nat
    decreases ts
  {
    if ts == [] then 0
    else (if ts[0].id == i then 1 else 0) + Count(ts[0].kids, i) + Count(ts[1..], i)
  }

  lemma CountConcat(a: seq<Tree>, b: seq<Tree>, i: nat)
    ensures Count(a + b, i) == Count(a, i) + Count(b, i)
  {
    if a != [] {
      assert (a + b)[1..] == a[1..] + b;
      CountConcat(a[1..], b, i);
    } else {
      assert a + b == b;
    }
  }

  lemma CountCons(t: Tree, rest: seq<Tree>, i: nat)
    ensures Count([t] + rest, i) == (if t.id == i then 1 else 0) + Count(t.kids, i) + Count(rest, i)
  {
    assert ([t] + rest)[1..] == rest;
  }

  ghost function Roots(ts: seq<Tree>): (ids: seq<nat>)
    ensures |ids| == |ts| && forall i | 0 <= i < |ts| :: ids[i] == ts[i].id
  {
    seq(|ts|, i requires 0 <= i < |ts| => ts[i].id)
  }

  lemma RootsConcat(a: seq<Tree>, b: seq<Tree>)
    ensures Roots(a + b) == Roots(a) + Roots(b)
  {
  }

  lemma RootsCount(ts: seq<Tree>, i: nat)
    ensures multiset(Roots(ts))[i] <= Count(ts, i)
  {
    if ts != [] {
      RootsCount(ts[1..], i);
      assert Roots(ts) == [ts[0].id] + Roots(ts[1..]);
    }
  }

  // ---------------------------------------------------------------- edits of slotted trees

  /** The subtree rooted at slot `x`. */
  ghost function Find(ts: seq<Tree>, x: nat): (t: Tree)
    requires Count(ts, x) > 0
    ensures t.id == x
    decreases ts
  {
    if ts[0].id == x then ts[0]
    else if Count(ts[0].kids, x) > 0 then Find(ts[0].kids, x)
    else Find(ts[1..], x)
  }

  /** `ts` with the subtree at slot `x` replaced, where it stands, by the trees `rep`. */
  ghost function Edit(ts: seq<Tree>, x: nat, rep: seq<Tree>): seq<Tree>
    decreases ts
  {
    if ts == [] then []
    else (if ts[0].id == x then rep else [ts[0].(kids := Edit(ts[0].kids, x, rep))])
         + Edit(ts[1..], x, rep)
  }

  lemma EditAbsent(ts: seq<Tree>, x: nat, rep: seq<Tree>)
    requires Count(ts, x) == 0
    ensures Edit(ts, x, rep) == ts
    decreases ts
  {
    if ts != [] {
      EditAbsent(ts[0].kids, x, rep);
      EditAbsent(ts[1..], x, rep);
    }
  }

  lemma EditConcat(a: seq<Tree>, b: seq<Tree>, x: nat, rep: seq<Tree>)
    ensures Edit(a + b, x, rep) == Edit(a, x, rep) + Edit(b, x, rep)
  {
    if a != [] {
      assert (a + b)[1..] == a[1..] + b;
      EditConcat(a[1..], b, x, rep);
    } else {
      assert a + b == b;
    }
  }

  /** An edit gives up exactly the slots of the subtree it replaces and takes exactly those of `rep`. */
  lemma {:induction false} EditConservesSlots(ts: seq<Tree>, x: nat, rep: seq<Tree>, i: nat)
    requires Count(ts, x) == 1
    ensures Count(Edit(ts, x, rep), i) + Count([Find(ts, x)], i) == Count(ts, i) + Count(rep, i)
    decreases ts
  {
    var t, rest := ts[0], ts[1..];
    CountCons(t, [], i);
    assert [t] + [] == [t];
    if t.id == x {
      EditAbsent(rest, x, rep);
      CountConcat(rep, rest, i);
    } else {
      CountCons(t.(kids := Edit(t.kids, x, rep)), Edit(rest, x, rep), i);
      if Count(t.kids, x) > 0 {
        EditAbsent(rest, x, rep);
        EditConservesSlots(t.kids, x, rep, i);
      } else {
        EditAbsent(t.kids, x, rep);
        EditConservesSlots(rest, x, rep, i);
      }
    }
  }

  /** What the root list becomes: `rep` stands where `x` stood. */
  function SpliceId(ids: seq<nat>, x: nat, rep: seq<nat>): seq<nat> {
    if ids == [] then [] else (if ids[0] == x then rep else [ids[0]]) + SpliceId(ids[1..], x, rep)
  }

  lemma EditRoots(ts: seq<Tree>, x: nat, rep: seq<Tree>)
    ensures Roots(Edit(ts, x, rep)) == SpliceId(Roots(ts), x, Roots(rep))
  {
    if ts != [] {
      EditRoots(ts[1..], x, rep);
      assert Roots(ts)[1..] == Roots(ts[1..]);
    }
  }

  lemma SpliceIdAbsent(ids: seq<nat>, x: nat, rep: seq<nat>)
    requires x !in ids
    ensures SpliceId(ids, x, rep) == ids
  {
  }

  lemma SpliceIdAt(ids: seq<nat>, k: nat, rep: seq<nat>)
    requires k < |ids|
    requires forall j | 0 <= j < |ids| && j != k :: ids[j] != ids[k]
    ensures SpliceId(ids, ids[k], rep) == ids[..k] + rep + ids[k + 1..]
  {
    if k == 0 {
      SpliceIdAbsent(ids[1..], ids[0], rep);
    } else {
      SpliceIdAt(ids[1..], k - 1, rep);
      assert ids == [ids[0]] + ids[1..];
    }
  }
}
