/**
 * The mutations as edits of a text: the document written out, a start and an end for every node.
 */
module DomMarkup {
  import opened Options
  import opened RoseTree
  import opened DomSpec
  import opened DomDocument
  import opened Sequences

  datatype Token = Start(kind: Kind, eid: Option<nat>) | End

  ghost function Markup(ts: seq<ETree>): seq<Token>
    decreases ts
  {
    if ts == [] then [] else [Start(ts[0].kind, ts[0].eid)] + Markup(ts[0].kids) + [End] + Markup(ts[1..])
  }

  ghost predicate Ends(s: seq<Token>) { s == [] || s[0].End? }

  lemma MarkupCons(ts: seq<ETree>, tail: seq<Token>)
    requires ts != []
    ensures Markup(ts) + tail ==
            [Start(ts[0].kind, ts[0].eid)] + (Markup(ts[0].kids) + ([End] + (Markup(ts[1..]) + tail)))
  {
    RegroupFive([Start(ts[0].kind, ts[0].eid)], Markup(ts[0].kids), [End], Markup(ts[1..]), tail);
  }

  /** The text tells the trees: no two documents are written alike, even with the same trees after them. */
  lemma {:induction false} MarkupDetermines(a: seq<ETree>, x: seq<Token>, b: seq<ETree>, y: seq<Token>)
    requires Markup(a) + x == Markup(b) + y && Ends(x) && Ends(y)
    ensures a == b && x == y
    decreases a
  {
    if a == [] {
      assert Markup(a) + x == x;
      if b != [] { MarkupCons(b, y); }
    } else if b == [] {
      assert Markup(b) + y == y;
      MarkupCons(a, x);
    } else {
      MarkupCons(a, x);
      MarkupCons(b, y);
      var p, q := [End] + (Markup(a[1..]) + x), [End] + (Markup(b[1..]) + y);
      var all := Markup(a) + x;
      assert all[1..] == Markup(a[0].kids) + p && all[1..] == Markup(b[0].kids) + q;
      MarkupDetermines(a[0].kids, p, b[0].kids, q);
      assert p[1..] == Markup(a[1..]) + x && q[1..] == Markup(b[1..]) + y;
      MarkupDetermines(a[1..], x, b[1..], y);
      assert all[0] == Start(a[0].kind, a[0].eid) && all[0] == Start(b[0].kind, b[0].eid);
      assert a == [a[0]] + a[1..] && b == [b[0]] + b[1..];
    }
  }

  lemma MarkupConcat(a: seq<ETree>, b: seq<ETree>)
    ensures Markup(a + b) == Markup(a) + Markup(b)
    decreases a
  {
    if a == [] {
      assert a + b == b;
    } else {
      assert (a + b)[1..] == a[1..] + b;
      MarkupConcat(a[1..], b);
    }
  }

  lemma MarkupOne(t: ETree)
    ensures Markup([t]) == [Start(t.kind, t.eid)] + Markup(t.kids) + [End]
  {
    assert [t][1..] == [];
  }

  /** Somewhere in the text of `ts` that of `was` gave way to that of `rep`; what is before and after is as it was. */
  ghost predicate Rewritten(ts: seq<ETree>, ts': seq<ETree>, was: seq<ETree>, rep: seq<ETree>) {
    exists before: seq<Token>, after: seq<Token> :: Around(ts, ts', was, rep, before, after)
  }

  ghost predicate Around(ts: seq<ETree>, ts': seq<ETree>, was: seq<ETree>, rep: seq<ETree>, before: seq<Token>,
                         after: seq<Token>) {
    Markup(ts) == before + Markup(was) + after && Markup(ts') == before + Markup(rep) + after
  }

  lemma MarkupBetween(a: seq<ETree>, ts: seq<ETree>, b: seq<ETree>, before: seq<Token>, part: seq<ETree>,
                      after: seq<Token>)
    requires Markup(ts) == before + Markup(part) + after
    ensures Markup(a + ts + b) == (Markup(a) + before) + Markup(part) + (after + Markup(b))
  {
    MarkupConcat(a, ts);
    MarkupConcat(a + ts, b);
    Nested(Markup(a), before, Markup(part), after, Markup(b));
  }

  lemma Nested<T>(a: seq<T>, b: seq<T>, c: seq<T>, d: seq<T>, e: seq<T>)
    ensures a + (b + c + d) + e == (a + b) + c + (d + e)
  {}

  /** An edit of a list of trees is an edit of a longer list, or of the children of a node. */
  lemma AroundMore(a: seq<ETree>, ts: seq<ETree>, ts': seq<ETree>, b: seq<ETree>, was: seq<ETree>, rep: seq<ETree>)
    requires Rewritten(ts, ts', was, rep)
    ensures Rewritten(a + ts + b, a + ts' + b, was, rep)
  {
    var before, after :| Around(ts, ts', was, rep, before, after);
    MarkupBetween(a, ts, b, before, was, after);
    MarkupBetween(a, ts', b, before, rep, after);
    assert Around(a + ts + b, a + ts' + b, was, rep, Markup(a) + before, after + Markup(b));
  }

  lemma AroundKids(t: ETree, kids: seq<ETree>, was: seq<ETree>, rep: seq<ETree>)
    requires Rewritten(t.kids, kids, was, rep)
    ensures Rewritten([t], [t.(kids := kids)], was, rep)
  {
    var before, after :| Around(t.kids, kids, was, rep, before, after);
    MarkupOne(t);
    MarkupOne(t.(kids := kids));
    Nested([Start(t.kind, t.eid)], before, Markup(was), after, [End]);
    Nested([Start(t.kind, t.eid)], before, Markup(rep), after, [End]);
    assert Around([t], [t.(kids := kids)], was, rep, [Start(t.kind, t.eid)] + before, after + [End]);
  }

  lemma AroundWhole(was: seq<ETree>, rep: seq<ETree>)
    ensures Rewritten(was, rep, was, rep)
  {
    assert Around(was, rep, was, rep, [], []);
  }

  /** An edit by id replaces the text of the one tree with that id. */
  lemma {:induction false} EditInMarkup(ts: seq<ETree>, e: nat, rep: seq<ETree>)
    requires CountEid(ts, e) == 1 && HasEid(ts, e)
    ensures Rewritten(ts, EEdit(ts, e, rep), [EFind(ts, e)], rep)
    decreases ts
  {
    var t, rest := ts[0], ts[1..];
    HasEidCount(t.kids, e);
    HasEidCount(rest, e);
    assert ts == [] + [t] + rest == [t] + rest + [];
    if t.eid == Some(e) {
      EEditAbsent(rest, e, rep);
      AroundWhole([t], rep);
      AroundMore([], [t], rep, rest, [t], rep);
      assert [] + rep + rest == EEdit(ts, e, rep);
    } else {
      var t', f := t.(kids := EEdit(t.kids, e, rep)), [EFind(ts, e)];
      if HasEid(t.kids, e) {
        EditInMarkup(t.kids, e, rep);
        EEditAbsent(rest, e, rep);
        AroundKids(t, t'.kids, f, rep);
        AroundMore([], [t], [t'], rest, f, rep);
        assert [] + [t'] + rest == EEdit(ts, e, rep);
      } else {
        EditInMarkup(rest, e, rep);
        EEditAbsent(t.kids, e, rep);
        AroundMore([t], rest, EEdit(rest, e, rep), [], f, rep);
        assert [t] + EEdit(rest, e, rep) + [] == EEdit(ts, e, rep);
      }
    }
  }

  /** An edit by path replaces the text of the tree at the path. */
  lemma {:induction false} PathEditInMarkup(ts: seq<ETree>, path: seq<nat>, rep: seq<ETree>)
    requires PathOk(ts, path)
    ensures Rewritten(ts, PathEdit(ts, path, rep), [PathGet(ts, path)], rep)
    decreases path
  {
    var i := path[0];
    var a, t, b := ts[..i], ts[i], ts[i + 1..];
    assert ts == a + [t] + b;
    if |path| == 1 {
      AroundWhole([t], rep);
      AroundMore(a, [t], rep, b, [t], rep);
    } else {
      PathEditInMarkup(t.kids, path[1..], rep);
      AroundKids(t, PathEdit(t.kids, path[1..], rep), [PathGet(ts, path)], rep);
      AroundMore(a, [t], [t.(kids := PathEdit(t.kids, path[1..], rep))], b, [PathGet(ts, path)], rep);
    }
  }

  // ---------------------------------------------------------------- what each mutation writes

  /** Where the tree named `e` stands in `ts`, `rep` of that tree stands in `ts'`. */
  ghost predicate Replaces(ts: seq<ETree>, ts': seq<ETree>, e: nat, rep: ETree -> seq<ETree>) {
    exists t: ETree :: t.eid == Some(e) && Rewritten(ts, ts', [t], rep(t))
  }

  lemma EditReplaces(ts: seq<ETree>, e: nat, rep: ETree -> seq<ETree>)
    requires CountEid(ts, e) == 1 && HasEid(ts, e)
    ensures Replaces(ts, EEdit(ts, e, rep(EFind(ts, e))), e, rep)
  {
    EditInMarkup(ts, e, rep(EFind(ts, e)));
  }

  /** The id a mutation addresses: the document root's if nothing has the one it names. */
  ghost function Addressed(d: Doc, e: nat): nat { if CountEid(d.trees, e) > 0 then e else 0 }

  /** The listeners afterwards are those before, with or without `name`, which is there once at most if it was. */
  ghost predicate Listens(t: ETree, t': ETree, name: string, on: bool) {
    && t'.eid == t.eid && t'.kids == t.kids && (t.kind.Element? <==> t'.kind.Element?)
    && (!t.kind.Element? ==> t' == t)
    && (t.kind.Element? ==> t'.kind.tag == t.kind.tag && (name in t'.kind.listeners <==> on))
    && (t.kind.Element? ==> forall l | l != name :: multiset(t'.kind.listeners)[l] == multiset(t.kind.listeners)[l])
    && (t.kind.Element? && ((name in t.kind.listeners) == on) ==> t' == t)
    && (t.kind.Element? && on && name !in t.kind.listeners ==> t'.kind.listeners == t.kind.listeners + [name])
  }

  ghost predicate Listening(ts: seq<ETree>, ts': seq<ETree>, e: nat, name: string, on: bool) {
    exists t: ETree, t': ETree :: t.eid == Some(e) && Rewritten(ts, ts', [t], [t']) && Listens(t, t', name, on)
  }

  /** What a mutation makes of the trees, bottom of the stack first. */
  ghost predicate Writes(d: Doc, op: Op, ts: seq<ETree>)
    requires Legal(d, op)
  {
    match op
    case AppendChildren(e, m) =>
      Replaces(Base(d, m), ts, Addressed(d, e), (t: ETree) => [ETree(t.kind, t.eid, t.kids + Popped(d, m))])
    case InsertNodesAfter(e, m) => Replaces(Base(d, m), ts, e, (t: ETree) => [t] + Popped(d, m))
    case InsertNodesBefore(e, m) => Replaces(Base(d, m), ts, e, (t: ETree) => Popped(d, m) + [t])
    case ReplaceNodeWith(e, m) => Replaces(Base(d, m), ts, e, (t: ETree) => Popped(d, m))
    case RemoveNode(e) => Replaces(d.trees, ts, e, (t: ETree) => [])
    case SetNodeText(text, e) =>
      Replaces(d.trees, ts, Addressed(d, e),
               (t: ETree) => [if t.kind.Text? then ETree(Text(text), t.eid, t.kids) else t])
    case CreateEventListener(name, e) => Listening(d.trees, ts, Addressed(d, e), name, true)
    case RemoveEventListener(name, e) => Listening(d.trees, ts, Addressed(d, e), name, false)
    case ReplacePlaceholderWithNodes(path, m) =>
      PoppableLess(d, m);
      var was := PathGet(Base(d, m), [|Base(d, m)| - 1] + path);
      Rewritten(Base(d, m), ts, [was], Popped(d, m))
    case AssignNodeId(path, e) =>
      var was := PathGet(d.trees, [|d.trees| - 1] + path);
      Rewritten(d.trees, ts, [was], [ETree(was.kind, Some(e), was.kids)])
    case CreatePlaceholder(e) => ts == d.trees + [ETree(Placeholder, Some(e), [])]
    case CreateTextNode(text, e) => ts == d.trees + [ETree(Text(text), Some(e), [])]
    case LoadTemplate(roots, index, e) =>
      exists t: ETree :: ts == d.trees + [t] && t.eid == Some(e) && Depicts(t, roots[index])
    case PushRoot(_) => ts == d.trees
  }

  /** Which stack entries own a tree afterwards. */
  ghost function Owning(d: Doc, op: Op): seq<bool>
    requires Legal(d, op)
  {
    match op
    case AppendChildren(_, m) => d.own[..|d.own| - m]
    case InsertNodesAfter(_, m) => d.own[..|d.own| - m]
    case InsertNodesBefore(_, m) => d.own[..|d.own| - m]
    case ReplaceNodeWith(_, m) => d.own[..|d.own| - m]
    case ReplacePlaceholderWithNodes(_, m) => d.own[..|d.own| - m]
    case CreatePlaceholder(_) => d.own + [true]
    case CreateTextNode(_, _) => d.own + [true]
    case LoadTemplate(_, _, _) => d.own + [true]
    case PushRoot(_) => d.own + [false]
    case _ => d.own
  }

  // ---------------------------------------------------------------- templates

  /** A node of the template: an element with its tag, a text with its text, a placeholder where it is dynamic. */
  predicate Shows(k: Kind, tn: Template) {
    match tn
    case TElement(tag, _) => k.Element? && k.tag == tag && k.listeners == []
    case TText(text) => k.Text? && k.text == text
    case TDynamic => k.Placeholder?
  }

  function Children(tn: Template): seq<Template> { if tn.TElement? then tn.kids else [] }

  /** The template node at a walk down child indices. */
  function At(tn: Template, path: seq<nat>): Option<Template>
    decreases path
  {
    if path == [] then Some(tn)
    else if path[0] < |Children(tn)| then At(Children(tn)[path[0]], path[1..])
    else None
  }

  ghost function NodeAt(t: ETree, path: seq<nat>): Option<ETree>
    decreases path
  {
    if path == [] then Some(t) else if path[0] < |t.kids| then NodeAt(t.kids[path[0]], path[1..]) else None
  }

  /** Wherever a walk leads in the template it leads in the tree, to the node it shows; only the root has an id. */
  ghost predicate DepictsAt(t: ETree, tn: Template, path: seq<nat>) {
    && (NodeAt(t, path).Some? <==> At(tn, path).Some?)
    && (NodeAt(t, path).Some? ==> Shows(NodeAt(t, path).value.kind, At(tn, path).value))
    && (NodeAt(t, path).Some? && path != [] ==> NodeAt(t, path).value.eid == None)
  }

  ghost predicate Depicts(t: ETree, tn: Template) { forall path: seq<nat> :: DepictsAt(t, tn, path) }

  lemma {:induction false} BlankAt(tns: seq<Template>, k: nat)
    requires k < |tns|
    ensures var t := Blank(tns)[k];
      && Shows(t.kind, tns[k]) && t.eid == None && |t.kids| == |Children(tns[k])| && t.kids == Blank(Children(tns[k]))
    decreases k
  {
    if k > 0 {
      BlankAt(tns[1..], k - 1);
    }
  }

  lemma {:induction false} BlankDepicts(tns: seq<Template>, k: nat, eid: Option<nat>, path: seq<nat>)
    requires k < |tns|
    ensures DepictsAt(Blank(tns)[k].(eid := eid), tns[k], path)
    ensures path == [] ==> NodeAt(Blank(tns)[k].(eid := eid), path) == Some(Blank(tns)[k].(eid := eid))
    decreases |path|
  {
    BlankAt(tns, k);
    var t := Blank(tns)[k].(eid := eid);
    if path != [] && path[0] < |t.kids| {
      BlankAt(Children(tns[k]), path[0]);
      var child := Blank(Children(tns[k]))[path[0]];
      assert child.(eid := None) == child && t.kids[path[0]] == child;
      BlankDepicts(Children(tns[k]), path[0], None, path[1..]);
      if path[1..] == [] {
        assert NodeAt(child, path[1..]) == Some(child);
      }
    }
  }

  // ---------------------------------------------------------------- the theorem

  lemma BaseCount(d: Doc, m: nat, e: nat)
    requires UniqueIds(d.trees) && Poppable(d, m) && HasEid(Base(d, m), e)
    ensures CountEid(Base(d, m), e) == 1
  {
    PopConserves(d, m, e);
    HasEidCount(Base(d, m), e);
    assert CountEid(d.trees, e) <= 1;
  }

  lemma KeyCount(d: Doc, e: nat)
    requires UniqueIds(d.trees) && HasEid(d.trees, 0)
    ensures Key(d, e) == Addressed(d, e) && HasEid(d.trees, Key(d, e)) && CountEid(d.trees, Key(d, e)) == 1
  {
    HasEidCount(d.trees, e);
    HasEidCount(d.trees, Key(d, e));
    assert CountEid(d.trees, Key(d, e)) <= 1;
  }

  lemma MovedWrites(d: Doc, op: Op)
    requires HasEid(d.trees, 0) && UniqueIds(d.trees) && Legal(d, op)
    requires op.AppendChildren? || op.InsertNodesAfter? || op.InsertNodesBefore? || op.ReplaceNodeWith?
    ensures Writes(d, op, Step(d, op).trees) && Step(d, op).own == Owning(d, op)
  {
    match op
    case AppendChildren(e, m) =>
      KeyCount(d, e);
      BaseCount(d, m, Key(d, e));
      EditReplaces(Base(d, m), Key(d, e), (t: ETree) => [ETree(t.kind, t.eid, t.kids + Popped(d, m))]);
    case InsertNodesAfter(e, m) =>
      BaseCount(d, m, e);
      EditReplaces(Base(d, m), e, (t: ETree) => [t] + Popped(d, m));
    case InsertNodesBefore(e, m) =>
      BaseCount(d, m, e);
      EditReplaces(Base(d, m), e, (t: ETree) => Popped(d, m) + [t]);
    case ReplaceNodeWith(e, m) =>
      BaseCount(d, m, e);
      EditReplaces(Base(d, m), e, (t: ETree) => Popped(d, m));
  }

  lemma {:induction false} WithoutListens(ls: seq<string>, name: string)
    ensures name !in Without(ls, name) && (name !in ls ==> Without(ls, name) == ls)
    ensures forall l | l != name :: multiset(Without(ls, name))[l] == multiset(ls)[l]
  {
    if ls != [] {
      WithoutListens(ls[1..], name);
      assert ls == [ls[0]] + ls[1..];
    }
  }

  lemma ListenerWrites(d: Doc, op: Op)
    requires HasEid(d.trees, 0) && UniqueIds(d.trees)
    requires op.CreateEventListener? || op.RemoveEventListener?
    ensures Listening(d.trees, UpdateKind(d, op.e, op).trees, Addressed(d, op.e), op.name, op.CreateEventListener?)
  {
    KeyCount(d, op.e);
    var t := EFind(d.trees, Key(d, op.e));
    var t' := t.(kind := NewKind(t.kind, op));
    EditInMarkup(d.trees, Key(d, op.e), [t']);
    if t.kind.Element? {
      WithoutListens(t.kind.listeners, op.name);
    }
    assert Listens(t, t', op.name, op.CreateEventListener?);
  }

  lemma TextWrites(d: Doc, text: string, e: nat)
    requires HasEid(d.trees, 0) && UniqueIds(d.trees)
    ensures Writes(d, SetNodeText(text, e), UpdateKind(d, e, SetNodeText(text, e)).trees)
  {
    KeyCount(d, e);
    EditReplaces(d.trees, Key(d, e), (t: ETree) => [if t.kind.Text? then ETree(Text(text), t.eid, t.kids) else t]);
  }

  lemma LoadWrites(d: Doc, roots: seq<Template>, index: nat, e: nat)
    requires index < |roots| && !HasEid(d.trees, e)
    ensures Writes(d, LoadTemplate(roots, index, e), Push(d, Blank([roots[index]])[0].(eid := Some(e))).trees)
  {
    var t := Blank([roots[index]])[0].(eid := Some(e));
    forall path: seq<nat> ensures DepictsAt(t, roots[index], path) {
      BlankDepicts([roots[index]], 0, Some(e), path);
    }
  }

  /**
   * One mutation, read off the text of the document: moved trees stand before, after, in or in place of the one node
   * that is addressed, an update changes that node alone, a new tree is what its template shows, and nothing else
   * changes.
   */
  lemma StepWrites(d: Doc, op: Op)
    requires HasEid(d.trees, 0) && UniqueIds(d.trees) && Legal(d, op)
    ensures Writes(d, op, Step(d, op).trees) && Step(d, op).own == Owning(d, op)
  {
    match op
    case AppendChildren(_, _) => MovedWrites(d, op);
    case InsertNodesAfter(_, _) => MovedWrites(d, op);
    case InsertNodesBefore(_, _) => MovedWrites(d, op);
    case ReplaceNodeWith(_, _) => MovedWrites(d, op);
    case CreateEventListener(_, _) => ListenerWrites(d, op);
    case RemoveEventListener(_, _) => ListenerWrites(d, op);
    case SetNodeText(text, e) => TextWrites(d, text, e);
    case LoadTemplate(roots, index, e) => LoadWrites(d, roots, index, e);
    case RemoveNode(e) =>
      HasEidCount(d.trees, e);
      assert CountEid(d.trees, e) <= 1;
      EditReplaces(d.trees, e, (t: ETree) => []);
    case ReplacePlaceholderWithNodes(path, m) =>
      PoppableLess(d, m);
      PathEditInMarkup(Base(d, m), [|Base(d, m)| - 1] + path, Popped(d, m));
    case AssignNodeId(path, e) =>
      var full := [|d.trees| - 1] + path;
      PathEditInMarkup(d.trees, full, [PathGet(d.trees, full).(eid := Some(e))]);
    case _ =>
  }
}
