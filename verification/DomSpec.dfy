/**
 * The mutation language of dioxus, interpreted on pure trees.
 *
 * This is the meaning the arena interpreter has to match: no slots, no free list, no parent links.
 * `trees[0]` is the document, the others are the detached trees waiting on the render stack, bottom
 * first; `own` has one entry per stack position and tells whether that position owns a detached tree
 * (`load_template`, `create_*`) or only refers to a node that already has a place (`push_root`).
 */
module DomSpec {
  import opened Options
  import opened RoseTree

  datatype Template =
    | TElement(tag: string, kids: seq<Template>)
    | TText(text: string)
    | TDynamic

  datatype Op =
    | AppendChildren(e: nat, m: nat)
    | AssignNodeId(path: seq<nat>, e: nat)
    | CreatePlaceholder(e: nat)
    | CreateTextNode(text: string, e: nat)
    | LoadTemplate(roots: seq<Template>, index: nat, e: nat)
    | ReplaceNodeWith(e: nat, m: nat)
    | ReplacePlaceholderWithNodes(path: seq<nat>, m: nat)
    | InsertNodesAfter(e: nat, m: nat)
    | InsertNodesBefore(e: nat, m: nat)
    | SetNodeText(text: string, e: nat)
    | CreateEventListener(name: string, e: nat)
    | RemoveEventListener(name: string, e: nat)
    | RemoveNode(e: nat)
    | PushRoot(e: nat)

  datatype Doc = Doc(trees: seq<ETree>, own: seq<bool>)

  /** A template with every dynamic slot filled by a placeholder and no ids assigned. */
  function KindOf(t: Template): Kind {
    match t
    case TElement(tag, _) => Element(tag, [])
    case TText(text) => Text(text)
    case TDynamic => Placeholder
  }

  ghost function Blank(ts: seq<Template>): (es: seq<ETree>)
    ensures |es| == |ts|
    decreases ts
  {
    if ts == [] then []
    else [ETree(KindOf(ts[0]), None, if ts[0].TElement? then Blank(ts[0].kids) else [])] + Blank(ts[1..])
  }

  /** The id an operation really addresses: unknown ids fall back to the document root. */
  ghost function Key(d: Doc, e: nat): nat {
    if HasEid(d.trees, e) then e else 0
  }

  /** The top `m` stack positions own the top `m` detached trees. */
  ghost predicate Poppable(d: Doc, m: nat) {
    m < |d.trees| && m <= |d.own| && forall i | |d.own| - m <= i < |d.own| :: d.own[i]
  }

  ghost function Base(d: Doc, m: nat): seq<ETree> requires Poppable(d, m) { d.trees[..|d.trees| - m] }
  ghost function Popped(d: Doc, m: nat): seq<ETree> requires Poppable(d, m) { d.trees[|d.trees| - m..] }
  ghost function OwnBelow(d: Doc, m: nat): seq<bool> requires Poppable(d, m) { d.own[..|d.own| - m] }

  /** `e` names a node of `ts` that has a parent. */
  ghost predicate HasPlace(ts: seq<ETree>, e: nat) {
    HasEid(ts, e) && forall t | t in ts :: t.eid != Some(e)
  }

  ghost predicate TopPathOk(ts: seq<ETree>, path: seq<nat>) {
    ts != [] && PathOk(ts, [|ts| - 1] + path)
  }

  /**
   * What dioxus promises of each call: fresh element ids, targets that exist and have a place where
   * one is needed, and moved nodes that are detached trees outside which the target lies.
   */
  ghost predicate Legal(d: Doc, op: Op) {
    match op
    case AppendChildren(e, m) => Poppable(d, m) && HasEid(Base(d, m), Key(d, e))
    case AssignNodeId(path, e) =>
      && !HasEid(d.trees, e) && Poppable(d, 1) && TopPathOk(d.trees, path)
      && PathGet(d.trees, [|d.trees| - 1] + path).eid == None
    case CreatePlaceholder(e) => !HasEid(d.trees, e)
    case CreateTextNode(_, e) => !HasEid(d.trees, e)
    case LoadTemplate(roots, index, e) => index < |roots| && !HasEid(d.trees, e)
    case ReplaceNodeWith(e, m) => Poppable(d, m) && HasPlace(Base(d, m), e)
    case ReplacePlaceholderWithNodes(path, m) => Poppable(d, m + 1) && path != [] && TopPathOk(Base(d, m), path)
    case InsertNodesAfter(e, m) => Poppable(d, m) && HasPlace(Base(d, m), e)
    case InsertNodesBefore(e, m) => Poppable(d, m) && HasPlace(Base(d, m), e)
    case SetNodeText(_, _) => true
    case CreateEventListener(_, _) => true
    case RemoveEventListener(_, _) => true
    case RemoveNode(e) => HasPlace(d.trees, e)
    case PushRoot(_) => true
  }

  /** What happens to the kind of the node an in-place update addresses. */
  function NewKind(kind: Kind, op: Op): Kind {
    match (op, kind)
    case (SetNodeText(text, _), Text(_)) => Text(text)
    case (CreateEventListener(name, _), Element(tag, ls)) => Element(tag, if name in ls then ls else ls + [name])
    case (RemoveEventListener(name, _), Element(tag, ls)) => Element(tag, Without(ls, name))
    case _ => kind
  }

  function Without(ls: seq<string>, name: string): seq<string> {
    if ls == [] then [] else (if ls[0] == name then [] else [ls[0]]) + Without(ls[1..], name)
  }

  ghost function UpdateKind(d: Doc, e: nat, op: Op): Doc
    requires HasEid(d.trees, 0)
  {
    var t := EFind(d.trees, Key(d, e));
    d.(trees := EEdit(d.trees, Key(d, e), [t.(kind := NewKind(t.kind, op))]))
  }

  ghost function Push(d: Doc, t: ETree): Doc {
    Doc(d.trees + [t], d.own + [true])
  }

  /** The effect of one mutation on pure trees. */
  ghost function Step(d: Doc, op: Op): Doc
    requires HasEid(d.trees, 0) && Legal(d, op)
  {
    match op
    case AppendChildren(e, m) =>
      var t := EFind(Base(d, m), Key(d, e));
      Doc(EEdit(Base(d, m), Key(d, e), [t.(kids := t.kids + Popped(d, m))]), OwnBelow(d, m))
    case AssignNodeId(path, e) =>
      var p := [|d.trees| - 1] + path;
      d.(trees := PathEdit(d.trees, p, [PathGet(d.trees, p).(eid := Some(e))]))
    case CreatePlaceholder(e) => Push(d, ETree(Placeholder, Some(e), []))
    case CreateTextNode(text, e) => Push(d, ETree(Text(text), Some(e), []))
    case LoadTemplate(roots, index, e) => Push(d, Blank([roots[index]])[0].(eid := Some(e)))
    case ReplaceNodeWith(e, m) => Doc(EEdit(Base(d, m), e, Popped(d, m)), OwnBelow(d, m))
    case ReplacePlaceholderWithNodes(path, m) =>
      PoppableLess(d, m);
      Doc(PathEdit(Base(d, m), [|Base(d, m)| - 1] + path, Popped(d, m)), OwnBelow(d, m))
    case InsertNodesAfter(e, m) => Doc(EEdit(Base(d, m), e, [EFind(Base(d, m), e)] + Popped(d, m)), OwnBelow(d, m))
    case InsertNodesBefore(e, m) => Doc(EEdit(Base(d, m), e, Popped(d, m) + [EFind(Base(d, m), e)]), OwnBelow(d, m))
    case SetNodeText(_, e) => UpdateKind(d, e, op)
    case CreateEventListener(_, e) => UpdateKind(d, e, op)
    case RemoveEventListener(_, e) => UpdateKind(d, e, op)
    case RemoveNode(e) => d.(trees := EEdit(d.trees, e, []))
    case PushRoot(_) => d.(own := d.own + [false])
  }

  /** Each mutation of `ops` is legal when its turn comes. */
  ghost predicate LegalRun(d: Doc, ops: seq<Op>)
    decreases |ops|
  {
    HasEid(d.trees, 0) && (ops == [] || (Legal(d, ops[0]) && LegalRun(Step(d, ops[0]), ops[1..])))
  }

  ghost function RunDoc(d: Doc, ops: seq<Op>): Doc
    requires LegalRun(d, ops)
    decreases |ops|
  {
    if ops == [] then d else RunDoc(Step(d, ops[0]), ops[1..])
  }

  lemma PoppableLess(d: Doc, m: nat)
    requires Poppable(d, m + 1)
    ensures Poppable(d, m)
  {
  }
}
