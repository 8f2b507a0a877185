/** The AST walker (`codegraph/extractor.py`): a recursive walk for declarations
    and, in every function, an explicit-stack traversal for call sites. */
module Extractor {
  import opened CodeTree

  datatype Key = ModuleKey(name: string) | ClassKey(name: string) | FunctionKey(name: string) | ImportKey(name: string)

  datatype Memo = Memo(key: Key, name: string)

  datatype Edge =
    | Defines(src: Key, target: Key)
    | Inherits(src: Key, base: string)
    | Calls(src: Key, callee: string)
    | Imports(src: Key, target: Key)

  function NameOf(n: Node): string {
    if n.name == "" then "<anonymous>" else n.name
  }

  function Qualified(scope: string, n: Node): string {
    scope + "." + NameOf(n)
  }

  // ----- what is emitted, as lists

  /** The edge of a call site, if it is one. */
  function CallEdge(lang: Language, key: Key, n: Node): seq<Edge> {
    if IsCallSite(lang, n) then [Calls(key, CallTarget(n))] else []
  }

  /** Which node types are calls, in each language, and that a call without a name has
      no edge. */
  lemma CallTypes(lang: Language, key: Key, n: Node)
    ensures CallEdge(lang, key, n) ==
      if CallTarget(n) != "" &&
         match lang
         case Python => n.kind.Call?
         case TypeScript => n.kind.CallExpression? || n.kind.NewExpression?
         case Go => n.kind.CallExpression?
         case Rust => n.kind.CallExpression? || n.kind.MacroInvocation?
      then [Calls(key, CallTarget(n))] else []
  {
  }

  /** What the stack loop emits; only the node it starts from is entered even
      though it is a function. */
  function CollectFrom(lang: Language, key: Key, stack: seq<Node>, atRoot: bool): seq<Edge>
    decreases SizeAll(stack)
  {
    if stack == [] then []
    else
      var cur, rest := stack[|stack| - 1], stack[..|stack| - 1];
      PopShrinks(stack);
      CallEdge(lang, key, cur) +
      CollectFrom(lang, key, if !atRoot && IsOpaque(cur.kind) then rest else rest + cur.children, false)
  }

  function InheritEdges(key: Key, bases: seq<string>): seq<Edge> {
    seq(|bases|, i requires 0 <= i < |bases| => Inherits(key, bases[i]))
  }

  function ImportEdges(moduleKey: Key, names: seq<string>): seq<Edge> {
    seq(|names|, i requires 0 <= i < |names| => Imports(moduleKey, ImportKey(names[i])))
  }

  function ImportMemos(names: seq<string>): seq<Memo> {
    seq(|names|, i requires 0 <= i < |names| => Memo(ImportKey(names[i]), names[i]))
  }

  function NodeEdges(lang: Language, moduleKey: Key, n: Node, scope: string, parent: Key): seq<Edge>
    decreases n, 1
  {
    var q := Qualified(scope, n);
    if IsClass(lang, n.kind) then
      [Defines(parent, ClassKey(q))] + InheritEdges(ClassKey(q), n.bases)
        + WalkEdges(lang, moduleKey, n.children, q, ClassKey(q))
    else if IsFunction(lang, n.kind) then
      [Defines(parent, FunctionKey(q))] + CollectFrom(lang, FunctionKey(q), [n], true)
        + WalkEdges(lang, moduleKey, n.children, q, FunctionKey(q))
    else if IsImport(lang, n.kind) then
      ImportEdges(moduleKey, n.imports)
    else
      WalkEdges(lang, moduleKey, n.children, scope, parent)
  }

  function WalkEdges(lang: Language, moduleKey: Key, nodes: seq<Node>, scope: string, parent: Key): seq<Edge>
    decreases nodes, 0
  {
    if nodes == [] then []
    else
      WalkEdges(lang, moduleKey, nodes[..|nodes| - 1], scope, parent)
      + NodeEdges(lang, moduleKey, nodes[|nodes| - 1], scope, parent)
  }

  function NodeMemos(lang: Language, n: Node, scope: string): seq<Memo>
    decreases n, 1
  {
    var q := Qualified(scope, n);
    if IsClass(lang, n.kind) then [Memo(ClassKey(q), NameOf(n))] + WalkMemos(lang, n.children, q)
    else if IsFunction(lang, n.kind) then [Memo(FunctionKey(q), NameOf(n))] + WalkMemos(lang, n.children, q)
    else if IsImport(lang, n.kind) then ImportMemos(n.imports)
    else WalkMemos(lang, n.children, scope)
  }

  function WalkMemos(lang: Language, nodes: seq<Node>, scope: string): seq<Memo>
    decreases nodes, 0
  {
    if nodes == [] then []
    else WalkMemos(lang, nodes[..|nodes| - 1], scope) + NodeMemos(lang, nodes[|nodes| - 1], scope)
  }

  predicate HasKey(memos: seq<Memo>, key: Key) {
    exists i | 0 <= i < |memos| :: memos[i].key == key
  }

  /** The first memo emitted under a key stays. */
  function Emitted(memos: seq<Memo>, more: seq<Memo>): seq<Memo> {
    if more == [] then memos
    else
      var front, last := Emitted(memos, more[..|more| - 1]), more[|more| - 1];
      if HasKey(front, last.key) then front else front + [last]
  }

  lemma {:induction false} EmittedConcat(memos: seq<Memo>, a: seq<Memo>, b: seq<Memo>)
    ensures Emitted(memos, a + b) == Emitted(Emitted(memos, a), b)
    decreases |b|
  {
    if b == [] {
      assert a + b == a;
    } else {
      assert (a + b)[..|a + b| - 1] == a + b[..|b| - 1];
      EmittedConcat(memos, a, b[..|b| - 1]);
    }
  }

  // ----- the walker

  /** One round of the loop: what is emitted plus what is still to come stays. */
  lemma CollectStep(lang: Language, key: Key, stack: seq<Node>, atRoot: bool, emitted: seq<Edge>)
    requires stack != []
    ensures
      var cur, rest := stack[|stack| - 1], stack[..|stack| - 1];
      var next := if !atRoot && IsOpaque(cur.kind) then rest else rest + cur.children;
      emitted + CollectFrom(lang, key, stack, atRoot)
        == (emitted + CallEdge(lang, key, cur)) + CollectFrom(lang, key, next, false)
  {
    var cur, rest := stack[|stack| - 1], stack[..|stack| - 1];
    var next := if !atRoot && IsOpaque(cur.kind) then rest else rest + cur.children;
    Associate(emitted, CallEdge(lang, key, cur), CollectFrom(lang, key, next, false));
  }

  lemma Associate(a: seq<Edge>, b: seq<Edge>, c: seq<Edge>)
    ensures (a + b) + c == a + (b + c)
  {
  }

  lemma Regroup(a: seq<Edge>, b: seq<Edge>, c: seq<Edge>, d: seq<Edge>)
    ensures ((a + b) + c) + d == a + ((b + c) + d)
  {
    Associate(a + b, c, d);
    Associate(a, b, c + d);
    Associate(b, c, d);
  }

  /** One more child. */
  lemma WalkNext(
      lang: Language, moduleKey: Key, nodes: seq<Node>, i: nat, scope: string, parent: Key, edges: seq<Edge>,
      memos: seq<Memo>)
    requires i < |nodes|
    ensures edges + WalkEdges(lang, moduleKey, nodes[..i + 1], scope, parent)
      == (edges + WalkEdges(lang, moduleKey, nodes[..i], scope, parent))
        + NodeEdges(lang, moduleKey, nodes[i], scope, parent)
    ensures Emitted(memos, WalkMemos(lang, nodes[..i + 1], scope))
      == Emitted(Emitted(memos, WalkMemos(lang, nodes[..i], scope)), NodeMemos(lang, nodes[i], scope))
  {
    assert nodes[..i + 1][..i] == nodes[..i];
    Associate(edges, WalkEdges(lang, moduleKey, nodes[..i], scope, parent),
      NodeEdges(lang, moduleKey, nodes[i], scope, parent));
    EmittedConcat(memos, WalkMemos(lang, nodes[..i], scope), NodeMemos(lang, nodes[i], scope));
  }

  class Walker {
    const language: Language
    const moduleKey: Key
    var memos: seq<Memo>
    var edges: seq<Edge>
    var seen: set<Key>

    ghost predicate Valid()
      reads this
    {
      forall key :: key in seen <==> HasKey(memos, key)
    }

    constructor (language: Language, moduleName: string)
      ensures Valid() && this.language == language && moduleKey == ModuleKey(moduleName)
      ensures memos == [] && edges == []
    {
      this.language := language;
      moduleKey := ModuleKey(moduleName);
      memos, edges, seen := [], [], {};
    }

    /** `_emit_memo` */
    method EmitMemo(m: Memo)
      requires Valid()
      modifies this`memos, this`seen
      ensures Valid() && memos == Emitted(old(memos), [m])
    {
      assert [m][..0] == [];
      if m.key in seen {
        return;
      }
      ghost var before := memos;
      seen := seen + {m.key};
      memos := memos + [m];
      forall key
        ensures key in seen <==> HasKey(memos, key)
      {
        KeysExtend(before, m, key);
      }
    }

    method EmitCall(cur: Node, key: Key)
      modifies this`edges
      ensures edges == old(edges) + CallEdge(language, key, cur)
    {
      if IsCall(language, cur.kind) {
        var callee := CallTarget(cur);
        if callee != "" {
          edges := edges + [Calls(key, callee)];
        }
      }
    }

    /** `_collect_calls`: pop a node, emit its edge, push its children unless it
        is another function. */
    method CollectCalls(node: Node, key: Key)
      modifies this`edges
      ensures edges == old(edges) + CollectFrom(language, key, [node], true)
    {
      var stack, atRoot := [node], true;
      ghost var all := edges + CollectFrom(language, key, stack, atRoot);
      while stack != []
        invariant edges + CollectFrom(language, key, stack, atRoot) == all
        decreases SizeAll(stack)
      {
        PopShrinks(stack);
        CollectStep(language, key, stack, atRoot, edges);
        var cur, rest := stack[|stack| - 1], stack[..|stack| - 1];
        EmitCall(cur, key);
        stack := if !atRoot && IsOpaque(cur.kind) then rest else rest + cur.children;
        atRoot := false;
      }
      assert edges + [] == edges;
    }

    /** `walk` */
    method Walk(node: Node, scope: string, parent: Key)
      requires Valid()
      modifies this
      ensures Valid()
      ensures edges == old(edges) + WalkEdges(language, moduleKey, node.children, scope, parent)
      ensures memos == Emitted(old(memos), WalkMemos(language, node.children, scope))
      decreases node, 0
    {
      var i := 0;
      while i < |node.children|
        invariant 0 <= i <= |node.children| && Valid()
        invariant edges == old(edges) + WalkEdges(language, moduleKey, node.children[..i], scope, parent)
        invariant memos == Emitted(old(memos), WalkMemos(language, node.children[..i], scope))
      {
        WalkNext(language, moduleKey, node.children, i, scope, parent, old(edges), old(memos));
        Visit(node.children[i], scope, parent);
        i := i + 1;
      }
      assert node.children[..i] == node.children;
    }

    /** The body of the loop in `walk`. */
    method Visit(child: Node, scope: string, parent: Key)
      requires Valid()
      modifies this
      ensures Valid()
      ensures edges == old(edges) + NodeEdges(language, moduleKey, child, scope, parent)
      ensures memos == Emitted(old(memos), NodeMemos(language, child, scope))
      decreases child, 2
    {
      if IsClass(language, child.kind) {
        VisitClass(child, Qualified(scope, child), parent);
      } else if IsFunction(language, child.kind) {
        VisitFunction(child, Qualified(scope, child), parent);
      } else if IsImport(language, child.kind) {
        EmitImports(child.imports);
      } else {
        Walk(child, scope, parent);
      }
    }

    method VisitClass(child: Node, q: string, parent: Key)
      requires Valid()
      modifies this
      ensures Valid()
      ensures edges == old(edges) + ([Defines(parent, ClassKey(q))] + InheritEdges(ClassKey(q), child.bases)
        + WalkEdges(language, moduleKey, child.children, q, ClassKey(q)))
      ensures memos == Emitted(old(memos), [Memo(ClassKey(q), NameOf(child))] + WalkMemos(language, child.children, q))
      decreases child, 1
    {
      EmittedConcat(memos, [Memo(ClassKey(q), NameOf(child))], WalkMemos(language, child.children, q));
      EmitMemo(Memo(ClassKey(q), NameOf(child)));
      edges := edges + ([Defines(parent, ClassKey(q))] + InheritEdges(ClassKey(q), child.bases));
      Walk(child, q, ClassKey(q));
    }

    method VisitFunction(child: Node, q: string, parent: Key)
      requires Valid()
      modifies this
      ensures Valid()
      ensures edges
          == old(edges) + ([Defines(parent, FunctionKey(q))] + CollectFrom(language, FunctionKey(q), [child], true)
        + WalkEdges(language, moduleKey, child.children, q, FunctionKey(q)))
      ensures memos
          == Emitted(old(memos), [Memo(FunctionKey(q), NameOf(child))] + WalkMemos(language, child.children, q))
      decreases child, 1
    {
      EmittedConcat(memos, [Memo(FunctionKey(q), NameOf(child))], WalkMemos(language, child.children, q));
      EmitMemo(Memo(FunctionKey(q), NameOf(child)));
      edges := edges + [Defines(parent, FunctionKey(q))];
      CollectCalls(child, FunctionKey(q));
      Walk(child, q, FunctionKey(q));
      Regroup(old(edges), [Defines(parent, FunctionKey(q))], CollectFrom(language, FunctionKey(q), [child], true),
        WalkEdges(language, moduleKey, child.children, q, FunctionKey(q)));
    }

    method EmitImports(names: seq<string>)
      requires Valid()
      modifies this
      ensures Valid()
      ensures edges == old(edges) + ImportEdges(moduleKey, names)
      ensures memos == Emitted(old(memos), ImportMemos(names))
    {
      var i := 0;
      while i < |names|
        invariant 0 <= i <= |names| && Valid()
        invariant edges == old(edges) + ImportEdges(moduleKey, names[..i])
        invariant memos == Emitted(old(memos), ImportMemos(names[..i]))
      {
        EmitMemo(Memo(ImportKey(names[i]), names[i]));
        edges := edges + [Imports(moduleKey, ImportKey(names[i]))];
        assert ImportMemos(names[..i + 1]) == ImportMemos(names[..i]) + [Memo(ImportKey(names[i]), names[i])];
        EmittedConcat(old(memos), ImportMemos(names[..i]), [Memo(ImportKey(names[i]), names[i])]);
        assert ImportEdges(moduleKey, names[..i + 1])
            == ImportEdges(moduleKey, names[..i]) + [Imports(moduleKey, ImportKey(names[i]))];
        i := i + 1;
      }
      assert names[..i] == names;
    }
  }

  lemma KeysExtend(memos: seq<Memo>, m: Memo, key: Key)
    ensures HasKey(memos + [m], key) <==> HasKey(memos, key) || key == m.key
  {
    if HasKey(memos, key) {
      var i :| 0 <= i < |memos| && memos[i].key == key;
      assert (memos + [m])[i].key == key;
    }
    assert (memos + [m])[|memos|].key == m.key;
  }

  /** `extract` */
  method Extract(language: Language, root: Node, moduleName: string) returns (memos: seq<Memo>, edges: seq<Edge>)
    ensures edges == WalkEdges(language, ModuleKey(moduleName), root.children, moduleName, ModuleKey(moduleName))
    ensures memos == Emitted([Memo(ModuleKey(moduleName), moduleName)], WalkMemos(language, root.children, moduleName))
  {
    var w := new Walker(language, moduleName);
    var m := Memo(ModuleKey(moduleName), moduleName);
    assert Emitted([], [m]) == [m] by { assert [m][..0] == []; }
    w.EmitMemo(m);
    w.Walk(root, moduleName, ModuleKey(moduleName));
    return w.memos, w.edges;
  }

  // ----- memos and keys

  predicate KeysDistinct(memos: seq<Memo>) {
    forall i, j | 0 <= i < j < |memos| :: memos[i].key != memos[j].key
  }

  /** Emission keeps keys distinct, forgets none and keeps what was there. */
  lemma {:induction false} EmittedKeys(memos: seq<Memo>, more: seq<Memo>)
    requires KeysDistinct(memos)
    ensures KeysDistinct(Emitted(memos, more))
    ensures memos <= Emitted(memos, more)
    ensures forall key :: HasKey(Emitted(memos, more), key) <==> HasKey(memos, key) || HasKey(more, key)
    decreases |more|
  {
    if more != [] {
      var front, last := more[..|more| - 1], more[|more| - 1];
      EmittedKeys(memos, front);
      assert more == front + [last];
      forall key
        ensures HasKey(Emitted(memos, more), key) <==> HasKey(memos, key) || HasKey(more, key)
      {
        KeysExtend(front, last, key);
        KeysExtend(Emitted(memos, front), last, key);
      }
    }
  }

  /** Keys an edge refers to. */
  predicate EdgeWithin(e: Edge, known: iset<Key>) {
    e.src in known && (e.Defines? || e.Imports? ==> e.target in known)
  }

  ghost function KeysOf(memos: seq<Memo>): iset<Key> {
    iset key | HasKey(memos, key)
  }

  lemma {:induction false} CollectedFromKey(lang: Language, key: Key, stack: seq<Node>, atRoot: bool)
    ensures forall e | e in CollectFrom(lang, key, stack, atRoot) :: e.Calls? && e.src == key
    decreases SizeAll(stack)
  {
    if stack != [] {
      var cur, rest := stack[|stack| - 1], stack[..|stack| - 1];
      PopShrinks(stack);
      CollectedFromKey(lang, key, if !atRoot && IsOpaque(cur.kind) then rest else rest + cur.children, false);
    }
  }

  lemma HasKeyConcat(a: seq<Memo>, b: seq<Memo>, key: Key)
    ensures HasKey(a + b, key) <==> HasKey(a, key) || HasKey(b, key)
  {
    if HasKey(a, key) { var i :| 0 <= i < |a| && a[i].key == key; assert (a + b)[i].key == key; }
    if HasKey(b, key) { var i :| 0 <= i < |b| && b[i].key == key; assert (a + b)[|a| + i].key == key; }
  }

  lemma {:induction false} NodeEdgesWithin(
      lang: Language, moduleKey: Key, n: Node, scope: string, parent: Key, known: iset<Key>)
    requires parent in known && moduleKey in known
    requires forall key | HasKey(NodeMemos(lang, n, scope), key) :: key in known
    ensures forall e | e in NodeEdges(lang, moduleKey, n, scope, parent) :: EdgeWithin(e, known)
    decreases n, 1
  {
    var q := Qualified(scope, n);
    if IsClass(lang, n.kind) || IsFunction(lang, n.kind) {
      var memo := Memo(if IsClass(lang, n.kind) then ClassKey(q) else FunctionKey(q), NameOf(n));
      assert ([memo] + WalkMemos(lang, n.children, q))[0].key == memo.key;
      assert HasKey(NodeMemos(lang, n, scope), memo.key);
      forall key | HasKey(WalkMemos(lang, n.children, q), key)
        ensures key in known
      {
        HasKeyConcat([memo], WalkMemos(lang, n.children, q), key);
      }
      WalkEdgesWithin(lang, moduleKey, n.children, q, memo.key, known);
      CollectedFromKey(lang, memo.key, [n], true);
    } else if IsImport(lang, n.kind) {
      forall i | 0 <= i < |n.imports|
        ensures ImportKey(n.imports[i]) in known
      {
        assert ImportMemos(n.imports)[i].key == ImportKey(n.imports[i]);
      }
    } else {
      WalkEdgesWithin(lang, moduleKey, n.children, scope, parent, known);
    }
  }

  lemma {:induction false} WalkEdgesWithin(
      lang: Language, moduleKey: Key, nodes: seq<Node>, scope: string, parent: Key, known: iset<Key>)
    requires parent in known && moduleKey in known
    requires forall key | HasKey(WalkMemos(lang, nodes, scope), key) :: key in known
    ensures forall e | e in WalkEdges(lang, moduleKey, nodes, scope, parent) :: EdgeWithin(e, known)
    decreases nodes, 0
  {
    if nodes != [] {
      var front, last := nodes[..|nodes| - 1], nodes[|nodes| - 1];
      forall key | HasKey(WalkMemos(lang, front, scope), key) || HasKey(NodeMemos(lang, last, scope), key)
        ensures key in known
      {
        HasKeyConcat(WalkMemos(lang, front, scope), NodeMemos(lang, last, scope), key);
      }
      WalkEdgesWithin(lang, moduleKey, front, scope, parent, known);
      NodeEdgesWithin(lang, moduleKey, last, scope, parent, known);
    }
  }

  /** The extracted graph is closed: memo keys are distinct, and both ends of
      every edge that names a key are memos of the extraction. */
  lemma ExtractionIsClosed(lang: Language, root: Node, moduleName: string, memos: seq<Memo>, edges: seq<Edge>)
    requires edges == WalkEdges(lang, ModuleKey(moduleName), root.children, moduleName, ModuleKey(moduleName))
    requires memos == Emitted([Memo(ModuleKey(moduleName), moduleName)], WalkMemos(lang, root.children, moduleName))
    ensures KeysDistinct(memos)
    ensures forall e | e in edges :: HasKey(memos, e.src) && (e.Defines? || e.Imports? ==> HasKey(memos, e.target))
  {
    var first := [Memo(ModuleKey(moduleName), moduleName)];
    assert first[0].key == ModuleKey(moduleName);
    assert HasKey(first, ModuleKey(moduleName));
    EmittedKeys(first, WalkMemos(lang, root.children, moduleName));
    WalkEdgesWithin(lang, ModuleKey(moduleName), root.children, moduleName, ModuleKey(moduleName), KeysOf(memos));
    forall e | e in edges
      ensures HasKey(memos, e.src) && (e.Defines? || e.Imports? ==> HasKey(memos, e.target))
    {
      assert EdgeWithin(e, KeysOf(memos));
    }
  }
}
