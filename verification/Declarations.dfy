/** What the walk of `codegraph/extractor.py` says about the tree: which declarations,
    bases and imports it records, under which names and owners. */
module Declarations {
  import opened CodeTree
  import opened Extractor

  // ----- the node types

  /** The declarations, imports and calls of each language. */
  lemma NodeTypes(lang: Language, moduleKey: Key, n: Node, scope: string, parent: Key)
    ensures
      var q := scope + "." + (if n.name == "" then "<anonymous>" else n.name);
      var edges, memos := NodeEdges(lang, moduleKey, n, scope, parent), NodeMemos(lang, n, scope);
      match lang
      case Python =>
        && (n.kind.ClassDefinition? ==> StartsClass(edges, memos, parent, q))
        && (n.kind.FunctionDefinition? ==> StartsFunction(edges, memos, parent, q))
        && (n.kind.ImportStatement? || n.kind.ImportFromStatement? ==> OnlyImports(edges, memos, moduleKey, n.imports))
      case TypeScript =>
        && (n.kind.ClassDeclaration? || n.kind.InterfaceDeclaration? ==> StartsClass(edges, memos, parent, q))
        && (n.kind.FunctionDeclaration? || n.kind.MethodDefinition? || n.kind.ArrowFunction? ==>
              StartsFunction(edges, memos, parent, q))
        && (n.kind.ImportStatement? ==> OnlyImports(edges, memos, moduleKey, n.imports))
      case Go =>
        && (n.kind.TypeDeclaration? ==> StartsClass(edges, memos, parent, q))
        && (n.kind.FunctionDeclaration? || n.kind.MethodDeclaration? ==> StartsFunction(edges, memos, parent, q))
        && (n.kind.ImportDeclaration? || n.kind.ImportSpec? ==> OnlyImports(edges, memos, moduleKey, n.imports))
      case Rust =>
        && (n.kind.StructItem? || n.kind.EnumItem? || n.kind.TraitItem? || n.kind.ImplItem? ==>
              StartsClass(edges, memos, parent, q))
        && (n.kind.FunctionItem? || n.kind.FunctionSignatureItem? ==> StartsFunction(edges, memos, parent, q))
        && (n.kind.UseDeclaration? ==> OnlyImports(edges, memos, moduleKey, n.imports))
  {
  }

  predicate StartsClass(edges: seq<Edge>, memos: seq<Memo>, parent: Key, q: string) {
    edges != [] && edges[0] == Defines(parent, ClassKey(q)) && memos != [] && memos[0].key == ClassKey(q)
  }

  predicate StartsFunction(edges: seq<Edge>, memos: seq<Memo>, parent: Key, q: string) {
    edges != [] && edges[0] == Defines(parent, FunctionKey(q)) && memos != [] && memos[0].key == FunctionKey(q)
  }

  predicate OnlyImports(edges: seq<Edge>, memos: seq<Memo>, moduleKey: Key, names: seq<string>) {
    && |edges| == |names| == |memos|
    && forall i | 0 <= i < |names| ::
      edges[i] == Imports(moduleKey, ImportKey(names[i])) && memos[i] == Memo(ImportKey(names[i]), names[i])
  }

  /** All other node types are transparent. */
  lemma OtherTypes(lang: Language, moduleKey: Key, n: Node, scope: string, parent: Key)
    requires match lang
      case Python =>
        !(n.kind.ClassDefinition? || n.kind.FunctionDefinition? || n.kind.ImportStatement?
          || n.kind.ImportFromStatement?)
      case TypeScript =>
        !(n.kind.ClassDeclaration? || n.kind.InterfaceDeclaration? || n.kind.FunctionDeclaration?
          || n.kind.MethodDefinition? || n.kind.ArrowFunction? || n.kind.ImportStatement?)
      case Go =>
        !(n.kind.TypeDeclaration? || n.kind.FunctionDeclaration? || n.kind.MethodDeclaration?
          || n.kind.ImportDeclaration? || n.kind.ImportSpec?)
      case Rust =>
        !(n.kind.StructItem? || n.kind.EnumItem? || n.kind.TraitItem? || n.kind.ImplItem? || n.kind.FunctionItem?
          || n.kind.FunctionSignatureItem? || n.kind.UseDeclaration?)
    ensures NodeEdges(lang, moduleKey, n, scope, parent) == WalkEdges(lang, moduleKey, n.children, scope, parent)
    ensures NodeMemos(lang, n, scope) == WalkMemos(lang, n.children, scope)
  {
  }

  // ----- places in the tree

  predicate Declares(lang: Language, k: Kind) {
    IsClass(lang, k) || IsFunction(lang, k)
  }

  /** The path leads to `n` through children the walk enters: not into imports. */
  ghost predicate Leads(lang: Language, nodes: seq<Node>, path: seq<nat>, n: Node)
    decreases |path|
  {
    && path != [] && path[0] < |nodes|
    && var c := nodes[path[0]];
       if |path| == 1 then n == c
       else (Declares(lang, c.kind) || !IsImport(lang, c.kind)) && Leads(lang, c.children, path[1..], n)
  }

  /** The dotted names of the declarations around the end of the path. */
  ghost function ScopeAt(lang: Language, nodes: seq<Node>, path: seq<nat>, scope: string): string
    decreases |path|
  {
    if |path| <= 1 || path[0] >= |nodes| then scope
    else
      var c := nodes[path[0]];
      var name := if c.name == "" then "<anonymous>" else c.name;
      ScopeAt(lang, c.children, path[1..], if Declares(lang, c.kind) then scope + "." + name else scope)
  }

  /** The key of the innermost declaration around the end of the path. */
  ghost function OwnerAt(lang: Language, nodes: seq<Node>, path: seq<nat>, scope: string, owner: Key): Key
    decreases |path|
  {
    if |path| <= 1 || path[0] >= |nodes| then owner
    else
      var c := nodes[path[0]];
      var q := scope + "." + if c.name == "" then "<anonymous>" else c.name;
      if IsClass(lang, c.kind) then OwnerAt(lang, c.children, path[1..], q, ClassKey(q))
      else if IsFunction(lang, c.kind) then OwnerAt(lang, c.children, path[1..], q, FunctionKey(q))
      else OwnerAt(lang, c.children, path[1..], scope, owner)
  }

  /** What one node records, other than calls, given what is around it. */
  predicate Records(lang: Language, moduleKey: Key, n: Node, scope: string, owner: Key, e: Edge) {
    var q := scope + "." + if n.name == "" then "<anonymous>" else n.name;
    match e
    case Defines(src, target) =>
      src == owner && ((IsClass(lang, n.kind) && target == ClassKey(q))
                       || (!IsClass(lang, n.kind) && IsFunction(lang, n.kind) && target == FunctionKey(q)))
    case Inherits(src, base) => IsClass(lang, n.kind) && src == ClassKey(q) && base in n.bases
    case Imports(src, target) =>
      && !Declares(lang, n.kind) && IsImport(lang, n.kind)
      && src == moduleKey && target.ImportKey? && target.name in n.imports
    case Calls(_, _) => false
  }

  ghost predicate RecordedAt(
      lang: Language, moduleKey: Key, nodes: seq<Node>, scope: string, owner: Key, e: Edge, path: seq<nat>, n: Node)
  {
    && Leads(lang, nodes, path, n)
    && Records(lang, moduleKey, n, ScopeAt(lang, nodes, path, scope), OwnerAt(lang, nodes, path, scope, owner), e)
  }

  ghost predicate Recorded(lang: Language, moduleKey: Key, nodes: seq<Node>, scope: string, owner: Key, e: Edge) {
    exists path, n :: RecordedAt(lang, moduleKey, nodes, scope, owner, e, path, n)
  }

  /** The scope and the owner that the children of a node get. */
  function InnerScope(lang: Language, n: Node, scope: string): string {
    if Declares(lang, n.kind) then Qualified(scope, n) else scope
  }

  function InnerOwner(lang: Language, n: Node, scope: string, owner: Key): Key {
    if IsClass(lang, n.kind) then ClassKey(Qualified(scope, n))
    else if IsFunction(lang, n.kind) then FunctionKey(Qualified(scope, n))
    else owner
  }

  predicate Entered(lang: Language, n: Node) {
    Declares(lang, n.kind) || !IsImport(lang, n.kind)
  }

  lemma StackEmitsCalls(lang: Language, key: Key, stack: seq<Node>, atRoot: bool, e: Edge)
    requires e in CollectFrom(lang, key, stack, atRoot)
    ensures e.Calls?
    decreases SizeAll(stack)
  {
    var cur, rest := stack[|stack| - 1], stack[..|stack| - 1];
    PopShrinks(stack);
    if e !in CallEdge(lang, key, cur) {
      StackEmitsCalls(lang, key, if !atRoot && IsOpaque(cur.kind) then rest else rest + cur.children, false, e);
    }
  }

  /** A node records its own edges, and its children theirs. */
  lemma NodeRecords(lang: Language, moduleKey: Key, n: Node, scope: string, owner: Key, e: Edge)
    requires !e.Calls?
    ensures e in NodeEdges(lang, moduleKey, n, scope, owner) <==>
      || Records(lang, moduleKey, n, scope, owner, e)
      || (Entered(lang, n)
          && e in WalkEdges(lang, moduleKey, n.children, InnerScope(lang, n, scope), InnerOwner(lang, n, scope, owner)))
  {
    var q := Qualified(scope, n);
    if IsClass(lang, n.kind) {
      InheritMembers(ClassKey(q), n.bases, e);
    } else if IsFunction(lang, n.kind) {
      if e in CollectFrom(lang, FunctionKey(q), [n], true) {
        StackEmitsCalls(lang, FunctionKey(q), [n], true, e);
      }
    } else if IsImport(lang, n.kind) {
      ImportMembers(moduleKey, n.imports, e);
    }
  }

  lemma InheritMembers(key: Key, bases: seq<string>, e: Edge)
    ensures e in InheritEdges(key, bases) <==> e.Inherits? && e.src == key && e.base in bases
  {
    if e.Inherits? && e.src == key && e.base in bases {
      var i :| 0 <= i < |bases| && bases[i] == e.base;
      assert InheritEdges(key, bases)[i] == e;
    }
  }

  lemma ImportMembers(moduleKey: Key, names: seq<string>, e: Edge)
    ensures e in ImportEdges(moduleKey, names) <==>
      e.Imports? && e.src == moduleKey && e.target.ImportKey? && e.target.name in names
  {
    if e.Imports? && e.src == moduleKey && e.target.ImportKey? && e.target.name in names {
      var i :| 0 <= i < |names| && names[i] == e.target.name;
      assert ImportEdges(moduleKey, names)[i] == e;
    }
  }

  /** The edges of a walk are those of its nodes. */
  lemma {:induction false} WalkHasNode(
      lang: Language, moduleKey: Key, nodes: seq<Node>, scope: string, owner: Key, e: Edge, i: nat)
    requires i < |nodes| && e in NodeEdges(lang, moduleKey, nodes[i], scope, owner)
    ensures e in WalkEdges(lang, moduleKey, nodes, scope, owner)
    decreases |nodes|
  {
    if i < |nodes| - 1 {
      WalkHasNode(lang, moduleKey, nodes[..|nodes| - 1], scope, owner, e, i);
    }
  }

  lemma {:induction false} NodeOfWalk(
      lang: Language, moduleKey: Key, nodes: seq<Node>, scope: string, owner: Key, e: Edge)
    returns (i: nat)
    requires e in WalkEdges(lang, moduleKey, nodes, scope, owner)
    ensures i < |nodes| && e in NodeEdges(lang, moduleKey, nodes[i], scope, owner)
    decreases |nodes|
  {
    i := |nodes| - 1;
    if e !in NodeEdges(lang, moduleKey, nodes[i], scope, owner) {
      i := NodeOfWalk(lang, moduleKey, nodes[..|nodes| - 1], scope, owner, e);
    }
  }

  /** What is recorded on a path is what its first node records or what is recorded
      on the rest of the path. */
  lemma PathStep(
      lang: Language, moduleKey: Key, nodes: seq<Node>, scope: string, owner: Key, e: Edge, path: seq<nat>, n: Node)
    requires path != [] && path[0] < |nodes|
    ensures
      var c := nodes[path[0]];
      RecordedAt(lang, moduleKey, nodes, scope, owner, e, path, n) <==>
        if |path| == 1 then n == c && Records(lang, moduleKey, c, scope, owner, e)
        else
          && Entered(lang, c)
          && RecordedAt(lang, moduleKey, c.children, InnerScope(lang, c, scope), InnerOwner(lang, c, scope, owner), e,
               path[1..], n)
  {
  }

  lemma {:induction false} RecordedIsWalked(
      lang: Language, moduleKey: Key, nodes: seq<Node>, scope: string, owner: Key, e: Edge, path: seq<nat>, n: Node)
    requires !e.Calls? && RecordedAt(lang, moduleKey, nodes, scope, owner, e, path, n)
    ensures e in WalkEdges(lang, moduleKey, nodes, scope, owner)
    decreases |path|
  {
    var c := nodes[path[0]];
    PathStep(lang, moduleKey, nodes, scope, owner, e, path, n);
    if |path| > 1 {
      RecordedIsWalked(
        lang, moduleKey, c.children, InnerScope(lang, c, scope), InnerOwner(lang, c, scope, owner), e, path[1..], n);
    }
    NodeRecords(lang, moduleKey, c, scope, owner, e);
    WalkHasNode(lang, moduleKey, nodes, scope, owner, e, path[0]);
  }

  lemma {:induction false} WalkedIsRecorded(
      lang: Language, moduleKey: Key, nodes: seq<Node>, scope: string, owner: Key, e: Edge)
    returns (path: seq<nat>, n: Node)
    requires !e.Calls? && e in WalkEdges(lang, moduleKey, nodes, scope, owner)
    ensures RecordedAt(lang, moduleKey, nodes, scope, owner, e, path, n)
    decreases nodes
  {
    var i := NodeOfWalk(lang, moduleKey, nodes, scope, owner, e);
    var c := nodes[i];
    NodeRecords(lang, moduleKey, c, scope, owner, e);
    if Records(lang, moduleKey, c, scope, owner, e) {
      path, n := [i], c;
    } else {
      var rest;
      rest, n := WalkedIsRecorded(
        lang, moduleKey, c.children, InnerScope(lang, c, scope), InnerOwner(lang, c, scope, owner), e);
      path := [i] + rest;
      assert path[1..] == rest;
    }
    PathStep(lang, moduleKey, nodes, scope, owner, e, path, n);
  }

  /** The walk records exactly what the tree declares: every class and function under
      its dotted name as defined by the innermost declaration around it, the bases of
      every class, and every import of the module. */
  lemma WalkRecordsTheTree(lang: Language, moduleKey: Key, nodes: seq<Node>, scope: string, owner: Key, e: Edge)
    requires !e.Calls?
    ensures e in WalkEdges(lang, moduleKey, nodes, scope, owner) <==>
      Recorded(lang, moduleKey, nodes, scope, owner, e)
  {
    if e in WalkEdges(lang, moduleKey, nodes, scope, owner) {
      var path, n := WalkedIsRecorded(lang, moduleKey, nodes, scope, owner, e);
    }
    if path, n :| RecordedAt(lang, moduleKey, nodes, scope, owner, e, path, n) {
      RecordedIsWalked(lang, moduleKey, nodes, scope, owner, e, path, n);
    }
  }

  // ----- memos

  /** A memo stands for a declaration or an import that the walk records, and is named
      like it. */
  ghost predicate StandsFor(m: Memo, moduleKey: Key, edges: seq<Edge>) {
    match m.key
    case ModuleKey(_) => false
    case ImportKey(name) => m.name == name && Imports(moduleKey, m.key) in edges
    case ClassKey(q) => EndsWith(q, "." + m.name) && exists owner :: Defines(owner, m.key) in edges
    case FunctionKey(q) => EndsWith(q, "." + m.name) && exists owner :: Defines(owner, m.key) in edges
  }

  predicate EndsWith(s: string, tail: string) {
    |tail| <= |s| && s[|s| - |tail|..] == tail
  }

  lemma MoreEdges(m: Memo, moduleKey: Key, edges: seq<Edge>, more: seq<Edge>)
    requires StandsFor(m, moduleKey, edges) && forall e | e in edges :: e in more
    ensures StandsFor(m, moduleKey, more)
  {
    if m.key.ClassKey? || m.key.FunctionKey? {
      var owner :| Defines(owner, m.key) in edges;
      assert Defines(owner, m.key) in more;
    }
  }

  lemma OwnMemo(lang: Language, moduleKey: Key, n: Node, scope: string, owner: Key, m: Memo)
    requires m in NodeMemos(lang, n, scope)
    requires !(Entered(lang, n) && m in WalkMemos(lang, n.children, InnerScope(lang, n, scope)))
    ensures StandsFor(m, moduleKey, NodeEdges(lang, moduleKey, n, scope, owner))
  {
    var q, edges := Qualified(scope, n), NodeEdges(lang, moduleKey, n, scope, owner);
    if Declares(lang, n.kind) {
      assert edges[0] == Defines(owner, m.key);
      assert q[|scope|..] == "." + m.name;
    } else if IsImport(lang, n.kind) {
      ImportMembers(moduleKey, n.imports, Imports(moduleKey, m.key));
    }
  }

  lemma {:induction false} MemosStandForDeclarations(
      lang: Language, moduleKey: Key, nodes: seq<Node>, scope: string, owner: Key, m: Memo)
    requires m in WalkMemos(lang, nodes, scope)
    ensures StandsFor(m, moduleKey, WalkEdges(lang, moduleKey, nodes, scope, owner))
    decreases nodes, 0
  {
    var front, n := nodes[..|nodes| - 1], nodes[|nodes| - 1];
    var edges := WalkEdges(lang, moduleKey, nodes, scope, owner);
    if m in WalkMemos(lang, front, scope) {
      MemosStandForDeclarations(lang, moduleKey, front, scope, owner, m);
      MoreEdges(m, moduleKey, WalkEdges(lang, moduleKey, front, scope, owner), edges);
    } else {
      NodeMemosStand(lang, moduleKey, n, scope, owner, m);
      MoreEdges(m, moduleKey, NodeEdges(lang, moduleKey, n, scope, owner), edges);
    }
  }

  lemma {:induction false} NodeMemosStand(
      lang: Language, moduleKey: Key, n: Node, scope: string, owner: Key, m: Memo)
    requires m in NodeMemos(lang, n, scope)
    ensures StandsFor(m, moduleKey, NodeEdges(lang, moduleKey, n, scope, owner))
    decreases n, 1
  {
    var inner, innerOwner := InnerScope(lang, n, scope), InnerOwner(lang, n, scope, owner);
    if Entered(lang, n) && m in WalkMemos(lang, n.children, inner) {
      MemosStandForDeclarations(lang, moduleKey, n.children, inner, innerOwner, m);
      MoreEdges(m, moduleKey, WalkEdges(lang, moduleKey, n.children, inner, innerOwner),
        NodeEdges(lang, moduleKey, n, scope, owner));
    } else {
      OwnMemo(lang, moduleKey, n, scope, owner, m);
    }
  }

  // ----- the extraction

  /** Everything `extract` returns, read off the tree: its edges other than calls are
      those the tree declares, and its memos are the module and what these edges
      define or import. */
  lemma ExtractionIsTheTree(
      lang: Language, root: Node, moduleName: string, memos: seq<Memo>, edges: seq<Edge>, e: Edge, m: Memo)
    requires edges == WalkEdges(lang, ModuleKey(moduleName), root.children, moduleName, ModuleKey(moduleName))
    requires memos == Emitted([Memo(ModuleKey(moduleName), moduleName)], WalkMemos(lang, root.children, moduleName))
    ensures !e.Calls? ==>
      (e in edges <==> Recorded(lang, ModuleKey(moduleName), root.children, moduleName, ModuleKey(moduleName), e))
    ensures m in memos ==>
      m == Memo(ModuleKey(moduleName), moduleName) || StandsFor(m, ModuleKey(moduleName), edges)
  {
    var key := ModuleKey(moduleName);
    if !e.Calls? {
      WalkRecordsTheTree(lang, key, root.children, moduleName, key, e);
    }
    if m in memos {
      EmittedFrom([Memo(key, moduleName)], WalkMemos(lang, root.children, moduleName), m);
      if m in WalkMemos(lang, root.children, moduleName) {
        MemosStandForDeclarations(lang, key, root.children, moduleName, key, m);
      }
    }
  }

  lemma {:induction false} EmittedFrom(memos: seq<Memo>, more: seq<Memo>, m: Memo)
    requires m in Emitted(memos, more)
    ensures m in memos || m in more
    decreases |more|
  {
    if more != [] && m in Emitted(memos, more[..|more| - 1]) {
      EmittedFrom(memos, more[..|more| - 1], m);
    }
  }
}
