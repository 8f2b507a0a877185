/** Whether the two traversals of `codegraph/extractor.py` together attribute
    every call site once: the CALLS edges against a one-pass specification. */
module CallAttribution {
  import opened CodeTree
  import opened Extractor

  /** The innermost enclosing function, if there is one that counts. */
  datatype Owner = Nobody | Inside(key: Key)

  function Site(lang: Language, owner: Owner, n: Node): multiset<Edge> {
    if owner.Inside? && IsCallSite(lang, n) then multiset{Calls(owner.key, CallTarget(n))} else multiset{}
  }

  // ----- sums of multisets

  lemma Pairwise(a: multiset<Edge>, b: multiset<Edge>, c: multiset<Edge>, d: multiset<Edge>)
    ensures (a + b) + (c + d) == (a + c) + (b + d)
  {
  }

  /** Adding the sites of a node to both sides of a balance. */
  lemma AddSite(site: multiset<Edge>, em: multiset<Edge>, sh: multiset<Edge>, sp: multiset<Edge>, ex: multiset<Edge>)
    requires em + sh == sp + ex
    ensures em + (site + sh) == (site + sp) + ex
  {
    Pairwise(multiset{}, em, site, sh);
    Pairwise(site, sp, multiset{}, ex);
    assert em + (site + sh) == site + (em + sh);
    assert (site + sp) + ex == site + (sp + ex);
  }

  // ----- the specification

  /** Each call site with a recognised callee whose innermost enclosing function
      is not under an import yields one edge from that function. */
  function SpecNode(lang: Language, n: Node, scope: string, owner: Owner, underImport: bool): multiset<Edge>
    decreases n, 1
  {
    var q := Qualified(scope, n);
    Site(lang, owner, n) +
    if IsClass(lang, n.kind) then Spec(lang, n.children, q, owner, underImport)
    else if IsFunction(lang, n.kind)
    then Spec(lang, n.children, q, if underImport then Nobody else Inside(FunctionKey(q)), underImport)
    else if IsImport(lang, n.kind) then Spec(lang, n.children, scope, owner, true)
    else Spec(lang, n.children, scope, owner, underImport)
  }

  function Spec(lang: Language, nodes: seq<Node>, scope: string, owner: Owner, underImport: bool): multiset<Edge>
    decreases nodes, 0
  {
    if nodes == [] then multiset{}
    else
      Spec(lang, nodes[..|nodes| - 1], scope, owner, underImport)
      + SpecNode(lang, nodes[|nodes| - 1], scope, owner, underImport)
  }

  // ----- what the code emits, as multisets

  /** The CALLS edges of a list. */
  function CallsOf(edges: seq<Edge>): multiset<Edge> {
    if edges == [] then multiset{}
    else CallsOf(edges[..|edges| - 1]) + if edges[|edges| - 1].Calls? then multiset{edges[|edges| - 1]} else multiset{}
  }

  lemma {:induction false} CallsOfConcat(a: seq<Edge>, b: seq<Edge>)
    ensures CallsOf(a + b) == CallsOf(a) + CallsOf(b)
    decreases |b|
  {
    if b == [] {
      assert a + b == a;
    } else {
      assert (a + b)[..|a + b| - 1] == a + b[..|b| - 1];
      CallsOfConcat(a, b[..|b| - 1]);
    }
  }

  lemma {:induction false} NoCallsIn(edges: seq<Edge>)
    requires forall e | e in edges :: !e.Calls?
    ensures CallsOf(edges) == multiset{}
    decreases |edges|
  {
    if edges != [] {
      assert edges[|edges| - 1] in edges;
      NoCallsIn(edges[..|edges| - 1]);
    }
  }

  /** Call sites the stack loop finds below a node that it does not start from. */
  function ShallowNode(lang: Language, owner: Owner, n: Node): multiset<Edge>
    decreases n, 1
  {
    Site(lang, owner, n) + if IsOpaque(n.kind) then multiset{} else Shallow(lang, owner, n.children)
  }

  function Shallow(lang: Language, owner: Owner, nodes: seq<Node>): multiset<Edge>
    decreases nodes, 0
  {
    if nodes == [] then multiset{}
    else Shallow(lang, owner, nodes[..|nodes| - 1]) + ShallowNode(lang, owner, nodes[|nodes| - 1])
  }

  lemma {:induction false} ShallowConcat(lang: Language, owner: Owner, a: seq<Node>, b: seq<Node>)
    ensures Shallow(lang, owner, a + b) == Shallow(lang, owner, a) + Shallow(lang, owner, b)
    decreases |b|
  {
    if b == [] {
      assert a + b == a;
    } else {
      assert (a + b)[..|a + b| - 1] == a + b[..|b| - 1];
      ShallowConcat(lang, owner, a, b[..|b| - 1]);
    }
  }

  /** A popped node and what is pushed for it. */
  lemma ShallowPop(lang: Language, owner: Owner, rest: seq<Node>, cur: Node)
    ensures
      var next := if IsOpaque(cur.kind) then rest else rest + cur.children;
      Shallow(lang, owner, rest) + ShallowNode(lang, owner, cur) == Site(lang, owner, cur) + Shallow(lang, owner, next)
  {
    ShallowConcat(lang, owner, rest, cur.children);
  }

  /** The stack loop visits each node of its region once, in whatever order. */
  lemma {:induction false} CollectIsShallow(lang: Language, key: Key, stack: seq<Node>)
    ensures CallsOf(CollectFrom(lang, key, stack, false)) == Shallow(lang, Inside(key), stack)
    decreases SizeAll(stack)
  {
    if stack != [] {
      var cur, rest := stack[|stack| - 1], stack[..|stack| - 1];
      PopShrinks(stack);
      var next := if IsOpaque(cur.kind) then rest else rest + cur.children;
      CollectIsShallow(lang, key, next);
      CallsOfConcat(CallEdge(lang, key, cur), CollectFrom(lang, key, next, false));
      CallEdgeIsSite(lang, key, cur);
      ShallowPop(lang, Inside(key), rest, cur);
    }
  }

  lemma CallEdgeIsSite(lang: Language, key: Key, n: Node)
    ensures CallsOf(CallEdge(lang, key, n)) == Site(lang, Inside(key), n)
  {
    var e := Calls(key, CallTarget(n));
    assert [e][..0] == [];
    assert CallsOf([e]) == CallsOf([]) + multiset{e};
  }

  lemma FirstPop(lang: Language, key: Key, n: Node)
    requires IsFunction(lang, n.kind)
    ensures CollectFrom(lang, key, [n], true) == CollectFrom(lang, key, n.children, false)
  {
    var stack := [n];
    var cur, rest := stack[|stack| - 1], stack[..|stack| - 1];
    assert rest + cur.children == n.children;
    assert CallEdge(lang, key, cur) == [];
    assert CollectFrom(lang, key, stack, true) == [] + CollectFrom(lang, key, rest + cur.children, false);
  }

  /** Started from a function, the loop covers its children. */
  lemma CollectFromFunction(lang: Language, key: Key, n: Node)
    requires IsFunction(lang, n.kind)
    ensures CallsOf(CollectFrom(lang, key, [n], true)) == Shallow(lang, Inside(key), n.children)
  {
    FirstPop(lang, key, n);
    CollectIsShallow(lang, key, n.children);
  }

  /** The CALLS edges of the whole walk. */
  function EmittedNode(lang: Language, n: Node, scope: string): multiset<Edge>
    decreases n, 1
  {
    var q := Qualified(scope, n);
    if IsClass(lang, n.kind) then EmittedCalls(lang, n.children, q)
    else if IsFunction(lang, n.kind)
    then Shallow(lang, Inside(FunctionKey(q)), n.children) + EmittedCalls(lang, n.children, q)
    else if IsImport(lang, n.kind) then multiset{}
    else EmittedCalls(lang, n.children, scope)
  }

  function EmittedCalls(lang: Language, nodes: seq<Node>, scope: string): multiset<Edge>
    decreases nodes, 0
  {
    if nodes == [] then multiset{}
    else EmittedCalls(lang, nodes[..|nodes| - 1], scope) + EmittedNode(lang, nodes[|nodes| - 1], scope)
  }

  lemma {:induction false} WalkEmits(lang: Language, moduleKey: Key, nodes: seq<Node>, scope: string, parent: Key)
    ensures CallsOf(WalkEdges(lang, moduleKey, nodes, scope, parent)) == EmittedCalls(lang, nodes, scope)
    decreases nodes, 0
  {
    if nodes != [] {
      var front, last := nodes[..|nodes| - 1], nodes[|nodes| - 1];
      WalkEmits(lang, moduleKey, front, scope, parent);
      NodeEmits(lang, moduleKey, last, scope, parent);
      CallsOfConcat(WalkEdges(lang, moduleKey, front, scope, parent), NodeEdges(lang, moduleKey, last, scope, parent));
    }
  }

  lemma FunctionEmits(lang: Language, n: Node, key: Key, parent: Key)
    requires IsFunction(lang, n.kind)
    ensures CallsOf([Defines(parent, key)] + CollectFrom(lang, key, [n], true))
        == Shallow(lang, Inside(key), n.children)
  {
    NoCallsIn([Defines(parent, key)]);
    CallsOfConcat([Defines(parent, key)], CollectFrom(lang, key, [n], true));
    CollectFromFunction(lang, key, n);
  }

  lemma {:induction false} NodeEmits(lang: Language, moduleKey: Key, n: Node, scope: string, parent: Key)
    ensures CallsOf(NodeEdges(lang, moduleKey, n, scope, parent)) == EmittedNode(lang, n, scope)
    decreases n, 1
  {
    var q := Qualified(scope, n);
    if IsClass(lang, n.kind) {
      var head := [Defines(parent, ClassKey(q))] + InheritEdges(ClassKey(q), n.bases);
      NoCallsIn(head);
      CallsOfConcat(head, WalkEdges(lang, moduleKey, n.children, q, ClassKey(q)));
      WalkEmits(lang, moduleKey, n.children, q, ClassKey(q));
    } else if IsFunction(lang, n.kind) {
      FunctionEmits(lang, n, FunctionKey(q), parent);
      CallsOfConcat([Defines(parent, FunctionKey(q))] + CollectFrom(lang, FunctionKey(q), [n], true),
                    WalkEdges(lang, moduleKey, n.children, q, FunctionKey(q)));
      WalkEmits(lang, moduleKey, n.children, q, FunctionKey(q));
    } else if IsImport(lang, n.kind) {
      NoCallsIn(ImportEdges(moduleKey, n.imports));
    } else {
      WalkEmits(lang, moduleKey, n.children, scope, parent);
    }
  }

  // ----- the difference

  /** No node has the type of another language's functions. */
  predicate NoForeignFunctions(lang: Language, nodes: seq<Node>)
    decreases nodes, 0
  {
    nodes == [] || (NoForeignFunctions(lang, nodes[..|nodes| - 1]) && NativeNode(lang, nodes[|nodes| - 1]))
  }

  predicate NativeNode(lang: Language, n: Node)
    decreases n, 1
  {
    (IsOpaque(n.kind) ==> IsFunction(lang, n.kind)) && NoForeignFunctions(lang, n.children)
  }

  /** Call sites counted a second time: those the stack loop of an outer function
      reaches through a nested function it does not recognise as one. */
  function ExtraNode(lang: Language, n: Node, scope: string, owner: Owner, underImport: bool): multiset<Edge>
    decreases n, 1
  {
    var q := Qualified(scope, n);
    if IsClass(lang, n.kind) then Extra(lang, n.children, q, owner, underImport)
    else if IsFunction(lang, n.kind) then
      (if IsOpaque(n.kind) then multiset{} else Shallow(lang, owner, n.children))
      + (if underImport then multiset{} else Extra(lang, n.children, q, Inside(FunctionKey(q)), underImport))
    else if IsImport(lang, n.kind) then Extra(lang, n.children, scope, owner, true)
    else Extra(lang, n.children, scope, owner, underImport)
  }

  function Extra(lang: Language, nodes: seq<Node>, scope: string, owner: Owner, underImport: bool): multiset<Edge>
    decreases nodes, 0
  {
    if nodes == [] then multiset{}
    else
      Extra(lang, nodes[..|nodes| - 1], scope, owner, underImport)
      + ExtraNode(lang, nodes[|nodes| - 1], scope, owner, underImport)
  }

  lemma {:induction false} NobodyCalls(lang: Language, nodes: seq<Node>, scope: string)
    ensures Spec(lang, nodes, scope, Nobody, true) == multiset{}
    decreases nodes, 0
  {
    if nodes != [] {
      NobodyCalls(lang, nodes[..|nodes| - 1], scope);
      NobodyCallsNode(lang, nodes[|nodes| - 1], scope);
    }
  }

  lemma {:induction false} NobodyCallsNode(lang: Language, n: Node, scope: string)
    ensures SpecNode(lang, n, scope, Nobody, true) == multiset{}
    decreases n, 1
  {
    NobodyCalls(lang, n.children, Qualified(scope, n));
    NobodyCalls(lang, n.children, scope);
  }

  /** Under an import the walk emits nothing; the enclosing function's stack loop
      still does. */
  lemma {:induction false} UnderImport(lang: Language, nodes: seq<Node>, scope: string, owner: Owner)
    requires NoForeignFunctions(lang, nodes)
    ensures Shallow(lang, owner, nodes)
        == Spec(lang, nodes, scope, owner, true) + Extra(lang, nodes, scope, owner, true)
    decreases nodes, 0
  {
    if nodes != [] {
      var front, last := nodes[..|nodes| - 1], nodes[|nodes| - 1];
      UnderImport(lang, front, scope, owner);
      UnderImportNode(lang, last, scope, owner);
      Pairwise(Spec(lang, front, scope, owner, true), SpecNode(lang, last, scope, owner, true),
               Extra(lang, front, scope, owner, true), ExtraNode(lang, last, scope, owner, true));
    }
  }

  lemma {:induction false} UnderImportNode(lang: Language, n: Node, scope: string, owner: Owner)
    requires NativeNode(lang, n)
    ensures ShallowNode(lang, owner, n)
        == SpecNode(lang, n, scope, owner, true) + ExtraNode(lang, n, scope, owner, true)
    decreases n, 1
  {
    var q := Qualified(scope, n);
    if IsFunction(lang, n.kind) && !IsClass(lang, n.kind) {
      NobodyCalls(lang, n.children, q);
      assert SpecNode(lang, n, scope, owner, true) == Site(lang, owner, n);
    } else {
      assert !IsOpaque(n.kind);
      UnderImportChildren(lang, n, if IsClass(lang, n.kind) then q else scope, owner);
    }
  }

  lemma {:induction false} UnderImportChildren(lang: Language, n: Node, scope: string, owner: Owner)
    requires NativeNode(lang, n)
    ensures Site(lang, owner, n) + Shallow(lang, owner, n.children)
      == (Site(lang, owner, n) + Spec(lang, n.children, scope, owner, true))
        + Extra(lang, n.children, scope, owner, true)
    decreases n, 0
  {
    UnderImport(lang, n.children, scope, owner);
    Pairwise(Site(lang, owner, n), Spec(lang, n.children, scope, owner, true), multiset{},
      Extra(lang, n.children, scope, owner, true));
  }

  /** Walk plus the enclosing function's stack loop: the specification plus what
      is counted twice. */
  lemma {:induction false} Balance(lang: Language, nodes: seq<Node>, scope: string, owner: Owner)
    requires NoForeignFunctions(lang, nodes)
    ensures EmittedCalls(lang, nodes, scope) + Shallow(lang, owner, nodes)
      == Spec(lang, nodes, scope, owner, false) + Extra(lang, nodes, scope, owner, false)
    decreases nodes, 0
  {
    if nodes != [] {
      var front, last := nodes[..|nodes| - 1], nodes[|nodes| - 1];
      Balance(lang, front, scope, owner);
      BalanceNode(lang, last, scope, owner);
      Pairwise(EmittedCalls(lang, front, scope), EmittedNode(lang, last, scope),
               Shallow(lang, owner, front), ShallowNode(lang, owner, last));
      Pairwise(Spec(lang, front, scope, owner, false), SpecNode(lang, last, scope, owner, false),
               Extra(lang, front, scope, owner, false), ExtraNode(lang, last, scope, owner, false));
    }
  }

  lemma {:induction false} BalanceNode(lang: Language, n: Node, scope: string, owner: Owner)
    requires NativeNode(lang, n)
    ensures EmittedNode(lang, n, scope) + ShallowNode(lang, owner, n)
      == SpecNode(lang, n, scope, owner, false) + ExtraNode(lang, n, scope, owner, false)
    decreases n, 1
  {
    var q := Qualified(scope, n);
    if IsClass(lang, n.kind) {
      BalanceChildren(lang, n, q, owner);
    } else if IsFunction(lang, n.kind) {
      BalanceFunction(lang, n, scope, owner);
    } else if IsImport(lang, n.kind) {
      UnderImportNode(lang, n, scope, owner);
    } else {
      BalanceChildren(lang, n, scope, owner);
    }
  }

  lemma {:induction false} BalanceChildren(lang: Language, n: Node, scope: string, owner: Owner)
    requires NativeNode(lang, n)
    ensures EmittedCalls(lang, n.children, scope) + (Site(lang, owner, n) + Shallow(lang, owner, n.children))
      == (Site(lang, owner, n) + Spec(lang, n.children, scope, owner, false))
        + Extra(lang, n.children, scope, owner, false)
    decreases n, 0
  {
    Balance(lang, n.children, scope, owner);
    AddSite(Site(lang, owner, n), EmittedCalls(lang, n.children, scope), Shallow(lang, owner, n.children),
            Spec(lang, n.children, scope, owner, false), Extra(lang, n.children, scope, owner, false));
  }

  lemma {:induction false} BalanceFunction(lang: Language, n: Node, scope: string, owner: Owner)
    requires NativeNode(lang, n) && IsFunction(lang, n.kind) && !IsClass(lang, n.kind)
    ensures EmittedNode(lang, n, scope) + ShallowNode(lang, owner, n)
      == SpecNode(lang, n, scope, owner, false) + ExtraNode(lang, n, scope, owner, false)
    decreases n, 0
  {
    var q := Qualified(scope, n);
    var me := Inside(FunctionKey(q));
    Balance(lang, n.children, q, me);
    var outer := if IsOpaque(n.kind) then multiset{} else Shallow(lang, owner, n.children);
    var site, sp, ex :=
        Site(lang, owner, n), Spec(lang, n.children, q, me, false), Extra(lang, n.children, q, me, false);
    assert EmittedNode(lang, n, scope) == sp + ex;
    Pairwise(sp, ex, site, outer);
    assert (sp + site) + (ex + outer) == (site + sp) + (outer + ex);
  }

  lemma {:induction false} NobodyShallow(lang: Language, nodes: seq<Node>)
    ensures Shallow(lang, Nobody, nodes) == multiset{}
    decreases nodes, 0
  {
    if nodes != [] {
      NobodyShallow(lang, nodes[..|nodes| - 1]);
      NobodyShallowNode(lang, nodes[|nodes| - 1]);
    }
  }

  lemma {:induction false} NobodyShallowNode(lang: Language, n: Node)
    ensures ShallowNode(lang, Nobody, n) == multiset{}
    decreases n, 1
  {
    NobodyShallow(lang, n.children);
  }

  // ----- when nothing is counted twice

  predicate HasShallowSite(lang: Language, nodes: seq<Node>)
    decreases nodes, 0
  {
    nodes != [] && (HasShallowSite(lang, nodes[..|nodes| - 1]) || HasShallowSiteNode(lang, nodes[|nodes| - 1]))
  }

  predicate HasShallowSiteNode(lang: Language, n: Node)
    decreases n, 1
  {
    IsCallSite(lang, n) || (!IsOpaque(n.kind) && HasShallowSite(lang, n.children))
  }

  /** No function nested in a function is missed by the list of opaque types and
      holds a call site. */
  predicate NestedAreSeen(lang: Language, nodes: seq<Node>, nested: bool, underImport: bool)
    decreases nodes, 0
  {
    || nodes == []
    || (NestedAreSeen(lang, nodes[..|nodes| - 1], nested, underImport)
        && NestedSeenNode(lang, nodes[|nodes| - 1], nested, underImport))
  }

  predicate NestedSeenNode(lang: Language, n: Node, nested: bool, underImport: bool)
    decreases n, 1
  {
    if IsClass(lang, n.kind) then NestedAreSeen(lang, n.children, nested, underImport)
    else if IsFunction(lang, n.kind) then
      && (nested && !IsOpaque(n.kind) ==> !HasShallowSite(lang, n.children))
      && (underImport || NestedAreSeen(lang, n.children, true, underImport))
    else if IsImport(lang, n.kind) then NestedAreSeen(lang, n.children, nested, true)
    else NestedAreSeen(lang, n.children, nested, underImport)
  }

  lemma {:induction false} ShallowEmpty(lang: Language, key: Key, nodes: seq<Node>)
    ensures Shallow(lang, Inside(key), nodes) == multiset{} <==> !HasShallowSite(lang, nodes)
    decreases nodes, 0
  {
    if nodes != [] {
      ShallowEmpty(lang, key, nodes[..|nodes| - 1]);
      ShallowEmptyNode(lang, key, nodes[|nodes| - 1]);
    }
  }

  lemma {:induction false} ShallowEmptyNode(lang: Language, key: Key, n: Node)
    ensures ShallowNode(lang, Inside(key), n) == multiset{} <==> !HasShallowSiteNode(lang, n)
    decreases n, 1
  {
    ShallowEmpty(lang, key, n.children);
  }

  lemma {:induction false} ExtraEmpty(lang: Language, nodes: seq<Node>, scope: string, owner: Owner, underImport: bool)
    ensures Extra(lang, nodes, scope, owner, underImport) == multiset{} <==>
        NestedAreSeen(lang, nodes, owner.Inside?, underImport)
    decreases nodes, 0
  {
    if nodes != [] {
      ExtraEmpty(lang, nodes[..|nodes| - 1], scope, owner, underImport);
      ExtraEmptyNode(lang, nodes[|nodes| - 1], scope, owner, underImport);
    }
  }

  lemma {:induction false} ExtraEmptyNode(lang: Language, n: Node, scope: string, owner: Owner, underImport: bool)
    ensures ExtraNode(lang, n, scope, owner, underImport) == multiset{} <==>
        NestedSeenNode(lang, n, owner.Inside?, underImport)
    decreases n, 1
  {
    var q := Qualified(scope, n);
    if IsClass(lang, n.kind) {
      ExtraEmpty(lang, n.children, q, owner, underImport);
    } else if IsFunction(lang, n.kind) {
      ExtraEmpty(lang, n.children, q, Inside(FunctionKey(q)), underImport);
      match owner
      case Nobody => NobodyShallow(lang, n.children);
      case Inside(key) => ShallowEmpty(lang, key, n.children);
    } else if IsImport(lang, n.kind) {
      ExtraEmpty(lang, n.children, scope, owner, true);
    } else {
      ExtraEmpty(lang, n.children, scope, owner, underImport);
    }
  }

  /** In every language, the extractor's CALLS edges are the specified ones
      exactly when every nested function with a call site has a type the stack
      loop stops at; otherwise it emits too many, never too few. */
  lemma AttributionExactIff(lang: Language, root: Node, moduleName: string)
    requires NoForeignFunctions(lang, root.children)
    ensures
      var emitted := CallsOf(WalkEdges(lang, ModuleKey(moduleName), root.children, moduleName, ModuleKey(moduleName)));
      var spec := Spec(lang, root.children, moduleName, Nobody, false);
      spec <= emitted && (emitted == spec <==> NestedAreSeen(lang, root.children, false, false))
  {
    var extra := Extra(lang, root.children, moduleName, Nobody, false);
    WalkEmits(lang, ModuleKey(moduleName), root.children, moduleName, ModuleKey(moduleName));
    Balance(lang, root.children, moduleName, Nobody);
    NobodyShallow(lang, root.children);
    ExtraEmpty(lang, root.children, moduleName, Nobody, false);
    var spec := Spec(lang, root.children, moduleName, Nobody, false);
    var emitted := CallsOf(WalkEdges(lang, ModuleKey(moduleName), root.children, moduleName, ModuleKey(moduleName)));
    assert emitted == emitted + multiset{} == spec + extra;
    assert (spec + extra) - spec == extra;
    assert spec - spec == multiset{};
  }

  lemma {:induction false} AllFunctionsOpaque(lang: Language, nodes: seq<Node>, nested: bool, underImport: bool)
    requires lang.Python? || lang.TypeScript?
    ensures NestedAreSeen(lang, nodes, nested, underImport)
    decreases nodes, 0
  {
    if nodes != [] {
      AllFunctionsOpaque(lang, nodes[..|nodes| - 1], nested, underImport);
      AllFunctionsOpaqueNode(lang, nodes[|nodes| - 1], nested, underImport);
    }
  }

  lemma {:induction false} AllFunctionsOpaqueNode(lang: Language, n: Node, nested: bool, underImport: bool)
    requires lang.Python? || lang.TypeScript?
    ensures NestedSeenNode(lang, n, nested, underImport)
    decreases n, 1
  {
    AllFunctionsOpaque(lang, n.children, nested, underImport);
    AllFunctionsOpaque(lang, n.children, true, underImport);
    AllFunctionsOpaque(lang, n.children, nested, true);
  }

  /** For Python and TypeScript every call site is attributed exactly once. */
  lemma PythonAndTypeScriptExact(lang: Language, root: Node, moduleName: string)
    requires lang.Python? || lang.TypeScript?
    requires NoForeignFunctions(lang, root.children)
    ensures CallsOf(WalkEdges(lang, ModuleKey(moduleName), root.children, moduleName, ModuleKey(moduleName)))
      == Spec(lang, root.children, moduleName, Nobody, false)
  {
    AttributionExactIff(lang, root, moduleName);
    AllFunctionsOpaque(lang, root.children, false, false);
  }
}
