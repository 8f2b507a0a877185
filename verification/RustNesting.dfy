/** Rust sources on which `codegraph/extractor.py` counts a call twice:
    `fn outer() { fn inner() { callee(); } }` */
module RustNesting {
  import opened CodeTree
  import opened Extractor
  import opened CallAttribution

  /** A name, a parameter list or an argument list without calls. */
  predicate IsToken(n: Node) {
    (n.kind.Identifier? || n.kind.Other?) && n.children == []
  }

  /** A function item as the parser gives it: name, parameters, block. */
  predicate IsItem(n: Node, name: string, body: seq<Node>) {
    && n.kind.FunctionItem? && n.name == name && name != ""
    && |n.children| == 3 && IsToken(n.children[0]) && IsToken(n.children[1])
    && n.children[2].kind == Other("block") && n.children[2].children == body
  }

  /** A statement that calls a function by name, with the callee in the call's field
      "function". */
  predicate IsCallStatement(n: Node, callee: string) {
    && n.kind == Other("expression_statement") && |n.children| == 1
    && var call := n.children[0];
       && call.kind.CallExpression? && call.calleeAt == 0 && |call.children| == 2
       && call.children[0].kind.Identifier? && call.children[0].text == callee && callee != ""
       && IsToken(call.children[0]) && IsToken(call.children[1])
  }

  // ----- what a node counts for: in its region, in the walk, and by the rule

  datatype Counts = Counts(shallow: multiset<Edge>, emitted: multiset<Edge>, spec: multiset<Edge>)

  function Of(owner: Owner, scope: string, nodes: seq<Node>): Counts {
    Counts(Shallow(Rust, owner, nodes), EmittedCalls(Rust, nodes, scope), Spec(Rust, nodes, scope, owner, false))
  }

  const NOTHING := Counts(multiset{}, multiset{}, multiset{})

  /** The same for a single node. */
  function OfNode(owner: Owner, scope: string, n: Node): Counts {
    Counts(ShallowNode(Rust, owner, n), EmittedNode(Rust, n, scope), SpecNode(Rust, n, scope, owner, false))
  }

  function Plus(a: Counts, b: Counts): Counts {
    Counts(a.shallow + b.shallow, a.emitted + b.emitted, a.spec + b.spec)
  }

  lemma OneMore(owner: Owner, scope: string, front: seq<Node>, n: Node)
    ensures Of(owner, scope, front + [n]) == Plus(Of(owner, scope, front), OfNode(owner, scope, n))
  {
    assert (front + [n])[..|front|] == front;
  }

  lemma PlusNothing(a: Counts)
    ensures Plus(NOTHING, a) == a
  {
  }

  lemma {:induction false} OtherShallow(owner: Owner, n: Node)
    requires n.kind.Other? || n.kind.Identifier?
    ensures ShallowNode(Rust, owner, n) == Shallow(Rust, owner, n.children)
  {
    var below := Shallow(Rust, owner, n.children);
    NoSite(owner, n);
    assert ShallowNode(Rust, owner, n) == multiset{} + below;
    NothingPlus(below);
  }

  lemma OtherSpec(owner: Owner, scope: string, n: Node)
    requires n.kind.Other? || n.kind.Identifier?
    ensures SpecNode(Rust, n, scope, owner, false) == Spec(Rust, n.children, scope, owner, false)
  {
    var below := Spec(Rust, n.children, scope, owner, false);
    assert !IsClass(Rust, n.kind) && !IsFunction(Rust, n.kind) && !IsImport(Rust, n.kind);
    NoSite(owner, n);
    assert SpecNode(Rust, n, scope, owner, false) == multiset{} + below;
    NothingPlus(below);
  }

  lemma OtherEmitted(scope: string, n: Node)
    requires n.kind.Other? || n.kind.Identifier?
    ensures EmittedNode(Rust, n, scope) == EmittedCalls(Rust, n.children, scope)
  {
  }

  /** A node that is no declaration, no import and no call counts for its children. */
  lemma OtherNode(owner: Owner, scope: string, n: Node)
    requires n.kind.Other? || n.kind.Identifier?
    ensures OfNode(owner, scope, n) == Of(owner, scope, n.children)
  {
    OtherShallow(owner, n);
    OtherEmitted(scope, n);
    OtherSpec(owner, scope, n);
  }

  lemma NoSite(owner: Owner, n: Node)
    requires !IsCall(Rust, n.kind)
    ensures Site(Rust, owner, n) == multiset{}
  {
  }

  lemma NothingPlus(m: multiset<Edge>)
    ensures multiset{} + m == m
  {
  }

  lemma AddOther(owner: Owner, scope: string, front: seq<Node>, n: Node)
    requires Of(owner, scope, front) == NOTHING && (n.kind.Other? || n.kind.Identifier?)
    ensures Of(owner, scope, front + [n]) == Of(owner, scope, n.children)
  {
    OneMore(owner, scope, front, n);
    OtherNode(owner, scope, n);
    PlusNothing(OfNode(owner, scope, n));
  }

  lemma Empty(owner: Owner, scope: string)
    ensures Of(owner, scope, []) == NOTHING
  {
  }

  lemma AddToken(owner: Owner, scope: string, front: seq<Node>, n: Node)
    requires Of(owner, scope, front) == NOTHING && IsToken(n)
    ensures Of(owner, scope, front + [n]) == NOTHING
  {
    AddOther(owner, scope, front, n);
    Empty(owner, scope);
  }

  /** The children of a function item count for what its block holds. */
  lemma ItemIsItsBody(owner: Owner, scope: string, n: Node, name: string, body: seq<Node>)
    requires IsItem(n, name, body)
    ensures Of(owner, scope, n.children) == Of(owner, scope, body)
  {
    var a, b, block := n.children[0], n.children[1], n.children[2];
    Empty(owner, scope);
    AddToken(owner, scope, [], a);
    AddToken(owner, scope, [] + [a], b);
    AddOther(owner, scope, [] + [a] + [b], block);
    assert n.children == [] + [a] + [b] + [block];
  }

  /** An item on its own: its region, and what the walk and the rule make of it. */
  lemma ItemCounts(owner: Owner, scope: string, n: Node, name: string, body: seq<Node>)
    requires IsItem(n, name, body)
    ensures
      var q := scope + "." + name;
      var mine := Of(Inside(FunctionKey(q)), q, body);
      Of(owner, scope, [n]) == Counts(Of(owner, scope, body).shallow, mine.shallow + mine.emitted, mine.spec)
  {
    var q := scope + "." + name;
    assert Qualified(scope, n) == q;
    ItemNode(owner, scope, n);
    ItemIsItsBody(owner, scope, n, name, body);
    ItemIsItsBody(Inside(FunctionKey(q)), q, n, name, body);
    Single(owner, scope, n);
  }

  lemma Single(owner: Owner, scope: string, n: Node)
    ensures Of(owner, scope, [n]) == OfNode(owner, scope, n)
  {
    Empty(owner, scope);
    OneMore(owner, scope, [], n);
    PlusNothing(OfNode(owner, scope, n));
    assert [] + [n] == [n];
  }

  lemma ItemNode(owner: Owner, scope: string, n: Node)
    requires n.kind.FunctionItem?
    ensures
      var q := Qualified(scope, n);
      var mine := Of(Inside(FunctionKey(q)), q, n.children);
      OfNode(owner, scope, n) == Counts(Of(owner, scope, n.children).shallow, mine.shallow + mine.emitted, mine.spec)
  {
    ItemShallow(owner, n);
    ItemEmitted(scope, n);
    ItemSpec(owner, scope, n);
  }

  lemma {:induction false} ItemEmitted(scope: string, n: Node)
    requires n.kind.FunctionItem?
    ensures
      var q := Qualified(scope, n);
      EmittedNode(Rust, n, scope)
        == Shallow(Rust, Inside(FunctionKey(q)), n.children) + EmittedCalls(Rust, n.children, q)
  {
    assert !IsClass(Rust, n.kind) && IsFunction(Rust, n.kind);
    var q := Qualified(scope, n);
    var region, below := Shallow(Rust, Inside(FunctionKey(q)), n.children), EmittedCalls(Rust, n.children, q);
    assert EmittedNode(Rust, n, scope) == region + below;
  }

  lemma {:induction false} ItemShallow(owner: Owner, n: Node)
    requires n.kind.FunctionItem?
    ensures ShallowNode(Rust, owner, n) == Shallow(Rust, owner, n.children)
  {
    var below := Shallow(Rust, owner, n.children);
    NoSite(owner, n);
    assert ShallowNode(Rust, owner, n) == multiset{} + below;
    NothingPlus(below);
  }

  lemma ItemSpec(owner: Owner, scope: string, n: Node)
    requires n.kind.FunctionItem?
    ensures
      var q := Qualified(scope, n);
      SpecNode(Rust, n, scope, owner, false) == Spec(Rust, n.children, q, Inside(FunctionKey(q)), false)
  {
    var q := Qualified(scope, n);
    var below := Spec(Rust, n.children, q, Inside(FunctionKey(q)), false);
    assert !IsClass(Rust, n.kind) && IsFunction(Rust, n.kind);
    NoSite(owner, n);
    assert SpecNode(Rust, n, scope, owner, false) == multiset{} + below;
    NothingPlus(below);
  }

  /** The statement holds one call site. */
  lemma CallCounts(owner: Owner, scope: string, stmt: Node, callee: string)
    requires IsCallStatement(stmt, callee)
    ensures
      var once := if owner.Inside? then multiset{Calls(owner.key, callee)} else multiset{};
      Of(owner, scope, [stmt]) == Counts(once, multiset{}, once)
  {
    var call := stmt.children[0];
    var a, b := call.children[0], call.children[1];
    Empty(owner, scope);
    AddToken(owner, scope, [], a);
    AddToken(owner, scope, [] + [a], b);
    assert call.children == [] + [a] + [b] && stmt.children == [call];
    CallNode(owner, scope, call);
    Single(owner, scope, call);
    OtherNode(owner, scope, stmt);
    Single(owner, scope, stmt);
  }

  lemma CallNode(owner: Owner, scope: string, call: Node)
    requires call.kind.CallExpression? && CallTarget(call) != "" && Of(owner, scope, call.children) == NOTHING
    ensures
      var once := if owner.Inside? then multiset{Calls(owner.key, CallTarget(call))} else multiset{};
      OfNode(owner, scope, call) == Counts(once, multiset{}, once)
  {
  }

  /** The rule asks for one edge, from the inner function; the extractor emits that
      one and another from the outer function. */
  lemma NestedCallTwice(outer: Node, inner: Node, stmt: Node, callee: string, moduleName: string)
    requires IsItem(outer, "outer", [inner]) && IsItem(inner, "inner", [stmt]) && IsCallStatement(stmt, callee)
    ensures
      var outerKey, innerKey :=
          FunctionKey(moduleName + "." + "outer"), FunctionKey(moduleName + "." + "outer" + "." + "inner");
      && CallsOf(WalkEdges(Rust, ModuleKey(moduleName), [outer], moduleName, ModuleKey(moduleName)))
         == multiset{Calls(outerKey, callee), Calls(innerKey, callee)}
      && Spec(Rust, [outer], moduleName, Nobody, false) == multiset{Calls(innerKey, callee)}
  {
    var q := moduleName + "." + "outer";
    var r := q + "." + "inner";
    ItemCounts(Nobody, moduleName, outer, "outer", [inner]);
    ItemCounts(Inside(FunctionKey(q)), q, inner, "inner", [stmt]);
    CallCounts(Inside(FunctionKey(q)), q, stmt, callee);
    CallCounts(Inside(FunctionKey(r)), r, stmt, callee);
    WalkEmits(Rust, ModuleKey(moduleName), [outer], moduleName, ModuleKey(moduleName));
  }
}
