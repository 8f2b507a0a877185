/** Parsed source trees and the node-type tables of `codegraph/extractor.py`. */
module CodeTree {

  datatype Language = Python | TypeScript | Go | Rust

  /** tree-sitter node types: the ones the extractor names, and all others. */
  datatype Kind =
    | ClassDefinition | FunctionDefinition | ImportStatement | ImportFromStatement | Call
    | ClassDeclaration | InterfaceDeclaration | FunctionDeclaration | MethodDefinition | ArrowFunction
    | CallExpression | NewExpression
    | TypeDeclaration | MethodDeclaration | ImportDeclaration | ImportSpec
    | StructItem | EnumItem | TraitItem | ImplItem | FunctionItem | FunctionSignatureItem
    | UseDeclaration | MacroInvocation
    | Identifier | TypeIdentifier | PropertyIdentifier | Attribute | MemberExpression
    | Other(name: string)

  /** A node with its named children.  `name` is what `_identifier_of` finds ("" for
      None); `bases` and `imports` are the names of a class's bases and of an
      import's targets; `calleeAt` is the position of the child in the field
      "function", or negative. */
  datatype Node = Node(
    kind: Kind, text: string, name: string, bases: seq<string>, imports: seq<string>, calleeAt: int,
    children: seq<Node>)

  predicate IsClass(lang: Language, k: Kind) {
    match lang
    case Python => k.ClassDefinition?
    case TypeScript => k.ClassDeclaration? || k.InterfaceDeclaration?
    case Go => k.TypeDeclaration?
    case Rust => k.StructItem? || k.EnumItem? || k.TraitItem? || k.ImplItem?
  }

  predicate IsFunction(lang: Language, k: Kind) {
    match lang
    case Python => k.FunctionDefinition?
    case TypeScript => k.FunctionDeclaration? || k.MethodDefinition? || k.ArrowFunction?
    case Go => k.FunctionDeclaration? || k.MethodDeclaration?
    case Rust => k.FunctionItem? || k.FunctionSignatureItem?
  }

  predicate IsImport(lang: Language, k: Kind) {
    match lang
    case Python => k.ImportStatement? || k.ImportFromStatement?
    case TypeScript => k.ImportStatement?
    case Go => k.ImportDeclaration? || k.ImportSpec?
    case Rust => k.UseDeclaration?
  }

  predicate IsCall(lang: Language, k: Kind) {
    match lang
    case Python => k.Call?
    case TypeScript => k.CallExpression? || k.NewExpression?
    case Go => k.CallExpression?
    case Rust => k.CallExpression? || k.MacroInvocation?
  }

  /** The node types `_collect_calls` does not look into. */
  predicate IsOpaque(k: Kind) {
    k.FunctionDefinition? || k.FunctionDeclaration? || k.MethodDefinition? || k.ArrowFunction?
  }

  function RightmostIdentifier(nodes: seq<Node>): string {
    if nodes == [] then ""
    else
      var last := nodes[|nodes| - 1];
      if last.kind.Identifier? || last.kind.PropertyIdentifier? then last.text
      else RightmostIdentifier(nodes[..|nodes| - 1])
  }

  /** `_call_target_name`; "" stands for None. */
  function CallTarget(call: Node): string {
    if !(0 <= call.calleeAt < |call.children|) && call.children == [] then ""
    else
      var target := if 0 <= call.calleeAt < |call.children| then call.children[call.calleeAt] else call.children[0];
      if target.kind.Identifier? || target.kind.TypeIdentifier? || target.kind.PropertyIdentifier? then target.text
      else if target.kind.Attribute? || target.kind.MemberExpression? then RightmostIdentifier(target.children)
      else ""
  }

  /** The rightmost identifier names a dotted callee. */
  lemma {:induction false} RightmostNames(nodes: seq<Node>, k: nat)
    requires k < |nodes| && (nodes[k].kind.Identifier? || nodes[k].kind.PropertyIdentifier?)
    requires forall j | k < j < |nodes| :: !(nodes[j].kind.Identifier? || nodes[j].kind.PropertyIdentifier?)
    ensures RightmostIdentifier(nodes) == nodes[k].text
    decreases |nodes|
  {
    if k < |nodes| - 1 {
      RightmostNames(nodes[..|nodes| - 1], k);
    }
  }

  lemma {:induction false} NothingNames(nodes: seq<Node>)
    requires forall j | 0 <= j < |nodes| :: !(nodes[j].kind.Identifier? || nodes[j].kind.PropertyIdentifier?)
    ensures RightmostIdentifier(nodes) == ""
    decreases |nodes|
  {
    if nodes != [] {
      NothingNames(nodes[..|nodes| - 1]);
    }
  }

  /** `i` is the callee: the child in the field "function", or else the first one. */
  predicate IsCallee(call: Node, i: nat) {
    i < |call.children| && i == if 0 <= call.calleeAt < |call.children| then call.calleeAt else 0
  }

  /** A call of a plain name is a call of that name. */
  lemma PlainCallee(call: Node, i: nat)
    requires IsCallee(call, i)
    requires
      var t := call.children[i];
      t.kind.Identifier? || t.kind.TypeIdentifier? || t.kind.PropertyIdentifier?
    ensures CallTarget(call) == call.children[i].text
  {
  }

  /** A call of `x.y.z` is a call of the last identifier, here the k-th part. */
  lemma DottedCallee(call: Node, i: nat, k: nat)
    requires IsCallee(call, i) && (call.children[i].kind.Attribute? || call.children[i].kind.MemberExpression?)
    requires
      var parts := call.children[i].children;
      && k < |parts| && (parts[k].kind.Identifier? || parts[k].kind.PropertyIdentifier?)
      && forall j | k < j < |parts| :: !(parts[j].kind.Identifier? || parts[j].kind.PropertyIdentifier?)
    ensures CallTarget(call) == call.children[i].children[k].text
  {
    RightmostNames(call.children[i].children, k);
  }

  /** A call without a callee, and one of anything else, a dotted one without an
      identifier included, has no callee name. */
  lemma NamelessCallee(call: Node, i: nat)
    requires call.children != [] ==>
      && IsCallee(call, i)
      && var t := call.children[i];
         && !(t.kind.Identifier? || t.kind.TypeIdentifier? || t.kind.PropertyIdentifier?)
         && (t.kind.Attribute? || t.kind.MemberExpression? ==>
               forall j | 0 <= j < |t.children| ::
                 !(t.children[j].kind.Identifier? || t.children[j].kind.PropertyIdentifier?))
    ensures CallTarget(call) == ""
  {
    if call.children != [] && (call.children[i].kind.Attribute? || call.children[i].kind.MemberExpression?) {
      NothingNames(call.children[i].children);
    }
  }

  /** A call site whose callee has a name. */
  predicate IsCallSite(lang: Language, n: Node) {
    IsCall(lang, n.kind) && CallTarget(n) != ""
  }

  function Size(n: Node): nat
    decreases n, 1
  {
    1 + SizeAll(n.children)
  }

  function SizeAll(nodes: seq<Node>): nat
    decreases nodes, 0
  {
    if nodes == [] then 0 else SizeAll(nodes[..|nodes| - 1]) + Size(nodes[|nodes| - 1])
  }

  lemma {:induction false} SizeConcat(a: seq<Node>, b: seq<Node>)
    ensures SizeAll(a + b) == SizeAll(a) + SizeAll(b)
    decreases |b|
  {
    if b == [] {
      assert a + b == a;
    } else {
      var front := b[..|b| - 1];
      assert (a + b)[..|a + b| - 1] == a + front;
      SizeConcat(a, front);
    }
  }

  /** Replacing the top of a stack by its children shrinks the stack. */
  lemma PopShrinks(stack: seq<Node>)
    requires stack != []
    ensures
      var cur, rest := stack[|stack| - 1], stack[..|stack| - 1];
      SizeAll(rest) < SizeAll(stack) && SizeAll(rest + cur.children) < SizeAll(stack)
  {
    var cur, rest := stack[|stack| - 1], stack[..|stack| - 1];
    SizeConcat(rest, cur.children);
    assert Size(cur) == 1 + SizeAll(cur.children);
  }
}
