/**
 * The Saxon-backed XPath rule query: compiles its query once, declares one
 * variable per rule property, analyses the compiled query for the rule chain,
 * and evaluates it on a node by running the expressions registered for the
 * node's name (or the whole query) against the node's cached document, with
 * the rule's property values bound to the variables.
 */
module SaxonQuery {
  import opened Wrappers
  import opened XPathExpr
  import opened RuleChain
  import opened AtomicValues
  import opened AstDocuments

  /** The XPath version a rule asks for. */
  datatype XPathVersion = XPath10 | XPath10Compatibility | XPath20 | OtherVersion(text: string)

  /** `isSupportedVersion`: this engine runs 1.0-compatibility mode and 2.0, not plain 1.0. */
  function IsSupportedVersion(version: XPathVersion): (r: bool)
    ensures !r <==> version == XPath10 || version.OtherVersion?
  {
    version == XPath10Compatibility || version == XPath20
  }

  datatype PropertyDescriptor = PropertyDescriptor(name: string, multiValued: bool)

  /** A rule property: its descriptor and its current value. */
  type Property = (PropertyDescriptor, HostValue)

  /** Variable name to bound value. */
  type Bindings = map<string, ValueRepresentation>

  /** The evaluation context: the element the query starts from and the variable values. */
  datatype DynamicContext = DynamicContext(contextItem: ElementNode, variables: Bindings)

  /** An item of a query's result: an element of the document, or anything else (an attribute, text, an atomic value). */
  datatype Item = ElementItem(element: ElementNode) | OtherItem

  /** The library's evaluation of one expression in a context: its items in order, or the message of its failure. */
  type Iterate = (Expr, DynamicContext) -> Result<seq<Item>, string>

  /** Why collecting the matched elements stopped. */
  datatype Stop =
    | XPathProblem(message: string) // the library's evaluation failed
    | NotAnElement                  // an item that is not an element reached the cast to an element

  datatype QueryError =
    | CompileError(message: string)      // the query text does not parse
    | MarshalFailure(cause: MarshalError) // a property value has no XPath representation
    | EvaluationError(message: string)   // "<xpath> had problem: <cause>"
    | ClassCastFailure                   // a result item is not an element; the exception is not caught

  // ---------------------------------------------------------------------------
  // Variable declaration

  /** The variables declared for the properties: every property name but "xpath", in order. */
  function DeclaredVariables(properties: seq<Property>): seq<string>
  {
    if properties == [] then []
    else
      var name := properties[|properties| - 1].0.name;
      DeclaredVariables(properties[..|properties| - 1]) + (if name != "xpath" then [name] else [])
  }

  /** How many properties are named "xpath". */
  function XPathPropertyCount(properties: seq<Property>): nat
  {
    if properties == [] then 0
    else XPathPropertyCount(properties[..|properties| - 1]) + (if properties[|properties| - 1].0.name == "xpath" then 1 else 0)
  }

  predicate HasPropertyNamed(properties: seq<Property>, name: string)
  {
    exists i :: 0 <= i < |properties| && properties[i].0.name == name
  }

  /** One variable per property not named "xpath", and only those names. */
  lemma {:induction false} DeclaredVariablesOnePerProperty(properties: seq<Property>)
    ensures |DeclaredVariables(properties)| == |properties| - XPathPropertyCount(properties)
    ensures forall x :: x in DeclaredVariables(properties) <==> x != "xpath" && HasPropertyNamed(properties, x)
    decreases |properties|
  {
    if properties != [] {
      var n := |properties| - 1;
      var front := properties[..n];
      DeclaredVariablesOnePerProperty(front);
      assert forall i :: 0 <= i < n ==> front[i] == properties[i];
      forall x ensures HasPropertyNamed(properties, x) <==> HasPropertyNamed(front, x) || properties[n].0.name == x {
        if HasPropertyNamed(properties, x) {
          var i :| 0 <= i < |properties| && properties[i].0.name == x;
          if i < n { assert front[i].0.name == x; }
        }
      }
    }
  }

  /** The declaration loop of `initializeXPathExpression`. */
  method DeclareVariables(properties: seq<Property>) returns (variables: seq<string>)
    ensures variables == DeclaredVariables(properties)
  {
    variables := [];
    for i := 0 to |properties|
      invariant variables == DeclaredVariables(properties[..i])
    {
      assert properties[..i + 1][..i] == properties[..i];
      var name := properties[i].0.name;
      if name != "xpath" {
        variables := variables + [name];
      }
    }
    assert properties[..|properties|] == properties;
  }

  // ---------------------------------------------------------------------------
  // Variable binding

  /** The XPath value of a property's current value, or why it has none (`getRepresentation`). */
  function RepresentationOf(p: Property): Result<ValueRepresentation, MarshalError>
  {
    GetRepresentation(p.0.multiValued, p.1)
  }

  predicate Marshals(p: Property)
  {
    RepresentationOf(p).Success?
  }

  /** The last property named `name`: each property of that name sets the variable again, so this one wins. */
  function LastNamed(properties: seq<Property>, name: string): (r: Option<Property>)
    ensures r.Some? <==> HasPropertyNamed(properties, name)
    ensures r.Some? ==> IsLastNamed(properties, name, r.value)
    decreases |properties|
  {
    if properties == [] then None
    else
      var n := |properties| - 1;
      if properties[n].0.name == name then Some(properties[n])
      else
        LastNamedInFront(properties, name);
        LastNamed(properties[..n], name)
  }

  /** A property named `name` in the list, and none after it of that name. */
  ghost predicate IsLastNamed(properties: seq<Property>, name: string, p: Property)
  {
    exists i :: && 0 <= i < |properties| && properties[i] == p && p.0.name == name
                && forall k :: i < k < |properties| ==> properties[k].0.name != name
  }

  /** When the final property has another name, the last property named `name` is the front's. */
  lemma LastNamedInFront(properties: seq<Property>, name: string)
    requires properties != [] && properties[|properties| - 1].0.name != name
    ensures var front := properties[..|properties| - 1];
            && (HasPropertyNamed(properties, name) <==> HasPropertyNamed(front, name))
            && forall p :: IsLastNamed(front, name, p) ==> IsLastNamed(properties, name, p)
  {
    var n := |properties| - 1;
    var front := properties[..n];
    assert forall i :: 0 <= i < n ==> front[i] == properties[i];
    if HasPropertyNamed(properties, name) {
      var i :| 0 <= i < |properties| && properties[i].0.name == name;
      assert front[i].0.name == name;
    }
    forall p | IsLastNamed(front, name, p) ensures IsLastNamed(properties, name, p) {
      var i :| && 0 <= i < |front| && front[i] == p && p.0.name == name
               && forall k :: i < k < |front| ==> front[k].0.name != name;
      assert properties[i] == p;
    }
  }

  /** Binding one variable: each property of that name, in order, sets it again. */
  function BindVariable(name: string, properties: seq<Property>, bindings: Bindings): Result<Bindings, MarshalError>
    decreases |properties|
  {
    if properties == [] then Success(bindings)
    else
      match BindVariable(name, properties[..|properties| - 1], bindings)
      case Failure(e) => Failure(e)
      case Success(b) =>
        var p := properties[|properties| - 1];
        if p.0.name == name then
          match RepresentationOf(p)
          case Success(rep) => Success(b[name := rep])
          case Failure(e) => Failure(e)
        else Success(b)
  }

  /** Binding every declared variable, in declaration order. */
  function BindVariables(variables: seq<string>, properties: seq<Property>, bindings: Bindings): Result<Bindings, MarshalError>
    decreases |variables|
  {
    if variables == [] then Success(bindings)
    else
      match BindVariables(variables[..|variables| - 1], properties, bindings)
      case Failure(e) => Failure(e)
      case Success(b) => BindVariable(variables[|variables| - 1], properties, b)
  }

  /**
   * Binding one variable succeeds exactly when every property of that name
   * has a representation; it then binds the variable, when some property has
   * its name, to the value of the last one, and leaves every other binding.
   */
  lemma {:induction false} BindVariableSpec(name: string, properties: seq<Property>, bindings: Bindings)
    ensures var r := BindVariable(name, properties, bindings);
            && (r.Success? <==> forall i :: 0 <= i < |properties| && properties[i].0.name == name ==> Marshals(properties[i]))
            && (r.Success? ==> r.value.Keys == bindings.Keys + (if HasPropertyNamed(properties, name) then {name} else {}))
            && (r.Success? ==> forall k :: k in bindings && k != name ==> r.value[k] == bindings[k])
            && (r.Success? && HasPropertyNamed(properties, name) ==>
                  RepresentationOf(LastNamed(properties, name).value) == Success(r.value[name]))
    decreases |properties|
  {
    if properties != [] {
      var n := |properties| - 1;
      var front := properties[..n];
      BindVariableSpec(name, front, bindings);
      assert forall i :: 0 <= i < n ==> front[i] == properties[i];
      assert HasPropertyNamed(properties, name) <==> HasPropertyNamed(front, name) || properties[n].0.name == name by {
        if HasPropertyNamed(properties, name) {
          var i :| 0 <= i < |properties| && properties[i].0.name == name;
          if i < n { assert front[i].0.name == name; }
        }
      }
    }
  }

  /**
   * Binding succeeds exactly when every property whose name is a declared
   * variable has a representation, and then binds exactly the declared
   * variables that some property is named after.
   */
  lemma {:induction false} BindVariablesSpec(variables: seq<string>, properties: seq<Property>, bindings: Bindings)
    ensures var r := BindVariables(variables, properties, bindings);
            && (r.Success? <==> forall i :: 0 <= i < |properties| && properties[i].0.name in variables ==> Marshals(properties[i]))
            && (r.Success? ==> r.value.Keys == bindings.Keys + set v | v in variables && HasPropertyNamed(properties, v))
    decreases |variables|
  {
    if variables != [] {
      var n := |variables| - 1;
      var front := variables[..n];
      var last := variables[n];
      assert variables == front + [last];
      BindVariablesSpec(front, properties, bindings);
      var r0 := BindVariables(front, properties, bindings);
      if r0.Success? {
        BindVariableSpec(last, properties, r0.value);
        assert (set v | v in variables && HasPropertyNamed(properties, v)) ==
               (set v | v in front && HasPropertyNamed(properties, v)) +
               (if HasPropertyNamed(properties, last) then {last} else {});
      }
    }
  }

  /**
   * After a successful binding each declared variable that some property is
   * named after holds the value of the last property of its name; names that
   * are not declared variables keep their bindings.
   */
  lemma {:induction false} BindVariablesBoundValues(variables: seq<string>, properties: seq<Property>, bindings: Bindings)
    requires BindVariables(variables, properties, bindings).Success?
    ensures var b := BindVariables(variables, properties, bindings).value;
            && (forall v :: v in variables && HasPropertyNamed(properties, v) ==>
                  v in b && RepresentationOf(LastNamed(properties, v).value) == Success(b[v]))
            && (forall k :: k in bindings && k !in variables ==> k in b && b[k] == bindings[k])
    decreases |variables|
  {
    if variables != [] {
      var n := |variables| - 1;
      var front := variables[..n];
      var last := variables[n];
      assert variables == front + [last];
      var b0 := BindVariables(front, properties, bindings).value;
      BindVariablesBoundValues(front, properties, bindings);
      BindVariableSpec(last, properties, b0);
    }
  }

  lemma {:induction false} BindVariableFailureExtends(name: string, properties: seq<Property>, bindings: Bindings, n: nat)
    requires n <= |properties| && BindVariable(name, properties[..n], bindings).Failure?
    ensures BindVariable(name, properties, bindings) == BindVariable(name, properties[..n], bindings)
    decreases |properties| - n
  {
    if n < |properties| {
      assert properties[..n + 1][..n] == properties[..n];
      BindVariableFailureExtends(name, properties, bindings, n + 1);
    } else {
      assert properties[..n] == properties;
    }
  }

  lemma {:induction false} BindVariablesFailureExtends(variables: seq<string>, properties: seq<Property>, bindings: Bindings, n: nat)
    requires n <= |variables| && BindVariables(variables[..n], properties, bindings).Failure?
    ensures BindVariables(variables, properties, bindings) == BindVariables(variables[..n], properties, bindings)
    decreases |variables| - n
  {
    if n < |variables| {
      assert variables[..n + 1][..n] == variables[..n];
      BindVariablesFailureExtends(variables, properties, bindings, n + 1);
    } else {
      assert variables[..n] == variables;
    }
  }

  // ---------------------------------------------------------------------------
  // Result assembly

  /** The items cast to elements, in order, or None when some item is not an element. */
  function Elements(items: seq<Item>): (r: Option<seq<ElementNode>>)
    ensures r.Some? <==> forall i :: 0 <= i < |items| ==> items[i].ElementItem?
    ensures r.Some? ==> |r.value| == |items| && forall i :: 0 <= i < |items| ==> r.value[i] == items[i].element
    decreases |items|
  {
    if items == [] then Some([])
    else if items[0].OtherItem? then None
    else
      var rest := Elements(items[1..]);
      assert forall i :: 1 <= i < |items| ==> items[i] == items[1..][i - 1];
      match rest
      case None => None
      case Some(es) => Some([items[0].element] + es)
  }

  /** The elements one expression matches, or why collecting them stopped. */
  function MatchesOne(e: Expr, ctx: DynamicContext, iterate: Iterate): Result<seq<ElementNode>, Stop>
  {
    match iterate(e, ctx)
    case Failure(m) => Failure(XPathProblem(m))
    case Success(items) =>
      match Elements(items)
      case None => Failure(NotAnElement)
      case Some(es) => Success(es)
  }

  /** The elements of every expression, run in list order and concatenated; the first stop aborts. */
  function Matches(exprs: seq<Expr>, ctx: DynamicContext, iterate: Iterate): Result<seq<ElementNode>, Stop>
    decreases |exprs|
  {
    if exprs == [] then Success([])
    else
      match Matches(exprs[..|exprs| - 1], ctx, iterate)
      case Failure(m) => Failure(m)
      case Success(done) =>
        match MatchesOne(exprs[|exprs| - 1], ctx, iterate)
        case Failure(m) => Failure(m)
        case Success(es) => Success(done + es)
  }

  /** Running a list of expressions runs its parts one after the other and concatenates their elements. */
  lemma {:induction false} MatchesAppend(a: seq<Expr>, b: seq<Expr>, ctx: DynamicContext, iterate: Iterate)
    ensures Matches(a + b, ctx, iterate) ==
              match Matches(a, ctx, iterate)
              case Failure(m) => Failure(m)
              case Success(x) =>
                match Matches(b, ctx, iterate)
                case Failure(m) => Failure(m)
                case Success(y) => Success(x + y)
    decreases |b|
  {
    if b == [] {
      assert a + b == a;
      match Matches(a, ctx, iterate)
      case Failure(m) =>
      case Success(x) => assert x + [] == x;
    } else {
      var n := |b| - 1;
      assert (a + b)[..|a + b| - 1] == a + b[..n];
      assert (a + b)[|a + b| - 1] == b[n];
      MatchesAppend(a, b[..n], ctx, iterate);
      match Matches(a, ctx, iterate)
      case Failure(m) =>
      case Success(x) =>
        match Matches(b[..n], ctx, iterate)
        case Failure(m) =>
        case Success(y) =>
          match MatchesOne(b[n], ctx, iterate)
          case Failure(m) =>
          case Success(z) =>
            assert x + y + z == x + (y + z);
    }
  }

  /**
   * The result-assembly loops of `evaluate`: collect every item, casting it
   * to an element, then map each element back to its node.
   */
  method CollectResults(exprs: seq<Expr>, ctx: DynamicContext, iterate: Iterate)
    returns (r: Result<seq<AstNode>, Stop>)
    ensures r.Failure? <==> Matches(exprs, ctx, iterate).Failure?
    ensures r.Failure? ==> r.error == Matches(exprs, ctx, iterate).error
    ensures r.Success? ==> var nodes := Matches(exprs, ctx, iterate).value;
              |r.value| == |nodes| && forall i :: 0 <= i < |nodes| ==> r.value[i] == nodes[i].underlying
  {
    var nodes: seq<ElementNode> := [];
    for e := 0 to |exprs|
      invariant Matches(exprs[..e], ctx, iterate) == Success(nodes)
    {
      assert exprs[..e + 1][..e] == exprs[..e];
      var items := iterate(exprs[e], ctx);
      if items.Failure? {
        MatchesFailureExtends(exprs, ctx, iterate, e + 1);
        return Failure(XPathProblem(items.error));
      }
      ghost var before := nodes;
      for k := 0 to |items.value|
        invariant forall i :: 0 <= i < k ==> items.value[i].ElementItem?
        invariant |nodes| == |before| + k && nodes[..|before|] == before
        invariant forall i :: 0 <= i < k ==> nodes[|before| + i] == items.value[i].element
      {
        var current := items.value[k];
        if current.OtherItem? {
          MatchesFailureExtends(exprs, ctx, iterate, e + 1);
          return Failure(NotAnElement);
        }
        nodes := nodes + [current.element];
      }
      assert nodes == before + Elements(items.value).value;
    }
    assert exprs[..|exprs|] == exprs;
    var results: seq<AstNode> := [];
    for i := 0 to |nodes|
      invariant |results| == i
      invariant forall j :: 0 <= j < i ==> results[j] == nodes[j].underlying
    {
      results := results + [nodes[i].underlying];
    }
    r := Success(results);
  }

  lemma {:induction false} MatchesFailureExtends(exprs: seq<Expr>, ctx: DynamicContext, iterate: Iterate, n: nat)
    requires n <= |exprs| && Matches(exprs[..n], ctx, iterate).Failure?
    ensures Matches(exprs, ctx, iterate) == Matches(exprs[..n], ctx, iterate)
    decreases |exprs| - n
  {
    if n < |exprs| {
      assert exprs[..n + 1][..n] == exprs[..n];
      MatchesFailureExtends(exprs, ctx, iterate, n + 1);
    } else {
      assert exprs[..n] == exprs;
    }
  }

  function Underlying(nodes: seq<ElementNode>): (r: seq<AstNode>)
    ensures |r| == |nodes| && forall i :: 0 <= i < |nodes| ==> r[i] == nodes[i].underlying
  {
    if nodes == [] then [] else [nodes[0].underlying] + Underlying(nodes[1..])
  }

  /**
   * When the analysis aborted, evaluating on any node runs exactly the whole
   * query, once, from that node.
   */
  lemma AbortedAnalysisRunsWholeQuery(root: Expr, nodeName: string, ctx: DynamicContext, iterate: Iterate)
    requires !Decomposable(root)
    ensures var exprs := ExpressionsForNodeOrDefault(Analyzed(root, map[]), nodeName);
            exprs == Some([root]) && Matches(exprs.value, ctx, iterate) == MatchesOne(root, ctx, iterate)
  {
    LookupAfterAnalysis(root, nodeName);
    assert [root][..0] == [];
    match MatchesOne(root, ctx, iterate)
    case Success(es) => assert [] + es == es;
    case Failure(_) =>
  }

  // ---------------------------------------------------------------------------
  // The query

  class SaxonXPathRuleQuery {
    const xpath: string
    const version: XPathVersion
    const properties: seq<Property>
    /** What the XPath library's parser makes of `xpath`: the compiled expression or its diagnostic. */
    const parsed: Result<Expr, string>

    var nodeNameToXPaths: Table
    var xpathExpression: Option<Expr>
    var xpathVariables: seq<string>
    var ruleChainVisits: set<string>
    /** Whether the static context was put in XPath 1.0 backwards-compatibility mode. */
    var backwardsCompatible: bool
    /** How many times the query was compiled. */
    ghost var compilations: nat

    ghost predicate Valid()
      reads this
    {
      && (xpathExpression.None? ==> nodeNameToXPaths == map[] && ruleChainVisits == {})
      && (xpathExpression.Some? ==>
            && parsed == Success(xpathExpression.value)
            && xpathVariables == DeclaredVariables(properties)
            && nodeNameToXPaths == Analyzed(xpathExpression.value, map[])
            && ruleChainVisits == ChainVisits(xpathExpression.value))
    }

    constructor (xpath: string, version: XPathVersion, properties: seq<Property>, parsed: Result<Expr, string>)
      ensures Valid()
      ensures this.xpath == xpath && this.version == version
      ensures this.properties == properties && this.parsed == parsed
      ensures xpathExpression.None? && compilations == 0
    {
      this.xpath := xpath;
      this.version := version;
      this.properties := properties;
      this.parsed := parsed;
      nodeNameToXPaths := map[];
      xpathExpression := None;
      xpathVariables := [];
      ruleChainVisits := {};
      backwardsCompatible := false;
      compilations := 0;
    }

    /** `addExpressionForNode`. */
    method AddExpressionForNode(nodeName: string, e: Expr)
      modifies this`nodeNameToXPaths
      ensures nodeNameToXPaths == AddExpression(old(nodeNameToXPaths), nodeName, e)
    {
      if nodeName !in nodeNameToXPaths {
        nodeNameToXPaths := nodeNameToXPaths[nodeName := []];
      }
      nodeNameToXPaths := nodeNameToXPaths[nodeName := nodeNameToXPaths[nodeName] + [e]];
    }

    /**
     * `initializeXPathExpression`: nothing once compiled; otherwise declare the
     * variables, compile, and analyse the compiled query for the rule chain.
     */
    method InitializeXPathExpression() returns (thrown: Option<QueryError>)
      requires Valid()
      modifies this
      ensures Valid()
      ensures old(xpathExpression).Some? ==> thrown.None? && unchanged(this)
      ensures old(xpathExpression).None? ==>
                && compilations == old(compilations) + 1
                && xpathVariables == DeclaredVariables(properties)
                && backwardsCompatible == (version == XPath10Compatibility)
      ensures thrown.None? <==> parsed.Success?
      ensures thrown.Some? ==> thrown.value == CompileError(parsed.error) && xpathExpression.None?
      ensures thrown.None? ==> xpathExpression == Some(parsed.value)
    {
      if xpathExpression.Some? {
        return None;
      }
      compilations := compilations + 1;
      backwardsCompatible := version == XPath10Compatibility;
      xpathVariables := DeclareVariables(properties);
      if parsed.Failure? {
        return Some(CompileError(parsed.error));
      }
      xpathExpression := Some(parsed.value);
      AnalyzeXPathForRuleChain();
      thrown := None;
    }

    /** `analyzeXPathForRuleChain`: the worklist loop, then the fallback registration. */
    method AnalyzeXPathForRuleChain()
      requires xpathExpression.Some?
      modifies this`nodeNameToXPaths, this`ruleChainVisits
      ensures nodeNameToXPaths == Analyzed(xpathExpression.value, old(nodeNameToXPaths))
      ensures ruleChainVisits ==
                match Drain([xpathExpression.value], old(nodeNameToXPaths))
                case Some(t) => old(ruleChainVisits) + t.Keys
                case None => old(ruleChainVisits)
    {
      var root := xpathExpression.value;
      var useRuleChain := true;
      var pending := [root];
      while pending != []
        invariant useRuleChain
        invariant Drain(pending, nodeNameToXPaths) == Drain([root], old(nodeNameToXPaths))
        invariant ruleChainVisits == old(ruleChainVisits)
        decreases PendingSize(pending)
      {
        ghost var before, table := pending, nodeNameToXPaths;
        var node := pending[0];
        pending := pending[1..];
        var valid := false;
        if node.Venn? {
          if node.op == Union {
            pending := pending + [node.left, node.right];
            valid := true;
          }
        } else if node.DocumentSorter? {
          pending := pending + [node.base];
          valid := true;
        } else if node.PathExpr? {
          var firstStep := FirstStep(node);
          if PrimitiveItemType(firstStep) == ElementType {
            if firstStep.FilterExpr? && firstStep.base.PathExpr? {
              var start := firstStep.base;
              if start.start.RootExpr? && start.step.AxisExpr? {
                var nodeName := ClarkName(start.step.test);
                var p := PathExpr(FilterExpr(SelfNode, firstStep.filter), RemainingSteps(node));
                AddExpressionForNode(nodeName, p);
                valid := true;
              }
            }
          } else if PrimitiveItemType(firstStep) == DocumentType {
            if firstStep.RootExpr? && RemainingSteps(node).AxisExpr? {
              RemainingAxisStepIsStepExpression(node);
              var nodeName := ClarkName(node.step.test);
              AddExpressionForNode(nodeName, SelfNode);
              valid := true;
            }
          }
        } else if node.FilterExpr? {
          if node.base.PathExpr? {
            var start := node.base;
            if start.start.RootExpr? && start.step.AxisExpr? {
              var nodeName := ClarkName(start.step.test);
              AddExpressionForNode(nodeName, FilterExpr(SelfNode, node.filter));
              valid := true;
            }
          }
        }

        if !valid {
          assert Classify(node).Reject?;
          assert Drain([root], old(nodeNameToXPaths)).None?;
          useRuleChain := false;
          break;
        }
        if Classify(node).Requeue? {
          PendingSizeAppend(before[1..], Classify(node).items);
        }
      }

      if useRuleChain {
        ruleChainVisits := ruleChainVisits + nodeNameToXPaths.Keys;
      } else {
        nodeNameToXPaths := map[];
      }

      // always add the fallback expression
      AddExpressionForNode(AST_ROOT, root);
    }

    /** `createDynamicContext`: bind each declared variable to the property of that name. */
    method CreateDynamicContext(element: ElementNode) returns (r: Result<DynamicContext, MarshalError>)
      ensures r == match BindVariables(xpathVariables, properties, map[])
                   case Success(b) => Success(DynamicContext(element, b))
                   case Failure(e) => Failure(e)
    {
      var variables := xpathVariables;
      var bindings: Bindings := map[];
      for i := 0 to |variables|
        invariant BindVariables(variables[..i], properties, map[]) == Success(bindings)
      {
        assert variables[..i + 1][..i] == variables[..i];
        var variableName := variables[i];
        ghost var outer := bindings;
        for j := 0 to |properties|
          invariant BindVariable(variableName, properties[..j], outer) == Success(bindings)
        {
          assert properties[..j + 1][..j] == properties[..j];
          var (descriptor, value) := properties[j];
          if variableName == descriptor.name {
            var representation := GetRepresentation(descriptor.multiValued, value);
            if representation.Failure? {
              BindVariableFailureExtends(variableName, properties, outer, j + 1);
              BindVariablesFailureExtends(variables, properties, map[], i + 1);
              return Failure(representation.error);
            }
            bindings := bindings[variableName := representation.value];
          }
        }
        assert properties[..|properties|] == properties;
      }
      assert variables[..|variables|] == variables;
      r := Success(DynamicContext(element, bindings));
    }

    /** What `evaluate` returns on `node` once compiled. */
    ghost function EvaluationResult(node: AstNode, iterate: Iterate): Result<seq<AstNode>, QueryError>
      reads this
      requires xpathExpression.Some? && AST_ROOT in nodeNameToXPaths
    {
      match BindVariables(xpathVariables, properties, map[])
      case Failure(e) => Failure(MarshalFailure(e))
      case Success(b) =>
        var ctx := DynamicContext(ElementNode(node), b);
        var exprs := ExpressionsForNodeOrDefault(nodeNameToXPaths, node.xpathNodeName).value;
        match Matches(exprs, ctx, iterate)
        case Failure(XPathProblem(m)) => Failure(EvaluationError(xpath + " had problem: " + m))
        case Failure(NotAnElement) => Failure(ClassCastFailure)
        case Success(ns) => Success(Underlying(ns))
    }

    /**
     * `evaluate`: compile if needed, fetch the node's document, bind the
     * variables, run the expressions for the node's name and map the items
     * back to nodes.
     */
    method Evaluate(node: AstNode, cache: DocumentCache, iterate: Iterate) returns (r: Result<seq<AstNode>, QueryError>)
      requires Valid() && cache.Valid() && node.Linked()
      modifies this, cache
      ensures Valid() && cache.Valid()
      ensures parsed.Failure? ==> r == Failure(CompileError(parsed.error)) && cache.entries == old(cache.entries)
      ensures parsed.Success? ==> xpathExpression == Some(parsed.value) && r == EvaluationResult(node, iterate)
      ensures old(xpathExpression).Some? ==> compilations == old(compilations) && xpathExpression == old(xpathExpression)
      ensures compilations <= old(compilations) + 1
      ensures parsed.Success? && old(cache.Get(RootOf(node))).Some? ==> cache.entries == old(cache.entries)
      ensures parsed.Success? && old(cache.Get(RootOf(node))).None? ==>
                && |cache.entries| > 0
                && var d := cache.entries[|cache.entries| - 1].1;
                   fresh(d) && d.root == RootOf(node) && cache.entries == Put(old(cache.entries), (RootOf(node), d))
      ensures parsed.Success? ==> cache.Get(RootOf(node)).Some?
    {
      var thrown := InitializeXPathExpression();
      if thrown.Some? {
        return Failure(thrown.value);
      }
      var documentNode := cache.GetDocumentNodeForRootNode(node);
      r := Query(node, documentNode, iterate);
    }

    /**
     * The body of `evaluate` once the query is compiled and the node's document
     * fetched: bind the variables, run the expressions for the node's name, and
     * map the matched elements back to nodes.
     */
    method Query(node: AstNode, documentNode: DocumentNode, iterate: Iterate) returns (r: Result<seq<AstNode>, QueryError>)
      requires xpathExpression.Some? && AST_ROOT in nodeNameToXPaths
      ensures r == EvaluationResult(node, iterate)
    {
      var rootElementNode := documentNode.ElementFor(node);
      var context := CreateDynamicContext(rootElementNode);
      if context.Failure? {
        return Failure(MarshalFailure(context.error));
      }
      var expressions := ExpressionsForNodeOrDefault(nodeNameToXPaths, node.xpathNodeName).value;
      var results := CollectResults(expressions, context.value, iterate);
      if results.Failure? {
        match results.error
        case XPathProblem(m) => return Failure(EvaluationError(xpath + " had problem: " + m));
        case NotAnElement => return Failure(ClassCastFailure);
      }
      r := Success(results.value);
      ghost var ns := Matches(expressions, context.value, iterate).value;
      assert results.value == Underlying(ns);
    }

    /** `getRuleChainVisits`: compile if needed, then the node names the rule chain visits. */
    method GetRuleChainVisits() returns (r: Result<set<string>, QueryError>)
      requires Valid()
      modifies this
      ensures Valid()
      ensures parsed.Failure? ==> r == Failure(CompileError(parsed.error))
      ensures parsed.Success? ==> r == Success(ChainVisits(parsed.value)) && xpathExpression == Some(parsed.value)
      ensures old(xpathExpression).Some? ==> compilations == old(compilations) && xpathExpression == old(xpathExpression)
      ensures compilations <= old(compilations) + 1
    {
      var thrown := InitializeXPathExpression();
      if thrown.Some? {
        return Failure(thrown.value);
      }
      r := Success(ruleChainVisits);
    }
  }
}
