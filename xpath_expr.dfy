/**
 * The compiled XPath expressions that the rule-chain analysis inspects: the
 * shapes the XPath library (Saxon) produces for set operations, document-order
 * sorting, paths, filters, axis steps and the document root, plus one opaque
 * case for every other kind of expression. The item-type classification, the
 * path decomposition and the name lookup belong to the library; they are given
 * here as total functions over these shapes.
 */
module XPathExpr {

  /** Operator of a set expression: `|`/`union`, `intersect`, `except`. */
  datatype VennOp = Union | Intersect | Except

  datatype Axis =
    | Self | Child | Descendant | DescendantOrSelf | Attribute
    | Parent | Ancestor | FollowingSibling | PrecedingSibling

  /** The node test of an axis step: `node()` or a name test, identified by its Clark name. */
  datatype NodeTest = AnyNodeTest | NameTest(clarkName: string)

  /** Primitive item types, as far as the analysis asks about them. */
  datatype PrimitiveType = ElementType | DocumentType | AttributeType | NodeType | AtomicType

  datatype Expr =
    | Venn(op: VennOp, left: Expr, right: Expr)
    | DocumentSorter(base: Expr)
    | PathExpr(start: Expr, step: Expr)
    | FilterExpr(base: Expr, filter: Expr)
    | AxisExpr(axis: Axis, test: NodeTest)
    | RootExpr
    | Opaque(id: nat, itemType: PrimitiveType)

  /** `self::node()`, the step the analysis substitutes for a document-rooted type selection. */
  const SelfNode: Expr := AxisExpr(Self, AnyNodeTest)

  function Size(e: Expr): (n: nat)
    ensures n >= 1
  {
    match e
    case Venn(_, l, r) => 1 + Size(l) + Size(r)
    case DocumentSorter(b) => 1 + Size(b)
    case PathExpr(s, t) => 1 + Size(s) + Size(t)
    case FilterExpr(b, f) => 1 + Size(b) + Size(f)
    case AxisExpr(_, _) => 1
    case RootExpr => 1
    case Opaque(_, _) => 1
  }

  /** The library's static item type of an expression (`getItemType(th).getPrimitiveType()`). */
  function PrimitiveItemType(e: Expr): PrimitiveType
  {
    match e
    case Venn(_, l, r) =>
      if PrimitiveItemType(l) == PrimitiveItemType(r) then PrimitiveItemType(l) else NodeType
    case DocumentSorter(b) => PrimitiveItemType(b)
    case PathExpr(_, t) => PrimitiveItemType(t)
    case FilterExpr(b, _) => PrimitiveItemType(b)
    case AxisExpr(a, t) =>
      if a == Attribute then AttributeType
      else if t.AnyNodeTest? then NodeType
      else ElementType
    case RootExpr => DocumentType
    case Opaque(_, t) => t
  }

  /** The name the library's name pool gives a node test (`getClarkName(test.getFingerprint())`). */
  function ClarkName(test: NodeTest): string
  {
    match test
    case NameTest(n) => n
    case AnyNodeTest => ""
  }

  /** The step sequence a path denotes: `(a/b)/c` and `a/(b/c)` both denote `[a, b, c]`. */
  function Steps(e: Expr): (s: seq<Expr>)
    ensures |s| >= 1
  {
    if e.PathExpr? then Steps(e.start) + Steps(e.step) else [e]
  }

  /** The leftmost step of a path (`PathExpression.getFirstStep`). */
  function FirstStep(p: Expr): (r: Expr)
    requires p.PathExpr?
    ensures !r.PathExpr?
    ensures Size(r) < Size(p)
  {
    if p.start.PathExpr? then FirstStep(p.start) else p.start
  }

  /** The path after its first step (`PathExpression.getRemainingSteps`). */
  function RemainingSteps(p: Expr): (r: Expr)
    requires p.PathExpr?
    ensures Size(r) < Size(p)
  {
    if p.start.PathExpr? then PathExpr(RemainingSteps(p.start), p.step) else p.step
  }

  /** Splitting a path into its first step and the rest keeps its step sequence. */
  lemma {:induction false} FirstAndRemainingSteps(p: Expr)
    requires p.PathExpr?
    ensures Steps(p) == [FirstStep(p)] + Steps(RemainingSteps(p))
    decreases p
  {
    if p.start.PathExpr? {
      FirstAndRemainingSteps(p.start);
      calc {
        Steps(p);
        Steps(p.start) + Steps(p.step);
        [FirstStep(p.start)] + Steps(RemainingSteps(p.start)) + Steps(p.step);
        [FirstStep(p)] + Steps(PathExpr(RemainingSteps(p.start), p.step));
      }
    }
  }

  /**
   * When the rest of a path is a single axis step, the path has exactly two
   * steps: its start is the first step and its step expression is that axis
   * step. This is why reading the step expression after testing the remaining
   * steps is safe.
   */
  lemma RemainingAxisStepIsStepExpression(p: Expr)
    requires p.PathExpr? && RemainingSteps(p).AxisExpr?
    ensures FirstStep(p) == p.start && RemainingSteps(p) == p.step
  {
  }
}
