/**
 * The rule-chain analysis of a compiled query: which parts of a union of
 * document-rooted type selections can be run directly on nodes of one type,
 * rewritten to start at `self::node()`. The analysis drains a first-in
 * first-out worklist seeded with the whole query; it either registers one
 * rewritten expression per recognised branch under that branch's node name, or
 * gives up and discards every registration. Either way the whole query is then
 * registered under the sentinel name `AST_ROOT`.
 */
module RuleChain {
  import opened Wrappers
  import opened XPathExpr

  /** The sentinel name whose list always ends with the whole query. */
  const AST_ROOT: string := "_AST_ROOT_"

  /** Node name to the expressions to run on nodes of that name. */
  type Table = map<string, seq<Expr>>

  /** `addExpressionForNode`: append to the name's list, creating the list when absent. */
  function AddExpression(table: Table, nodeName: string, e: Expr): (r: Table)
    ensures r.Keys == table.Keys + {nodeName}
    ensures nodeName in table ==> r[nodeName] == table[nodeName] + [e]
    ensures nodeName !in table ==> r[nodeName] == [e]
    ensures forall n :: n in table && n != nodeName ==> r[n] == table[n]
  {
    table[nodeName := (if nodeName in table then table[nodeName] else []) + [e]]
  }

  /** What one dequeued sub-expression leads to. */
  datatype Decision =
    | Requeue(items: seq<Expr>)                   // union operands, sorter base
    | Register(nodeName: string, rewritten: Expr) // a recognised type selection
    | Reject                                      // not decomposable: abort

  function PendingSize(pending: seq<Expr>): nat
  {
    if pending == [] then 0 else Size(pending[0]) + PendingSize(pending[1..])
  }

  lemma {:induction false} PendingSizeAppend(a: seq<Expr>, b: seq<Expr>)
    ensures PendingSize(a + b) == PendingSize(a) + PendingSize(b)
    decreases |a|
  {
    if a == [] {
      assert a + b == b;
    } else {
      assert (a + b)[1..] == a[1..] + b;
      PendingSizeAppend(a[1..], b);
    }
  }

  /** True of a document-rooted axis step `/axis::test`, the base a type selection filters. */
  predicate IsRootedAxisStep(e: Expr)
  {
    e.PathExpr? && e.start.RootExpr? && e.step.AxisExpr?
  }

  /** The classification of one worklist item, branch by branch as the analysis loop does it. */
  function Classify(e: Expr): (d: Decision)
    ensures d.Requeue? ==> PendingSize(d.items) < Size(e)
  {
    match e
    case Venn(op, l, r) =>
      assert [l, r][1..] == [r] && [r][1..] == [];
      assert PendingSize([r]) == Size(r);
      assert PendingSize([l, r]) == Size(l) + Size(r);
      if op == Union then Requeue([l, r]) else Reject
    case DocumentSorter(b) =>
      assert [b][1..] == [];
      Requeue([b])
    case PathExpr(_, _) =>
      var first := FirstStep(e);
      if PrimitiveItemType(first) == ElementType then
        if first.FilterExpr? && IsRootedAxisStep(first.base) then
          Register(ClarkName(first.base.step.test),
                   PathExpr(FilterExpr(SelfNode, first.filter), RemainingSteps(e)))
        else Reject
      else if PrimitiveItemType(first) == DocumentType then
        if first.RootExpr? && RemainingSteps(e).AxisExpr? then
          RemainingAxisStepIsStepExpression(e);
          Register(ClarkName(e.step.test), SelfNode)
        else Reject
      else Reject
    case FilterExpr(b, f) =>
      if IsRootedAxisStep(b) then Register(ClarkName(b.step.test), FilterExpr(SelfNode, f))
      else Reject
    case _ => Reject
  }

  /**
   * Drains the worklist from its head, appending re-queued items at its tail.
   * None when some dequeued item is rejected.
   */
  function Drain(pending: seq<Expr>, table: Table): Option<Table>
    decreases PendingSize(pending)
  {
    if pending == [] then Some(table)
    else
      match Classify(pending[0])
      case Requeue(items) =>
        PendingSizeAppend(pending[1..], items);
        Drain(pending[1..] + items, table)
      case Register(n, x) => Drain(pending[1..], AddExpression(table, n, x))
      case Reject => None
  }

  /**
   * The table after analysing `root` starting from `table`: the registrations
   * when the whole worklist drained, nothing when it aborted, and in both
   * cases `root` appended under `AST_ROOT`.
   */
  function Analyzed(root: Expr, table: Table): (r: Table)
    ensures AST_ROOT in r && |r[AST_ROOT]| > 0 && r[AST_ROOT][|r[AST_ROOT]| - 1] == root
    ensures Drain([root], table).None? ==> r == map[AST_ROOT := [root]]
    ensures Drain([root], table).Some? ==> r.Keys == Drain([root], table).value.Keys + {AST_ROOT}
  {
    var chained := match Drain([root], table) case Some(t) => t case None => map[];
    AddExpression(chained, AST_ROOT, root)
  }

  /** `getXPathExpressionForNodeOrDefault`: the name's own list, else the fallback list (None: Java null). */
  function ExpressionsForNodeOrDefault(table: Table, nodeName: string): (r: Option<seq<Expr>>)
    ensures nodeName in table ==> r == Some(table[nodeName])
    ensures nodeName !in table && AST_ROOT in table ==> r == Some(table[AST_ROOT])
    ensures r.None? <==> nodeName !in table && AST_ROOT !in table
  {
    if nodeName in table then Some(table[nodeName])
    else if AST_ROOT in table then Some(table[AST_ROOT])
    else None
  }

  // ---------------------------------------------------------------------------
  // A structural reference for the worklist: which queries decompose, and into
  // which node names, independent of the order the worklist visits them in.

  /** A query decomposes when every leaf of its union/sort structure is a recognised selection. */
  predicate Decomposable(e: Expr)
  {
    match e
    case Venn(Union, l, r) => Decomposable(l) && Decomposable(r)
    case DocumentSorter(b) => Decomposable(b)
    case _ => Classify(e).Register?
  }

  /** The node names the leaves of a query's union/sort structure register under. */
  function ChainNames(e: Expr): set<string>
  {
    match e
    case Venn(Union, l, r) => ChainNames(l) + ChainNames(r)
    case DocumentSorter(b) => ChainNames(b)
    case _ => if Classify(e).Register? then {Classify(e).nodeName} else {}
  }

  /** The registrations the leaves of a query's union/sort structure make, in no particular order. */
  function LeafRegistrations(e: Expr): multiset<(string, Expr)>
  {
    match e
    case Venn(Union, l, r) => LeafRegistrations(l) + LeafRegistrations(r)
    case DocumentSorter(b) => LeafRegistrations(b)
    case _ => if Classify(e).Register? then multiset{(Classify(e).nodeName, Classify(e).rewritten)} else multiset{}
  }

  function AllLeafRegistrations(pending: seq<Expr>): multiset<(string, Expr)>
  {
    if pending == [] then multiset{} else LeafRegistrations(pending[0]) + AllLeafRegistrations(pending[1..])
  }

  lemma {:induction false} AllLeafRegistrationsAppend(a: seq<Expr>, b: seq<Expr>)
    ensures AllLeafRegistrations(a + b) == AllLeafRegistrations(a) + AllLeafRegistrations(b)
    decreases |a|
  {
    if a == [] {
      assert a + b == b;
    } else {
      assert (a + b)[1..] == a[1..] + b;
      AllLeafRegistrationsAppend(a[1..], b);
    }
  }

  predicate AllDecomposable(pending: seq<Expr>)
  {
    forall i :: 0 <= i < |pending| ==> Decomposable(pending[i])
  }

  function AllChainNames(pending: seq<Expr>): set<string>
  {
    if pending == [] then {} else ChainNames(pending[0]) + AllChainNames(pending[1..])
  }

  lemma {:induction false} AllChainNamesAppend(a: seq<Expr>, b: seq<Expr>)
    ensures AllChainNames(a + b) == AllChainNames(a) + AllChainNames(b)
    decreases |a|
  {
    if a == [] {
      assert a + b == b;
    } else {
      assert (a + b)[1..] == a[1..] + b;
      AllChainNamesAppend(a[1..], b);
    }
  }

  lemma AllDecomposableAppend(a: seq<Expr>, b: seq<Expr>)
    ensures AllDecomposable(a + b) <==> AllDecomposable(a) && AllDecomposable(b)
  {
    if AllDecomposable(a) && AllDecomposable(b) {
      forall i | 0 <= i < |a + b| ensures Decomposable((a + b)[i]) {
        if i >= |a| { assert (a + b)[i] == b[i - |a|]; }
      }
    }
    if AllDecomposable(a + b) {
      forall i | 0 <= i < |b| ensures Decomposable(b[i]) {
        assert (a + b)[|a| + i] == b[i];
      }
      forall i | 0 <= i < |a| ensures Decomposable(a[i]) {
        assert (a + b)[i] == a[i];
      }
    }
  }

  /** Re-queued items carry exactly the leaves of the item they replace. */
  lemma RequeuePreservesLeaves(e: Expr)
    requires Classify(e).Requeue?
    ensures Decomposable(e) <==> AllDecomposable(Classify(e).items)
    ensures ChainNames(e) == AllChainNames(Classify(e).items)
    ensures LeafRegistrations(e) == AllLeafRegistrations(Classify(e).items)
  {
    var items := Classify(e).items;
    assert AllChainNames(items[1..]) == if |items| == 2 then ChainNames(items[1]) else {};
    assert AllLeafRegistrations(items[1..]) == if |items| == 2 then LeafRegistrations(items[1]) else multiset{};
  }

  /** An item that is neither a union nor a sort decomposes exactly when it is registered. */
  lemma LeafDecision(e: Expr)
    requires !Classify(e).Requeue?
    ensures Decomposable(e) <==> Classify(e).Register?
    ensures Classify(e).Register? ==> ChainNames(e) == {Classify(e).nodeName}
    ensures Classify(e).Register? ==> LeafRegistrations(e) == multiset{(Classify(e).nodeName, Classify(e).rewritten)}
    ensures Classify(e).Reject? ==> ChainNames(e) == {} && LeafRegistrations(e) == multiset{}
  {
  }

  /**
   * The worklist drains exactly when every pending query decomposes, and then
   * adds exactly the node names of their leaves to the table.
   */
  lemma {:induction false} DrainMatchesDecomposition(pending: seq<Expr>, table: Table)
    ensures Drain(pending, table).Some? <==> AllDecomposable(pending)
    ensures Drain(pending, table).Some? ==>
              Drain(pending, table).value.Keys == table.Keys + AllChainNames(pending)
    decreases PendingSize(pending)
  {
    if pending != [] {
      var e, rest := pending[0], pending[1..];
      assert pending == [e] + rest;
      assert AllDecomposable(pending) <==> Decomposable(e) && AllDecomposable(rest);
      match Classify(e)
      case Requeue(items) =>
        PendingSizeAppend(rest, items);
        DrainMatchesDecomposition(rest + items, table);
        RequeuePreservesLeaves(e);
        AllChainNamesAppend(rest, items);
        AllDecomposableAppend(rest, items);
      case Register(n, x) =>
        LeafDecision(e);
        DrainMatchesDecomposition(rest, AddExpression(table, n, x));
      case Reject =>
        LeafDecision(e);
    }
  }

  // ---------------------------------------------------------------------------
  // What is registered, and in which order

  /** The three selections the analysis recognises, each with the rewrite it is registered as, and no others. */
  lemma RecognisedSelections(e: Expr)
    ensures e.FilterExpr? && IsRootedAxisStep(e.base) ==>
              Classify(e) == Register(ClarkName(e.base.step.test), FilterExpr(SelfNode, e.filter))
    ensures && e.PathExpr? && PrimitiveItemType(FirstStep(e)) == ElementType
            && FirstStep(e).FilterExpr? && IsRootedAxisStep(FirstStep(e).base) ==>
              Classify(e) == Register(ClarkName(FirstStep(e).base.step.test),
                                      PathExpr(FilterExpr(SelfNode, FirstStep(e).filter), RemainingSteps(e)))
    ensures e.PathExpr? && FirstStep(e).RootExpr? && RemainingSteps(e).AxisExpr? ==>
              Classify(e) == Register(ClarkName(RemainingSteps(e).test), SelfNode)
    ensures Classify(e).Register? ==>
              || (e.FilterExpr? && IsRootedAxisStep(e.base))
              || (&& e.PathExpr? && PrimitiveItemType(FirstStep(e)) == ElementType
                  && FirstStep(e).FilterExpr? && IsRootedAxisStep(FirstStep(e).base))
              || (e.PathExpr? && FirstStep(e).RootExpr? && RemainingSteps(e).AxisExpr?)
  {
    if e.PathExpr? && RemainingSteps(e).AxisExpr? {
      RemainingAxisStepIsStepExpression(e);
    }
  }

  /** The registrations the worklist makes, in the order it makes them; None when it gives up. */
  function Registrations(pending: seq<Expr>): Option<seq<(string, Expr)>>
    decreases PendingSize(pending)
  {
    if pending == [] then Some([])
    else
      match Classify(pending[0])
      case Requeue(items) =>
        PendingSizeAppend(pending[1..], items);
        Registrations(pending[1..] + items)
      case Register(n, x) =>
        (match Registrations(pending[1..])
         case Some(rs) => Some([(n, x)] + rs)
         case None => None)
      case Reject => None
  }

  /** `addExpressionForNode` for each registration in turn. */
  function AddAll(table: Table, regs: seq<(string, Expr)>): Table
    decreases |regs|
  {
    if regs == [] then table else AddAll(AddExpression(table, regs[0].0, regs[0].1), regs[1..])
  }

  /** The rewrites registered under `n`, in registration order. */
  function Named(regs: seq<(string, Expr)>, n: string): seq<Expr>
  {
    if regs == [] then [] else (if regs[0].0 == n then [regs[0].1] else []) + Named(regs[1..], n)
  }

  /** A name's list in a table, empty when the name is absent. */
  function ListOf(table: Table, n: string): seq<Expr>
  {
    if n in table then table[n] else []
  }

  /** Registering in turn appends to each name's list exactly its own rewrites, in order. */
  lemma {:induction false} AddAllAppendsNamed(table: Table, regs: seq<(string, Expr)>, n: string)
    ensures ListOf(AddAll(table, regs), n) == ListOf(table, n) + Named(regs, n)
    decreases |regs|
  {
    if regs != [] {
      var (n0, x0) := regs[0];
      var t1 := AddExpression(table, n0, x0);
      AddAllAppendsNamed(t1, regs[1..], n);
      var own := if n0 == n then [x0] else [];
      assert ListOf(t1, n) == ListOf(table, n) + own;
      assert ListOf(table, n) + own + Named(regs[1..], n) == ListOf(table, n) + (own + Named(regs[1..], n));
    }
  }

  /** Draining the worklist is registering, in turn, what it finds. */
  lemma {:induction false} DrainIsAddAll(pending: seq<Expr>, table: Table)
    ensures Drain(pending, table) == match Registrations(pending)
                                     case Some(rs) => Some(AddAll(table, rs))
                                     case None => None
    decreases PendingSize(pending)
  {
    if pending != [] {
      var rest := pending[1..];
      match Classify(pending[0])
      case Requeue(items) =>
        PendingSizeAppend(rest, items);
        DrainIsAddAll(rest + items, table);
      case Register(n, x) =>
        DrainIsAddAll(rest, AddExpression(table, n, x));
        if Registrations(rest).Some? {
          var rs := Registrations(rest).value;
          assert ([(n, x)] + rs)[1..] == rs;
        }
      case Reject =>
    }
  }

  /** What the worklist registers is exactly what the leaves of the pending queries register. */
  lemma {:induction false} RegistrationsAreLeaves(pending: seq<Expr>)
    ensures Registrations(pending).Some? ==> multiset(Registrations(pending).value) == AllLeafRegistrations(pending)
    decreases PendingSize(pending)
  {
    if pending != [] {
      var e, rest := pending[0], pending[1..];
      assert pending == [e] + rest;
      match Classify(e)
      case Requeue(items) =>
        PendingSizeAppend(rest, items);
        RegistrationsAreLeaves(rest + items);
        RequeuePreservesLeaves(e);
        AllLeafRegistrationsAppend(rest, items);
      case Register(n, x) =>
        LeafDecision(e);
        RegistrationsAreLeaves(rest);
      case Reject =>
    }
  }

  /**
   * After a successful analysis each name's list holds the rewrites of the
   * query's leaves of that name, in the order the worklist found them (then the
   * whole query, under `AST_ROOT`), and those rewrites are exactly the leaves'.
   */
  lemma AnalysisRegistersLeafRewrites(root: Expr)
    requires Decomposable(root)
    ensures Registrations([root]).Some?
    ensures multiset(Registrations([root]).value) == LeafRegistrations(root)
    ensures forall n :: n in Analyzed(root, map[]) ==>
              Analyzed(root, map[])[n] == Named(Registrations([root]).value, n) + (if n == AST_ROOT then [root] else [])
  {
    AnalysisSucceedsIffDecomposable(root);
    DrainIsAddAll([root], map[]);
    RegistrationsAreLeaves([root]);
    assert AllLeafRegistrations([root]) == LeafRegistrations(root);
    var rs := Registrations([root]).value;
    var t := Analyzed(root, map[]);
    forall n | n in t ensures t[n] == Named(rs, n) + (if n == AST_ROOT then [root] else []) {
      AnalyzedList(root, rs, n);
    }
  }

  /** One name's list after a successful analysis. */
  lemma AnalyzedList(root: Expr, rs: seq<(string, Expr)>, n: string)
    requires Drain([root], map[]) == Some(AddAll(map[], rs))
    ensures ListOf(Analyzed(root, map[]), n) == Named(rs, n) + (if n == AST_ROOT then [root] else [])
  {
    AddAllAppendsNamed(map[], rs, n);
    assert ListOf(map[], n) == [];
  }

  /** The analysis gives up exactly when the query does not decompose. */
  lemma AnalysisSucceedsIffDecomposable(root: Expr)
    ensures Drain([root], map[]).Some? <==> Decomposable(root)
    ensures Decomposable(root) ==> Drain([root], map[]).value.Keys == ChainNames(root)
    ensures Decomposable(root) ==> Analyzed(root, map[]).Keys == ChainNames(root) + {AST_ROOT}
  {
    DrainMatchesDecomposition([root], map[]);
    assert AllChainNames([root]) == ChainNames(root);
  }

  /**
   * The node names a query's rule chain visits: the registered names when the
   * analysis drained its worklist, none when it aborted.
   */
  function ChainVisits(root: Expr): (r: set<string>)
    ensures r == if Decomposable(root) then ChainNames(root) else {}
  {
    AnalysisSucceedsIffDecomposable(root);
    match Drain([root], map[])
    case Some(t) => t.Keys
    case None => {}
  }

  /** Everything the analysis registers is evaluated from the visited node itself. */
  predicate StartsAtSelf(x: Expr)
  {
    x == SelfNode
    || (x.FilterExpr? && x.base == SelfNode)
    || (x.PathExpr? && x.start.FilterExpr? && x.start.base == SelfNode)
  }

  predicate AllStartAtSelf(table: Table)
  {
    forall n, i :: n in table && 0 <= i < |table[n]| ==> StartsAtSelf(table[n][i])
  }

  lemma {:induction false} DrainRegistersSelfRewrites(pending: seq<Expr>, table: Table)
    requires AllStartAtSelf(table)
    ensures Drain(pending, table).Some? ==> AllStartAtSelf(Drain(pending, table).value)
    decreases PendingSize(pending)
  {
    if pending != [] {
      match Classify(pending[0])
      case Requeue(items) =>
        PendingSizeAppend(pending[1..], items);
        DrainRegistersSelfRewrites(pending[1..] + items, table);
      case Register(n, x) =>
        var t' := AddExpression(table, n, x);
        forall m, i | m in t' && 0 <= i < |t'[m]| ensures StartsAtSelf(t'[m][i]) {
          if m == n && n in table && i < |table[n]| {
            assert t'[m][i] == table[n][i];
          }
        }
        DrainRegistersSelfRewrites(pending[1..], t');
      case Reject =>
    }
  }

  /**
   * Lookup after analysis never comes back empty-handed: every node name gets
   * a non-empty list; after an abort that list is the whole query alone; after
   * a success a name the query selects gets only self-rooted rewrites.
   */
  lemma LookupAfterAnalysis(root: Expr, nodeName: string)
    ensures var r := ExpressionsForNodeOrDefault(Analyzed(root, map[]), nodeName);
            r.Some? && |r.value| > 0
    ensures !Decomposable(root) ==> ExpressionsForNodeOrDefault(Analyzed(root, map[]), nodeName) == Some([root])
    ensures Decomposable(root) && nodeName in ChainNames(root) && nodeName != AST_ROOT ==>
              var r := ExpressionsForNodeOrDefault(Analyzed(root, map[]), nodeName);
              forall i :: 0 <= i < |r.value| ==> StartsAtSelf(r.value[i])
  {
    AnalysisSucceedsIffDecomposable(root);
    var t := Analyzed(root, map[]);
    if Decomposable(root) {
      var chained := Drain([root], map[]).value;
      DrainRegistersSelfRewrites([root], map[]);
      if nodeName in t && nodeName != AST_ROOT {
        assert nodeName in chained && t[nodeName] == chained[nodeName];
        assert |chained[nodeName]| > 0 by { RegisteredListsNonEmpty([root], map[]); }
      }
    }
  }

  predicate NoEmptyLists(table: Table)
  {
    forall n :: n in table ==> |table[n]| > 0
  }

  lemma {:induction false} RegisteredListsNonEmpty(pending: seq<Expr>, table: Table)
    requires NoEmptyLists(table)
    ensures Drain(pending, table).Some? ==> NoEmptyLists(Drain(pending, table).value)
    decreases PendingSize(pending)
  {
    if pending != [] {
      match Classify(pending[0])
      case Requeue(items) =>
        PendingSizeAppend(pending[1..], items);
        RegisteredListsNonEmpty(pending[1..] + items, table);
      case Register(n, x) =>
        RegisteredListsNonEmpty(pending[1..], AddExpression(table, n, x));
      case Reject =>
    }
  }

  // ---------------------------------------------------------------------------
  // The two outcomes on concrete queries.

  /**
   * `//A[condition]/B | //C`: two registrations, `self::node()[condition]/child::B`
   * under A and `self::node()` under C, plus the fallback.
   */
  lemma UnionOfSelectionsExample(condition: Expr)
    ensures var a := PathExpr(FilterExpr(PathExpr(RootExpr, AxisExpr(Descendant, NameTest("A"))), condition),
                              AxisExpr(Child, NameTest("B")));
            var c := PathExpr(RootExpr, AxisExpr(Descendant, NameTest("C")));
            var q := Venn(Union, a, c);
            Analyzed(q, map[]) == map[
              "A" := [PathExpr(FilterExpr(SelfNode, condition), AxisExpr(Child, NameTest("B")))],
              "C" := [SelfNode],
              AST_ROOT := [q]]
            && ChainVisits(q) == {"A", "C"}
  {
    var a := PathExpr(FilterExpr(PathExpr(RootExpr, AxisExpr(Descendant, NameTest("A"))), condition),
                      AxisExpr(Child, NameTest("B")));
    var c := PathExpr(RootExpr, AxisExpr(Descendant, NameTest("C")));
    var q := Venn(Union, a, c);
    var ra := PathExpr(FilterExpr(SelfNode, condition), AxisExpr(Child, NameTest("B")));
    FilteredSelectionRegistered(condition);
    RootedSelectionRegistered();
    assert [q][1..] + [a, c] == [a, c];
    assert [a, c][1..] == [c] && [c][1..] == [];
    assert Drain([q], map[]) == Drain([a, c], map[]);
    assert Drain([a, c], map[]) == Drain([c], map["A" := [ra]]);
    assert Drain([c], map["A" := [ra]]) == Some(map["A" := [ra], "C" := [SelfNode]]);
    AnalysisSucceedsIffDecomposable(q);
  }

  /** `//A[condition]/B` is registered under A as `self::node()[condition]/child::B`. */
  lemma FilteredSelectionRegistered(condition: Expr)
    ensures var a := PathExpr(FilterExpr(PathExpr(RootExpr, AxisExpr(Descendant, NameTest("A"))), condition),
                              AxisExpr(Child, NameTest("B")));
            Classify(a) == Register("A", PathExpr(FilterExpr(SelfNode, condition), AxisExpr(Child, NameTest("B"))))
  {
    var a := PathExpr(FilterExpr(PathExpr(RootExpr, AxisExpr(Descendant, NameTest("A"))), condition),
                      AxisExpr(Child, NameTest("B")));
    assert FirstStep(a) == a.start && RemainingSteps(a) == AxisExpr(Child, NameTest("B"));
    assert PrimitiveItemType(a.start) == ElementType;
  }

  /** `//C` is registered under C as `self::node()`. */
  lemma RootedSelectionRegistered()
    ensures Classify(PathExpr(RootExpr, AxisExpr(Descendant, NameTest("C")))) == Register("C", SelfNode)
  {
  }

  /** `//A intersect //B` is not a union: nothing is registered but the fallback. */
  lemma IntersectionAbortsExample()
    ensures var q := Venn(Intersect, PathExpr(RootExpr, AxisExpr(Descendant, NameTest("A"))),
                                     PathExpr(RootExpr, AxisExpr(Descendant, NameTest("B"))));
            && Analyzed(q, map["X" := [SelfNode]]) == map[AST_ROOT := [q]]
            && ChainVisits(q) == {}
  {
  }
}
