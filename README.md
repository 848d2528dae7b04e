# PMD: XPath rule queries, parametric violations, class naming

A Dafny model of three parts of PMD, the source-code analyser.

**The Saxon-backed XPath rule query** (`SaxonXPathRuleQuery`)
- It compiles a rule's XPath query once. It declares one query variable per rule property, except the property named `xpath`.
- It analyses the compiled query for the *rule chain*: PMD's mechanism for running a query only on nodes of the types it selects.
  - A union of document-rooted type selections such as `//A[...]/B | //C` is split into per-node-name expressions, each rewritten to start at `self::node()`.
  - Any other shape disables the rule chain.
  - Either way, the whole query is registered under the sentinel name `_AST_ROOT_`.
- It evaluates the query on a syntax-tree node. Evaluation fetches the node's document from a process-wide cache of at most 20 documents, binds the property values to the variables, runs the expressions registered for the node's name (or the whole query), and maps the matched elements back to syntax-tree nodes.
- Property values are marshalled into the XPath library's atomic values and sequences. Only some Java types are accepted.

**Parametric rule violations** (`ParametricRuleViolation`)
- A violation stores a message template.
- Each `${name}` placeholder is replaced by the violation's variable, method, class or package name, or by the text of the rule property of that name.
- The constructor rejects a missing rule, message or file name, in that order.

**The class naming-convention rule** (`ClassNamingConventionsRule`)
- It chooses which of six pattern properties a type declaration's name is checked against, with a fixed precedence:
  1. abstract;
  2. utility class;
  3. interface;
  4. class.
- Records use the class pattern. Enums and annotation types each have their own pattern.
- It names a utility class "utility class" in its message.

Modules:
- `Wrappers`: Option and Result.
- `XPathExpr`: the compiled-expression shapes the analysis inspects.
- `RuleChain`: the analysis, as functions, plus a structural reference it is proved against.
- `AtomicValues`: value marshalling.
- `AstDocuments`: syntax-tree nodes, the walk to the root, and the document cache.
- `SaxonQuery`: the query class.
- `RuleViolation`: placeholder expansion and the violation class.
- `ClassNaming`: the naming rule.

## Model

Source paths are relative to the repository root.

| member | source | states |
|---|---|---|
| SaxonQuery.IsSupportedVersion | pmd-core/src/main/java/net/sourceforge/pmd/lang/rule/xpath/SaxonXPathRuleQuery.java:101-104 | Supported exactly for XPath 1.0 compatibility mode and XPath 2.0; unsupported exactly for plain 1.0 and any other version |
| XPathExpr.FirstAndRemainingSteps | pmd-core/src/main/java/net/sourceforge/pmd/lang/rule/xpath/SaxonXPathRuleQuery.java:310-321 | A path's first step followed by its remaining steps is the path's whole step sequence |
| XPathExpr.RemainingAxisStepIsStepExpression | pmd-core/src/main/java/net/sourceforge/pmd/lang/rule/xpath/SaxonXPathRuleQuery.java:329-330 | When the remaining steps are a single axis step, that step is the path's step expression, so the cast on line 330 is safe |
| RuleChain.AddExpression | pmd-core/src/main/java/net/sourceforge/pmd/lang/rule/xpath/SaxonXPathRuleQuery.java:221-226 | Appends the expression to the name's list, creating the list when the name is new; every other list is unchanged |
| RuleChain.Classify | pmd-core/src/main/java/net/sourceforge/pmd/lang/rule/xpath/SaxonXPathRuleQuery.java:296-351 | A union or a sorter re-queues operands that are strictly smaller in total, so the worklist loop ends |
| RuleChain.Analyzed | pmd-core/src/main/java/net/sourceforge/pmd/lang/rule/xpath/SaxonXPathRuleQuery.java:353-369 | After the loop the whole query ends the `_AST_ROOT_` list. After an abort it is the only entry. After a success the keys are the drained table's keys plus `_AST_ROOT_` |
| RuleChain.ExpressionsForNodeOrDefault | pmd-core/src/main/java/net/sourceforge/pmd/lang/rule/xpath/SaxonXPathRuleQuery.java:143-148 | Returns the name's own list if present, else the `_AST_ROOT_` list. Returns null exactly when both are absent |
| RuleChain.RequeuePreservesLeaves | pmd-core/src/main/java/net/sourceforge/pmd/lang/rule/xpath/SaxonXPathRuleQuery.java:296-306 | Re-queued operands carry exactly the decomposability and node names of the expression they replace |
| RuleChain.LeafDecision | pmd-core/src/main/java/net/sourceforge/pmd/lang/rule/xpath/SaxonXPathRuleQuery.java:307-356 | A non-union, non-sorter item is registered exactly when it is a recognised type selection, under its own node name; otherwise the analysis gives up |
| RuleChain.DrainMatchesDecomposition | pmd-core/src/main/java/net/sourceforge/pmd/lang/rule/xpath/SaxonXPathRuleQuery.java:288-357 | The worklist drains exactly when every pending query decomposes. It then adds exactly their node names to the table, whatever order it visits them in |
| RuleChain.AnalysisSucceedsIffDecomposable | pmd-core/src/main/java/net/sourceforge/pmd/lang/rule/xpath/SaxonXPathRuleQuery.java:287-369 | The rule chain stays in use exactly when the query decomposes. The registered names are then the query's leaf names plus `_AST_ROOT_` |
| RuleChain.ChainVisits | pmd-core/src/main/java/net/sourceforge/pmd/lang/rule/xpath/SaxonXPathRuleQuery.java:359-362 | The visited node names are the query's leaf names when it decomposes, and none otherwise |
| RuleChain.DrainRegistersSelfRewrites | pmd-core/src/main/java/net/sourceforge/pmd/lang/rule/xpath/SaxonXPathRuleQuery.java:319-347 | Every registered rewrite starts at `self::node()` |
| RuleChain.LookupAfterAnalysis | pmd-core/src/main/java/net/sourceforge/pmd/lang/rule/xpath/SaxonXPathRuleQuery.java:143-148 | After analysis every lookup yields a non-empty list. After an abort it is the whole query alone. After a success a selected name gets only self-rooted rewrites |
| RuleChain.RegisteredListsNonEmpty | pmd-core/src/main/java/net/sourceforge/pmd/lang/rule/xpath/SaxonXPathRuleQuery.java:221-226 | No registered list is ever empty |
| RuleChain.RecognisedSelections | pmd-core/src/main/java/net/sourceforge/pmd/lang/rule/xpath/SaxonXPathRuleQuery.java:307-350 | The three recognised selections (a filtered rooted step, a path starting with one, a rooted single step) are registered under their step's name as their `self::node()` rewrites, and nothing else is registered |
| RuleChain.AddAllAppendsNamed | pmd-core/src/main/java/net/sourceforge/pmd/lang/rule/xpath/SaxonXPathRuleQuery.java:221-226 | Registering in turn appends to each name's list exactly the rewrites registered under that name, in order |
| RuleChain.DrainIsAddAll | pmd-core/src/main/java/net/sourceforge/pmd/lang/rule/xpath/SaxonXPathRuleQuery.java:288-357 | Draining the worklist gives up exactly when the registration sequence does, and otherwise registers that sequence in order |
| RuleChain.RegistrationsAreLeaves | pmd-core/src/main/java/net/sourceforge/pmd/lang/rule/xpath/SaxonXPathRuleQuery.java:288-357 | The registrations the worklist makes are, as a multiset, exactly those of the pending queries' leaves |
| RuleChain.AnalysisRegistersLeafRewrites | pmd-core/src/main/java/net/sourceforge/pmd/lang/rule/xpath/SaxonXPathRuleQuery.java:284-370 | For a decomposable query, the registrations are exactly its leaves' rewrites, and each name's list is its own rewrites in the order found, with the whole query last under `_AST_ROOT_` |
| RuleChain.UnionOfSelectionsExample | pmd-core/src/main/java/net/sourceforge/pmd/lang/rule/xpath/SaxonXPathRuleQuery.java:296-335 | For `//A[c]/B \| //C`, A gets `self::node()[c]/child::B`, C gets `self::node()`, and the visits are {A, C} |
| RuleChain.IntersectionAbortsExample | pmd-core/src/main/java/net/sourceforge/pmd/lang/rule/xpath/SaxonXPathRuleQuery.java:296-362 | An intersection disables the rule chain: only the fallback is registered and nothing is visited |
| AtomicValues.GetAtomicRepresentation | pmd-core/src/main/java/net/sourceforge/pmd/lang/rule/xpath/SaxonXPathRuleQuery.java:380-411 | Succeeds exactly for null, enum, String, Boolean, Integer, Long, Double, Character, Float and Pattern. Each becomes its atomic value: null becomes the empty untyped atomic, and the textual kinds become strings of their text. Any other type fails |
| AtomicValues.ConvertAll | pmd-core/src/main/java/net/sourceforge/pmd/lang/rule/xpath/SaxonXPathRuleQuery.java:417-420 | A successful conversion keeps the list's length |
| AtomicValues.ConvertAllElementwise | pmd-core/src/main/java/net/sourceforge/pmd/lang/rule/xpath/SaxonXPathRuleQuery.java:417-420 | Conversion succeeds exactly when every element is convertible, and then maps element by element. Otherwise it reports the first bad element |
| AtomicValues.GetSequenceRepresentation | pmd-core/src/main/java/net/sourceforge/pmd/lang/rule/xpath/SaxonXPathRuleQuery.java:413-422 | A null or empty list gives the empty sequence; otherwise the loop gives the element-wise conversion |
| AtomicValues.ConvertAllFailureExtends | pmd-core/src/main/java/net/sourceforge/pmd/lang/rule/xpath/SaxonXPathRuleQuery.java:418-420 | A failure on a prefix is the failure of the whole list, because the loop throws at the first bad element |
| AtomicValues.GetRepresentation | pmd-core/src/main/java/net/sourceforge/pmd/lang/rule/xpath/SaxonXPathRuleQuery.java:177-183 | A multi-valued property gives a sequence as long as its list. A single one gives one atomic value. Success is characterised in both cases, and a non-list multi-valued value fails the cast |
| AstDocuments.RootIsAncestor | pmd-core/src/main/java/net/sourceforge/pmd/lang/rule/xpath/SaxonXPathRuleQuery.java:213-219 | The root is an ancestor-or-self of the node. It is shared with the node's parent, and it is its own root |
| AstDocuments.AncestorsShareRoot | pmd-core/src/main/java/net/sourceforge/pmd/lang/rule/xpath/SaxonXPathRuleQuery.java:213-219 | A node and any of its ancestors have the same root, so they share one cached document |
| AstDocuments.GetRootNode | pmd-core/src/main/java/net/sourceforge/pmd/lang/rule/xpath/SaxonXPathRuleQuery.java:213-219 | The loop returns the node's root: a parentless ancestor-or-self |
| AstDocuments.DocumentNode.ElementFor | pmd-core/src/main/java/net/sourceforge/pmd/lang/rule/xpath/SaxonXPathRuleQuery.java:114 | The element standing for a node wraps that node, so mapping results back yields the matched nodes |
| AstDocuments.Find | pmd-core/src/main/java/net/sourceforge/pmd/lang/rule/xpath/SaxonXPathRuleQuery.java:198 | A cache lookup finds a document exactly when an entry has that root, and returns that entry's document |
| AstDocuments.Put | pmd-core/src/main/java/net/sourceforge/pmd/lang/rule/xpath/SaxonXPathRuleQuery.java:74-82 | An insertion keeps the cache within 20 entries and makes the new entry the newest |
| AstDocuments.PutAllKeepsNewest | pmd-core/src/main/java/net/sourceforge/pmd/lang/rule/xpath/SaxonXPathRuleQuery.java:74-82 | After any run of insertions the cache holds exactly the 20 most recent entries (`Newest`), in insertion order |
| AstDocuments.DocumentCache.GetDocumentNodeForRootNode | pmd-core/src/main/java/net/sourceforge/pmd/lang/rule/xpath/SaxonXPathRuleQuery.java:193-205 | Returns the cached document of the node's root, with the cache unchanged. If there is none, returns a new document for that root and inserts it with eviction |
| SaxonQuery.DeclaredVariablesOnePerProperty | pmd-core/src/main/java/net/sourceforge/pmd/lang/rule/xpath/SaxonXPathRuleQuery.java:254-261 | One variable per property not named `xpath`, and exactly those names |
| SaxonQuery.DeclareVariables | pmd-core/src/main/java/net/sourceforge/pmd/lang/rule/xpath/SaxonXPathRuleQuery.java:254-261 | The declaration loop produces the declared-variable list |
| SaxonQuery.LastNamed | pmd-core/src/main/java/net/sourceforge/pmd/lang/rule/xpath/SaxonXPathRuleQuery.java:166-170 | Finds a property exactly when one has the name; it has that name and no later property does |
| SaxonQuery.BindVariableSpec | pmd-core/src/main/java/net/sourceforge/pmd/lang/rule/xpath/SaxonXPathRuleQuery.java:166-171 | Binding one variable succeeds exactly when every property of that name marshals. It then binds the variable exactly when such a property exists, to the representation of the last one (`LastNamed`), and keeps every other binding |
| SaxonQuery.BindVariablesSpec | pmd-core/src/main/java/net/sourceforge/pmd/lang/rule/xpath/SaxonXPathRuleQuery.java:164-172 | Binding succeeds exactly when every property named after a declared variable marshals. It binds exactly the declared variables some property is named after |
| SaxonQuery.BindVariablesBoundValues | pmd-core/src/main/java/net/sourceforge/pmd/lang/rule/xpath/SaxonXPathRuleQuery.java:164-172 | After a successful binding each declared variable with a property of its name holds the last such property's representation, and bindings of other names are kept |
| SaxonQuery.BindVariableFailureExtends | pmd-core/src/main/java/net/sourceforge/pmd/lang/rule/xpath/SaxonXPathRuleQuery.java:166-170 | The first marshalling failure of the inner loop is the result |
| SaxonQuery.BindVariablesFailureExtends | pmd-core/src/main/java/net/sourceforge/pmd/lang/rule/xpath/SaxonXPathRuleQuery.java:164-172 | The first marshalling failure of the outer loop is the result |
| SaxonQuery.Elements | pmd-core/src/main/java/net/sourceforge/pmd/lang/rule/xpath/SaxonXPathRuleQuery.java:122-126 | The items all cast to elements exactly when each is an element, and then give those elements in order |
| SaxonQuery.MatchesAppend | pmd-core/src/main/java/net/sourceforge/pmd/lang/rule/xpath/SaxonXPathRuleQuery.java:120-127 | Running a list of expressions is running its parts in turn and concatenating their items |
| SaxonQuery.CollectResults | pmd-core/src/main/java/net/sourceforge/pmd/lang/rule/xpath/SaxonXPathRuleQuery.java:118-137 | Fails exactly when some expression's evaluation fails or yields a non-element item (the cast on line 124, `NotAnElement`), with the first such error. Otherwise returns, in order, the node under each matched element |
| SaxonQuery.MatchesFailureExtends | pmd-core/src/main/java/net/sourceforge/pmd/lang/rule/xpath/SaxonXPathRuleQuery.java:120-127 | The first failing expression decides the result |
| SaxonQuery.Underlying | pmd-core/src/main/java/net/sourceforge/pmd/lang/rule/xpath/SaxonXPathRuleQuery.java:133-136 | The result list has one node per element, the one it wraps |
| SaxonQuery.AbortedAnalysisRunsWholeQuery | pmd-core/src/main/java/net/sourceforge/pmd/lang/rule/xpath/SaxonXPathRuleQuery.java:118-127 | Without the rule chain, evaluation on any node runs exactly the whole query, once: its outcome is that of the single expression (`MatchesOne`) |
| SaxonQuery.SaxonXPathRuleQuery.AddExpressionForNode | pmd-core/src/main/java/net/sourceforge/pmd/lang/rule/xpath/SaxonXPathRuleQuery.java:221-226 | The table becomes the appended table |
| SaxonQuery.SaxonXPathRuleQuery.InitializeXPathExpression | pmd-core/src/main/java/net/sourceforge/pmd/lang/rule/xpath/SaxonXPathRuleQuery.java:231-268 | Does nothing once compiled. Otherwise: 1.0 sets compatibility mode, the variables are declared, and the query compiles or the error is thrown; on success the analysis runs |
| SaxonQuery.SaxonXPathRuleQuery.AnalyzeXPathForRuleChain | pmd-core/src/main/java/net/sourceforge/pmd/lang/rule/xpath/SaxonXPathRuleQuery.java:284-370 | The worklist loop leaves the table and the visits that the analysis functions specify |
| SaxonQuery.SaxonXPathRuleQuery.CreateDynamicContext | pmd-core/src/main/java/net/sourceforge/pmd/lang/rule/xpath/SaxonXPathRuleQuery.java:160-174 | The nested loops give the element as context item and the specified bindings, or the first marshalling failure |
| SaxonQuery.SaxonXPathRuleQuery.Evaluate | pmd-core/src/main/java/net/sourceforge/pmd/lang/rule/xpath/SaxonXPathRuleQuery.java:107-141 | A compile failure is thrown with the cache untouched. The query is compiled at most once, and never again once compiled. Otherwise the result is the specified evaluation: a marshalling failure, the "had problem" error, a class-cast failure, or the matched nodes. A cache hit leaves the cache as it was; a miss inserts a fresh document for the node's root, with eviction |
| SaxonQuery.SaxonXPathRuleQuery.Query | pmd-core/src/main/java/net/sourceforge/pmd/lang/rule/xpath/SaxonXPathRuleQuery.java:118-137 | With the query compiled and the document fetched, the result is the specified evaluation |
| SaxonQuery.SaxonXPathRuleQuery.GetRuleChainVisits | pmd-core/src/main/java/net/sourceforge/pmd/lang/rule/xpath/SaxonXPathRuleQuery.java:424-428 | Compiles at most once, keeping the parsed expression. The visits are then the query's leaf names if it decomposes and none otherwise; a compile failure is thrown |
| RuleViolation.VariableValue | pmd-core/src/main/java/net/sourceforge/pmd/lang/rule/ParametricRuleViolation.java:91-104 | The four built-in names resolve to the violation's fields, ahead of any property of that name. Another name resolves to its property's text. Null exactly when neither applies |
| RuleViolation.FindOpenIsFirst | pmd-core/src/main/java/net/sourceforge/pmd/lang/rule/ParametricRuleViolation.java:78 | The search for `${` skips none: there is none between the start and the one found |
| RuleViolation.FindCloseIsFirst | pmd-core/src/main/java/net/sourceforge/pmd/lang/rule/ParametricRuleViolation.java:79 | The search for `}` skips none |
| RuleViolation.PassPreserves | pmd-core/src/main/java/net/sourceforge/pmd/lang/rule/ParametricRuleViolation.java:78-86 | Passing over an unclosed or unresolved placeholder keeps the reference expansion of the whole buffer |
| RuleViolation.ReplacePreserves | pmd-core/src/main/java/net/sourceforge/pmd/lang/rule/ParametricRuleViolation.java:79-85 | Replacing a resolved placeholder in place, then resuming after the value, keeps the reference expansion of the whole buffer |
| RuleViolation.ExpandVariables | pmd-core/src/main/java/net/sourceforge/pmd/lang/rule/ParametricRuleViolation.java:69-89 | The in-place loop returns the reference expansion. A message without `${` comes back unchanged (resume point corrected, see Findings) |
| RuleViolation.AsWrittenMatchesOnPlainValues | pmd-core/src/main/java/net/sourceforge/pmd/lang/rule/ParametricRuleViolation.java:78-87 | When every name resolves to non-empty, `$`-free text, the loop as written ends within the message's length plus one steps and agrees with the corrected expansion |
| RuleViolation.AsWrittenAgrees | pmd-core/src/main/java/net/sourceforge/pmd/lang/rule/ParametricRuleViolation.java:78-87 | With plain values, the loop as written and the corrected scan agree from any resume point with no `$` between them |
| RuleViolation.CorrectedScanIsReference | pmd-core/src/main/java/net/sourceforge/pmd/lang/rule/ParametricRuleViolation.java:78-87 | The corrected scan from any point keeps the text before it and expands the rest by the reference expansion |
| RuleViolation.InsertedPlaceholderExpanded | pmd-core/src/main/java/net/sourceforge/pmd/lang/rule/ParametricRuleViolation.java:78-85 | As written, a property `desc` with text `in ${methodName}` and message `${desc}` gives `in m` for method name `m`; the corrected expansion gives `in ${methodName}` |
| RuleViolation.MoreStepsSameResult | pmd-core/src/main/java/net/sourceforge/pmd/lang/rule/ParametricRuleViolation.java:78-87 | Of `ExpandAsWritten`, the scan as written, which after each placeholder resumes one past the `$` in the edited buffer and yields `None` when its step count runs out: the count only bounds the scan, so once it ends any larger count gives the same text |
| RuleViolation.ResolvedPlaceholderReplaced | pmd-core/src/main/java/net/sourceforge/pmd/lang/rule/ParametricRuleViolation.java:79-85 | A placeholder that resolves is replaced by its value, and expansion continues after it |
| RuleViolation.UnresolvedPlaceholderKept | pmd-core/src/main/java/net/sourceforge/pmd/lang/rule/ParametricRuleViolation.java:82-85 | A placeholder whose name resolves to null stays verbatim |
| RuleViolation.UnclosedPlaceholderKept | pmd-core/src/main/java/net/sourceforge/pmd/lang/rule/ParametricRuleViolation.java:79-80 | A `${` with no `}` after it leaves the rest of the message as it is |
| RuleViolation.EmptyValueSkipsNextPlaceholder | pmd-core/src/main/java/net/sourceforge/pmd/lang/rule/ParametricRuleViolation.java:78-85 | As written, an empty variable name turns `${variableName}${methodName}` into `${methodName}`; the reference expansion gives the method name |
| RuleViolation.EmptyValueSkips | pmd-core/src/main/java/net/sourceforge/pmd/lang/rule/ParametricRuleViolation.java:78-85 | The same for any two `$`-free names, the first resolving to empty text |
| RuleViolation.SelfReferenceNeverEnds | pmd-core/src/main/java/net/sourceforge/pmd/lang/rule/ParametricRuleViolation.java:78-85 | As written, a property `p` with text `x${p}` keeps the scan of `${p}` going beyond any bound; the reference expansion gives `x${p}` |
| RuleViolation.SelfReferenceGrows | pmd-core/src/main/java/net/sourceforge/pmd/lang/rule/ParametricRuleViolation.java:78-85 | After any number of rounds the buffer is one more `x` before `${p}` and the scan is back at it |
| RuleViolation.ParametricRuleViolation.constructor | pmd-core/src/main/java/net/sourceforge/pmd/lang/rule/ParametricRuleViolation.java:47-58 | Stores the rule, message and file name. Copies the node's position, or leaves 0 without a node. The four names start empty |
| RuleViolation.ParametricRuleViolation.GetDescription | pmd-core/src/main/java/net/sourceforge/pmd/lang/rule/ParametricRuleViolation.java:111-114 | The message with its placeholders expanded against this violation's names and rule (corrected expansion, see Findings) |
| RuleViolation.ParametricRuleViolation.SetLines | pmd-core/src/main/java/net/sourceforge/pmd/lang/rule/ParametricRuleViolation.java:161-165 | For 1-based, ordered lines, sets the begin and end line only |
| RuleViolation.FilenameFromContext | pmd-core/src/main/java/net/sourceforge/pmd/lang/rule/ParametricRuleViolation.java:60-67 | The context's source file path, or empty text without a file |
| RuleViolation.NewViolation | pmd-core/src/main/java/net/sourceforge/pmd/lang/rule/ParametricRuleViolation.java:47-58 | A null rule, message or file name is rejected, checked in that order. Otherwise a fresh violation holds them, with the node's position (0 without a node) and empty names (`Initial`) |
| ClassNaming.Declaration | pmd-java/src/main/java/net/sourceforge/pmd/lang/java/rule/codestyle/ClassNamingConventionsRule.java:24-29 | Only the utility-class property has an explicit default. Only the class property has a second display kind |
| ClassNaming.PropertiesDefinedOnce | pmd-java/src/main/java/net/sourceforge/pmd/lang/java/rule/codestyle/ClassNamingConventionsRule.java:32-43 | The constructor defines each of the six properties exactly once, their kind words (hence their names) are pairwise distinct, and all four declaration kinds are visited |
| ClassNaming.DefaultConvention | pmd-java/src/main/java/net/sourceforge/pmd/lang/java/rule/codestyle/ClassNamingConventionsRule.java:81-84 | The default convention is Pascal case |
| ClassNaming.DefaultOf | pmd-java/src/main/java/net/sourceforge/pmd/lang/java/rule/codestyle/ClassNamingConventionsRule.java:24-29 | The utility pattern defaults to `[A-Z][a-zA-Z0-9]+(Utils?\|Helper\|Constants)`; every other property defaults to the default convention |
| ClassNaming.Visit | pmd-java/src/main/java/net/sourceforge/pmd/lang/java/rule/codestyle/ClassNamingConventionsRule.java:45-78 | Every visit returns its data argument unchanged |
| ClassNaming.KindDisplayName | pmd-java/src/main/java/net/sourceforge/pmd/lang/java/rule/codestyle/ClassNamingConventionsRule.java:92-95 | "utility class" for a utility class; the node's own kind name otherwise |
| ClassNaming.FirstPassed | pmd-java/src/main/java/net/sourceforge/pmd/lang/java/rule/codestyle/ClassNamingConventionsRule.java:48-56 | Yields the property of the first table entry whose test passes, if any entry does |
| ClassNaming.ClassOrInterfaceFollowsPrecedence | pmd-java/src/main/java/net/sourceforge/pmd/lang/java/rule/codestyle/ClassNamingConventionsRule.java:46-59 | A class or interface is checked against the first of abstract, utility, interface, class that it qualifies for |
| ClassNaming.AbstractWins | pmd-java/src/main/java/net/sourceforge/pmd/lang/java/rule/codestyle/ClassNamingConventionsRule.java:48-49 | The abstract-class pattern is used exactly for abstract classes and interfaces, utility or not |
| ClassNaming.UtilityBeforeInterface | pmd-java/src/main/java/net/sourceforge/pmd/lang/java/rule/codestyle/ClassNamingConventionsRule.java:50-51 | The utility pattern is used exactly for non-abstract utility classes, interfaces included |
| ClassNaming.InterfaceLast | pmd-java/src/main/java/net/sourceforge/pmd/lang/java/rule/codestyle/ClassNamingConventionsRule.java:52-53 | The interface pattern is used exactly for interfaces that are neither abstract nor utility classes |
| ClassNaming.ClassPatternForTheRest | pmd-java/src/main/java/net/sourceforge/pmd/lang/java/rule/codestyle/ClassNamingConventionsRule.java:45-72 | The class pattern is used exactly for records and for the remaining classes |
| ClassNaming.EnumAndAnnotationPatterns | pmd-java/src/main/java/net/sourceforge/pmd/lang/java/rule/codestyle/ClassNamingConventionsRule.java:62-78 | The enum pattern is used exactly for enums, and the annotation pattern exactly for annotation types |
| ClassNaming.EveryPropertyUsed | pmd-java/src/main/java/net/sourceforge/pmd/lang/java/rule/codestyle/ClassNamingConventionsRule.java:45-78 | Each of the six properties is the one checked for some declaration |
| ClassNaming.UtilityDisplay | pmd-java/src/main/java/net/sourceforge/pmd/lang/java/rule/codestyle/ClassNamingConventionsRule.java:92-95 | A declaration checked against the utility pattern is reported as "utility class". An abstract utility class is reported that way too, though it is checked against the abstract-class pattern |

## Left out

- Parsing and compiling the XPath text is not modelled. The query takes the parser's outcome (`parsed`) as a constructor parameter.
- Running a compiled expression is not modelled. `Evaluate` takes the XPath library's iteration as a function parameter.
- The static-context setup is not modelled: declaring the `fn` namespace and running PMD's XPath function initializer are foreign calls with no effect on the modelled state.
- The fine-level log message on an aborted analysis is left out (logging).
- The `synchronized` block around the document cache is left out. The cache is an explicit object, and concurrent callers are not modelled.
- Double and Float property values are converted without their payload, since floating point is not modelled.
- `XPathExpr.ClarkName` maps the `node()` test to empty text. The name pool's lookup of fingerprint -1 belongs to the XPath library.
- `SaxonQuery.SaxonXPathRuleQuery.GetRuleChainVisits` returns the visited names as a set. The order of the underlying hash-map key set is unspecified.
- `SaxonQuery.SaxonXPathRuleQuery`: `xpath`, `version` and `properties` are fixed when the query is constructed, and `Valid()` relies on this for `xpathVariables == DeclaredVariables(properties)`. In the source they are fields of `AbstractXPathRuleQuery` and may change. The variables are declared from the properties' names at the first compile (line 255), but the properties map is read again on every evaluate (line 166). So a property changed after the first compile is bound with its new value, and a property added after it is never declared and never bound. The model captures neither case.
- The version strings and the superclass's `ruleChainVisits` list belong to `AbstractXPathRuleQuery`, which is not part of this model. Versions are a datatype.
- A `RuntimeException` thrown by the source becomes a `Failure` value: compile errors and unsupported property values.
- `ClassNaming.DefaultOf`: the claim that the five patterns without an explicit default fall back to the default convention comes from how `defaultConvention` is meant to be used. The base class `AbstractNamingConventionRule`, which builds the descriptors (`defaultProp`), their property names and the name matching (`checkMatches`), is not part of this model.
- `ClassNaming.KindDisplayName`: the kind word for non-utility declarations (`PrettyPrintingUtil.kindName`) and the utility-class test (`JavaRuleUtil.isUtilityClass`) are attributes of the declaration. Their code is not part of this model.
- The simple-name extraction (`nameExtractor`) is the declaration's `simpleName` field.
- `RuleViolation.ParametricRuleViolation.SetLines`: the Java `assert` on 1-based, ordered lines becomes a precondition. With assertions disabled the source would store any values.
- The field getters of the violation and its `toString` are left out. They read fields, or format the rule object, which is not modelled.
- Rule property values in a violation are their text, as `String.valueOf` gives it. The rule is a map from property name to that text.
- `createDynamicContext` (line 169) is not modelled as failing in `setVariable`: the variables are declared without a required type and are bound only to atomic values or sequences, so its `XPathException` path does not arise in the model.
- The items of one expression arrive all at once from the library's iteration, so a library failure partway through an expression's items is modelled as a failure before any of its items is cast.
- `RuleViolation.ExpandAsWritten` is bounded by an explicit step count (`fuel`), because the scan as written need not end. A run that uses up its steps yields `None`.
- Line and column numbers are unbounded integers.

## Findings

| source | as written | input that shows it | evidently intended | confidence | as-written member | corrected member |
|---|---|---|---|---|---|---|
| pmd-core/src/main/java/net/sourceforge/pmd/lang/rule/ParametricRuleViolation.java:78-85 | After replacing a placeholder, the next search starts one character after the placeholder's `$`, in the edited buffer | Variable name "" and message `${variableName}${methodName}`: the result is `${methodName}` | Every placeholder of the message is expanded: `m` when the method name is `m` | high (not executed) | RuleViolation.EmptyValueSkipsNextPlaceholder | RuleViolation.ExpandVariables |
| pmd-core/src/main/java/net/sourceforge/pmd/lang/rule/ParametricRuleViolation.java:78-85 | The inserted value is searched again for placeholders | Rule property `p` with text `x${p}` and message `${p}`: the buffer grows without end. The same rescan also changes results that do end: property `desc` with text `in ${methodName}`, message `${desc}` and method name `m` give `in m` (`InsertedPlaceholderExpanded`), where the correction gives `in ${methodName}` | Inserted values are not expanded again, so the result is `x${p}`. When every value is non-empty and `$`-free the correction coincides with the code as written (`AsWrittenMatchesOnPlainValues`) | medium (not executed) | RuleViolation.SelfReferenceNeverEnds | RuleViolation.ExpandVariables |
