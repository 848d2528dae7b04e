/**
 * The naming-convention rule for Java type declarations: which of its six
 * pattern properties a declaration's simple name is checked against, and how
 * the declaration's kind is named in the message. Matching a name against a
 * pattern, and the reporting itself, belong to the rule's base class and are
 * not modelled.
 */
module ClassNaming {
  import opened Wrappers

  /** The four declaration node types the rule visits. */
  datatype DeclarationKind = ClassOrInterface | Enum | Record | AnnotationType

  /**
   * A type declaration as the rule sees it. `isUtilityClass` is what the
   * Java rule utilities decide for the node, and `kindName` the kind word
   * the pretty printer gives it; both are computed outside the rule.
   */
  datatype TypeDeclaration = TypeDeclaration(
    kind: DeclarationKind,
    simpleName: string,
    isAbstract: bool,
    isInterface: bool,
    isUtilityClass: bool,
    kindName: string)

  /** The rule's six pattern properties. */
  datatype PatternProperty =
    | ClassRegex
    | AbstractClassRegex
    | InterfaceRegex
    | EnumerationRegex
    | AnnotationRegex
    | UtilityClassRegex

  /** A naming convention: the base class's Pascal-case pattern, or an explicit regular expression. */
  datatype Convention = PascalCase | Pattern(source: string)

  /**
   * How a pattern property is declared: the kind words it is built from and,
   * for the utility-class property only, an explicit default pattern.
   */
  datatype Declared = Declared(kind: string, displayKind: Option<string>, explicitDefault: Option<string>)

  const UtilityClassDefault: string := "[A-Z][a-zA-Z0-9]+(Utils?|Helper|Constants)"

  /** The declaration of each pattern property. */
  function Declaration(p: PatternProperty): (d: Declared)
    ensures d.explicitDefault.Some? <==> p == UtilityClassRegex
    ensures d.displayKind.Some? <==> p == ClassRegex
  {
    match p
    case ClassRegex => Declared("class", Some("concrete class"), None)
    case AbstractClassRegex => Declared("abstract class", None, None)
    case InterfaceRegex => Declared("interface", None, None)
    case EnumerationRegex => Declared("enum", None, None)
    case AnnotationRegex => Declared("annotation", None, None)
    case UtilityClassRegex => Declared("utility class", None, Some(UtilityClassDefault))
  }

  /** The properties in the order the constructor defines them. */
  const DefinedProperties: seq<PatternProperty> :=
    [ClassRegex, AbstractClassRegex, InterfaceRegex, EnumerationRegex, AnnotationRegex, UtilityClassRegex]

  /** The node types the rule asks to visit. */
  const VisitedKinds: set<DeclarationKind> := {ClassOrInterface, Enum, AnnotationType, Record}

  /**
   * Every pattern property is defined, exactly once, under a kind word no
   * other property is declared with (the property's name is built from it, and
   * defining two properties of one name is an error), and every kind of
   * declaration is visited.
   */
  lemma PropertiesDefinedOnce(p: PatternProperty)
    ensures p in DefinedProperties
    ensures forall i, j :: 0 <= i < j < |DefinedProperties| ==> DefinedProperties[i] != DefinedProperties[j]
    ensures forall q :: Declaration(q).kind == Declaration(p).kind ==> q == p
    ensures forall k: DeclarationKind :: k in VisitedKinds
  {
    var i := match p
      case ClassRegex => 0
      case AbstractClassRegex => 1
      case InterfaceRegex => 2
      case EnumerationRegex => 3
      case AnnotationRegex => 4
      case UtilityClassRegex => 5;
    assert DefinedProperties[i] == p;
    forall k: DeclarationKind ensures k in VisitedKinds {
      match k
      case ClassOrInterface =>
      case Enum =>
      case Record =>
      case AnnotationType =>
    }
  }

  /** `defaultConvention`: names the base class checks against when a property keeps its default. */
  function DefaultConvention(): (c: Convention)
    ensures c.PascalCase?
  {
    PascalCase
  }

  /**
   * The default of a property: its explicit pattern if it has one, the
   * rule's default convention otherwise.
   */
  function DefaultOf(p: PatternProperty): (c: Convention)
    ensures p == UtilityClassRegex ==> c == Pattern(UtilityClassDefault)
    ensures p != UtilityClassRegex ==> c == DefaultConvention()
  {
    match Declaration(p).explicitDefault
    case Some(source) => Pattern(source)
    case None => DefaultConvention()
  }

  /**
   * The four `visit` overloads: the property the declaration's name is checked
   * against, and the visitor's data, handed back as it came.
   */
  function Visit<D>(node: TypeDeclaration, data: D): (r: (PatternProperty, D))
    ensures r.1 == data
  {
    match node.kind
    case ClassOrInterface =>
      if node.isAbstract then (AbstractClassRegex, data)
      else if node.isUtilityClass then (UtilityClassRegex, data)
      else if node.isInterface then (InterfaceRegex, data)
      else (ClassRegex, data)
    case Enum => (EnumerationRegex, data)
    case Record => (ClassRegex, data)
    case AnnotationType => (AnnotationRegex, data)
  }

  /** The property a declaration is checked against. */
  function Checked(node: TypeDeclaration): PatternProperty
  {
    Visit(node, ()).0
  }

  /** `kindDisplayName`: "utility class" for a utility class, the node's own kind word otherwise. */
  function KindDisplayName(node: TypeDeclaration, descriptor: PatternProperty): (r: string)
    ensures node.isUtilityClass ==> r == "utility class"
    ensures !node.isUtilityClass ==> r == node.kindName
  {
    if node.isUtilityClass then "utility class" else node.kindName
  }

  // ---------------------------------------------------------------------------
  // The selection as a precedence table

  /** A test on a class or interface declaration. */
  datatype Test = Abstract | Utility | Interface | Otherwise

  predicate Passes(t: Test, node: TypeDeclaration)
  {
    match t
    case Abstract => node.isAbstract
    case Utility => node.isUtilityClass
    case Interface => node.isInterface
    case Otherwise => true
  }

  /** The tests for a class or interface, strongest first, with the property each selects. */
  const ClassPrecedence: seq<(Test, PatternProperty)> :=
    [(Abstract, AbstractClassRegex), (Utility, UtilityClassRegex), (Interface, InterfaceRegex), (Otherwise, ClassRegex)]

  /** The property of the first entry of `table` whose test the node passes. */
  function FirstPassed(table: seq<(Test, PatternProperty)>, node: TypeDeclaration): (r: Option<PatternProperty>)
    ensures r.Some? <==> exists i :: 0 <= i < |table| && Passes(table[i].0, node)
    ensures r.Some? ==> exists i :: && 0 <= i < |table| && Passes(table[i].0, node) && table[i].1 == r.value
                                    && forall k :: 0 <= k < i ==> !Passes(table[k].0, node)
  {
    if |table| == 0 then None
    else if Passes(table[0].0, node) then Some(table[0].1)
    else
      var rest := FirstPassed(table[1..], node);
      assert forall i :: 1 <= i < |table| ==> table[i] == table[1..][i - 1];
      assert rest.Some? ==> exists i :: && 0 <= i < |table| && Passes(table[i].0, node) && table[i].1 == rest.value
                                       && forall k :: 0 <= k < i ==> !Passes(table[k].0, node) by {
        if rest.Some? {
          var i :| && 0 <= i < |table[1..]| && Passes(table[1..][i].0, node) && table[1..][i].1 == rest.value
                   && forall k :: 0 <= k < i ==> !Passes(table[1..][k].0, node);
          assert Passes(table[i + 1].0, node) && table[i + 1].1 == rest.value;
        }
      }
      rest
  }

  /** A class or interface is checked against the first property of the precedence table it qualifies for. */
  lemma ClassOrInterfaceFollowsPrecedence(node: TypeDeclaration)
    requires node.kind == ClassOrInterface
    ensures FirstPassed(ClassPrecedence, node) == Some(Checked(node))
  {
    var t := ClassPrecedence;
    var t1, t2, t3 := t[1..], t[1..][1..], t[1..][1..][1..];
    assert t3 == [(Otherwise, ClassRegex)];
    assert FirstPassed(t3, node) == Some(ClassRegex);
    assert t2 == [(Interface, InterfaceRegex)] + t3;
    assert FirstPassed(t2, node) == if node.isInterface then Some(InterfaceRegex) else Some(ClassRegex);
    assert t1 == [(Utility, UtilityClassRegex)] + t2;
    assert FirstPassed(t1, node) == if node.isUtilityClass then Some(UtilityClassRegex) else FirstPassed(t2, node);
  }

  // ---------------------------------------------------------------------------
  // What the selection promises

  /** Abstractness wins: an abstract class or interface uses the abstract-class pattern, whatever else holds. */
  lemma AbstractWins(node: TypeDeclaration)
    ensures Checked(node) == AbstractClassRegex <==> node.kind == ClassOrInterface && node.isAbstract
  {
  }

  /** A utility class that is not abstract uses the utility pattern, even if it is an interface. */
  lemma UtilityBeforeInterface(node: TypeDeclaration)
    ensures Checked(node) == UtilityClassRegex <==> node.kind == ClassOrInterface && !node.isAbstract && node.isUtilityClass
  {
  }

  /** Only an interface that is neither abstract nor a utility class uses the interface pattern. */
  lemma InterfaceLast(node: TypeDeclaration)
    ensures Checked(node) == InterfaceRegex
            <==> node.kind == ClassOrInterface && !node.isAbstract && !node.isUtilityClass && node.isInterface
  {
  }

  /** The class pattern covers the remaining classes and every record. */
  lemma ClassPatternForTheRest(node: TypeDeclaration)
    ensures Checked(node) == ClassRegex
            <==> || node.kind == Record
                 || (node.kind == ClassOrInterface && !node.isAbstract && !node.isUtilityClass && !node.isInterface)
  {
  }

  /** Enums and annotation types each have their own pattern, used for nothing else. */
  lemma EnumAndAnnotationPatterns(node: TypeDeclaration)
    ensures Checked(node) == EnumerationRegex <==> node.kind == Enum
    ensures Checked(node) == AnnotationRegex <==> node.kind == AnnotationType
  {
  }

  /** Each of the six properties is the one checked for some declaration. */
  lemma EveryPropertyUsed(p: PatternProperty)
    ensures exists node :: Checked(node) == p
  {
    var base := TypeDeclaration(ClassOrInterface, "Name", false, false, false, "class");
    match p
    case ClassRegex => assert Checked(base) == p;
    case AbstractClassRegex => assert Checked(base.(isAbstract := true)) == p;
    case UtilityClassRegex => assert Checked(base.(isUtilityClass := true)) == p;
    case InterfaceRegex => assert Checked(base.(isInterface := true)) == p;
    case EnumerationRegex => assert Checked(base.(kind := Enum)) == p;
    case AnnotationRegex => assert Checked(base.(kind := AnnotationType)) == p;
  }

  /**
   * A non-abstract class checked against the utility pattern is named "utility
   * class" in the message; an abstract utility class is too, although it is
   * checked against the abstract-class pattern.
   */
  lemma UtilityDisplay(node: TypeDeclaration)
    ensures Checked(node) == UtilityClassRegex ==> KindDisplayName(node, Checked(node)) == "utility class"
    ensures node.kind == ClassOrInterface && node.isAbstract && node.isUtilityClass
            ==> Checked(node) == AbstractClassRegex && KindDisplayName(node, Checked(node)) == "utility class"
  {
  }
}
