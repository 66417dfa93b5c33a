/** Plain records standing in for what the compiler's symbol API hands the generators.
    Every field is the result of a foreign call (`DeclaredAccessibility`, `GetAttributes`,
    `ToDisplayString`, ...), taken as given. */
module Symbols {
  import opened Maybe

  /** `Microsoft.CodeAnalysis.Accessibility`. */
  datatype Accessibility =
    | NotApplicable | Private | ProtectedAndInternal | Protected
    | Internal | ProtectedOrInternal | Public

  /** `Microsoft.CodeAnalysis.TypeKind` (`TypeParameterKind` is its `TypeParameter`). */
  datatype TypeKind =
    | Unknown | Array | Class | Delegate | Dynamic | Enum | Error | Interface
    | Module | PtrType | Struct | TypeParameterKind | Submission | FunctionPtrType

  /** `Microsoft.CodeAnalysis.MethodKind`. */
  datatype MethodKind =
    | AnonymousFunction | Constructor | Conversion | DelegateInvoke | Destructor
    | EventAdd | EventRaise | EventRemove | ExplicitInterfaceImplementation
    | UserDefinedOperator | Ordinary | PropertyGet | PropertySet | ReducedExtension
    | StaticConstructor | BuiltinOperator | DeclareMethod | LocalFunction
    | FunctionPtrSignature

  /** A type symbol. `Named` is one the compiler hands over: its `Name`, its containing
      namespace (`None` for the global namespace or none at all) and its minimally
      qualified display string. `Constructed` is what `definition.Construct(argument)`
      returns for a generic definition with one type parameter. Two symbols are the same
      symbol exactly when the values are equal. */
  datatype TypeSymbol =
    | Named(name: string, ns: Option<string>, display: string)
    | Constructed(definition: TypeSymbol, argument: TypeSymbol)

  /** `ISymbol.Name`. */
  function NameOf(t: TypeSymbol): string
  {
    match t
    case Named(name, _, _) => name
    case Constructed(definition, _) => NameOf(definition)
  }

  /** `GetNamespace()`: the containing namespace, null for the global namespace. */
  function GetNamespace(t: TypeSymbol): Option<string>
  {
    match t
    case Named(_, ns, _) => ns
    case Constructed(definition, _) => GetNamespace(definition)
  }

  /** `ToUnqualifiedName()`: the minimally qualified display string. */
  function ToUnqualifiedName(t: TypeSymbol): string
  {
    match t
    case Named(_, _, display) => display
    case Constructed(definition, argument) => NameOf(definition) + "<" + ToUnqualifiedName(argument) + ">"
  }

  /** A parameter of a member of the source type: `Name`, `Type`, and its
      `ToUnqualifiedName()` (type, name and default value as declared). */
  datatype ParameterSymbol = ParameterSymbol(name: string, paramType: TypeSymbol, display: string)

  function ParameterDisplay(p: ParameterSymbol): string { p.display }

  function ParameterName(p: ParameterSymbol): string { p.name }

  function ParameterNamespace(p: ParameterSymbol): Option<string> { GetNamespace(p.paramType) }

  /** An `IMethodSymbol` among the members of the source type. */
  datatype MethodSymbol = MethodSymbol(
    name: string,
    accessibility: Accessibility,
    kind: MethodKind,
    isStatic: bool,
    returnsVoid: bool,
    returnType: TypeSymbol,
    parameters: seq<ParameterSymbol>)

  /** One entry of `GetMembers()`: a method, or any other symbol (field, property,
      event, nested type), of which only staticness and accessibility are read. */
  datatype MemberSymbol =
    | MethodMember(symbol: MethodSymbol)
    | OtherMember(name: string, accessibility: Accessibility, isStatic: bool)
  {
    /** `ISymbol.IsStatic`. */
    predicate IsStatic()
    {
      match this
      case MethodMember(m) => m.isStatic
      case OtherMember(_, _, isStatic) => isStatic
    }

    /** `ISymbol.DeclaredAccessibility`. */
    function DeclaredAccessibility(): Accessibility
    {
      match this
      case MethodMember(m) => m.accessibility
      case OtherMember(_, accessibility, _) => accessibility
    }

    /** `member as IMethodSymbol`. */
    function AsMethod(): Option<MethodSymbol>
    {
      match this
      case MethodMember(m) => Some(m)
      case OtherMember(_, _, _) => None
    }
  }

  /** The type named in a `FromInstanceMembers` / `FromStaticMembers` attribute:
      the symbol itself and `GetMembers()`. */
  datatype SourceType = SourceType(symbol: TypeSymbol, members: seq<MemberSymbol>)

  /** The three constructor arguments of a `FromInstanceMembers` / `FromStaticMembers`
      attribute: the source type, whether the interface gets a default implementation,
      and the optional void type. */
  datatype MembersAttribute = MembersAttribute(targetType: SourceType, implement: bool, voidType: Option<TypeSymbol>)

  /** A value of an attribute constructor argument (`TypedConstant.Value`): a boxed
      `int` (what an enum argument reads as), or anything else. */
  datatype ArgumentValue = IntValue(value: int) | OtherValue

  /** An accessor of a property (`GetMethod` / `SetMethod`). */
  datatype AccessorSymbol = AccessorSymbol(accessibility: Accessibility, isInitOnly: bool)

  /** A parameter as the default-implementation parser sees it: its `ToString()`,
      `HasExplicitDefaultValue`, and the text of the default clause of its first
      declaring syntax (`None` without declaring syntax or without a default clause). */
  datatype ParameterDecl = ParameterDecl(text: string, hasExplicitDefaultValue: bool, defaultClause: Option<string>)

  /** A type parameter: its name and the full names of its attributes' classes. */
  datatype TypeParameterSymbol = TypeParameterSymbol(name: string, attributes: seq<string>)

  /** What `GetDeclaredSymbol` returns for one member declaration of the annotated type.
      `attributes` are the full names of the attributes' classes, `typeDisplay` is
      `Type.ToDisplayString()` (`ReturnType.ToDisplayString()` for a method), `docs` is
      `GetDocumentationCommentXml()`. */
  datatype DeclaredSymbol =
    | PropertyDecl(
        accessibility: Accessibility,
        attributes: seq<string>,
        name: string,
        isIndexer: bool,
        returnsByRef: bool,
        returnsByRefReadonly: bool,
        typeDisplay: string,
        parameters: seq<ParameterDecl>,
        getMethod: Option<AccessorSymbol>,
        setMethod: Option<AccessorSymbol>,
        docs: Option<string>)
    | MethodDecl(
        accessibility: Accessibility,
        attributes: seq<string>,
        name: string,
        kind: MethodKind,
        returnsByRef: bool,
        returnsByRefReadonly: bool,
        typeDisplay: string,
        typeParameters: seq<TypeParameterSymbol>,
        parameters: seq<ParameterDecl>,
        docs: Option<string>)
    | OtherDecl(accessibility: Accessibility, attributes: seq<string>)

  /** The annotated class or struct: `ContainingNamespace.ToString()`, and its own symbol's
      name, accessibility, kind, type parameters and documentation. */
  datatype ClassSymbol = ClassSymbol(
    containingNamespace: string,
    name: string,
    accessibility: Accessibility,
    kind: TypeKind,
    typeParameters: seq<TypeParameterSymbol>,
    docs: Option<string>)
}
