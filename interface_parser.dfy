/** `InterfaceGenerator.Parser`: turns the annotated class and its member declarations
    into a `DefaultImplementationClass`. */
module InterfaceParser {
  import opened Maybe
  import opened Seqs
  import opened Symbols
  import opened InterfaceModel

  const FullOutAttributeName: string := "Kehlet.Generators.OutAttribute"
  const FullInAttributeName: string := "Kehlet.Generators.InAttribute"
  const FullExcludeAttributeName: string := "Kehlet.Generators.ExcludeAttribute"

  /** The value of `Accessibility.Internal` in the attribute's own enum. */
  const InternalArgument: int := 1

  /** `isPublic` of `GetClass`: the interface is internal exactly when the attribute's
      first constructor argument is `Accessibility.Internal`. */
  function IsPublic(args: seq<ArgumentValue>): (r: bool)
    ensures !r <==> |args| > 0 && args[0] == IntValue(InternalArgument)
  {
    !(|args| > 0 && args[0].IntValue? && args[0].value == InternalArgument)
  }

  // ----- specification of one loop step of each builder -----

  /** The variance a type parameter gets: none unless variance is allowed; then `Out`
      before `In`. */
  function VarianceOf(tp: TypeParameterSymbol, allowVariance: bool): (v: Variance)
    ensures v == Covariant <==> allowVariance && FullOutAttributeName in tp.attributes
    ensures v == Contravariant <==>
      allowVariance && FullOutAttributeName !in tp.attributes && FullInAttributeName in tp.attributes
  {
    if !allowVariance then Invariant
    else if FullOutAttributeName in tp.attributes then Covariant
    else if FullInAttributeName in tp.attributes then Contravariant
    else Invariant
  }

  function TypeParameterOf(allowVariance: bool): TypeParameterSymbol -> TypeParameter
  {
    (tp: TypeParameterSymbol) => TypeParameter(tp.name, VarianceOf(tp, allowVariance))
  }

  function ParameterOf(p: ParameterDecl): Parameter
  {
    Parameter(p.text, p.hasExplicitDefaultValue, p.defaultClause)
  }

  predicate IsPublicAccessor(a: Option<AccessorSymbol>)
  {
    a.Some? && a.value.accessibility == Public
  }

  /** The accessor list of a property: `get;` for a public getter, then `init;` or `set;`
      for a public setter. */
  function AccessorsOf(getMethod: Option<AccessorSymbol>, setMethod: Option<AccessorSymbol>): seq<string>
  {
    (if IsPublicAccessor(getMethod) then ["get;"] else [])
    + (if IsPublicAccessor(setMethod) then [if setMethod.value.isInitOnly then "init;" else "set;"] else [])
  }

  /** Whether a declaration is kept: it has a symbol, the symbol is public and carries no
      `Exclude` attribute, and it is a property (indexers included) or an ordinary method. */
  predicate IsKept(d: Option<DeclaredSymbol>)
  {
    && d.Some?
    && d.value.accessibility == Public
    && FullExcludeAttributeName !in d.value.attributes
    && (d.value.PropertyDecl? || (d.value.MethodDecl? && d.value.kind == Ordinary))
  }

  /** The member one declaration contributes, if any. */
  function ToMember(d: Option<DeclaredSymbol>): (r: Option<Member>)
    ensures r.Some? <==> IsKept(d)
    ensures r.Some? ==> r.value.kind != Undefined && r.value.name == d.value.name
    ensures r.Some? ==> (r.value.kind == Indexer <==> d.value.PropertyDecl? && d.value.isIndexer)
    ensures r.Some? ==> (r.value.kind == Method <==> d.value.MethodDecl?)
  {
    if d.None? || d.value.accessibility != Public then None
    else if FullExcludeAttributeName in d.value.attributes then None
    else match d.value
      case PropertyDecl(_, _, name, isIndexer, byRef, byRefReadonly, typeDisplay, parameters, getter, setter, docs) =>
        Some(Member(
          returnsByRef := byRef,
          returnsByRefReadonly := byRefReadonly,
          returnType := typeDisplay,
          name := name,
          typeParameters := [],
          parameters := Map(ParameterOf, parameters),
          accessors := AccessorsOf(getter, setter),
          docs := docs,
          kind := if isIndexer then Indexer else Property))
      case MethodDecl(_, _, name, kind, byRef, byRefReadonly, typeDisplay, typeParameters, parameters, docs) =>
        if kind != Ordinary then None
        else Some(Member(
          returnsByRef := byRef,
          returnsByRefReadonly := byRefReadonly,
          returnType := typeDisplay,
          name := name,
          typeParameters := Map(TypeParameterOf(false), typeParameters),
          parameters := Map(ParameterOf, parameters),
          accessors := [],
          docs := docs,
          kind := Method))
      case OtherDecl(_, _) => None
  }

  /** The members `GetPublicMembers` returns. */
  function PublicMembers(decls: seq<Option<DeclaredSymbol>>): seq<Member>
  {
    FilterMap(ToMember, decls)
  }

  // ----- the parser's loops -----

  /** `GetTypeParameters`: one entry per type parameter, names kept, variance from the
      `Out` / `In` attributes only when allowed. */
  method GetTypeParameters(typeParameters: seq<TypeParameterSymbol>, allowVariance: bool)
    returns (result: seq<TypeParameter>)
    ensures |result| == |typeParameters|
    ensures forall i :: 0 <= i < |typeParameters| ==>
      result[i].name == typeParameters[i].name && result[i].variance == VarianceOf(typeParameters[i], allowVariance)
    ensures result == Map(TypeParameterOf(allowVariance), typeParameters)
  {
    if |typeParameters| == 0 {
      return [];
    }
    result := [];
    for i := 0 to |typeParameters|
      invariant |result| == i
      invariant forall k :: 0 <= k < i ==>
        result[k].name == typeParameters[k].name && result[k].variance == VarianceOf(typeParameters[k], allowVariance)
    {
      var typeParameter := typeParameters[i];
      if !allowVariance {
        result := result + [TypeParameter(typeParameter.name, Invariant)];
        continue;
      }
      var covariant := FullOutAttributeName in typeParameter.attributes;
      if covariant {
        result := result + [TypeParameter(typeParameter.name, Covariant)];
        continue;
      }
      var contravariant := FullInAttributeName in typeParameter.attributes;
      if contravariant {
        result := result + [TypeParameter(typeParameter.name, Contravariant)];
        continue;
      }
      result := result + [TypeParameter(typeParameter.name, Invariant)];
    }
  }

  /** `GetParameters`: one `Parameter` per parameter, in order. */
  method GetParameters(parameters: seq<ParameterDecl>) returns (result: seq<Parameter>)
    ensures |result| == |parameters|
    ensures forall i :: 0 <= i < |parameters| ==>
      result[i].declaration == parameters[i].text
      && result[i].hasDefaultValue == parameters[i].hasExplicitDefaultValue
      && result[i].defaultValue == parameters[i].defaultClause
    ensures result == Map(ParameterOf, parameters)
  {
    if |parameters| == 0 {
      return [];
    }
    result := [];
    for i := 0 to |parameters|
      invariant |result| == i
      invariant forall k :: 0 <= k < i ==> result[k] == ParameterOf(parameters[k])
    {
      var parameter := parameters[i];
      var defaultValue: Option<string> := None;
      if parameter.defaultClause.Some? {
        defaultValue := parameter.defaultClause;
      }
      result := result + [Parameter(parameter.text, parameter.hasExplicitDefaultValue, defaultValue)];
    }
  }

  /** `GetAccessors`: at most two entries, `get;` first, then `init;` or `set;`. */
  method GetAccessors(getMethod: Option<AccessorSymbol>, setMethod: Option<AccessorSymbol>)
    returns (accessors: seq<string>)
    ensures |accessors| <= 2
    ensures "get;" in accessors <==> IsPublicAccessor(getMethod)
    ensures "set;" in accessors <==> IsPublicAccessor(setMethod) && !setMethod.value.isInitOnly
    ensures "init;" in accessors <==> IsPublicAccessor(setMethod) && setMethod.value.isInitOnly
    ensures "get;" in accessors && |accessors| == 2 ==> accessors[0] == "get;"
    ensures accessors == AccessorsOf(getMethod, setMethod)
  {
    accessors := [];
    if getMethod.Some? && getMethod.value.accessibility == Public {
      accessors := accessors + ["get;"];
    }
    if setMethod.Some? && setMethod.value.accessibility == Public {
      accessors := accessors + [if setMethod.value.isInitOnly then "init;" else "set;"];
    }
  }

  /** `GetPublicMembers`: walks the declarations in order and keeps those `IsKept` admits. */
  method GetPublicMembers(decls: seq<Option<DeclaredSymbol>>) returns (members: seq<Member>)
    ensures members == PublicMembers(decls)
  {
    if |decls| == 0 {
      return [];
    }
    members := [];
    for i := 0 to |decls|
      invariant members == FilterMap(ToMember, decls[..i])
    {
      FilterMapSnoc(ToMember, decls, i);
      var memberSymbol := decls[i];
      if memberSymbol.None? || memberSymbol.value.accessibility != Public {
        continue;
      }
      if FullExcludeAttributeName in memberSymbol.value.attributes {
        continue;
      }
      match memberSymbol.value {
        case PropertyDecl(_, _, name, isIndexer, byRef, byRefReadonly, typeDisplay, parameters, getter, setter, docs) =>
          var ps := GetParameters(parameters);
          var accessors := GetAccessors(getter, setter);
          members := members + [Member(
            returnsByRef := byRef,
            returnsByRefReadonly := byRefReadonly,
            returnType := typeDisplay,
            name := name,
            typeParameters := [],
            parameters := ps,
            accessors := accessors,
            docs := docs,
            kind := if isIndexer then Indexer else Property)];
        case MethodDecl(_, _, name, kind, byRef, byRefReadonly, typeDisplay, typeParameters, parameters, docs) =>
          if kind == Ordinary {
            var tps := GetTypeParameters(typeParameters, false);
            var ps := GetParameters(parameters);
            members := members + [Member(
              returnsByRef := byRef,
              returnsByRefReadonly := byRefReadonly,
              returnType := typeDisplay,
              name := name,
              typeParameters := tps,
              parameters := ps,
              accessors := [],
              docs := docs,
              kind := Method)];
          }
        case OtherDecl(_, _) =>
      }
    }
    assert decls[..|decls|] == decls;
  }

  /** `GetClass`: the class model, with variance allowed on the class's own type parameters. */
  method GetClass(attributeArguments: seq<ArgumentValue>, symbol: ClassSymbol, decls: seq<Option<DeclaredSymbol>>)
    returns (c: DefaultImplementationClass)
    ensures c.ns == symbol.containingNamespace && c.name == symbol.name
    ensures c.accessibility == symbol.accessibility && c.kind == symbol.kind && c.docs == symbol.docs
    ensures c.isPublic == IsPublic(attributeArguments)
    ensures c.typeParameters == Map(TypeParameterOf(true), symbol.typeParameters)
    ensures c.members == PublicMembers(decls)
  {
    var typeParameters := GetTypeParameters(symbol.typeParameters, true);
    var members := GetPublicMembers(decls);
    c := DefaultImplementationClass(
      ns := symbol.containingNamespace,
      accessibility := symbol.accessibility,
      kind := symbol.kind,
      isPublic := IsPublic(attributeArguments),
      name := symbol.name,
      typeParameters := typeParameters,
      members := members,
      docs := symbol.docs);
  }

  // ----- properties of the member filter -----

  /** A member is in the result exactly when some declaration is kept and becomes it. */
  lemma PublicMembersMember(decls: seq<Option<DeclaredSymbol>>, m: Member)
    ensures m in PublicMembers(decls) <==> exists i :: 0 <= i < |decls| && ToMember(decls[i]) == Some(m)
  {
    FilterMapMember(ToMember, decls, m);
  }

  /** Kept members appear in declaration order: the k-th result comes from the k-th kept
      declaration, and every kept declaration is among them. */
  lemma PublicMembersOrder(decls: seq<Option<DeclaredSymbol>>)
    ensures |Kept(ToMember, decls)| == |PublicMembers(decls)|
    ensures forall k :: 0 <= k < |PublicMembers(decls)| ==>
      IsKept(decls[Kept(ToMember, decls)[k]]) && ToMember(decls[Kept(ToMember, decls)[k]]) == Some(PublicMembers(decls)[k])
    ensures forall i :: 0 <= i < |decls| && IsKept(decls[i]) ==> i in Kept(ToMember, decls)
  {
    FilterMapKept(ToMember, decls);
  }

  /** Declarations that are not kept (null symbols, non-public or excluded members, other
      member kinds) can be removed without changing the result. */
  lemma {:induction false} DroppedDeclarationsIrrelevant(a: seq<Option<DeclaredSymbol>>, d: Option<DeclaredSymbol>, b: seq<Option<DeclaredSymbol>>)
    requires !IsKept(d)
    ensures PublicMembers(a + [d] + b) == PublicMembers(a + b)
  {
    assert ToMember(d) == None;
    assert FilterMap(ToMember, [d]) == [] by {
      assert [d][..0] == [];
    }
    FilterMapAppend(ToMember, a + [d], b);
    FilterMapAppend(ToMember, a, [d]);
    FilterMapAppend(ToMember, a, b);
  }

  /** No member the parser builds has the default member type. */
  lemma PublicMembersHaveKind(decls: seq<Option<DeclaredSymbol>>)
    ensures forall m :: m in PublicMembers(decls) ==> m.kind != Undefined
  {
    forall m | m in PublicMembers(decls)
      ensures m.kind != Undefined
    {
      PublicMembersMember(decls, m);
    }
  }
}
