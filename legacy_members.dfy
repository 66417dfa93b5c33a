/** What the two older top-level generators, `FromInstanceMembersGenerator` and
    `FromStaticMembersGenerator`, share: their private records, their `Transform` (the
    same query with the opposite staticness test) and their method bodies (the same text
    with a different receiver). Unlike the `FromMembers` pipeline they know nothing of
    tasks: a void method always gets a block body when implemented. */
module LegacyMembers {
  import opened Maybe
  import opened Seqs
  import opened Text
  import opened Symbols
  import opened FromMembersModels
  import opened Imports
  import opened FromMembersEmitter

  /** The private `Method` record: `HasCustomVoidType` replaces the return-type handling. */
  datatype LegacyMethod = LegacyMethod(
    name: string,
    returnType: string,
    hasCustomVoidType: bool,
    parameters: seq<string>,
    arguments: seq<string>)

  /** The private `Target` record. */
  datatype Target = Target(
    partialType: PartialType,
    sourceTypeName: string,
    implement: bool,
    methods: seq<LegacyMethod>,
    imports: seq<string>)

  /** The `where` clause: a public ordinary method whose staticness is the one asked for. */
  predicate Selected(staticMembers: bool, member: MemberSymbol)
  {
    member.IsStatic() == staticMembers && member.DeclaredAccessibility() == Public
    && member.MethodMember? && member.symbol.kind == Ordinary
  }

  /** The switch on `(voidType, ReturnsVoid)`: the void type's name for a void method when
      there is one, the method's own return type otherwise. */
  function ReturnTypeName(voidType: Option<TypeSymbol>, m: MethodSymbol): (r: string)
    ensures voidType.Some? && m.returnsVoid ==> r == NameOf(voidType.value)
    ensures voidType.None? || !m.returnsVoid ==> r == ToUnqualifiedName(m.returnType)
  {
    match voidType
    case Some(t) => if m.returnsVoid then NameOf(t) else ToUnqualifiedName(m.returnType)
    case None => ToUnqualifiedName(m.returnType)
  }

  /** One row of the query: the namespaces the method mentions and the method record. */
  datatype Entry = Entry(namespaces: seq<Option<string>>, forwarded: LegacyMethod)

  /** The `let` and `select` clauses for one selected method. The namespaces are those of
      the method's own return type and parameter types. */
  function EntryOf(voidType: Option<TypeSymbol>, m: MethodSymbol): (e: Entry)
    ensures e.forwarded.name == m.name
    ensures e.forwarded.returnType == ReturnTypeName(voidType, m)
    ensures e.forwarded.hasCustomVoidType == m.returnsVoid
    ensures |e.forwarded.parameters| == |e.forwarded.arguments| == |m.parameters|
    ensures forall i :: 0 <= i < |m.parameters| ==>
      e.forwarded.parameters[i] == m.parameters[i].display && e.forwarded.arguments[i] == m.parameters[i].name
    ensures |e.namespaces| == |m.parameters| + 1
    ensures e.namespaces[0] == GetNamespace(m.returnType)
    ensures forall i :: 0 <= i < |m.parameters| ==> e.namespaces[i + 1] == GetNamespace(m.parameters[i].paramType)
  {
    Entry(
      [GetNamespace(m.returnType)] + Map(ParameterNamespace, m.parameters),
      LegacyMethod(m.name, ReturnTypeName(voidType, m), m.returnsVoid, Map(ParameterDisplay, m.parameters), Map(ParameterName, m.parameters)))
  }

  /** The query body for one member of the source type. */
  function MemberEntry(staticMembers: bool, voidType: Option<TypeSymbol>): MemberSymbol -> Option<Entry>
  {
    (member: MemberSymbol) => if Selected(staticMembers, member) then Some(EntryOf(voidType, member.symbol)) else None
  }

  /** `members`: the query over `GetMembers()`, in member order. */
  function Entries(attribute: MembersAttribute, staticMembers: bool): seq<Entry>
  {
    FilterMap(MemberEntry(staticMembers, attribute.voidType), attribute.targetType.members)
  }

  function EntryMethod(e: Entry): LegacyMethod { e.forwarded }

  function EntryNamespaces(e: Entry): seq<Option<string>> { e.namespaces }

  /** `Transform`, for instance members (`staticMembers` false) or static ones. */
  function Transform(attribute: MembersAttribute, target: TypeSymbol, staticMembers: bool): (t: Target)
    ensures t.partialType == PartialType(NameOf(target), GetNamespace(target))
    ensures t.sourceTypeName == ToUnqualifiedName(attribute.targetType.symbol)
    ensures t.implement == attribute.implement
    ensures |t.methods| <= |attribute.targetType.members|
    ensures NoDuplicates(t.imports)
  {
    var entries := Entries(attribute, staticMembers);
    Target(
      PartialType(NameOf(target), GetNamespace(target)),
      ToUnqualifiedName(attribute.targetType.symbol),
      attribute.implement,
      Map(EntryMethod, entries),
      CollectImports(Map(EntryNamespaces, entries), GetNamespace(attribute.targetType.symbol), VoidNamespace(attribute.voidType)))
  }

  /** A method is generated exactly when some selected member of the source type yields it. */
  lemma TransformMethodMember(attribute: MembersAttribute, target: TypeSymbol, staticMembers: bool, m: LegacyMethod)
    ensures var members := attribute.targetType.members;
      m in Transform(attribute, target, staticMembers).methods <==>
      exists i :: 0 <= i < |members| && Selected(staticMembers, members[i]) && EntryOf(attribute.voidType, members[i].symbol).forwarded == m
  {
    var members := attribute.targetType.members;
    var f := MemberEntry(staticMembers, attribute.voidType);
    FilterMapThenMapMember(f, EntryMethod, members, m);
    if m in Transform(attribute, target, staticMembers).methods {
      var i :| 0 <= i < |members| && f(members[i]).Some? && EntryMethod(f(members[i]).value) == m;
      assert Selected(staticMembers, members[i]) && EntryOf(attribute.voidType, members[i].symbol).forwarded == m;
    }
    if exists i :: 0 <= i < |members| && Selected(staticMembers, members[i]) && EntryOf(attribute.voidType, members[i].symbol).forwarded == m {
      var i :| 0 <= i < |members| && Selected(staticMembers, members[i]) && EntryOf(attribute.voidType, members[i].symbol).forwarded == m;
      assert f(members[i]).Some? && EntryMethod(f(members[i]).value) == m;
    }
  }

  /** The indices, in `GetMembers()`, of the members that become methods: increasing, and
      containing every selected member. */
  function SelectedIndices(attribute: MembersAttribute, staticMembers: bool): (idx: seq<nat>)
    ensures forall j, k :: 0 <= j < k < |idx| ==> idx[j] < idx[k]
    ensures forall i :: 0 <= i < |attribute.targetType.members| && Selected(staticMembers, attribute.targetType.members[i]) ==> i in idx
  {
    Kept(MemberEntry(staticMembers, attribute.voidType), attribute.targetType.members)
  }

  /** The k-th method comes from the k-th selected member of the source type. */
  lemma TransformOrder(attribute: MembersAttribute, target: TypeSymbol, staticMembers: bool)
    ensures |SelectedIndices(attribute, staticMembers)| == |Transform(attribute, target, staticMembers).methods|
    ensures forall k :: 0 <= k < |SelectedIndices(attribute, staticMembers)| ==>
      var member := attribute.targetType.members[SelectedIndices(attribute, staticMembers)[k]];
      Selected(staticMembers, member) && Transform(attribute, target, staticMembers).methods[k] == EntryOf(attribute.voidType, member.symbol).forwarded
  {
    FilterMapThenMapKept(MemberEntry(staticMembers, attribute.voidType), EntryMethod, attribute.targetType.members);
  }

  /** Some entry mentions a namespace exactly when some selected member's entry does. */
  lemma EntriesMention(attribute: MembersAttribute, staticMembers: bool, x: string)
    ensures var members := attribute.targetType.members;
      var perMember := Map(EntryNamespaces, Entries(attribute, staticMembers));
      (exists k :: 0 <= k < |perMember| && Some(x) in perMember[k]) <==>
      exists i :: 0 <= i < |members| && Selected(staticMembers, members[i])
        && Some(x) in EntryOf(attribute.voidType, members[i].symbol).namespaces
  {
    var members := attribute.targetType.members;
    var f := MemberEntry(staticMembers, attribute.voidType);
    var perMember := Map(EntryNamespaces, Entries(attribute, staticMembers));
    FilterMapThenMapContains(f, EntryNamespaces, members, Some(x));
    if exists k :: 0 <= k < |perMember| && Some(x) in perMember[k] {
      var i :| 0 <= i < |members| && f(members[i]).Some? && Some(x) in EntryNamespaces(f(members[i]).value);
      assert Selected(staticMembers, members[i]) && Some(x) in EntryOf(attribute.voidType, members[i].symbol).namespaces;
    }
    if exists i :: 0 <= i < |members| && Selected(staticMembers, members[i])
         && Some(x) in EntryOf(attribute.voidType, members[i].symbol).namespaces {
      var i :| 0 <= i < |members| && Selected(staticMembers, members[i])
        && Some(x) in EntryOf(attribute.voidType, members[i].symbol).namespaces;
      assert f(members[i]).Some? && Some(x) in EntryNamespaces(f(members[i]).value);
    }
  }

  /** A namespace is imported exactly when it is the source type's, the void type's, or
      that of the declared return type or of a parameter type of a selected method. */
  lemma TransformImportsMember(attribute: MembersAttribute, target: TypeSymbol, staticMembers: bool, x: string)
    ensures var members := attribute.targetType.members;
      x in Transform(attribute, target, staticMembers).imports <==>
        || GetNamespace(attribute.targetType.symbol) == Some(x)
        || VoidNamespace(attribute.voidType) == Some(x)
        || exists i :: 0 <= i < |members| && Selected(staticMembers, members[i])
             && Some(x) in EntryOf(attribute.voidType, members[i].symbol).namespaces
  {
    var perMember := Map(EntryNamespaces, Entries(attribute, staticMembers));
    assert Transform(attribute, target, staticMembers).imports == CollectImports(perMember, GetNamespace(attribute.targetType.symbol), VoidNamespace(attribute.voidType));
    CollectImportsMember(perMember, GetNamespace(attribute.targetType.symbol), VoidNamespace(attribute.voidType), x);
    EntriesMention(attribute, staticMembers, x);
  }

  /** Every generated method forwards as many arguments as it declares parameters. */
  lemma TransformMethodsWellFormed(attribute: MembersAttribute, target: TypeSymbol, staticMembers: bool)
    ensures forall m <- Transform(attribute, target, staticMembers).methods :: |m.parameters| == |m.arguments|
  {
    forall m <- Transform(attribute, target, staticMembers).methods
      ensures |m.parameters| == |m.arguments|
    {
      TransformMethodMember(attribute, target, staticMembers, m);
    }
  }

  /** `EmitBody`: `;` without an implementation, a block returning `default` for a method
      with a custom void type, an expression body otherwise. */
  function EmitBody(implement: bool, m: LegacyMethod, args: string, receiver: string): (body: string)
    ensures !implement ==> body == ";"
    ensures implement && m.hasCustomVoidType ==> body == BlockBody(MethodCall(receiver, m.name, args))
    ensures implement && !m.hasCustomVoidType ==> body == ExpressionBody(MethodCall(receiver, m.name, args))
    ensures implement ==> Contains(body, MethodCall(receiver, m.name, args))
  {
    if !implement then ";"
    else
      var call := MethodCall(receiver, m.name, args);
      if m.hasCustomVoidType then BlockBody(call) else ExpressionBody(call)
  }

  /** The declaration part of an emitted member. */
  function Declaration(m: LegacyMethod): string
  {
    m.returnType + " " + m.name + "(" + Join(", ", m.parameters) + ")"
  }

  /** The `select` of `Execute`'s query: the declaration followed by the body. */
  function MemberText(implement: bool, m: LegacyMethod, receiver: string): (text: string)
    ensures Declaration(m) <= text
    ensures !implement ==> text == Declaration(m) + ";"
    ensures implement ==> Contains(text, MethodCall(receiver, m.name, Join(", ", m.arguments)))
    ensures text == Declaration(m) + EmitBody(implement, m, Join(", ", m.arguments), receiver)
    ensures implement && m.hasCustomVoidType ==> EndsWith(text, BlockTail)
    ensures implement && !m.hasCustomVoidType ==>
      EndsWith(text, ExpressionBody(MethodCall(receiver, m.name, Join(", ", m.arguments))))
  {
    var body := EmitBody(implement, m, Join(", ", m.arguments), receiver);
    assert implement && m.hasCustomVoidType ==> EndsWith(Declaration(m) + body, BlockTail) by {
      if implement && m.hasCustomVoidType {
        EndsWithAfter(Declaration(m), body, BlockTail);
      }
    }
    assert implement && !m.hasCustomVoidType ==> EndsWith(Declaration(m) + body, body) by {
      EndsWithAfter(Declaration(m), body, body);
    }
    assert implement ==> Contains(Declaration(m) + body, MethodCall(receiver, m.name, Join(", ", m.arguments))) by {
      if implement {
        ContainsAfter(Declaration(m), body, MethodCall(receiver, m.name, Join(", ", m.arguments)));
      }
    }
    Declaration(m) + body
  }

  /** The members of the generated interface, in method order. */
  function MemberTexts(implement: bool, methods: seq<LegacyMethod>, receiver: string): (texts: seq<string>)
    ensures |texts| == |methods|
    ensures forall k :: 0 <= k < |methods| ==> texts[k] == MemberText(implement, methods[k], receiver)
  {
    Map((m: LegacyMethod) => MemberText(implement, m, receiver), methods)
  }

  /** A void method of the source type, implemented without a void type, still gets a
      block body ending in `return default;` while its declared return type stays the
      method's own (`void`). */
  lemma VoidWithoutVoidType(attribute: MembersAttribute, m: MethodSymbol, receiver: string)
    requires attribute.voidType.None? && m.returnsVoid
    ensures var forwarded := EntryOf(attribute.voidType, m).forwarded;
      && forwarded.returnType == ToUnqualifiedName(m.returnType)
      && EndsWith(MemberText(true, forwarded, receiver), BlockTail)
  {
  }
}
