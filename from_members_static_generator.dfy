/** `FromStaticMembersGenerator` of the `FromMembers` pipeline: for a partial interface
    carrying `[FromStaticMembers(typeof(Source), implement, voidType)]`, declares every
    public static method of `Source`, forwarding each one to `Source` itself when asked to
    implement them. */
module FromMembersStaticGenerator {
  import opened Maybe
  import opened Seqs
  import opened Text
  import opened Symbols
  import opened Syntax
  import opened FromMembersModels
  import opened FromMembersParser
  import opened FromMembersEmitter
  import opened GeneratedText
  import Instance = FromMembersInstanceGenerator

  const AttributeNamespace: string := "Kehlet.Generators"
  const AttributeName: string := "FromStaticMembersAttribute"
  const FullAttributeName: string := AttributeNamespace + "." + AttributeName

  /** `Filter`: a partial interface declaration. */
  predicate Filter(node: SyntaxNode): (r: bool)
    ensures r ==> IsTypeDeclaration(node.kind)
    ensures r <==> node.kind == InterfaceDeclaration && exists i :: 0 <= i < |node.modifiers| && node.modifiers[i] == PartialKeyword
  {
    IsPartial(node) && node.kind == InterfaceDeclaration
  }

  /** The predicate handed to the parser: static methods only. */
  predicate StaticMethod(m: MethodSymbol)
  {
    m.isStatic
  }

  /** `Transform`: the parser with the static-method predicate. */
  method Transform(cache: WellKnownTypes, compilation: Compilation, attribute: MembersAttribute, target: TypeSymbol)
    returns (details: AutoInterfaceDetails)
    modifies cache
    ensures cache.Loaded()
    ensures old(cache.Loaded()) ==> cache.Known() == old(cache.Known())
    ensures details == ParseDetails(cache.Known(), attribute, target, StaticMethod)
  {
    details := Parse(cache, compilation, attribute, target, StaticMethod);
  }

  /** A public, ordinary, static method with the given name. */
  predicate IsStaticMethodNamed(member: MemberSymbol, name: string)
  {
    member.MethodMember? && member.symbol.accessibility == Public && member.symbol.kind == Ordinary
    && member.symbol.isStatic && member.symbol.name == name
  }

  /** Every method of the generated interface comes from a public, ordinary, static
      method of the source type. */
  lemma TransformSelectsStaticMethods(types: KnownTypes, attribute: MembersAttribute, target: TypeSymbol, m: Method)
    requires m in ParseDetails(types, attribute, target, StaticMethod).methods
    ensures exists i :: 0 <= i < |attribute.targetType.members| && IsStaticMethodNamed(attribute.targetType.members[i], m.name)
  {
    ParsedMethodMember(types, attribute, target, StaticMethod, m);
  }

  /** The pieces of the generated file, in order. */
  function Pieces(details: AutoInterfaceDetails, properties: string, members: string): seq<string>
  {
    [ NullableDirective + "\n\n", ImportsText(details.imports), NamespaceDeclaration(details.partialType.ns), "\n\n",
      InterfaceHead(details.partialType.name), "\n" + Tab, properties, MemberSeparator, members, "\n}\n" ]
  }

  /** `Execute`: the file added for one annotated interface, given the texts of its emitted
      properties; the calls go to the source type. Fails when the emitter throws for one
      of the methods. */
  function Execute(details: AutoInterfaceDetails, properties: seq<string>): (r: Result<GeneratedSource>)
    ensures r.Success? <==> !details.implement || forall m <- details.methods :: !m.returnTypeHandling.Undefined?
    ensures r.Failure? ==> r.error == ArgumentOutOfRange
    ensures r.Success? ==> r.value.hintName == details.partialType.name + ".g.cs"
    ensures r.Success? ==> r.value.text == Flatten(Pieces(details, Join(MemberSeparator, properties),
      Join(MemberSeparator, EmitMethods(details.methods, details.implement, details.sourceTypeName).value)))
  {
    match EmitMethods(details.methods, details.implement, details.sourceTypeName)
    case Failure(e) => Failure(e)
    case Success(members) =>
      var text := Flatten(Pieces(details, Join(MemberSeparator, properties), Join(MemberSeparator, members)));
      Success(GeneratedSource(details.partialType.name + ".g.cs", text))
  }

  /** The generated file enables nullable annotations, declares the partial interface,
      closes it at the end, and holds every emitted method and property. */
  lemma ExecuteContents(details: AutoInterfaceDetails, properties: seq<string>)
    requires Execute(details, properties).Success?
    ensures NullableDirective <= Execute(details, properties).value.text
    ensures Contains(Execute(details, properties).value.text, InterfaceHead(details.partialType.name))
    ensures EndsWith(Execute(details, properties).value.text, "\n}\n")
    ensures forall k :: 0 <= k < |details.methods| ==>
      Contains(Execute(details, properties).value.text, EmitMethod(details.methods[k], details.implement, details.sourceTypeName).value)
    ensures forall j :: 0 <= j < |properties| ==> Contains(Execute(details, properties).value.text, properties[j])
  {
    var members := EmitMethods(details.methods, details.implement, details.sourceTypeName).value;
    var pieces := Pieces(details, Join(MemberSeparator, properties), Join(MemberSeparator, members));
    FlattenStartsWith(pieces);
    assert NullableDirective <= pieces[0];
    FlattenContains(pieces, 4);
    FlattenEndsWith(pieces);
    forall k | 0 <= k < |details.methods|
      ensures Contains(Flatten(pieces), EmitMethod(details.methods[k], details.implement, details.sourceTypeName).value)
    {
      FlattenContainsJoined(pieces, 8, MemberSeparator, members, k);
    }
    forall j | 0 <= j < |properties|
      ensures Contains(Flatten(pieces), properties[j])
    {
      FlattenContainsJoined(pieces, 6, MemberSeparator, properties, j);
    }
  }

  /** The layout of the file, whether or not it implements: `#nullable enable`, then the
      imports, then the namespace line (when there is a namespace), then the interface
      head with no `Instance` property; the file ends with the properties, then the
      emitted methods, in order and joined by a blank line and a tab, and the closing
      brace. */
  lemma ExecuteLayout(details: AutoInterfaceDetails, properties: seq<string>)
    requires Execute(details, properties).Success?
    ensures NullableDirective + "\n\n" + ImportsText(details.imports) + NamespaceDeclaration(details.partialType.ns) + "\n\n"
      + InterfaceHead(details.partialType.name) + ("\n" + Tab) <= Execute(details, properties).value.text
    ensures details.partialType.ns.Some? ==>
      NullableDirective + "\n\n" + ImportsText(details.imports) + "\n\n" + NamespaceLine(details.partialType.ns.value) + "\n\n"
      + InterfaceHead(details.partialType.name) + ("\n" + Tab) <= Execute(details, properties).value.text
    ensures details.partialType.ns.None? ==>
      NullableDirective + "\n\n" + ImportsText(details.imports) + "\n\n" + InterfaceHead(details.partialType.name)
      + ("\n" + Tab) <= Execute(details, properties).value.text
    ensures EndsWith(Execute(details, properties).value.text,
      "\n" + Tab + Join(MemberSeparator, properties) + MemberSeparator
      + Join(MemberSeparator, EmitMethods(details.methods, details.implement, details.sourceTypeName).value) + "\n}\n")
  {
    var members := EmitMethods(details.methods, details.implement, details.sourceTypeName).value;
    var p := Pieces(details, Join(MemberSeparator, properties), Join(MemberSeparator, members));
    FlattenFirstSix(p);
    FlattenLastFive(p);
    var lead := p[0] + p[1];
    if details.partialType.ns.Some? {
      Regroup(lead, "\n\n", NamespaceLine(details.partialType.ns.value));
    } else {
      assert lead + p[2] == lead;
    }
  }

  /** What the parser produces always generates. */
  lemma ParsedDetailsGenerate(types: KnownTypes, attribute: MembersAttribute, target: TypeSymbol, properties: seq<string>)
    ensures Execute(ParseDetails(types, attribute, target, StaticMethod), properties).Success?
  {
    ParsedMethodsWellFormed(types, attribute, target, StaticMethod);
  }

  /** Without an implementation the emitted methods do not depend on the receiver. */
  lemma EmitMethodsWithoutReceiver(methods: seq<Method>, source: string, other: string)
    ensures EmitMethods(methods, false, source) == EmitMethods(methods, false, other)
  {
    var mine := EmitMethods(methods, false, source).value;
    var theirs := EmitMethods(methods, false, other).value;
    forall k | 0 <= k < |methods|
      ensures mine[k] == theirs[k]
    {
      assert EmitMethod(methods[k], false, source) == Success(Declaration(methods[k], false) + ";");
    }
    assert mine == theirs;
  }

  /** Without an implementation the receiver plays no part: the static and the instance
      generators write the same file for the same details. */
  lemma SameAsInstanceWithoutImplementation(details: AutoInterfaceDetails, properties: seq<string>)
    requires !details.implement
    ensures Execute(details, properties) == Instance.Execute(details, properties)
  {
    EmitMethodsWithoutReceiver(details.methods, details.sourceTypeName, Instance.Receiver);
    var members := Join(MemberSeparator, EmitMethods(details.methods, false, details.sourceTypeName).value);
    var mine := Pieces(details, Join(MemberSeparator, properties), members);
    assert Instance.Pieces(details, Join(MemberSeparator, properties), members) == mine[..5] + [""] + mine[5..];
    FlattenDropEmpty(mine[..5], mine[5..]);
    assert mine[..5] + mine[5..] == mine;
  }
}
