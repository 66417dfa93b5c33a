/** `FromInstanceMembersGenerator` of the `FromMembers` pipeline: for a partial interface
    carrying `[FromInstanceMembers(typeof(Source), implement, voidType)]`, declares every
    public instance method of `Source`, forwarding each one to an `Instance` property when
    asked to implement them. */
module FromMembersInstanceGenerator {
  import opened Maybe
  import opened Seqs
  import opened Text
  import opened Symbols
  import opened Syntax
  import opened FromMembersModels
  import opened FromMembersParser
  import opened FromMembersEmitter
  import opened GeneratedText

  const AttributeNamespace: string := "Kehlet.Generators"
  const AttributeName: string := "FromInstanceMembersAttribute"
  const FullAttributeName: string := AttributeNamespace + "." + AttributeName

  /** The receiver the forwarding calls go to. */
  const Receiver: string := "Instance"

  /** `Filter`: a partial interface declaration. */
  predicate Filter(node: SyntaxNode): (r: bool)
    ensures r ==> IsTypeDeclaration(node.kind)
    ensures r <==> node.kind == InterfaceDeclaration && exists i :: 0 <= i < |node.modifiers| && node.modifiers[i] == PartialKeyword
  {
    IsPartial(node) && node.kind == InterfaceDeclaration
  }

  /** The predicate handed to the parser: instance methods only. */
  predicate InstanceMethod(m: MethodSymbol)
  {
    !m.isStatic
  }

  /** `Transform`: the parser with the instance-method predicate. */
  method Transform(cache: WellKnownTypes, compilation: Compilation, attribute: MembersAttribute, target: TypeSymbol)
    returns (details: AutoInterfaceDetails)
    modifies cache
    ensures cache.Loaded()
    ensures old(cache.Loaded()) ==> cache.Known() == old(cache.Known())
    ensures details == ParseDetails(cache.Known(), attribute, target, InstanceMethod)
  {
    details := Parse(cache, compilation, attribute, target, InstanceMethod);
  }

  /** A public, ordinary, non-static method with the given name. */
  predicate IsInstanceMethodNamed(member: MemberSymbol, name: string)
  {
    member.MethodMember? && member.symbol.accessibility == Public && member.symbol.kind == Ordinary
    && !member.symbol.isStatic && member.symbol.name == name
  }

  /** Every method of the generated interface comes from a public, ordinary, non-static
      method of the source type. */
  lemma TransformSelectsInstanceMethods(types: KnownTypes, attribute: MembersAttribute, target: TypeSymbol, m: Method)
    requires m in ParseDetails(types, attribute, target, InstanceMethod).methods
    ensures exists i :: 0 <= i < |attribute.targetType.members| && IsInstanceMethodNamed(attribute.targetType.members[i], m.name)
  {
    ParsedMethodMember(types, attribute, target, InstanceMethod, m);
  }

  /** The `Instance` property an implementing interface declares for the calls to go to,
      on a line of its own after the interface head; nothing otherwise. */
  function InstanceProperty(details: AutoInterfaceDetails): (r: string)
    ensures !details.implement ==> r == ""
    ensures details.implement ==>
      "\n" + Tab <= r && EndsWith(r, "\n") && Contains(r, InstanceDeclaration(details.sourceTypeName))
  {
    ContainsMiddle("\n" + Tab, InstanceDeclaration(details.sourceTypeName), "\n");
    EndsWithAfter("\n" + Tab + InstanceDeclaration(details.sourceTypeName), "\n", "\n");
    PrefixGrows("\n" + Tab, "\n" + Tab + InstanceDeclaration(details.sourceTypeName), "\n");
    if details.implement then "\n" + Tab + InstanceDeclaration(details.sourceTypeName) + "\n" else ""
  }

  function InstanceDeclaration(sourceTypeName: string): string
  {
    "protected " + sourceTypeName + " Instance { get; }"
  }

  /** The pieces of the generated file, in order. */
  function Pieces(details: AutoInterfaceDetails, properties: string, members: string): seq<string>
  {
    [ NullableDirective + "\n\n", ImportsText(details.imports), NamespaceDeclaration(details.partialType.ns), "\n\n",
      InterfaceHead(details.partialType.name), InstanceProperty(details), "\n" + Tab, properties, MemberSeparator,
      members, "\n}\n" ]
  }

  /** `Execute`: the file added for one annotated interface, given the texts of its emitted
      properties. Fails when the emitter throws for one of the methods. */
  function Execute(details: AutoInterfaceDetails, properties: seq<string>): (r: Result<GeneratedSource>)
    ensures r.Success? <==> !details.implement || forall m <- details.methods :: !m.returnTypeHandling.Undefined?
    ensures r.Failure? ==> r.error == ArgumentOutOfRange
    ensures r.Success? ==> r.value.hintName == details.partialType.name + ".g.cs"
    ensures r.Success? ==> r.value.text == Flatten(Pieces(details, Join(MemberSeparator, properties),
      Join(MemberSeparator, EmitMethods(details.methods, details.implement, Receiver).value)))
  {
    match EmitMethods(details.methods, details.implement, Receiver)
    case Failure(e) => Failure(e)
    case Success(members) =>
      var text := Flatten(Pieces(details, Join(MemberSeparator, properties), Join(MemberSeparator, members)));
      Success(GeneratedSource(details.partialType.name + ".g.cs", text))
  }

  /** The generated file enables nullable annotations, declares the partial interface and
      closes it at the end. */
  lemma ExecuteFrame(details: AutoInterfaceDetails, properties: seq<string>)
    requires Execute(details, properties).Success?
    ensures NullableDirective <= Execute(details, properties).value.text
    ensures Contains(Execute(details, properties).value.text, InterfaceHead(details.partialType.name))
    ensures EndsWith(Execute(details, properties).value.text, "\n}\n")
  {
    var members := EmitMethods(details.methods, details.implement, Receiver).value;
    var pieces := Pieces(details, Join(MemberSeparator, properties), Join(MemberSeparator, members));
    FlattenStartsWith(pieces);
    assert NullableDirective <= pieces[0];
    FlattenContains(pieces, 4);
    FlattenEndsWith(pieces);
  }

  /** The generated file holds every emitted method and every property. */
  lemma ExecuteMembers(details: AutoInterfaceDetails, properties: seq<string>)
    requires Execute(details, properties).Success?
    ensures forall k :: 0 <= k < |details.methods| ==>
      Contains(Execute(details, properties).value.text, EmitMethod(details.methods[k], details.implement, Receiver).value)
    ensures forall j :: 0 <= j < |properties| ==> Contains(Execute(details, properties).value.text, properties[j])
  {
    var members := EmitMethods(details.methods, details.implement, Receiver).value;
    var pieces := Pieces(details, Join(MemberSeparator, properties), Join(MemberSeparator, members));
    forall k | 0 <= k < |details.methods|
      ensures Contains(Flatten(pieces), EmitMethod(details.methods[k], details.implement, Receiver).value)
    {
      FlattenContainsJoined(pieces, 9, MemberSeparator, members, k);
    }
    forall j | 0 <= j < |properties|
      ensures Contains(Flatten(pieces), properties[j])
    {
      FlattenContainsJoined(pieces, 7, MemberSeparator, properties, j);
    }
  }

  /** The generated file holds every import, the namespace declaration, and the `Instance`
      property when it implements. */
  lemma ExecuteDeclarations(details: AutoInterfaceDetails, properties: seq<string>)
    requires Execute(details, properties).Success?
    ensures forall u <- details.imports :: Contains(Execute(details, properties).value.text, UsingDirective(u))
    ensures details.partialType.ns.Some? ==>
      Contains(Execute(details, properties).value.text, NamespaceLine(details.partialType.ns.value))
    ensures details.implement ==>
      Contains(Execute(details, properties).value.text, InstanceDeclaration(details.sourceTypeName))
  {
    var members := EmitMethods(details.methods, details.implement, Receiver).value;
    var pieces := Pieces(details, Join(MemberSeparator, properties), Join(MemberSeparator, members));
    forall u <- details.imports
      ensures Contains(Flatten(pieces), UsingDirective(u))
    {
      FlattenContainsImport(pieces, 1, details.imports, u);
    }
    if details.partialType.ns.Some? {
      FlattenContainsNamespace(pieces, 2, details.partialType.ns);
    }
    if details.implement {
      var declaration := InstanceDeclaration(details.sourceTypeName);
      FlattenContains(pieces, 5);
      ContainsMiddle("\n" + Tab, declaration, "\n");
      ContainsTrans(Flatten(pieces), pieces[5], declaration);
    }
  }

  /** The layout of the file: `#nullable enable`, then the imports, then the namespace
      line (when there is a namespace), then the interface head and the `Instance`
      property; the file ends with the properties, then the emitted methods, in order and
      joined by a blank line and a tab, and the closing brace. */
  lemma ExecuteLayout(details: AutoInterfaceDetails, properties: seq<string>)
    requires Execute(details, properties).Success?
    ensures NullableDirective + "\n\n" + ImportsText(details.imports) + NamespaceDeclaration(details.partialType.ns) + "\n\n"
      + InterfaceHead(details.partialType.name) + InstanceProperty(details) <= Execute(details, properties).value.text
    ensures details.partialType.ns.Some? ==>
      NullableDirective + "\n\n" + ImportsText(details.imports) + "\n\n" + NamespaceLine(details.partialType.ns.value) + "\n\n"
      + InterfaceHead(details.partialType.name) + InstanceProperty(details) <= Execute(details, properties).value.text
    ensures details.partialType.ns.None? ==>
      NullableDirective + "\n\n" + ImportsText(details.imports) + "\n\n" + InterfaceHead(details.partialType.name)
      + InstanceProperty(details) <= Execute(details, properties).value.text
    ensures EndsWith(Execute(details, properties).value.text,
      "\n" + Tab + Join(MemberSeparator, properties) + MemberSeparator
      + Join(MemberSeparator, EmitMethods(details.methods, details.implement, Receiver).value) + "\n}\n")
  {
    var members := EmitMethods(details.methods, details.implement, Receiver).value;
    var p := Pieces(details, Join(MemberSeparator, properties), Join(MemberSeparator, members));
    FlattenFirstSix(p);
    FlattenLastFive(p);
    var lead := p[0] + p[1];
    if details.partialType.ns.Some? {
      Regroup(lead, "\n\n", NamespaceLine(details.partialType.ns.value));
    } else {
      assert lead + p[2] == lead;
    }
  }

  /** What the parser produces always generates: no parsed method has a handling the
      emitter rejects. */
  lemma ParsedDetailsGenerate(types: KnownTypes, attribute: MembersAttribute, target: TypeSymbol, properties: seq<string>)
    ensures Execute(ParseDetails(types, attribute, target, InstanceMethod), properties).Success?
  {
    ParsedMethodsWellFormed(types, attribute, target, InstanceMethod);
  }
}
