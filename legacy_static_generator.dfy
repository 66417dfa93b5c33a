/** The older top-level `FromStaticMembersGenerator`: for a partial interface carrying
    `[FromStaticMembers(typeof(Source), implement, voidType)]`, declares every public
    static method of `Source`, forwarding to `Source` itself when asked to implement them.
    Its file puts the namespace declaration before the imports. */
module LegacyStaticGenerator {
  import opened Maybe
  import opened Seqs
  import opened Text
  import opened Symbols
  import opened Syntax
  import opened FromMembersModels
  import opened FromMembersEmitter
  import opened GeneratedText
  import opened LegacyMembers
  import LegacyInstance = LegacyInstanceGenerator

  const AttributeNamespace: string := "Kehlet.Functional.Generators"
  const AttributeName: string := "FromStaticMembers"
  const FullAttributeName: string := AttributeNamespace + "." + AttributeName

  /** `Filter`: casts the node to a type declaration first, which throws for any other
      node, then asks for a `partial` interface declaration. */
  function Filter(node: SyntaxNode): (r: Result<bool>)
    ensures r.Failure? <==> !IsTypeDeclaration(node.kind)
    ensures r.Failure? ==> r.error == InvalidCast
    ensures r.Success? ==> (r.value <==> IsPartial(node) && node.kind == InterfaceDeclaration)
  {
    match AsTypeDeclaration(node)
    case Failure(e) => Failure(e)
    case Success(declaration) => Success(PartialKeyword in declaration.modifiers && node.kind == InterfaceDeclaration)
  }

  /** On the nodes it does not reject, the filter accepts exactly what the instance
      generator's filter accepts. */
  lemma FilterAgreesWithInstance(node: SyntaxNode)
    requires IsTypeDeclaration(node.kind)
    ensures Filter(node) == Success(LegacyInstance.Filter(node))
  {
  }

  /** `Transform`: the shared query over the static members. */
  function StaticTransform(attribute: MembersAttribute, target: TypeSymbol): (t: Target)
    ensures forall m <- t.methods :: |m.parameters| == |m.arguments|
  {
    TransformMethodsWellFormed(attribute, target, true);
    Transform(attribute, target, true)
  }

  /** Every generated method comes from a public, ordinary, static method of the source
      type of the same name. */
  lemma TransformSelectsStaticMethods(attribute: MembersAttribute, target: TypeSymbol, m: LegacyMethod)
    requires m in StaticTransform(attribute, target).methods
    ensures exists i :: (
      && 0 <= i < |attribute.targetType.members|
      && Selected(true, attribute.targetType.members[i])
      && attribute.targetType.members[i].IsStatic()
      && attribute.targetType.members[i].symbol.name == m.name
      && attribute.targetType.members[i].symbol.returnsVoid == m.hasCustomVoidType)
  {
    TransformMethodMember(attribute, target, true, m);
  }

  /** The pieces of the generated file, in order. */
  function Pieces(t: Target, members: string): seq<string>
  {
    [ NullableDirective, NamespaceDeclaration(t.partialType.ns), "\n\n", ImportsText(t.imports), "\n\n",
      InterfaceHead(t.partialType.name), "\n" + Tab, members, "\n}\n" ]
  }

  /** `Execute`: the file added for one annotated interface; the calls go to the source
      type. */
  function Execute(t: Target): (r: GeneratedSource)
    ensures r.hintName == t.partialType.name + ".AutoInterface.g.cs"
    ensures r.text == Flatten(Pieces(t, Join(MemberSeparator, MemberTexts(t.implement, t.methods, t.sourceTypeName))))
  {
    GeneratedSource(
      t.partialType.name + ".AutoInterface.g.cs",
      Flatten(Pieces(t, Join(MemberSeparator, MemberTexts(t.implement, t.methods, t.sourceTypeName)))))
  }

  /** The generated file enables nullable annotations, declares the partial interface,
      closes it at the end, and holds every member, every import and the namespace
      declaration. */
  lemma ExecuteContents(t: Target)
    ensures NullableDirective <= Execute(t).text
    ensures Contains(Execute(t).text, InterfaceHead(t.partialType.name))
    ensures EndsWith(Execute(t).text, "\n}\n")
    ensures forall k :: 0 <= k < |t.methods| ==> Contains(Execute(t).text, MemberText(t.implement, t.methods[k], t.sourceTypeName))
    ensures forall u <- t.imports :: Contains(Execute(t).text, UsingDirective(u))
    ensures t.partialType.ns.Some? ==> Contains(Execute(t).text, NamespaceLine(t.partialType.ns.value))
  {
    var members := MemberTexts(t.implement, t.methods, t.sourceTypeName);
    var pieces := Pieces(t, Join(MemberSeparator, members));
    FlattenStartsWith(pieces);
    FlattenContains(pieces, 5);
    FlattenEndsWith(pieces);
    forall k | 0 <= k < |t.methods|
      ensures Contains(Flatten(pieces), MemberText(t.implement, t.methods[k], t.sourceTypeName))
    {
      FlattenContainsJoined(pieces, 7, MemberSeparator, members, k);
    }
    forall u <- t.imports
      ensures Contains(Flatten(pieces), UsingDirective(u))
    {
      FlattenContainsImport(pieces, 3, t.imports, u);
    }
    if t.partialType.ns.Some? {
      FlattenContainsNamespace(pieces, 1, t.partialType.ns);
    }
  }

  /** The layout of the file: `#nullable enable`, then the namespace line right after it
      (when there is a namespace), then the imports, then the interface head; the file
      ends with the member texts, in method order and joined by a blank line and a tab,
      and the closing brace. */
  lemma ExecuteLayout(t: Target)
    ensures NullableDirective + NamespaceDeclaration(t.partialType.ns) + "\n\n" + ImportsText(t.imports) + "\n\n"
      + InterfaceHead(t.partialType.name) <= Execute(t).text
    ensures t.partialType.ns.Some? ==>
      NullableDirective + "\n\n" + NamespaceLine(t.partialType.ns.value) + "\n\n" + ImportsText(t.imports) <= Execute(t).text
    ensures t.partialType.ns.None? ==> NullableDirective + "\n\n" + ImportsText(t.imports) <= Execute(t).text
    ensures EndsWith(Execute(t).text,
      "\n" + Tab + Join(MemberSeparator, MemberTexts(t.implement, t.methods, t.sourceTypeName)) + "\n}\n")
  {
    var p := Pieces(t, Join(MemberSeparator, MemberTexts(t.implement, t.methods, t.sourceTypeName)));
    var nl, ns, gap, imports := p[0], p[1], p[2], p[3];
    FlattenFirstSix(p);
    FlattenLastThree(p);
    Regroup(nl + ns + gap + imports, gap, p[5]);
    PrefixShrinks(nl + ns + gap + imports, gap + p[5], Execute(t).text);
    if t.partialType.ns.Some? {
      Regroup(nl, gap, NamespaceLine(t.partialType.ns.value));
    }
  }
}
