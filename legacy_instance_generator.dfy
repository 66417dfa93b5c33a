/** The older top-level `FromInstanceMembersGenerator`: for a partial interface carrying
    `[FromInstanceMembers(typeof(Source), implement, voidType)]`, declares every public
    instance method of `Source`, forwarding to an `internal` `Instance` property when asked
    to implement them. */
module LegacyInstanceGenerator {
  import opened Maybe
  import opened Seqs
  import opened Text
  import opened Symbols
  import opened Syntax
  import opened FromMembersModels
  import opened FromMembersEmitter
  import opened GeneratedText
  import opened LegacyMembers

  const AttributeNamespace: string := "Kehlet.Generators"
  const AttributeName: string := "FromInstanceMembers"
  const FullAttributeName: string := AttributeNamespace + "." + AttributeName

  /** The receiver the forwarding calls go to. */
  const Receiver: string := "Instance"

  /** `Filter`: a partial interface declaration. */
  predicate Filter(node: SyntaxNode): (r: bool)
    ensures r ==> IsTypeDeclaration(node.kind)
    ensures r <==> node.kind == InterfaceDeclaration && exists i :: 0 <= i < |node.modifiers| && node.modifiers[i] == PartialKeyword
  {
    IsPartial(node) && node.kind == InterfaceDeclaration
  }

  /** `Transform`: the shared query over the instance members. */
  function InstanceTransform(attribute: MembersAttribute, target: TypeSymbol): (t: Target)
    ensures forall m <- t.methods :: |m.parameters| == |m.arguments|
  {
    TransformMethodsWellFormed(attribute, target, false);
    Transform(attribute, target, false)
  }

  /** Every generated method comes from a public, ordinary, non-static method of the
      source type of the same name, and has a custom void type exactly when that method
      returns void. */
  lemma TransformSelectsInstanceMethods(attribute: MembersAttribute, target: TypeSymbol, m: LegacyMethod)
    requires m in InstanceTransform(attribute, target).methods
    ensures exists i :: (
      && 0 <= i < |attribute.targetType.members|
      && Selected(false, attribute.targetType.members[i])
      && !attribute.targetType.members[i].IsStatic()
      && attribute.targetType.members[i].symbol.name == m.name
      && attribute.targetType.members[i].symbol.returnsVoid == m.hasCustomVoidType)
  {
    TransformMethodMember(attribute, target, false, m);
  }

  /** The `internal` `Instance` property an implementing interface declares. */
  function InstanceDeclaration(sourceTypeName: string): string
  {
    "internal " + sourceTypeName + " Instance { get; }"
  }

  /** The `Instance` property on a line of its own after the interface head, when the
      interface implements; nothing otherwise. */
  function InstanceProperty(t: Target): (r: string)
    ensures !t.implement ==> r == ""
    ensures t.implement ==> "\n" + Tab <= r && EndsWith(r, "\n") && Contains(r, InstanceDeclaration(t.sourceTypeName))
  {
    ContainsMiddle("\n" + Tab, InstanceDeclaration(t.sourceTypeName), "\n");
    EndsWithAfter("\n" + Tab + InstanceDeclaration(t.sourceTypeName), "\n", "\n");
    PrefixGrows("\n" + Tab, "\n" + Tab + InstanceDeclaration(t.sourceTypeName), "\n");

    if t.implement then "\n" + Tab + InstanceDeclaration(t.sourceTypeName) + "\n" else ""
  }

  /** The pieces of the generated file, in order. */
  function Pieces(t: Target, members: string): seq<string>
  {
    [ NullableDirective + "\n\n", ImportsText(t.imports), NamespaceDeclaration(t.partialType.ns), "\n\n",
      InterfaceHead(t.partialType.name), InstanceProperty(t), "\n" + Tab, members, "\n}\n" ]
  }

  /** `Execute`: the file added for one annotated interface. */
  function Execute(t: Target): (r: GeneratedSource)
    ensures r.hintName == t.partialType.name + ".AutoInterface.g.cs"
    ensures r.text == Flatten(Pieces(t, Join(MemberSeparator, MemberTexts(t.implement, t.methods, Receiver))))
  {
    GeneratedSource(
      t.partialType.name + ".AutoInterface.g.cs",
      Flatten(Pieces(t, Join(MemberSeparator, MemberTexts(t.implement, t.methods, Receiver)))))
  }

  /** The generated file enables nullable annotations, declares the partial interface,
      closes it at the end, and holds every member. */
  lemma ExecuteMembers(t: Target)
    ensures NullableDirective <= Execute(t).text
    ensures Contains(Execute(t).text, InterfaceHead(t.partialType.name))
    ensures EndsWith(Execute(t).text, "\n}\n")
    ensures forall k :: 0 <= k < |t.methods| ==> Contains(Execute(t).text, MemberText(t.implement, t.methods[k], Receiver))
  {
    var members := MemberTexts(t.implement, t.methods, Receiver);
    var pieces := Pieces(t, Join(MemberSeparator, members));
    FlattenStartsWith(pieces);
    assert NullableDirective <= pieces[0];
    FlattenContains(pieces, 4);
    FlattenEndsWith(pieces);
    forall k | 0 <= k < |t.methods|
      ensures Contains(Flatten(pieces), MemberText(t.implement, t.methods[k], Receiver))
    {
      FlattenContainsJoined(pieces, 7, MemberSeparator, members, k);
    }
  }

  /** The generated file holds every import, the namespace declaration, and the `Instance`
      property when it implements. */
  lemma ExecuteDeclarations(t: Target)
    ensures forall u <- t.imports :: Contains(Execute(t).text, UsingDirective(u))
    ensures t.partialType.ns.Some? ==> Contains(Execute(t).text, NamespaceLine(t.partialType.ns.value))
    ensures t.implement ==> Contains(Execute(t).text, InstanceDeclaration(t.sourceTypeName))
  {
    var pieces := Pieces(t, Join(MemberSeparator, MemberTexts(t.implement, t.methods, Receiver)));
    forall u <- t.imports
      ensures Contains(Flatten(pieces), UsingDirective(u))
    {
      FlattenContainsImport(pieces, 1, t.imports, u);
    }
    if t.partialType.ns.Some? {
      FlattenContainsNamespace(pieces, 2, t.partialType.ns);
    }
    if t.implement {
      var declaration := InstanceDeclaration(t.sourceTypeName);
      FlattenContains(pieces, 5);
      ContainsMiddle("\n" + Tab, declaration, "\n");
      ContainsTrans(Flatten(pieces), pieces[5], declaration);
    }
  }

  /** The layout of the file: `#nullable enable`, then the imports, then the namespace
      line (when there is a namespace), then the interface head and the `Instance`
      property; the file ends with the member texts, in method order and joined by a blank
      line and a tab, and the closing brace. */
  lemma ExecuteLayout(t: Target)
    ensures NullableDirective + "\n\n" + ImportsText(t.imports) + NamespaceDeclaration(t.partialType.ns) + "\n\n"
      + InterfaceHead(t.partialType.name) + InstanceProperty(t) <= Execute(t).text
    ensures t.partialType.ns.Some? ==>
      NullableDirective + "\n\n" + ImportsText(t.imports) + "\n\n" + NamespaceLine(t.partialType.ns.value) + "\n\n"
      + InterfaceHead(t.partialType.name) + InstanceProperty(t) <= Execute(t).text
    ensures t.partialType.ns.None? ==>
      NullableDirective + "\n\n" + ImportsText(t.imports) + "\n\n" + InterfaceHead(t.partialType.name)
      + InstanceProperty(t) <= Execute(t).text
    ensures EndsWith(Execute(t).text, "\n" + Tab + Join(MemberSeparator, MemberTexts(t.implement, t.methods, Receiver)) + "\n}\n")
  {
    var p := Pieces(t, Join(MemberSeparator, MemberTexts(t.implement, t.methods, Receiver)));
    FlattenFirstSix(p);
    FlattenLastThree(p);
    var lead := p[0] + p[1];
    if t.partialType.ns.Some? {
      Regroup(lead, "\n\n", NamespaceLine(t.partialType.ns.value));
    } else {
      assert lead + p[2] == lead;
    }
  }
}
