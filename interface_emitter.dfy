/** `InterfaceGenerator.Emitter`: writes the partial type and its `I<Name>` interface
    into a `StringBuilder`. Each append method is specified by the text function it
    appends; the properties of the output are lemmas about those functions. */
module InterfaceEmitter {
  import opened Maybe
  import opened Seqs
  import opened Text
  import opened Symbols
  import opened InterfaceModel

  const Indent: string := "    "

  const NullableLine: string := "#nullable enable" + NewLine

  // ----- the two lookup tables -----

  /** The C# modifier of an accessibility; undefined only for `NotApplicable`. */
  function AccessModifierMap(accessibility: Accessibility): (r: Option<string>)
    ensures r.None? <==> accessibility == NotApplicable
    ensures accessibility == Public <==> r == Some("public")
    ensures accessibility == Internal <==> r == Some("internal")
  {
    match accessibility
    case Private => Some("private")
    case ProtectedAndInternal => Some("private protected")
    case Protected => Some("protected")
    case Internal => Some("internal")
    case ProtectedOrInternal => Some("protected internal")
    case Public => Some("public")
    case NotApplicable => None
  }

  /** The keyword of a type kind; only classes and structs have one. */
  function TypeKindMap(kind: TypeKind): (r: Option<string>)
    ensures r.Some? <==> kind == Class || kind == Struct
    ensures r.Some? ==> r.value == (if kind == Class then "class" else "struct")
  {
    match kind
    case Class => Some("class")
    case Struct => Some("struct")
    case _ => None
  }

  /** Distinct accessibilities get distinct modifiers. */
  lemma AccessModifierMapInjective(a: Accessibility, b: Accessibility)
    requires AccessModifierMap(a).Some? && AccessModifierMap(a) == AccessModifierMap(b)
    ensures a == b
  {
  }

  // ----- text the emitter produces -----

  function VarianceText(v: Variance, withVariance: bool): string
  {
    if !withVariance then ""
    else match v
      case Covariant => "out "
      case Contravariant => "in "
      case Invariant => ""
  }

  /** `AppendTypeParameter`: the variance prefix (if asked for) and the name. */
  function TypeParameterText(withVariance: bool): TypeParameter -> string
  {
    (tp: TypeParameter) => VarianceText(tp.variance, withVariance) + tp.name
  }

  /** `AppendTypeParameters`: nothing for no type parameters, otherwise the texts of all
      of them, without separator, between angle brackets. */
  function TypeParameterList(typeParameters: seq<TypeParameter>, withVariance: bool): string
  {
    if typeParameters == [] then ""
    else "<" + Flatten(Map(TypeParameterText(withVariance), typeParameters)) + ">"
  }

  /** The doc comment line one piece of the documentation becomes, if any. */
  function DocLine(indent: string): string -> Option<string>
  {
    (line: string) => if IsBlank(line) then None else Some(indent + "/// " + line)
  }

  /** The doc comment lines of a documentation string. */
  function DocLines(docs: string, indent: string): seq<string>
  {
    FilterMap(DocLine(indent), Split(docs, '\n'))
  }

  /** `AppendDocs`. */
  function DocsText(docs: Option<string>, indent: string): string
  {
    match docs
    case None => ""
    case Some(d) => Lines(DocLines(d, indent))
  }

  /** The prefix of a by-reference return type. */
  function RefPrefix(m: Member): (r: string)
    ensures r == "ref readonly " <==> m.returnsByRefReadonly
    ensures r == "ref " <==> !m.returnsByRefReadonly && m.returnsByRef
    ensures r == "" <==> !m.returnsByRefReadonly && !m.returnsByRef
  {
    if m.returnsByRefReadonly then "ref readonly " else if m.returnsByRef then "ref " else ""
  }

  /** The members `AppendMembers` passes over. */
  predicate IsSkipped(m: Member)
  {
    || (m.kind == Property && m.accessors == [])
    || (m.kind == Indexer && (m.accessors == [] || m.parameters == []))
  }

  function ParameterList(m: Member): string
  {
    Join(", ", Map(ParameterText, m.parameters))
  }

  function IndexerSignature(m: Member): string
  {
    "this[" + ParameterList(m) + "] { " + Join(" ", m.accessors) + " }" + NewLine
  }

  function PropertySignature(m: Member): string
  {
    m.name + " { " + Join(" ", m.accessors) + " }" + NewLine
  }

  function MethodSignature(m: Member): string
  {
    m.name + TypeParameterList(m.typeParameters, false) + "(" + ParameterList(m) + ");" + NewLine
  }

  /** The signature that follows the return type; a member of the default kind gets none. */
  function Signature(m: Member): string
  {
    match m.kind
    case Indexer => IndexerSignature(m)
    case Property => PropertySignature(m)
    case Method => MethodSignature(m)
    case Undefined => ""
  }

  /** The text of one member: nothing when skipped, otherwise its doc lines, the indent,
      the by-reference prefix, the return type and the signature. */
  function MemberText(m: Member): string
  {
    if IsSkipped(m) then ""
    else DocsText(m.docs, Indent) + Indent + RefPrefix(m) + (m.returnType + " ") + Signature(m)
  }

  /** The text of the member list. */
  function MembersText(members: seq<Member>): string
  {
    Flatten(Map(MemberText, members))
  }

  /** The namespace line, present only for a non-empty namespace. */
  function NamespaceText(ns: string): string
  {
    if |ns| > 0 then "\nnamespace " + ns + ";" + NewLine else ""
  }

  /** The partial type line, with invariant type parameters on both sides; `AppendLine`
      adds its line feed. */
  function PartialTypeLine(accessModifier: string, typeKind: string, c: DefaultImplementationClass): string
  {
    var typeParameters := TypeParameterList(c.typeParameters, false);
    "\n" + accessModifier + " partial " + typeKind + " " + c.name + typeParameters
    + " : I" + c.name + typeParameters + ";\n"
  }

  /** The interface header: `public` or `internal`, the name `I<Name>`, and the class's
      type parameters with their variance. */
  function InterfaceHeader(c: DefaultImplementationClass): string
  {
    (if c.isPublic then "public" else "internal") + " partial interface I" + c.name
    + TypeParameterList(c.typeParameters, true)
  }

  /** The layout of a generated file, from its parts. */
  function Layout(ns: string, partialTypeLine: string, docs: string, header: string, members: string): string
  {
    NullableLine + NamespaceText(ns) + partialTypeLine + NewLine + docs + header + "\n{" + NewLine
    + members + "}" + NewLine
  }

  /** The whole output of `Emit`: empty when the accessibility or the kind has no
      keyword, the laid-out parts otherwise. */
  function EmittedText(c: DefaultImplementationClass): string
  {
    var accessModifier := AccessModifierMap(c.accessibility);
    var typeKind := TypeKindMap(c.kind);
    if accessModifier.None? || typeKind.None? then ""
    else Layout(c.ns, PartialTypeLine(accessModifier.value, typeKind.value, c), DocsText(c.docs, ""),
      InterfaceHeader(c), MembersText(c.members))
  }

  // ----- the emitter's methods -----

  /** The local function `AppendTypeParameter`. */
  method AppendTypeParameter(builder: StringBuilder, typeParameter: TypeParameter, withVariance: bool)
    modifies builder
    ensures builder.contents == old(builder.contents) + TypeParameterText(withVariance)(typeParameter)
  {
    var variance := "";
    if withVariance {
      variance := match typeParameter.variance
        case Covariant => "out "
        case Contravariant => "in "
        case Invariant => "";
    }
    builder.Append(variance + typeParameter.name);
  }

  method AppendTypeParameters(builder: StringBuilder, typeParameters: seq<TypeParameter>, withVariance: bool)
    modifies builder
    ensures builder.contents == old(builder.contents) + TypeParameterList(typeParameters, withVariance)
  {
    if |typeParameters| == 0 {
      return;
    }
    ghost var start := builder.contents;
    ghost var texts := Flatten(Map(TypeParameterText(withVariance), typeParameters));
    builder.Append("<");
    AppendEachTypeParameter(builder, typeParameters, withVariance);
    builder.Append(">");
    Regroup(start, "<", texts);
    Regroup(start, "<" + texts, ">");
  }

  /** The `foreach` of `AppendTypeParameters`. */
  method AppendEachTypeParameter(builder: StringBuilder, typeParameters: seq<TypeParameter>, withVariance: bool)
    modifies builder
    ensures builder.contents == old(builder.contents) + Flatten(Map(TypeParameterText(withVariance), typeParameters))
  {
    ghost var f := TypeParameterText(withVariance);
    for i := 0 to |typeParameters|
      invariant builder.contents == old(builder.contents) + Flatten(Map(f, typeParameters[..i]))
    {
      assert Flatten(Map(f, typeParameters[..i + 1])) == Flatten(Map(f, typeParameters[..i])) + f(typeParameters[i]) by {
        MapSnoc(f, typeParameters, i);
        FlattenSnoc(Map(f, typeParameters[..i]), f(typeParameters[i]));
      }
      AppendTypeParameter(builder, typeParameters[i], withVariance);
    }
    assert typeParameters[..|typeParameters|] == typeParameters;
  }

  /** `EmitTypeParameters`: the type parameter list as a string of its own. */
  method EmitTypeParameters(parameters: seq<TypeParameter>, withVariance: bool) returns (r: string)
    ensures r == TypeParameterList(parameters, withVariance)
    ensures r == "" <==> parameters == []
  {
    if |parameters| == 0 {
      return "";
    }
    var builder := new StringBuilder();
    AppendTypeParameters(builder, parameters, withVariance);
    return builder.contents;
  }

  method AppendDocs(builder: StringBuilder, docs: Option<string>, indent: string)
    modifies builder
    ensures builder.contents == old(builder.contents) + DocsText(docs, indent)
  {
    if docs.None? {
      return;
    }
    var lines := Split(docs.value, '\n');
    AppendDocLines(builder, lines, indent);
  }

  /** The `foreach` of `AppendDocs`: one `///` line per non-blank piece. */
  method AppendDocLines(builder: StringBuilder, lines: seq<string>, indent: string)
    modifies builder
    ensures builder.contents == old(builder.contents) + Lines(FilterMap(DocLine(indent), lines))
  {
    for i := 0 to |lines|
      invariant builder.contents == old(builder.contents) + Lines(FilterMap(DocLine(indent), lines[..i]))
    {
      DocLinesSnoc(lines, indent, i);
      var line := lines[i];
      if IsBlank(line) {
        continue;
      }
      Regroup(old(builder.contents), Lines(FilterMap(DocLine(indent), lines[..i])), indent + "/// " + line);
      Regroup(old(builder.contents), Lines(FilterMap(DocLine(indent), lines[..i])) + (indent + "/// " + line), NewLine);
      builder.AppendLine(indent + "/// " + line);
    }
    assert lines[..|lines|] == lines;
  }

  /** One more piece of documentation: a blank piece adds nothing, any other piece adds
      its `///` line. */
  lemma DocLinesSnoc(lines: seq<string>, indent: string, i: nat)
    requires i < |lines|
    ensures IsBlank(lines[i]) ==>
      Lines(FilterMap(DocLine(indent), lines[..i + 1])) == Lines(FilterMap(DocLine(indent), lines[..i]))
    ensures !IsBlank(lines[i]) ==>
      Lines(FilterMap(DocLine(indent), lines[..i + 1]))
      == Lines(FilterMap(DocLine(indent), lines[..i])) + (indent + "/// " + lines[i]) + NewLine
  {
    FilterMapSnoc(DocLine(indent), lines, i);
    if !IsBlank(lines[i]) {
      assert DocLine(indent)(lines[i]) == Some(indent + "/// " + lines[i]);
      LinesAppend(FilterMap(DocLine(indent), lines[..i]), indent + "/// " + lines[i]);
    } else {
      assert DocLine(indent)(lines[i]) == None;
      assert FilterMap(DocLine(indent), lines[..i]) + [] == FilterMap(DocLine(indent), lines[..i]);
    }
  }

  method AppendIndexerSignature(builder: StringBuilder, member: Member)
    modifies builder
    ensures builder.contents == old(builder.contents) + IndexerSignature(member)
  {
    builder.Append("this[");
    builder.Append(Join(", ", Map(ParameterText, member.parameters)));
    builder.Append("] { ");
    builder.Append(Join(" ", member.accessors));
    builder.AppendLine(" }");
  }

  method AppendPropertySignature(builder: StringBuilder, member: Member)
    modifies builder
    ensures builder.contents == old(builder.contents) + PropertySignature(member)
  {
    builder.Append(member.name + " { ");
    builder.Append(Join(" ", member.accessors));
    builder.AppendLine(" }");
  }

  method AppendMethodSignature(builder: StringBuilder, member: Member)
    modifies builder
    ensures builder.contents == old(builder.contents) + MethodSignature(member)
  {
    builder.Append(member.name);
    AppendTypeParameters(builder, member.typeParameters, false);
    builder.Append("(");
    builder.Append(Join(", ", Map(ParameterText, member.parameters)));
    builder.AppendLine(");");
  }

  method AppendMembers(builder: StringBuilder, members: seq<Member>)
    modifies builder
    ensures builder.contents == old(builder.contents) + MembersText(members)
  {
    if |members| == 0 {
      return;
    }
    for i := 0 to |members|
      invariant builder.contents == old(builder.contents) + MembersText(members[..i])
    {
      assert MembersText(members[..i + 1]) == MembersText(members[..i]) + MemberText(members[i]) by {
        MapSnoc(MemberText, members, i);
        FlattenSnoc(Map(MemberText, members[..i]), MemberText(members[i]));
      }
      Regroup(old(builder.contents), MembersText(members[..i]), MemberText(members[i]));
      AppendMember(builder, members[i]);
    }
    assert members[..|members|] == members;
  }

  /** The body of the `foreach` of `AppendMembers`; returning early is its `continue`. */
  method AppendMember(builder: StringBuilder, member: Member)
    modifies builder
    ensures builder.contents == old(builder.contents) + MemberText(member)
  {
    if (member.kind == Property && member.accessors == [])
      || (member.kind == Indexer && (member.accessors == [] || member.parameters == []))
    {
      return;
    }
    ghost var start := builder.contents;
    ghost var docs := DocsText(member.docs, Indent);
    AppendDocs(builder, member.docs, Indent);
    builder.Append(Indent);
    Regroup(start, docs, Indent);
    if member.returnsByRefReadonly {
      builder.Append("ref readonly ");
    } else if member.returnsByRef {
      builder.Append("ref ");
    }
    Regroup(start, docs + Indent, RefPrefix(member));
    builder.Append(member.returnType + " ");
    ghost var head := docs + Indent + RefPrefix(member) + (member.returnType + " ");
    Regroup(start, docs + Indent + RefPrefix(member), member.returnType + " ");
    assert builder.contents == start + head;
    ghost var middle := builder.contents;
    match member.kind {
      case Indexer => AppendIndexerSignature(builder, member);
      case Property => AppendPropertySignature(builder, member);
      case Method => AppendMethodSignature(builder, member);
      case Undefined =>
    }
    assert builder.contents == middle + Signature(member);
    assert MemberText(member) == head + Signature(member);
    Regroup(start, head, Signature(member));
  }

  /** `Emit`: the generated file for one annotated class or struct. */
  method Emit(c: DefaultImplementationClass) returns (r: string)
    ensures r == EmittedText(c)
    ensures r == "" <==> AccessModifierMap(c.accessibility).None? || TypeKindMap(c.kind).None?
    ensures r != "" ==> NullableLine <= r
  {
    var builder := new StringBuilder();
    builder.AppendLine("#nullable enable");
    if |c.ns| > 0 {
      builder.AppendLine("\nnamespace " + c.ns + ";");
      Regroup(NullableLine, "\nnamespace " + c.ns + ";", NewLine);
    }
    ghost var header := builder.contents;
    assert header == NullableLine + NamespaceText(c.ns);
    var accessModifier := AccessModifierMap(c.accessibility);
    if accessModifier.None? {
      return "";
    }
    var typeKind := TypeKindMap(c.kind);
    if typeKind.None? {
      return "";
    }
    var typeParameters := EmitTypeParameters(c.typeParameters, false);
    builder.AppendLine("\n" + accessModifier.value + " partial " + typeKind.value + " " + c.name + typeParameters
      + " : I" + c.name + typeParameters + ";\n");
    AppendDocs(builder, c.docs, "");
    var accessibility := if c.isPublic then "public" else "internal";
    ghost var beforeInterface := builder.contents;
    builder.Append(accessibility + " partial interface I" + c.name);
    AppendTypeParameters(builder, c.typeParameters, true);
    Regroup(beforeInterface, accessibility + " partial interface I" + c.name, TypeParameterList(c.typeParameters, true));
    builder.AppendLine("\n{");
    AppendMembers(builder, c.members);
    builder.AppendLine("}");
    r := builder.contents;
    assert r == Layout(c.ns, PartialTypeLine(accessModifier.value, typeKind.value, c), DocsText(c.docs, ""),
      InterfaceHeader(c), MembersText(c.members));
    LayoutStartsWithNullable(c.ns, PartialTypeLine(accessModifier.value, typeKind.value, c), DocsText(c.docs, ""),
      InterfaceHeader(c), MembersText(c.members));
  }

  // ----- properties of the output -----

  /** Doc comments: the emitted lines are exactly the non-blank lines of the
      documentation, in order, each behind the indent and `/// `; a line feed follows each. */
  lemma DocsTextLines(docs: string, indent: string)
    requires '\n' !in indent
    ensures Split(DocsText(Some(docs), indent), '\n') == DocLines(docs, indent) + [""]
    ensures |Kept(DocLine(indent), Split(docs, '\n'))| == |DocLines(docs, indent)|
    ensures forall k :: 0 <= k < |DocLines(docs, indent)| ==>
      var piece := Split(docs, '\n')[Kept(DocLine(indent), Split(docs, '\n'))[k]];
      !IsBlank(piece) && DocLines(docs, indent)[k] == indent + "/// " + piece
    ensures forall i :: 0 <= i < |Split(docs, '\n')| && !IsBlank(Split(docs, '\n')[i]) ==>
      i in Kept(DocLine(indent), Split(docs, '\n'))
  {
    var pieces := Split(docs, '\n');
    var lines := DocLines(docs, indent);
    FilterMapKept(DocLine(indent), pieces);
    forall k | 0 <= k < |lines|
      ensures '\n' !in lines[k]
    {
      var piece := pieces[Kept(DocLine(indent), pieces)[k]];
      assert lines[k] == indent + "/// " + piece;
    }
    SplitLines(lines);
  }

  /** The member list text is the texts of its parts. */
  lemma MembersTextAppend(a: seq<Member>, b: seq<Member>)
    ensures MembersText(a + b) == MembersText(a) + MembersText(b)
  {
    MapAppend(MemberText, a, b);
    FlattenAppend(Map(MemberText, a), Map(MemberText, b));
  }

  /** A skipped member (a property without accessors, an indexer without accessors or
      parameters) leaves no trace in the interface body. */
  lemma SkippedMemberInvisible(a: seq<Member>, m: Member, b: seq<Member>)
    requires IsSkipped(m)
    ensures MembersText(a + [m] + b) == MembersText(a + b)
  {
    assert MemberText(m) == "";
    FlattenMapDrop(MemberText, a, m, b);
  }

  /** A member of one of the kinds the parser produces ends its text with a line feed, so
      the next member, or the closing brace, starts on a line of its own. */
  lemma MemberTextEndsLine(m: Member)
    requires !IsSkipped(m) && m.kind != Undefined
    ensures EndsWith(MemberText(m), NewLine)
  {
    var head := DocsText(m.docs, Indent) + Indent + RefPrefix(m) + (m.returnType + " ");
    var line := match m.kind
      case Indexer => "this[" + ParameterList(m) + "] { " + Join(" ", m.accessors) + " }"
      case Property => m.name + " { " + Join(" ", m.accessors) + " }"
      case _ => m.name + TypeParameterList(m.typeParameters, false) + "(" + ParameterList(m) + ");";
    assert Signature(m) == line + NewLine;
    EndsWithAfter(line, NewLine, NewLine);
    EndsWithAfter(head, Signature(m), NewLine);
  }

  /** Forgetting the variance of a type parameter. */
  function Invariantly(tp: TypeParameter): TypeParameter
  {
    TypeParameter(tp.name, Invariant)
  }

  /** Without variance the list is the names, in order, with no separator between them. */
  lemma TypeParameterListNames(typeParameters: seq<TypeParameter>)
    requires typeParameters != []
    ensures TypeParameterList(typeParameters, false)
      == "<" + Flatten(Map((tp: TypeParameter) => tp.name, typeParameters)) + ">"
  {
    var texts := Map(TypeParameterText(false), typeParameters);
    var names := Map((tp: TypeParameter) => tp.name, typeParameters);
    forall k | 0 <= k < |typeParameters|
      ensures texts[k] == names[k]
    {
      assert texts[k] == "" + typeParameters[k].name;
    }
    assert texts == names;
  }

  /** Variance is printed only where asked for: the list without variance is the list of
      the same type parameters made invariant, with or without variance. */
  lemma VarianceOnlyWhenAsked(typeParameters: seq<TypeParameter>)
    ensures TypeParameterList(typeParameters, false) == TypeParameterList(Map(Invariantly, typeParameters), true)
    ensures TypeParameterList(typeParameters, false) == TypeParameterList(Map(Invariantly, typeParameters), false)
  {
    var plain := Map(Invariantly, typeParameters);
    var texts := Map(TypeParameterText(false), typeParameters);
    forall k | 0 <= k < |typeParameters|
      ensures texts[k] == Map(TypeParameterText(true), plain)[k] == Map(TypeParameterText(false), plain)[k]
    {
      assert plain[k].variance == Invariant;
    }
    assert texts == Map(TypeParameterText(true), plain);
    assert texts == Map(TypeParameterText(false), plain);
  }

  /** A method's signature never shows the variance of its type parameters. */
  lemma MethodSignatureIgnoresVariance(m: Member)
    ensures MethodSignature(m) == MethodSignature(m.(typeParameters := Map(Invariantly, m.typeParameters)))
  {
    VarianceOnlyWhenAsked(m.typeParameters);
  }

  /** The text before the interface header, and the header line, are prefixes of the
      layout; the member texts and the closing brace are its end. */
  lemma LayoutParts(ns: string, partialTypeLine: string, docs: string, header: string, members: string)
    ensures var text := Layout(ns, partialTypeLine, docs, header, members);
      var before := NullableLine + NamespaceText(ns) + partialTypeLine + NewLine + docs;
      && NullableLine + NamespaceText(ns) + partialTypeLine <= text
      && before + header + "\n{" + NewLine <= text
      && text == before + header + "\n{" + NewLine + (members + "}" + NewLine)
  {
    var a := NullableLine + NamespaceText(ns) + partialTypeLine;
    var before := a + NewLine + docs;
    var b := before + header + "\n{" + NewLine;
    PrefixGrows(a, a, NewLine);
    PrefixGrows(a, a + NewLine, docs);
    PrefixGrows(a, before, header);
    PrefixGrows(a, before + header, "\n{");
    PrefixGrows(a, before + header + "\n{", NewLine);
    PrefixGrows(a, b, members);
    PrefixGrows(a, b + members, "}");
    PrefixGrows(a, b + members + "}", NewLine);
    PrefixGrows(b, b, members);
    PrefixGrows(b, b + members, "}");
    PrefixGrows(b, b + members + "}", NewLine);
    Regroup(b, members, "}");
    Regroup(b, members + "}", NewLine);
  }

  lemma LayoutStartsWithNullable(ns: string, partialTypeLine: string, docs: string, header: string, members: string)
    ensures NullableLine <= Layout(ns, partialTypeLine, docs, header, members)
  {
    LayoutParts(ns, partialTypeLine, docs, header, members);
    PrefixGrows(NullableLine, NullableLine, NamespaceText(ns) + partialTypeLine);
    Regroup(NullableLine, NamespaceText(ns), partialTypeLine);
  }

  /** In any layout whose partial type line does not itself look like a namespace line,
      the namespace line follows `#nullable enable` exactly when the namespace is non-empty. */
  lemma LayoutNamespaceLine(ns: string, partialTypeLine: string, docs: string, header: string, members: string)
    requires |partialTypeLine| >= 2 && partialTypeLine[1] != 'n'
    ensures var text := Layout(ns, partialTypeLine, docs, header, members);
      && |NullableLine| <= |text|
      && (|ns| > 0 <==> "\nnamespace " <= text[|NullableLine|..])
      && (|ns| > 0 ==> NullableLine + "\nnamespace " + ns + ";" + NewLine <= text)
  {
    var text := Layout(ns, partialTypeLine, docs, header, members);
    var a := NullableLine + NamespaceText(ns) + partialTypeLine;
    LayoutParts(ns, partialTypeLine, docs, header, members);
    assert a <= text;
    var n := |NullableLine|;
    if |ns| == 0 {
      assert a == NullableLine + partialTypeLine;
      assert text[n + 1] == a[n + 1] == partialTypeLine[1];
      assert "\nnamespace "[1] == 'n';
    } else {
      var line := NullableLine + NamespaceText(ns);
      PrefixGrows(line, line, partialTypeLine);
      Regroup(NullableLine, "\nnamespace " + ns + ";", NewLine);
      assert line == NullableLine + "\nnamespace " + ns + ";" + NewLine;
      assert text[n..n + 11] == line[n..n + 11] == "\nnamespace ";
    }
  }

  /** In any layout, the interface header follows the partial type line and the docs. */
  lemma LayoutHeader(ns: string, partialTypeLine: string, docs: string, header: string, members: string)
    ensures var before := NullableLine + NamespaceText(ns) + partialTypeLine + NewLine + docs;
      var text := Layout(ns, partialTypeLine, docs, header, members);
      |before| <= |text| && header + "\n{" + NewLine <= text[|before|..]
  {
    var before := NullableLine + NamespaceText(ns) + partialTypeLine + NewLine + docs;
    var text := Layout(ns, partialTypeLine, docs, header, members);
    LayoutParts(ns, partialTypeLine, docs, header, members);
    Regroup(before, header, "\n{");
    Regroup(before, header + "\n{", NewLine);
    assert before + (header + "\n{" + NewLine) <= text;
  }

  /** In any layout, the member texts close the file, followed by the closing brace. */
  lemma LayoutMembersLast(ns: string, partialTypeLine: string, docs: string, header: string, members: string)
    ensures var text := Layout(ns, partialTypeLine, docs, header, members);
      var closing := members + "}" + NewLine;
      |closing| <= |text| && text[|text| - |closing|..] == closing
  {
    LayoutParts(ns, partialTypeLine, docs, header, members);
  }

  /** The partial type line starts with a line feed and the access modifier. */
  lemma PartialTypeLineStart(accessModifier: string, typeKind: string, c: DefaultImplementationClass)
    requires accessModifier != ""
    ensures var line := PartialTypeLine(accessModifier, typeKind, c);
      |line| >= 2 && line[0] == '\n' && line[1] == accessModifier[0]
  {
    var line := PartialTypeLine(accessModifier, typeKind, c);
    PrefixGrows("\n" + accessModifier, "\n" + accessModifier, line[1 + |accessModifier|..]);
    assert "\n" + accessModifier <= line;
  }

  /** The output begins with `#nullable enable`, followed by the namespace line exactly
      when the namespace is non-empty. */
  lemma EmittedNamespaceLine(c: DefaultImplementationClass)
    requires EmittedText(c) != ""
    ensures NullableLine <= EmittedText(c)
    ensures |c.ns| > 0 <==> "\nnamespace " <= EmittedText(c)[|NullableLine|..]
    ensures |c.ns| > 0 ==> NullableLine + "\nnamespace " + c.ns + ";" + NewLine <= EmittedText(c)
  {
    var am := AccessModifierMap(c.accessibility).value;
    var line := PartialTypeLine(am, TypeKindMap(c.kind).value, c);
    PartialTypeLineStart(am, TypeKindMap(c.kind).value, c);
    assert am[0] != 'n';
    LayoutStartsWithNullable(c.ns, line, DocsText(c.docs, ""), InterfaceHeader(c), MembersText(c.members));
    LayoutNamespaceLine(c.ns, line, DocsText(c.docs, ""), InterfaceHeader(c), MembersText(c.members));
  }

  /** The interface is named `I` + the class name, is declared `public` exactly when the
      class model says so (`internal` otherwise), and opens its body right after its
      type parameters. */
  lemma EmittedInterfaceDeclaration(c: DefaultImplementationClass)
    requires EmittedText(c) != ""
    ensures exists i :: 0 <= i <= |EmittedText(c)| && InterfaceHeader(c) + "\n{" + NewLine <= EmittedText(c)[i..]
    ensures InterfaceHeader(c)
      == (if c.isPublic then "public" else "internal") + " partial interface I" + c.name
         + TypeParameterList(c.typeParameters, true)
  {
    var am := AccessModifierMap(c.accessibility).value;
    var line := PartialTypeLine(am, TypeKindMap(c.kind).value, c);
    LayoutHeader(c.ns, line, DocsText(c.docs, ""), InterfaceHeader(c), MembersText(c.members));
  }

  /** The interface body ends the file: the member texts, then the closing brace. */
  lemma EmittedMembersLast(c: DefaultImplementationClass)
    requires EmittedText(c) != ""
    ensures var closing := MembersText(c.members) + "}" + NewLine;
      |closing| <= |EmittedText(c)| && EmittedText(c)[|EmittedText(c)| - |closing|..] == closing
  {
    var am := AccessModifierMap(c.accessibility).value;
    var line := PartialTypeLine(am, TypeKindMap(c.kind).value, c);
    LayoutMembersLast(c.ns, line, DocsText(c.docs, ""), InterfaceHeader(c), MembersText(c.members));
  }

  /** Skipping is visible in the whole file: a class with an extra skipped member emits
      the same text. */
  lemma EmitIgnoresSkippedMember(c: DefaultImplementationClass, a: seq<Member>, m: Member, b: seq<Member>)
    requires IsSkipped(m)
    ensures EmittedText(c.(members := a + [m] + b)) == EmittedText(c.(members := a + b))
  {
    SkippedMemberInvisible(a, m, b);
  }
}
