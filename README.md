# Kehlet.Generators.AutoInterface in Dafny

Kehlet.Generators.AutoInterface is a C# source generator that writes interfaces for
partial types. Its three pipelines run over the compiler's symbol model. Here they run
over plain records that stand in for the symbols (module `Symbols`), and the
compiler-facing plumbing is left out.

- **Default implementations.** `InterfaceGenerator.Parser` reads a class or struct marked
  `[DefaultImplementation]`. It builds a `DefaultImplementationClass` with these parts:
  - the public, non-excluded properties, indexers and ordinary methods, in declaration order;
  - their accessors, parameters and type parameters;
  - for the class's own type parameters, the variance taken from the `In`/`Out`
    attributes.

  `InterfaceGenerator.Emitter` writes the file from that model:
  - `#nullable enable`;
  - the namespace line;
  - the `partial` type line;
  - the doc comments;
  - the `partial interface I<Name>` with one signature per member.

  The parser's loops and the emitter's `StringBuilder` steps are methods with loop
  invariants. Each is proved equal to a function that states the output. Modules:
  `InterfaceModel`, `InterfaceParser`, `InterfaceEmitter`.
- **`FromMembers` generators.** They serve a partial interface marked
  `[FromInstanceMembers]` or `[FromStaticMembers]`.
  - `FromMembers/Parser` selects the public ordinary methods of a source type that the
    generator wants. When a void type `U` is configured, it substitutes `U` for `void`
    and `Task<U>` / `ValueTask<U>` for non-generic `Task` / `ValueTask`. It also collects
    the `using` imports.
  - `FromMembers/Emitter` turns each method into a declaration, optionally forwarding to
    the source. The body is an expression body, a block returning `default`, or an
    `async` block awaiting the call.
  - The two `Execute` assemblers put the file together and choose its hint name.

  The well-known `Task` types are a lazily filled static cache. It is modelled as the
  `WellKnownTypes` class. Modules: `FromMembersModels`, `FromMembersParser`,
  `FromMembersEmitter`, `FromMembersInstanceGenerator`, `FromMembersStaticGenerator`,
  with `Imports`, `GeneratedText` and `Syntax` shared between them.
- **Top-level `FromInstanceMembersGenerator` / `FromStaticMembersGenerator`.** These are
  the older generators.
  - The void type's name replaces only a `void` return type.
  - `HasCustomVoidType` is set from `ReturnsVoid` alone.
  - The file layout differs slightly from the `FromMembers` generators, and so does the
    hint name (`.AutoInterface.g.cs`).

  Modules: `LegacyMembers` (the code the two files share), `LegacyInstanceGenerator`,
  `LegacyStaticGenerator`.

Helper modules:
- `Maybe` holds `Option` and `Result`.
- `Seqs` holds the LINQ operators as sequence functions with their lemmas: `Select`,
  `Where`/`Select`, `SelectMany`, `Distinct`, and the throwing `Select` as `Traverse`.
- `Text` holds `string.Join`, `string.Split`, `IsNullOrWhiteSpace`, containment, and a
  `StringBuilder` class.

## Model

| member | source | states |
|---|---|---|
| InterfaceModel.ParameterText | Kehlet.Generators.AutoInterface/InterfaceGenerator.Parser.cs:228-233 | the text starts with the declaration; it is the declaration alone when there is no default, otherwise it continues with a space and the default text (nothing for a null default) |
| InterfaceParser.IsPublic | Kehlet.Generators.AutoInterface/InterfaceGenerator.Parser.cs:16 | the interface is not public exactly when the attribute has a first constructor argument whose value is 1 |
| InterfaceParser.VarianceOf | Kehlet.Generators.AutoInterface/InterfaceGenerator.Parser.cs:103-139 | covariant iff variance is allowed and `Out` is present; contravariant iff allowed, `In` present and `Out` absent; invariant otherwise |
| InterfaceParser.ToMember | Kehlet.Generators.AutoInterface/InterfaceGenerator.Parser.cs:47-87 | a member is kept iff its symbol exists, is public, has no `Exclude` attribute and is a property or an ordinary method; a kept member keeps its name; it is an indexer iff it is an indexer property and a method iff it is a method; it never has the default kind |
| InterfaceParser.GetTypeParameters | Kehlet.Generators.AutoInterface/InterfaceGenerator.Parser.cs:93-143 | one type parameter per input, in order, each with its name and the variance `VarianceOf` gives |
| InterfaceParser.GetParameters | Kehlet.Generators.AutoInterface/InterfaceGenerator.Parser.cs:145-170 | one parameter per input, in order, with its declaration, whether it has a default and the default text |
| InterfaceParser.GetAccessors | Kehlet.Generators.AutoInterface/InterfaceGenerator.Parser.cs:172-186 | at most two entries; `get;` iff the getter is public; `set;` / `init;` iff the setter is public and (not) init-only; `get;` comes first |
| InterfaceParser.GetPublicMembers | Kehlet.Generators.AutoInterface/InterfaceGenerator.Parser.cs:34-91 | the loop builds exactly the kept members in declaration order (empty for no members) |
| InterfaceParser.GetClass | Kehlet.Generators.AutoInterface/InterfaceGenerator.Parser.cs:12-31 | namespace, name, accessibility, kind and docs are the symbol's; `IsPublic` as above; type parameters with variance allowed; members as `GetPublicMembers` |
| InterfaceParser.PublicMembersMember | Kehlet.Generators.AutoInterface/InterfaceGenerator.Parser.cs:43-87 | a member is in the result iff some declaration converts to it |
| InterfaceParser.PublicMembersOrder | Kehlet.Generators.AutoInterface/InterfaceGenerator.Parser.cs:36-90 | the k-th result comes from the k-th kept declaration, the kept positions increase, and every kept declaration is among them |
| InterfaceParser.DroppedDeclarationsIrrelevant | Kehlet.Generators.AutoInterface/InterfaceGenerator.Parser.cs:47-57 | inserting a declaration that is not kept (null, not public, excluded, other kind) anywhere leaves the result unchanged |
| InterfaceParser.PublicMembersHaveKind | Kehlet.Generators.AutoInterface/InterfaceGenerator.Parser.cs:59-87 | every collected member is an indexer, a property or a method |
| InterfaceEmitter.AccessModifierMap | Kehlet.Generators.AutoInterface/InterfaceGenerator.Emitter.cs:13-22 | defined for exactly the six accessibilities other than `NotApplicable`; `public` iff Public, `internal` iff Internal |
| InterfaceEmitter.AccessModifierMapInjective | Kehlet.Generators.AutoInterface/InterfaceGenerator.Emitter.cs:13-22 | two accessibilities with the same defined modifier are equal |
| InterfaceEmitter.TypeKindMap | Kehlet.Generators.AutoInterface/InterfaceGenerator.Emitter.cs:24-29 | defined only for Class (`class`) and Struct (`struct`) |
| InterfaceEmitter.RefPrefix | Kehlet.Generators.AutoInterface/InterfaceGenerator.Emitter.cs:93-100 | `ref readonly ` iff by-ref-readonly (it wins over by-ref), `ref ` iff only by-ref, nothing otherwise |
| InterfaceEmitter.AppendTypeParameter | Kehlet.Generators.AutoInterface/InterfaceGenerator.Emitter.cs:159-173 | appends the variance prefix (when asked for) and the name |
| InterfaceEmitter.AppendTypeParameters | Kehlet.Generators.AutoInterface/InterfaceGenerator.Emitter.cs:144-158 | appends nothing for no type parameters, otherwise `<`, every type parameter's text, `>` |
| InterfaceEmitter.AppendEachTypeParameter | Kehlet.Generators.AutoInterface/InterfaceGenerator.Emitter.cs:152-155 | the loop appends the texts of all type parameters, in order |
| InterfaceEmitter.EmitTypeParameters | Kehlet.Generators.AutoInterface/InterfaceGenerator.Emitter.cs:176-188 | the type parameter list as its own string, empty iff there are no type parameters |
| InterfaceEmitter.AppendDocs | Kehlet.Generators.AutoInterface/InterfaceGenerator.Emitter.cs:190-207 | null docs append nothing; otherwise one doc line per non-blank piece |
| InterfaceEmitter.AppendDocLines | Kehlet.Generators.AutoInterface/InterfaceGenerator.Emitter.cs:198-206 | the loop appends, as lines, the doc lines of the non-blank pieces in order |
| InterfaceEmitter.DocLinesSnoc | Kehlet.Generators.AutoInterface/InterfaceGenerator.Emitter.cs:200-205 | a blank piece adds no line; any other piece adds `indent + "/// " + piece` |
| InterfaceEmitter.DocsTextLines | Kehlet.Generators.AutoInterface/InterfaceGenerator.Emitter.cs:190-207 | split on line feeds, the doc text is exactly the non-blank pieces of the docs, in order, each behind the indent and `/// `, each ended by a line feed; every non-blank piece appears |
| InterfaceEmitter.AppendIndexerSignature | Kehlet.Generators.AutoInterface/InterfaceGenerator.Emitter.cs:119-126 | appends `this[params] { accessors }` and a line feed |
| InterfaceEmitter.AppendPropertySignature | Kehlet.Generators.AutoInterface/InterfaceGenerator.Emitter.cs:128-133 | appends `Name { accessors }` and a line feed |
| InterfaceEmitter.AppendMethodSignature | Kehlet.Generators.AutoInterface/InterfaceGenerator.Emitter.cs:135-142 | appends `Name<T..>(p1, p2);` (type parameters without variance) and a line feed |
| InterfaceEmitter.AppendMembers | Kehlet.Generators.AutoInterface/InterfaceGenerator.Emitter.cs:73-117 | the loop appends the texts of all members, in order |
| InterfaceEmitter.AppendMember | Kehlet.Generators.AutoInterface/InterfaceGenerator.Emitter.cs:82-115 | appends nothing for a skipped member, otherwise its docs, indent, ref prefix, return type and signature |
| InterfaceEmitter.Emit | Kehlet.Generators.AutoInterface/InterfaceGenerator.Emitter.cs:31-71 | the output is the laid-out file; it is empty iff the accessibility or the type kind is unmapped (the header written before is discarded), and otherwise starts with `#nullable enable` |
| InterfaceEmitter.MembersTextAppend | Kehlet.Generators.AutoInterface/InterfaceGenerator.Emitter.cs:80-116 | the text of a concatenation of member lists is the concatenation of their texts |
| InterfaceEmitter.SkippedMemberInvisible | Kehlet.Generators.AutoInterface/InterfaceGenerator.Emitter.cs:82-87 | a property without accessors, or an indexer without accessors or parameters, contributes nothing wherever it stands |
| InterfaceEmitter.MemberTextEndsLine | Kehlet.Generators.AutoInterface/InterfaceGenerator.Emitter.cs:104-142 | a member that is not skipped and is an indexer, a property or a method (the only kinds the parser produces) ends its text with a line feed, because each signature ends with `AppendLine`; the next member or the closing brace starts on a new line |
| InterfaceEmitter.TypeParameterListNames | Kehlet.Generators.AutoInterface/InterfaceGenerator.Emitter.cs:151-157 | without variance the list is `<`, the names in order with no separator, `>` |
| InterfaceEmitter.VarianceOnlyWhenAsked | Kehlet.Generators.AutoInterface/InterfaceGenerator.Emitter.cs:161-170 | the list without variance equals the list of the same names all made invariant, with or without variance |
| InterfaceEmitter.MethodSignatureIgnoresVariance | Kehlet.Generators.AutoInterface/InterfaceGenerator.Emitter.cs:138 | a method signature does not depend on its type parameters' variance |
| InterfaceEmitter.LayoutParts | Kehlet.Generators.AutoInterface/InterfaceGenerator.Emitter.cs:35-68 | the file is nullable line, namespace text and partial type line, then docs and interface header with `{`, then members and `}` |
| InterfaceEmitter.LayoutStartsWithNullable | Kehlet.Generators.AutoInterface/InterfaceGenerator.Emitter.cs:35 | any layout begins with `#nullable enable` |
| InterfaceEmitter.LayoutNamespaceLine | Kehlet.Generators.AutoInterface/InterfaceGenerator.Emitter.cs:36-39 | the namespace line follows the nullable line iff the namespace is non-empty |
| InterfaceEmitter.LayoutHeader | Kehlet.Generators.AutoInterface/InterfaceGenerator.Emitter.cs:59-66 | the interface header and `{` follow the partial type line and the docs |
| InterfaceEmitter.LayoutMembersLast | Kehlet.Generators.AutoInterface/InterfaceGenerator.Emitter.cs:66-68 | the member texts and `}` end the file |
| InterfaceEmitter.PartialTypeLineStart | Kehlet.Generators.AutoInterface/InterfaceGenerator.Emitter.cs:53-57 | the partial type line begins with a line feed and then the access modifier |
| InterfaceEmitter.EmittedNamespaceLine | Kehlet.Generators.AutoInterface/InterfaceGenerator.Emitter.cs:35-39 | a non-empty output starts with `#nullable enable`, directly followed by `namespace N;` iff the namespace is non-empty |
| InterfaceEmitter.EmittedInterfaceDeclaration | Kehlet.Generators.AutoInterface/InterfaceGenerator.Emitter.cs:61-66 | the output contains `public` (iff `IsPublic`, else `internal`) `partial interface I<Name>` with the variance-annotated type parameters, then `{` |
| InterfaceEmitter.EmittedMembersLast | Kehlet.Generators.AutoInterface/InterfaceGenerator.Emitter.cs:66-70 | the output ends with the member texts and the closing brace |
| InterfaceEmitter.EmitIgnoresSkippedMember | Kehlet.Generators.AutoInterface/InterfaceGenerator.Emitter.cs:84-86 | adding a skipped member anywhere does not change the output |
| FromMembersParser.WellKnownTypes.constructor | Kehlet.Generators.AutoInterface/FromMembers/Parser.cs:10-13 | the four cached types start null |
| FromMembersParser.WellKnownTypes.Load | Kehlet.Generators.AutoInterface/FromMembers/Parser.cs:17-20 | each cached type is assigned from the compilation only when still null, and all are set afterwards |
| FromMembersParser.ReturnTypeOf | Kehlet.Generators.AutoInterface/FromMembers/Parser.cs:31-37 | `Custom` iff a void type is given and the method returns void (type `U`); `CustomTask` iff a void type is given, the method is not void and returns non-generic `Task` / `ValueTask` (type `Task<U>` / `ValueTask<U>`); `Normal` otherwise, keeping the return type; never another value |
| FromMembersParser.EntryOf | Kehlet.Generators.AutoInterface/FromMembers/Parser.cs:38-49 | name, projected return type display and handling; one parameter and one argument (the parameter's name) per method parameter, in order; the namespaces of the projected return type and of each parameter type |
| FromMembersParser.IsTask | Kehlet.Generators.AutoInterface/FromMembers/Parser.cs:67-68 | true iff the symbol equals the cached `System.Threading.Tasks.Task` |
| FromMembersParser.IsValueTask | Kehlet.Generators.AutoInterface/FromMembers/Parser.cs:70-71 | true iff the symbol equals the cached `ValueTask`; when the two cached types differ, no symbol is both |
| FromMembersParser.ParseDetails | Kehlet.Generators.AutoInterface/FromMembers/Parser.cs:22-64 | partial type name and namespace from the target, source type name, `Implement`, at most one method per source member, imports without duplicates |
| FromMembersParser.Parse | Kehlet.Generators.AutoInterface/FromMembers/Parser.cs:15-65 | loads the cache (unchanged when already loaded, the compilation's types when empty), then the details computed from the cached types |
| FromMembersParser.SelectedIndices | Kehlet.Generators.AutoInterface/FromMembers/Parser.cs:27-30 | the positions of the selected members, increasing, containing every public ordinary method the predicate accepts |
| FromMembersParser.ParsedMethodsOrder | Kehlet.Generators.AutoInterface/FromMembers/Parser.cs:27-52 | the k-th method comes from the k-th selected member, in `GetMembers` order |
| FromMembersParser.ParsedMethodMember | Kehlet.Generators.AutoInterface/FromMembers/Parser.cs:27-52 | a method is produced iff some public ordinary member method accepted by the predicate yields it |
| FromMembersParser.ParsedMethodsWellFormed | Kehlet.Generators.AutoInterface/FromMembers/Parser.cs:31-48 | every method has as many arguments as parameters and a known handling |
| FromMembersParser.NoVoidTypeAllNormal | Kehlet.Generators.AutoInterface/FromMembers/Parser.cs:31-37 | without a void type every method is handled `Normal` |
| FromMembersParser.EntriesMention | Kehlet.Generators.AutoInterface/FromMembers/Parser.cs:40-54 | some collected member mentions a namespace iff some selected member's entry does |
| FromMembersParser.ParsedImportsMember | Kehlet.Generators.AutoInterface/FromMembers/Parser.cs:40-59 | a namespace is imported iff it is the source type's, the void type's, or that of a projected return type or parameter type of a selected method (nulls never) |
| Imports.CollectImports | Kehlet.Generators.AutoInterface/FromMembers/Parser.cs:54-59 | the imports contain no duplicates |
| Imports.CollectImportsMember | Kehlet.Generators.AutoInterface/FromMembers/Parser.cs:54-59 | a namespace is imported iff it is the source type's, the void type's or one a member mentions |
| FromMembersEmitter.ExpressionBody | Kehlet.Generators.AutoInterface/FromMembers/Emitter.cs:27-30 | begins with ` =>` and contains the call |
| FromMembersEmitter.BlockBody | Kehlet.Generators.AutoInterface/FromMembers/Emitter.cs:33-39 | opens a block, contains the statement, ends with `return default;` and `}` |
| FromMembersEmitter.MethodCall | Kehlet.Generators.AutoInterface/FromMembers/Emitter.cs:23 | `source.Name(args);`: starts with the receiver, a dot, the name and `(`, ends with `);`, and the arguments read back from between them |
| FromMembersEmitter.EmitBody | Kehlet.Generators.AutoInterface/FromMembers/Emitter.cs:16-53 | throws iff implementing with an unknown handling; `;` and not async without an implementation; otherwise `Normal` an expression body, `Custom` a block, `CustomTask` a block awaiting the call; async iff implementing `CustomTask`; every implemented body contains `source.Name(args);` |
| FromMembersEmitter.EmitMethod | Kehlet.Generators.AutoInterface/FromMembers/Emitter.cs:7-14 | throws iff the body throws; the text is exactly the declaration `[async ]ReturnType Name(params)` followed by the body `EmitBody` gives for the joined arguments; without an implementation that is the declaration and `;`; with one it contains the call with the joined arguments, ends with the expression body of that call for `Normal` handling and with the block tail `return default;` / `}` for the custom handlings |
| FromMembersEmitter.EmitMethods | Kehlet.Generators.AutoInterface/FromMembers/FromInstanceMembersGenerator.cs:60-62 | succeeds iff not implementing or no method has an unknown handling; then one text per method, in order, each `EmitMethod`'s |
| Syntax.AsTypeDeclaration | Kehlet.Generators.AutoInterface/Extensions/Extensions.cs:7-9 | the cast succeeds iff the node is a type declaration, and fails with an invalid cast otherwise |
| GeneratedText.ImportsTextLines | Kehlet.Generators.AutoInterface/FromMembers/FromInstanceMembersGenerator.cs:74-76 | the imports text split on line feeds is one `using X;` per import, in order |
| GeneratedText.ImportsTextContains | Kehlet.Generators.AutoInterface/FromMembers/FromInstanceMembersGenerator.cs:74-76 | the imports text contains the `using` directive of every import |
| GeneratedText.FlattenContainsNamespace | Kehlet.Generators.AutoInterface/FromMembers/FromInstanceMembersGenerator.cs:70-72 | a file with a namespace declaration contains `namespace N;` |
| FromMembersInstanceGenerator.Transform | Kehlet.Generators.AutoInterface/FromMembers/FromInstanceMembersGenerator.cs:55-56 | parses with the non-static predicate, loading the cache |
| FromMembersInstanceGenerator.Filter | Kehlet.Generators.AutoInterface/FromMembers/FromInstanceMembersGenerator.cs:49-51 | accepts a node iff it is an interface declaration with a `partial` modifier among its modifiers; everything it accepts is a type declaration |
| FromMembersInstanceGenerator.TransformSelectsInstanceMethods | Kehlet.Generators.AutoInterface/FromMembers/FromInstanceMembersGenerator.cs:55-56 | every generated method comes from a public, ordinary, non-static method of the source type with its name |
| FromMembersInstanceGenerator.InstanceProperty | Kehlet.Generators.AutoInterface/FromMembers/FromInstanceMembersGenerator.cs:78-80 | empty without an implementation; otherwise a line of its own, starting with a line break and a tab and ending with a line break, that holds `protected Source Instance { get; }` |
| FromMembersInstanceGenerator.Execute | Kehlet.Generators.AutoInterface/FromMembers/FromInstanceMembersGenerator.cs:58-96 | fails iff the emitter throws for some method, with `ArgumentOutOfRangeException`; the hint name is `Name.g.cs` |
| FromMembersInstanceGenerator.ExecuteFrame | Kehlet.Generators.AutoInterface/FromMembers/FromInstanceMembersGenerator.cs:82-94 | the file starts with `#nullable enable`, contains `partial interface Name` and `{`, and ends with `}` |
| FromMembersInstanceGenerator.ExecuteMembers | Kehlet.Generators.AutoInterface/FromMembers/FromInstanceMembersGenerator.cs:60-68 | the file contains every emitted method, forwarding to `Instance`, and every property text |
| FromMembersInstanceGenerator.ExecuteDeclarations | Kehlet.Generators.AutoInterface/FromMembers/FromInstanceMembersGenerator.cs:70-80 | the file contains a `using` per import, the namespace line when there is a namespace, and `protected Source Instance { get; }` when implementing |
| FromMembersInstanceGenerator.ExecuteLayout | Kehlet.Generators.AutoInterface/FromMembers/FromInstanceMembersGenerator.cs:82-94 | the file begins with `#nullable enable`, a blank line, the imports, the namespace declaration (after a blank line, and only when there is a namespace), a blank line, the interface head and the `Instance` property; it ends with a line break and a tab, the properties, a member separator, the emitted methods joined by a blank line and a tab, and the closing brace |
| FromMembersInstanceGenerator.ParsedDetailsGenerate | Kehlet.Generators.AutoInterface/FromMembers/FromInstanceMembersGenerator.cs:55-62 | details the parser produced never make the emitter throw |
| FromMembersStaticGenerator.Transform | Kehlet.Generators.AutoInterface/FromMembers/FromStaticMembersGenerator.cs:55-56 | parses with the static predicate, loading the cache |
| FromMembersStaticGenerator.Filter | Kehlet.Generators.AutoInterface/FromMembers/FromStaticMembersGenerator.cs:49-51 | accepts a node iff it is an interface declaration with a `partial` modifier; everything it accepts is a type declaration |
| FromMembersStaticGenerator.TransformSelectsStaticMethods | Kehlet.Generators.AutoInterface/FromMembers/FromStaticMembersGenerator.cs:55-56 | every generated method comes from a public, ordinary, static method of the source type with its name |
| FromMembersStaticGenerator.Execute | Kehlet.Generators.AutoInterface/FromMembers/FromStaticMembersGenerator.cs:58-92 | fails iff the emitter throws for some method, with `ArgumentOutOfRangeException`; the hint name is `Name.g.cs` |
| FromMembersStaticGenerator.ExecuteContents | Kehlet.Generators.AutoInterface/FromMembers/FromStaticMembersGenerator.cs:60-90 | the file starts with `#nullable enable`, contains the interface head, every method forwarding to the source type and every property text, and ends with `}` |
| FromMembersStaticGenerator.ExecuteLayout | Kehlet.Generators.AutoInterface/FromMembers/FromStaticMembersGenerator.cs:78-90 | whether or not it implements, the file begins with `#nullable enable`, a blank line, the imports, the namespace declaration when there is one, a blank line, the interface head and directly a line break and a tab, so there is no `Instance` property; it ends with the properties, a member separator, the methods emitted against the source type name, and the closing brace |
| FromMembersStaticGenerator.ParsedDetailsGenerate | Kehlet.Generators.AutoInterface/FromMembers/FromStaticMembersGenerator.cs:55-62 | details the parser produced never make the emitter throw |
| FromMembersStaticGenerator.EmitMethodsWithoutReceiver | Kehlet.Generators.AutoInterface/FromMembers/Emitter.cs:18-21 | without an implementation the receiver does not matter |
| FromMembersStaticGenerator.SameAsInstanceWithoutImplementation | Kehlet.Generators.AutoInterface/FromMembers/FromStaticMembersGenerator.cs:58-92 | without an implementation the static and instance assemblers produce the same file |
| LegacyMembers.ReturnTypeName | Kehlet.Generators.AutoInterface/FromInstanceMembersGenerator.cs:65-69 | the void type's name iff a void type is set and the method returns void, otherwise the return type's display |
| LegacyMembers.EntryOf | Kehlet.Generators.AutoInterface/FromInstanceMembersGenerator.cs:65-81 | name, return type as above, `HasCustomVoidType` equal to `ReturnsVoid`, one parameter and argument per parameter in order, namespaces of the original return type and the parameter types |
| LegacyMembers.Transform | Kehlet.Generators.AutoInterface/FromInstanceMembersGenerator.cs:53-97 | partial type from the target, source type name, `Implement`, at most one method per member, imports without duplicates |
| LegacyMembers.TransformMethodMember | Kehlet.Generators.AutoInterface/FromInstanceMembersGenerator.cs:60-84 | a method is produced iff some selected member yields it |
| LegacyMembers.SelectedIndices | Kehlet.Generators.AutoInterface/FromInstanceMembersGenerator.cs:60-64 | increasing positions containing every selected member |
| LegacyMembers.TransformOrder | Kehlet.Generators.AutoInterface/FromInstanceMembersGenerator.cs:60-84 | the k-th method comes from the k-th selected member |
| LegacyMembers.EntriesMention | Kehlet.Generators.AutoInterface/FromInstanceMembersGenerator.cs:72-86 | some collected member mentions a namespace iff some selected member's entry does |
| LegacyMembers.TransformImportsMember | Kehlet.Generators.AutoInterface/FromInstanceMembersGenerator.cs:72-91 | a namespace is imported iff it is the source type's, the void type's, or that of the original return type or a parameter type of a selected method |
| LegacyMembers.TransformMethodsWellFormed | Kehlet.Generators.AutoInterface/FromInstanceMembersGenerator.cs:70-71 | every method has as many arguments as parameters |
| LegacyMembers.EmitBody | Kehlet.Generators.AutoInterface/FromInstanceMembersGenerator.cs:134-159 | `;` without an implementation; a block returning `default` iff `HasCustomVoidType`; an expression body otherwise; every implemented body contains `receiver.Name(args);` |
| LegacyMembers.MemberText | Kehlet.Generators.AutoInterface/FromInstanceMembersGenerator.cs:101-105 | the text is exactly the declaration `ReturnType Name(params)` followed by the body `EmitBody` gives for the joined arguments; it is that declaration and `;` without an implementation; with one it contains the call, ends with `return default;` / `}` when the method has a custom void type, and with the expression body of the call otherwise |
| LegacyMembers.MemberTexts | Kehlet.Generators.AutoInterface/FromInstanceMembersGenerator.cs:101-105 | one text per method, in order |
| LegacyMembers.VoidWithoutVoidType | Kehlet.Generators.AutoInterface/FromInstanceMembersGenerator.cs:65-80 | a void method without a configured void type keeps `void` as its return type yet is implemented with a block ending in `return default;` |
| LegacyInstanceGenerator.InstanceTransform | Kehlet.Generators.AutoInterface/FromInstanceMembersGenerator.cs:53-97 | every method has as many arguments as parameters |
| LegacyInstanceGenerator.TransformSelectsInstanceMethods | Kehlet.Generators.AutoInterface/FromInstanceMembersGenerator.cs:60-64 | every method comes from a public, ordinary, non-static member with its name, and has a custom void type iff that member returns void |
| LegacyInstanceGenerator.Filter | Kehlet.Generators.AutoInterface/FromInstanceMembersGenerator.cs:49-51 | accepts a node iff it is an interface declaration with a `partial` modifier; everything it accepts is a type declaration |
| LegacyInstanceGenerator.InstanceProperty | Kehlet.Generators.AutoInterface/FromInstanceMembersGenerator.cs:115-117 | empty without an implementation; otherwise a line of its own, starting with a line break and a tab and ending with a line break, that holds `internal Source Instance { get; }` |
| LegacyInstanceGenerator.Execute | Kehlet.Generators.AutoInterface/FromInstanceMembersGenerator.cs:99-131 | the hint name is `Name.AutoInterface.g.cs` |
| LegacyInstanceGenerator.ExecuteMembers | Kehlet.Generators.AutoInterface/FromInstanceMembersGenerator.cs:101-129 | the file starts with `#nullable enable`, contains the interface head and every member text, and ends with `}` |
| LegacyInstanceGenerator.ExecuteDeclarations | Kehlet.Generators.AutoInterface/FromInstanceMembersGenerator.cs:107-117 | the file contains a `using` per import, the namespace line when there is one, and `internal Source Instance { get; }` when implementing |
| LegacyInstanceGenerator.ExecuteLayout | Kehlet.Generators.AutoInterface/FromInstanceMembersGenerator.cs:119-129 | the file begins with `#nullable enable`, a blank line, the imports, then the namespace line after a blank line when there is a namespace, a blank line, the interface head and the `Instance` property; it ends with a line break and a tab, the member texts forwarding to `Instance`, in method order and joined by a blank line and a tab, and the closing brace |
| LegacyStaticGenerator.Filter | Kehlet.Generators.AutoInterface/FromStaticMembersGenerator.cs:51-53 | a node that is not a type declaration makes the cast fail; otherwise it passes iff partial and an interface declaration |
| LegacyStaticGenerator.FilterAgreesWithInstance | Kehlet.Generators.AutoInterface/FromStaticMembersGenerator.cs:51-53 | on type declarations the filter agrees with the instance generator's |
| LegacyStaticGenerator.StaticTransform | Kehlet.Generators.AutoInterface/FromStaticMembersGenerator.cs:55-99 | every method has as many arguments as parameters |
| LegacyStaticGenerator.TransformSelectsStaticMethods | Kehlet.Generators.AutoInterface/FromStaticMembersGenerator.cs:62-66 | every method comes from a public, ordinary, static member with its name, and has a custom void type iff that member returns void |
| LegacyStaticGenerator.Execute | Kehlet.Generators.AutoInterface/FromStaticMembersGenerator.cs:101-156 | the hint name is `Name.AutoInterface.g.cs` |
| LegacyStaticGenerator.ExecuteContents | Kehlet.Generators.AutoInterface/FromStaticMembersGenerator.cs:130-154 | the file starts with `#nullable enable`, contains the head, every member text, a `using` per import and the namespace line, and ends with `}` |
| LegacyStaticGenerator.ExecuteLayout | Kehlet.Generators.AutoInterface/FromStaticMembersGenerator.cs:144-154 | the file begins with `#nullable enable`, then the namespace line right after a blank line when there is a namespace, then a blank line and the imports, a blank line and the interface head; it ends with a line break and a tab, the member texts forwarding to the source type, in method order and joined by a blank line and a tab, and the closing brace |

## Left out

- Roslyn symbol and semantic APIs (`GetDeclaredSymbol`, `GetAttributes`, `GetMembers`, `ToDisplayString`, `GetDocumentationCommentXml`, `GetTypeByMetadataName`, `Construct`, symbol equality, the syntax lookup of default values): their results are fields of the input records in `Symbols`; display strings are given.
- Generator registration and output (`Initialize`, `RegisterPostInitializationOutput`, `ForAttributeWithMetadataName`, `AddSource`, `SourceText`) and the whole of `InterfaceGenerator.cs`: only the hint name and the text are modelled.
- The constant attribute source templates and their hint names: fixed text without logic.
- `context.Attributes.First(...)` by attribute name: the attribute's arguments are given directly.
- Cancellation (`ThrowIfCancellationRequested`): no concurrency is modelled.
- `IsPartial()` is not part of this model's sources; it is modelled as the `partial` modifier being present on the node.
- FromMembersInstanceGenerator.Execute: the `AutoInterfaceDetails` record declares `ImmutableArray<Property> Properties` as the fifth of its six fields, but no code builds that field: `Parse` calls `new(...)` with only five arguments, which does not match the six-field record; `Emitter.EmitProperty` does not exist in FromMembers/Emitter.cs, and the `Property` type is not part of this model. The model's `AutoInterfaceDetails` therefore has the five fields `Parse` passes and drops the declared `Properties` field; the emitted property texts are a parameter of `Execute` instead, and no property-forwarding rule is modelled.
- FromMembersStaticGenerator.Execute: same treatment of the property texts as the instance assembler.
- FromMembersParser.WellKnownTypes.Load: a compilation lacking the `Task` types (where `!` would store null) is not modelled; the compilation always defines all four.
- The exact indentation of C# raw string literals: whitespace-only lines are modelled as empty lines, and line breaks are `\n` (`Environment.NewLine` is fixed).
- An unset `ImmutableArray` is modelled as the empty sequence.
- The static cache is shared across compilations in the source; the model passes one `WellKnownTypes` object explicitly.
- Casts that cannot fail on the generators' inputs (`Cast<INamedTypeSymbol>`, `Cast<bool>`) are not modelled; only the top-level static filter's cast to a type declaration, which can fail on other nodes, is.
