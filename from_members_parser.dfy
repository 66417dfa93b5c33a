/** `Parser.Parse` of the `FromMembers` generators: reads the attribute on a partial
    interface, selects the public ordinary methods of the named source type that the
    generator's predicate accepts, decides how each one's return value is produced, and
    collects the namespaces the generated interface must import. */
module FromMembersParser {
  import opened Maybe
  import opened Seqs
  import opened Symbols
  import opened FromMembersModels
  import opened Imports

  /** What `GetTypeByMetadataName` returns for `Task`, `ValueTask`, `Task<>` and
      `ValueTask<>` in the compilation being processed. */
  datatype Compilation = Compilation(task: TypeSymbol, valueTask: TypeSymbol, task1: TypeSymbol, valueTask1: TypeSymbol)

  /** The four well-known types once they are loaded. */
  datatype KnownTypes = KnownTypes(task: TypeSymbol, valueTask: TypeSymbol, task1: TypeSymbol, valueTask1: TypeSymbol)

  /** The four static fields the parser caches the well-known types in. */
  class WellKnownTypes {
    var taskType: Option<TypeSymbol>
    var valueTaskType: Option<TypeSymbol>
    var taskType1: Option<TypeSymbol>
    var valueTaskType1: Option<TypeSymbol>

    /** Before the first parse every field is null. */
    constructor()
      ensures taskType == None && valueTaskType == None && taskType1 == None && valueTaskType1 == None
    {
      taskType := None;
      valueTaskType := None;
      taskType1 := None;
      valueTaskType1 := None;
    }

    predicate Loaded()
      reads this
    {
      taskType.Some? && valueTaskType.Some? && taskType1.Some? && valueTaskType1.Some?
    }

    function Known(): KnownTypes
      reads this
      requires Loaded()
    {
      KnownTypes(taskType.value, valueTaskType.value, taskType1.value, valueTaskType1.value)
    }

    /** The four `??=` assignments: a field still null takes the compilation's type, a
        field already set keeps the type of the compilation that set it. */
    method Load(compilation: Compilation)
      modifies this
      ensures taskType == (if old(taskType).Some? then old(taskType) else Some(compilation.task))
      ensures valueTaskType == (if old(valueTaskType).Some? then old(valueTaskType) else Some(compilation.valueTask))
      ensures taskType1 == (if old(taskType1).Some? then old(taskType1) else Some(compilation.task1))
      ensures valueTaskType1 == (if old(valueTaskType1).Some? then old(valueTaskType1) else Some(compilation.valueTask1))
      ensures Loaded()
    {
      if taskType.None? {
        taskType := Some(compilation.task);
      }
      if valueTaskType.None? {
        valueTaskType := Some(compilation.valueTask);
      }
      if taskType1.None? {
        taskType1 := Some(compilation.task1);
      }
      if valueTaskType1.None? {
        valueTaskType1 := Some(compilation.valueTask1);
      }
    }
  }

  /** `IsTask`: symbol equality with the cached `Task`. */
  predicate IsTask(types: KnownTypes, other: TypeSymbol): (r: bool)
    ensures r <==> other == types.task
  {
    types.task == other
  }

  /** `IsValueTask`: symbol equality with the cached `ValueTask`. */
  predicate IsValueTask(types: KnownTypes, other: TypeSymbol): (r: bool)
    ensures r <==> other == types.valueTask
    ensures r && types.task != types.valueTask ==> !IsTask(types, other)
  {
    types.valueTask == other
  }

  /** The switch on `(voidType, ReturnsVoid, ReturnType)`: the return type the interface
      declares and how the forwarding body produces it. */
  function ReturnTypeOf(types: KnownTypes, voidType: Option<TypeSymbol>, m: MethodSymbol): (r: (TypeSymbol, ReturnTypeEnum))
    ensures r.1 == Custom <==> voidType.Some? && m.returnsVoid
    ensures r.1 == CustomTask <==> voidType.Some? && !m.returnsVoid && (IsTask(types, m.returnType) || IsValueTask(types, m.returnType))
    ensures r.1 == Normal <==> voidType.None? || (!m.returnsVoid && !IsTask(types, m.returnType) && !IsValueTask(types, m.returnType))
    ensures !r.1.Undefined?
    ensures r.1 == Normal ==> r.0 == m.returnType
    ensures r.1 == Custom ==> r.0 == voidType.value
    ensures r.1 == CustomTask ==>
      r.0 == Constructed(if IsTask(types, m.returnType) then types.task1 else types.valueTask1, voidType.value)
  {
    match voidType
    case Some(t) =>
      if m.returnsVoid then (t, Custom)
      else if IsTask(types, m.returnType) then (Constructed(types.task1, t), CustomTask)
      else if IsValueTask(types, m.returnType) then (Constructed(types.valueTask1, t), CustomTask)
      else (m.returnType, Normal)
    case None => (m.returnType, Normal)
  }

  /** The `where` clause: a public ordinary method the generator's predicate accepts. */
  predicate Selected(wanted: MethodSymbol -> bool, member: MemberSymbol)
  {
    member.MethodMember? && member.symbol.accessibility == Public && member.symbol.kind == Ordinary && wanted(member.symbol)
  }

  /** One row of the query: the namespaces the method mentions, and the method record. */
  datatype Entry = Entry(namespaces: seq<Option<string>>, forwarded: Method)

  /** The `let` and `select` clauses for one selected method. */
  function EntryOf(types: KnownTypes, voidType: Option<TypeSymbol>, m: MethodSymbol): (e: Entry)
    ensures e.forwarded.name == m.name
    ensures e.forwarded.returnTypeHandling == ReturnTypeOf(types, voidType, m).1
    ensures e.forwarded.returnType == ToUnqualifiedName(ReturnTypeOf(types, voidType, m).0)
    ensures |e.forwarded.parameters| == |e.forwarded.arguments| == |m.parameters|
    ensures forall i :: 0 <= i < |m.parameters| ==>
      e.forwarded.parameters[i] == m.parameters[i].display && e.forwarded.arguments[i] == m.parameters[i].name
    ensures |e.namespaces| == |m.parameters| + 1
    ensures e.namespaces[0] == GetNamespace(ReturnTypeOf(types, voidType, m).0)
    ensures forall i :: 0 <= i < |m.parameters| ==> e.namespaces[i + 1] == GetNamespace(m.parameters[i].paramType)
  {
    var returnType := ReturnTypeOf(types, voidType, m);
    Entry(
      [GetNamespace(returnType.0)] + Map(ParameterNamespace, m.parameters),
      Method(m.name, ToUnqualifiedName(returnType.0), returnType.1, Map(ParameterDisplay, m.parameters), Map(ParameterName, m.parameters)))
  }

  /** The query body for one member of the source type. */
  function MemberEntry(types: KnownTypes, voidType: Option<TypeSymbol>, wanted: MethodSymbol -> bool): MemberSymbol -> Option<Entry>
  {
    (member: MemberSymbol) => if Selected(wanted, member) then Some(EntryOf(types, voidType, member.symbol)) else None
  }

  /** `members`: the query over `GetMembers()`, in member order. */
  function Entries(types: KnownTypes, attribute: MembersAttribute, wanted: MethodSymbol -> bool): seq<Entry>
  {
    FilterMap(MemberEntry(types, attribute.voidType, wanted), attribute.targetType.members)
  }

  function EntryMethod(e: Entry): Method { e.forwarded }

  function EntryNamespaces(e: Entry): seq<Option<string>> { e.namespaces }

  /** What `Parse` returns once the well-known types are loaded; `target` is the annotated
      interface's symbol. */
  function ParseDetails(types: KnownTypes, attribute: MembersAttribute, target: TypeSymbol, wanted: MethodSymbol -> bool): (d: AutoInterfaceDetails)
    ensures d.partialType == PartialType(NameOf(target), GetNamespace(target))
    ensures d.sourceTypeName == ToUnqualifiedName(attribute.targetType.symbol)
    ensures d.implement == attribute.implement
    ensures |d.methods| <= |attribute.targetType.members|
    ensures NoDuplicates(d.imports)
  {
    var entries := Entries(types, attribute, wanted);
    AutoInterfaceDetails(
      PartialType(NameOf(target), GetNamespace(target)),
      ToUnqualifiedName(attribute.targetType.symbol),
      attribute.implement,
      Map(EntryMethod, entries),
      CollectImports(Map(EntryNamespaces, entries), GetNamespace(attribute.targetType.symbol), VoidNamespace(attribute.voidType)))
  }

  /** `Parse`: loads the well-known types into the cache, then reads the attribute. */
  method Parse(cache: WellKnownTypes, compilation: Compilation, attribute: MembersAttribute, target: TypeSymbol, wanted: MethodSymbol -> bool)
    returns (details: AutoInterfaceDetails)
    modifies cache
    ensures cache.Loaded()
    ensures old(cache.Loaded()) ==> cache.Known() == old(cache.Known())
    ensures old(cache.taskType.None? && cache.valueTaskType.None? && cache.taskType1.None? && cache.valueTaskType1.None?) ==>
      cache.Known() == KnownTypes(compilation.task, compilation.valueTask, compilation.task1, compilation.valueTask1)
    ensures details == ParseDetails(cache.Known(), attribute, target, wanted)
  {
    cache.Load(compilation);
    details := ParseDetails(cache.Known(), attribute, target, wanted);
  }

  /** The indices, in `GetMembers()`, of the members that become methods: increasing, and
      containing every selected member. */
  function SelectedIndices(types: KnownTypes, attribute: MembersAttribute, wanted: MethodSymbol -> bool): (idx: seq<nat>)
    ensures forall j, k :: 0 <= j < k < |idx| ==> idx[j] < idx[k]
    ensures forall i :: 0 <= i < |attribute.targetType.members| && Selected(wanted, attribute.targetType.members[i]) ==> i in idx
  {
    Kept(MemberEntry(types, attribute.voidType, wanted), attribute.targetType.members)
  }

  /** The k-th method comes from the k-th selected member of the source type. */
  lemma ParsedMethodsOrder(types: KnownTypes, attribute: MembersAttribute, target: TypeSymbol, wanted: MethodSymbol -> bool)
    ensures |SelectedIndices(types, attribute, wanted)| == |ParseDetails(types, attribute, target, wanted).methods|
    ensures forall k :: 0 <= k < |SelectedIndices(types, attribute, wanted)| ==>
      var member := attribute.targetType.members[SelectedIndices(types, attribute, wanted)[k]];
      Selected(wanted, member) && ParseDetails(types, attribute, target, wanted).methods[k] == EntryOf(types, attribute.voidType, member.symbol).forwarded
  {
    FilterMapThenMapKept(MemberEntry(types, attribute.voidType, wanted), EntryMethod, attribute.targetType.members);
  }

  /** A method is generated exactly when some selected member of the source type yields it. */
  lemma ParsedMethodMember(types: KnownTypes, attribute: MembersAttribute, target: TypeSymbol, wanted: MethodSymbol -> bool, m: Method)
    ensures var members := attribute.targetType.members;
      m in ParseDetails(types, attribute, target, wanted).methods <==>
      exists i :: 0 <= i < |members| && Selected(wanted, members[i]) && EntryOf(types, attribute.voidType, members[i].symbol).forwarded == m
  {
    FilterMapThenMapMember(MemberEntry(types, attribute.voidType, wanted), EntryMethod, attribute.targetType.members, m);
  }

  /** Every generated method forwards as many arguments as it declares parameters, and
      its handling is one the emitter knows. */
  lemma ParsedMethodsWellFormed(types: KnownTypes, attribute: MembersAttribute, target: TypeSymbol, wanted: MethodSymbol -> bool)
    ensures forall m <- ParseDetails(types, attribute, target, wanted).methods ::
      |m.parameters| == |m.arguments| && !m.returnTypeHandling.Undefined?
  {
    forall m <- ParseDetails(types, attribute, target, wanted).methods
      ensures |m.parameters| == |m.arguments| && !m.returnTypeHandling.Undefined?
    {
      ParsedMethodMember(types, attribute, target, wanted, m);
    }
  }

  /** Without a void type every method keeps its own return type, handled normally. */
  lemma NoVoidTypeAllNormal(types: KnownTypes, attribute: MembersAttribute, target: TypeSymbol, wanted: MethodSymbol -> bool)
    requires attribute.voidType.None?
    ensures forall m <- ParseDetails(types, attribute, target, wanted).methods :: m.returnTypeHandling == Normal
  {
    forall m <- ParseDetails(types, attribute, target, wanted).methods
      ensures m.returnTypeHandling == Normal
    {
      ParsedMethodMember(types, attribute, target, wanted, m);
    }
  }

  /** Some entry mentions a namespace exactly when some selected member's entry does. */
  lemma EntriesMention(types: KnownTypes, attribute: MembersAttribute, wanted: MethodSymbol -> bool, x: string)
    ensures var members := attribute.targetType.members;
      var perMember := Map(EntryNamespaces, Entries(types, attribute, wanted));
      (exists k :: 0 <= k < |perMember| && Some(x) in perMember[k]) <==>
      exists i :: 0 <= i < |members| && Selected(wanted, members[i])
        && Some(x) in EntryOf(types, attribute.voidType, members[i].symbol).namespaces
  {
    var members := attribute.targetType.members;
    var f := MemberEntry(types, attribute.voidType, wanted);
    var perMember := Map(EntryNamespaces, Entries(types, attribute, wanted));
    FilterMapThenMapContains(f, EntryNamespaces, members, Some(x));
    if exists k :: 0 <= k < |perMember| && Some(x) in perMember[k] {
      var i :| 0 <= i < |members| && f(members[i]).Some? && Some(x) in EntryNamespaces(f(members[i]).value);
      assert Selected(wanted, members[i]) && Some(x) in EntryOf(types, attribute.voidType, members[i].symbol).namespaces;
    }
    if exists i :: 0 <= i < |members| && Selected(wanted, members[i])
         && Some(x) in EntryOf(types, attribute.voidType, members[i].symbol).namespaces {
      var i :| 0 <= i < |members| && Selected(wanted, members[i])
        && Some(x) in EntryOf(types, attribute.voidType, members[i].symbol).namespaces;
      assert f(members[i]).Some? && Some(x) in EntryNamespaces(f(members[i]).value);
    }
  }

  /** A namespace is imported exactly when it is the source type's, the void type's, or
      that of the return type or of a parameter type of a selected method. */
  lemma ParsedImportsMember(types: KnownTypes, attribute: MembersAttribute, target: TypeSymbol, wanted: MethodSymbol -> bool, x: string)
    ensures var members := attribute.targetType.members;
      x in ParseDetails(types, attribute, target, wanted).imports <==>
        || GetNamespace(attribute.targetType.symbol) == Some(x)
        || VoidNamespace(attribute.voidType) == Some(x)
        || exists i :: 0 <= i < |members| && Selected(wanted, members[i])
             && Some(x) in EntryOf(types, attribute.voidType, members[i].symbol).namespaces
  {
    var perMember := Map(EntryNamespaces, Entries(types, attribute, wanted));
    assert ParseDetails(types, attribute, target, wanted).imports == CollectImports(perMember, GetNamespace(attribute.targetType.symbol), VoidNamespace(attribute.voidType));
    CollectImportsMember(perMember, GetNamespace(attribute.targetType.symbol), VoidNamespace(attribute.voidType), x);
    EntriesMention(types, attribute, wanted, x);
  }
}
