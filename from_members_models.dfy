/** The records the `FromMembers` parser builds and its assemblers read. */
module FromMembersModels {
  import opened Maybe

  /** How a method's return value is produced when the interface forwards to it.
      `Undefined` stands for any other value the enum can hold. */
  datatype ReturnTypeEnum = Normal | Custom | CustomTask | Undefined(value: int)

  /** `Method`: name, return type display, handling, parameter declarations and the
      argument names used to forward a call. */
  datatype Method = Method(
    name: string,
    returnType: string,
    returnTypeHandling: ReturnTypeEnum,
    parameters: seq<string>,
    arguments: seq<string>)

  /** The annotated partial interface: its name and namespace (`None` for the global one). */
  datatype PartialType = PartialType(name: string, ns: Option<string>)

  /** The five values `Parse` passes to the six-field `AutoInterfaceDetails` record; the
      record's `Properties` field, which no code builds, is left out. */
  datatype AutoInterfaceDetails = AutoInterfaceDetails(
    partialType: PartialType,
    sourceTypeName: string,
    implement: bool,
    methods: seq<Method>,
    imports: seq<string>)

  /** What `AddSource` receives: the hint name and the text. */
  datatype GeneratedSource = GeneratedSource(hintName: string, text: string)
}
