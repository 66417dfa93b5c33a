/** The classified model of a type annotated with `DefaultImplementation`: what the
    parser builds and the emitter reads. */
module InterfaceModel {
  import opened Maybe
  import opened Symbols

  /** `MemberType`; `Undefined` is the enum's default `None`. */
  datatype MemberType = Undefined | Indexer | Property | Method

  /** `Variance`; `Invariant` is the enum's `None`. */
  datatype Variance = Invariant | Covariant | Contravariant

  datatype TypeParameter = TypeParameter(name: string, variance: Variance)

  /** `Parameter`: declaration text, whether a default value is declared, and its text. */
  datatype Parameter = Parameter(declaration: string, hasDefaultValue: bool, defaultValue: Option<string>)

  /** A member of the generated interface. An unset `ImmutableArray` is the empty sequence. */
  datatype Member = Member(
    returnsByRef: bool,
    returnsByRefReadonly: bool,
    returnType: string,
    name: string,
    typeParameters: seq<TypeParameter>,
    parameters: seq<Parameter>,
    accessors: seq<string>,
    docs: Option<string>,
    kind: MemberType)

  /** `DefaultImplementationClass`. */
  datatype DefaultImplementationClass = DefaultImplementationClass(
    ns: string,
    accessibility: Accessibility,
    kind: TypeKind,
    isPublic: bool,
    name: string,
    typeParameters: seq<TypeParameter>,
    members: seq<Member>,
    docs: Option<string>)

  /** C# interpolation of a nullable string: null renders as nothing. */
  function Interpolate(s: Option<string>): string
  {
    match s
    case Some(v) => v
    case None => ""
  }

  /** `Parameter.ToString()`: the declaration, followed by a space and the default value
      when one is declared (a null default text still gives the space). */
  function ParameterText(p: Parameter): (r: string)
    ensures |p.declaration| <= |r| && r[..|p.declaration|] == p.declaration
    ensures !p.hasDefaultValue ==> r == p.declaration
    ensures p.hasDefaultValue ==> r[|p.declaration|..] == " " + Interpolate(p.defaultValue)
  {
    if p.hasDefaultValue then p.declaration + " " + Interpolate(p.defaultValue) else p.declaration
  }
}
