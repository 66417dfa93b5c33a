/** The syntax nodes the member generators' filters look at. */
module Syntax {
  import opened Maybe

  /** `SyntaxKind` of a node carrying the attribute. */
  datatype SyntaxKind =
    | InterfaceDeclaration | ClassDeclaration | StructDeclaration | RecordDeclaration
    | RecordStructDeclaration | EnumDeclaration | DelegateDeclaration | MethodDeclaration
    | OtherKind

  /** `SyntaxKind` of a modifier token. */
  datatype Modifier = PartialKeyword | PublicKeyword | InternalKeyword | StaticKeyword | OtherModifier

  /** A declaration node: its kind and its modifier tokens. */
  datatype SyntaxNode = SyntaxNode(kind: SyntaxKind, modifiers: seq<Modifier>)

  /** The kinds whose nodes are a `TypeDeclarationSyntax`. */
  predicate IsTypeDeclaration(kind: SyntaxKind)
  {
    kind.InterfaceDeclaration? || kind.ClassDeclaration? || kind.StructDeclaration?
    || kind.RecordDeclaration? || kind.RecordStructDeclaration?
  }

  /** `IsPartial()`: the declaration has the `partial` modifier. */
  predicate IsPartial(node: SyntaxNode)
  {
    PartialKeyword in node.modifiers
  }

  /** `node.As<TypeDeclarationSyntax>()`: a cast that throws for any other node. */
  function AsTypeDeclaration(node: SyntaxNode): (r: Result<SyntaxNode>)
    ensures r.Success? <==> IsTypeDeclaration(node.kind)
    ensures r.Success? ==> r.value == node
    ensures r.Failure? ==> r.error == InvalidCast
  {
    if IsTypeDeclaration(node.kind) then Success(node) else Failure(InvalidCast)
  }
}
