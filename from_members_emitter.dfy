/** `Emitter` of the `FromMembers` generators: the text of one interface method that
    declares a method of the source type and, with an implementation, forwards to it. */
module FromMembersEmitter {
  import opened Maybe
  import opened Seqs
  import opened Text
  import opened FromMembersModels

  /** The indentation of the statements of a forwarding body. */
  const StatementIndent: string := "        "

  /** The indentation of the braces of a block body. */
  const BraceIndent: string := "    "

  /** The statement that ends a block body: the void type's default value. */
  const ReturnDefault: string := "return default;"

  /** The forwarding call `source.Name(args);`: it begins with the receiver, a dot and the
      method name, ends with the closing parenthesis and semicolon, and the arguments read
      back from between them. */
  function MethodCall(source: string, name: string, args: string): (r: string)
    ensures source + "." + name + "(" <= r
    ensures EndsWith(r, ");")
    ensures |r| == |source| + |name| + |args| + 4
    ensures r[|source| + |name| + 2..|r| - 2] == args
  {
    source + "." + name + "(" + args + ");"
  }

  /** What follows the parameter list, and whether the method is `async`. */
  datatype Body = Body(text: string, isAsync: bool)

  /** An expression body returning the value of `call`. */
  function ExpressionBody(call: string): (b: string)
    ensures " =>" <= b
    ensures Contains(b, call)
  {
    ContainsMiddle(" =>" + NewLine + StatementIndent, call, "");
    assert " =>" + NewLine + StatementIndent + call + "" == " =>" + NewLine + StatementIndent + call;
    " =>" + NewLine + StatementIndent + call
  }

  /** The opening of a block body, up to its first statement. */
  const BlockHead: string := NewLine + BraceIndent + "{" + NewLine + StatementIndent

  /** The end of a block body, from the end of the forwarding statement. */
  const BlockTail: string := NewLine + StatementIndent + ReturnDefault + NewLine + BraceIndent + "}"

  /** A block body running `statement` and then returning `default`. */
  function BlockBody(statement: string): (b: string)
    ensures BlockHead <= b
    ensures EndsWith(b, BlockTail)
    ensures Contains(b, statement)
  {
    ContainsMiddle(BlockHead, statement, BlockTail);
    BlockHead + statement + BlockTail
  }

  /** `EmitBody`: `;` without an implementation; otherwise an expression body for a method
      whose value is returned, and a block that discards it and returns `default` for one
      returning the void type (awaiting the call first when it is a task). A handling
      outside the three known ones throws. */
  function EmitBody(m: Method, implement: bool, args: string, source: string): (r: Result<Body>)
    ensures r.Failure? <==> implement && m.returnTypeHandling.Undefined?
    ensures r.Failure? ==> r.error == ArgumentOutOfRange
    ensures !implement ==> r == Success(Body(";", false))
    ensures r.Success? ==> (r.value.isAsync <==> implement && m.returnTypeHandling == CustomTask)
    ensures r.Success? && implement ==> Contains(r.value.text, MethodCall(source, m.name, args))
    ensures implement && m.returnTypeHandling == Normal ==> r.value.text == ExpressionBody(MethodCall(source, m.name, args))
    ensures implement && m.returnTypeHandling == Custom ==> r.value.text == BlockBody(MethodCall(source, m.name, args))
    ensures implement && m.returnTypeHandling == CustomTask ==> r.value.text == BlockBody("await " + MethodCall(source, m.name, args))
  {
    if !implement then
      Success(Body(";", false))
    else
      var call := MethodCall(source, m.name, args);
      match m.returnTypeHandling
      case Normal => Success(Body(ExpressionBody(call), false))
      case Custom => Success(Body(BlockBody(call), false))
      case CustomTask =>
        ContainsEnd(BlockBody("await " + call), "await ", call);
        Success(Body(BlockBody("await " + call), true))
      case Undefined(_) => Failure(ArgumentOutOfRange)
  }

  /** The declaration part of an emitted method: `async` when asked, the return type,
      the name and the parameter list. */
  function Declaration(m: Method, isAsync: bool): string
  {
    (if isAsync then "async " else "") + m.returnType + " " + m.name + "(" + Join(", ", m.parameters) + ")"
  }

  /** `EmitMethod`: the signature, `async` when the body awaits, then the body. Without an
      implementation it is the bare declaration, whatever the handling; with one it
      forwards the arguments to the source. */
  function EmitMethod(m: Method, implement: bool, source: string): (r: Result<string>)
    ensures r.Failure? <==> implement && m.returnTypeHandling.Undefined?
    ensures r.Failure? ==> r.error == ArgumentOutOfRange
    ensures r.Success? ==> Declaration(m, implement && m.returnTypeHandling == CustomTask) <= r.value
    ensures !implement ==> r == Success(Declaration(m, false) + ";")
    ensures r.Success? && implement ==> Contains(r.value, MethodCall(source, m.name, Join(", ", m.arguments)))
    ensures r.Success? ==>
      r.value == Declaration(m, implement && m.returnTypeHandling == CustomTask)
        + EmitBody(m, implement, Join(", ", m.arguments), source).value.text
    ensures implement && m.returnTypeHandling == Normal ==>
      EndsWith(r.value, ExpressionBody(MethodCall(source, m.name, Join(", ", m.arguments))))
    ensures implement && (m.returnTypeHandling == Custom || m.returnTypeHandling == CustomTask) ==>
      EndsWith(r.value, BlockTail)
  {
    var parameters := Join(", ", m.parameters);
    var arguments := Join(", ", m.arguments);
    match EmitBody(m, implement, arguments, source)
    case Success(body) =>
      var declaration := (if body.isAsync then "async " else "") + m.returnType + " " + m.name + "(" + parameters + ")";
      assert implement ==> Contains(declaration + body.text, MethodCall(source, m.name, arguments)) by {
        if implement {
          ContainsAfter(declaration, body.text, MethodCall(source, m.name, arguments));
        }
      }
      assert implement && m.returnTypeHandling == Normal ==> EndsWith(declaration + body.text, body.text) by {
        EndsWithAfter(declaration, body.text, body.text);
      }
      assert implement && !m.returnTypeHandling.Normal? ==> EndsWith(declaration + body.text, BlockTail) by {
        if implement && !m.returnTypeHandling.Normal? {
          EndsWithAfter(declaration, body.text, BlockTail);
        }
      }
      Success(declaration + body.text)
    case Failure(e) => Failure(e)
  }

  /** The query both generators run over the parsed methods, `EmitMethod` for each in
      order; the first method that throws ends the generation. */
  function EmitMethods(methods: seq<Method>, implement: bool, source: string): (r: Result<seq<string>>)
    ensures r.Success? <==> !implement || forall m <- methods :: !m.returnTypeHandling.Undefined?
    ensures r.Failure? ==> r.error == ArgumentOutOfRange
    ensures r.Success? ==> |r.value| == |methods|
    ensures r.Success? ==> forall k :: 0 <= k < |methods| ==> EmitMethod(methods[k], implement, source) == Success(r.value[k])
  {
    Traverse((m: Method) => EmitMethod(m, implement, source), methods)
  }
}
