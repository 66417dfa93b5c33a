/** The pieces every member generator assembles its output from, and how a text made of
    pieces contains each of them. */
module GeneratedText {
  import opened Maybe
  import opened Seqs
  import opened Text

  const Tab: string := "    "

  const NullableDirective: string := "#nullable enable"

  /** What separates two generated members: a blank line and one indentation. */
  const MemberSeparator: string := "\n\n" + Tab

  /** `using {import};`. */
  function UsingDirective(ns: string): string
  {
    "using " + ns + ";"
  }

  /** The imports, one `using` directive per line. */
  function ImportsText(imports: seq<string>): string
  {
    Join("\n", Map(UsingDirective, imports))
  }

  /** The file-scoped namespace declaration, after a blank line; nothing for the global
      namespace. */
  function NamespaceDeclaration(ns: Option<string>): string
  {
    match ns
    case None => ""
    case Some(n) => "\n\n" + NamespaceLine(n)
  }

  function NamespaceLine(n: string): string
  {
    "namespace " + n + ";"
  }

  /** The head of the generated interface, up to its opening brace. */
  function InterfaceHead(name: string): string
  {
    "partial interface " + name + "\n{"
  }

  lemma UsingDirectiveOneLine(ns: string)
    requires '\n' !in ns
    ensures '\n' !in UsingDirective(ns)
  {
    assert UsingDirective(ns) == "using " + ns + ";";
  }

  /** The import lines read back: with at least one import and no line break inside an
      import, splitting the text at line breaks gives the `using` directives in order. */
  lemma ImportsTextLines(imports: seq<string>)
    requires |imports| > 0
    requires forall i :: 0 <= i < |imports| ==> '\n' !in imports[i]
    ensures Split(ImportsText(imports), '\n') == Map(UsingDirective, imports)
  {
    var lines := Map(UsingDirective, imports);
    forall i | 0 <= i < |lines|
      ensures '\n' !in lines[i]
    {
      UsingDirectiveOneLine(imports[i]);
    }
    SplitJoin(lines, '\n');
  }

  /** Each import has its `using` directive in the text. */
  lemma ImportsTextContains(imports: seq<string>, u: string)
    requires u in imports
    ensures Contains(ImportsText(imports), UsingDirective(u))
  {
    var k :| 0 <= k < |imports| && imports[k] == u;
    JoinContains("\n", Map(UsingDirective, imports), k);
  }

  /** Every piece occurs in the concatenation of the pieces. */
  lemma {:induction false} FlattenContains(ss: seq<string>, k: nat)
    requires k < |ss|
    ensures Contains(Flatten(ss), ss[k])
  {
    var n := |ss| - 1;
    if k == n {
      ContainsMiddle(Flatten(ss[..n]), ss[n], "");
      assert Flatten(ss[..n]) + ss[n] + "" == Flatten(ss);
    } else {
      FlattenContains(ss[..n], k);
      ContainsBefore(Flatten(ss[..n]), ss[k], ss[n]);
    }
  }

  /** The concatenation begins with the first piece. */
  lemma {:induction false} FlattenStartsWith(ss: seq<string>)
    requires |ss| > 0
    ensures ss[0] <= Flatten(ss)
  {
    var n := |ss| - 1;
    if n > 0 {
      FlattenStartsWith(ss[..n]);
      PrefixGrows(ss[0], Flatten(ss[..n]), ss[n]);
    }
  }

  /** The concatenation ends with the last piece. */
  lemma FlattenEndsWith(ss: seq<string>)
    requires |ss| > 0
    ensures EndsWith(Flatten(ss), ss[|ss| - 1])
  {
    var n := |ss| - 1;
    assert Flatten(ss) == Flatten(ss[..n]) + ss[n];
  }

  /** A part joined into one piece occurs in the concatenation of the pieces. */
  lemma FlattenContainsJoined(ss: seq<string>, k: nat, sep: string, parts: seq<string>, j: nat)
    requires k < |ss| && ss[k] == Join(sep, parts) && j < |parts|
    ensures Contains(Flatten(ss), parts[j])
  {
    FlattenContains(ss, k);
    JoinContains(sep, parts, j);
    ContainsTrans(Flatten(ss), ss[k], parts[j]);
  }

  /** An import occurs in the concatenation when its imports text is one of the pieces. */
  lemma FlattenContainsImport(ss: seq<string>, k: nat, imports: seq<string>, u: string)
    requires k < |ss| && ss[k] == ImportsText(imports) && u in imports
    ensures Contains(Flatten(ss), UsingDirective(u))
  {
    FlattenContains(ss, k);
    ImportsTextContains(imports, u);
    ContainsTrans(Flatten(ss), ss[k], UsingDirective(u));
  }

  /** A declared namespace occurs in the concatenation when its declaration is a piece. */
  lemma FlattenContainsNamespace(ss: seq<string>, k: nat, ns: Option<string>)
    requires k < |ss| && ss[k] == NamespaceDeclaration(ns) && ns.Some?
    ensures Contains(Flatten(ss), NamespaceLine(ns.value))
  {
    FlattenContains(ss, k);
    ContainsMiddle("\n\n", NamespaceLine(ns.value), "");
    assert "\n\n" + NamespaceLine(ns.value) + "" == NamespaceDeclaration(ns);
    ContainsTrans(Flatten(ss), ss[k], NamespaceLine(ns.value));
  }

  /** The first pieces begin the concatenation. */
  lemma FlattenPrefix(ss: seq<string>, k: nat)
    requires k <= |ss|
    ensures Flatten(ss[..k]) <= Flatten(ss)
  {
    FlattenSplit(ss, k);
  }

  /** The last pieces end the concatenation. */
  lemma FlattenSuffix(ss: seq<string>, k: nat)
    requires k <= |ss|
    ensures EndsWith(Flatten(ss), Flatten(ss[k..]))
  {
    FlattenSplit(ss, k);
    assert (Flatten(ss[..k]) + Flatten(ss[k..]))[|Flatten(ss)| - |Flatten(ss[k..])|..] == Flatten(ss[k..]);
  }

  /** One more piece extends a known concatenation of the first pieces. */
  lemma FlattenExtend(ss: seq<string>, k: nat, x: string)
    requires k < |ss| && Flatten(ss[..k]) == x
    ensures Flatten(ss[..k + 1]) == x + ss[k]
  {
    FlattenTake(ss, k);
  }

  /** The first six pieces begin the concatenation. */
  lemma FlattenFirstSix(ss: seq<string>)
    requires |ss| >= 6
    ensures ss[0] + ss[1] + ss[2] + ss[3] + ss[4] + ss[5] <= Flatten(ss)
  {
    assert ss[..0] == [];
    FlattenExtend(ss, 0, []);
    FlattenExtend(ss, 1, [] + ss[0]);
    FlattenExtend(ss, 2, [] + ss[0] + ss[1]);
    FlattenExtend(ss, 3, [] + ss[0] + ss[1] + ss[2]);
    FlattenExtend(ss, 4, [] + ss[0] + ss[1] + ss[2] + ss[3]);
    FlattenExtend(ss, 5, [] + ss[0] + ss[1] + ss[2] + ss[3] + ss[4]);
    assert [] + ss[0] == ss[0];
    FlattenPrefix(ss, 6);
  }

  /** The last three pieces end the concatenation. */
  lemma FlattenLastThree(ss: seq<string>)
    requires |ss| >= 3
    ensures var n := |ss|; EndsWith(Flatten(ss), ss[n - 3] + ss[n - 2] + ss[n - 1])
  {
    var n := |ss|;
    var t := ss[n - 3..];
    assert t[..0] == [];
    FlattenExtend(t, 0, []);
    FlattenExtend(t, 1, [] + t[0]);
    FlattenExtend(t, 2, [] + t[0] + t[1]);
    assert [] + t[0] == t[0];
    assert t[..3] == t;
    FlattenSuffix(ss, n - 3);
  }

  /** The last five pieces end the concatenation. */
  lemma FlattenLastFive(ss: seq<string>)
    requires |ss| >= 5
    ensures var n := |ss|; EndsWith(Flatten(ss), ss[n - 5] + ss[n - 4] + ss[n - 3] + ss[n - 2] + ss[n - 1])
  {
    var n := |ss|;
    var t := ss[n - 5..];
    assert t[..0] == [];
    FlattenExtend(t, 0, []);
    FlattenExtend(t, 1, [] + t[0]);
    FlattenExtend(t, 2, [] + t[0] + t[1]);
    FlattenExtend(t, 3, [] + t[0] + t[1] + t[2]);
    FlattenExtend(t, 4, [] + t[0] + t[1] + t[2] + t[3]);
    assert [] + t[0] == t[0];
    assert t[..5] == t;
    FlattenSuffix(ss, n - 5);
  }

  /** An empty piece adds nothing. */
  lemma FlattenDropEmpty(a: seq<string>, b: seq<string>)
    ensures Flatten(a + [""] + b) == Flatten(a + b)
  {
    FlattenAppend(a + [""], b);
    FlattenSnoc(a, "");
    FlattenAppend(a, b);
  }
}
