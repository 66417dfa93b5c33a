/** The `using` directives the member generators collect: every namespace a forwarded
    member mentions, the source type's and the void type's, with nulls and duplicates
    removed (`SelectMany`, `Union`, `Where`, `Distinct`). */
module Imports {
  import opened Maybe
  import opened Seqs
  import opened Symbols

  /** `voidType?.GetNamespace()`. */
  function VoidNamespace(voidType: Option<TypeSymbol>): Option<string>
  {
    match voidType
    case Some(t) => GetNamespace(t)
    case None => None
  }

  /** `Where(x => x is not null).Select(x => x!)`. */
  function NotNull(s: seq<Option<string>>): seq<string>
  {
    FilterMap((x: Option<string>) => x, s)
  }

  /** `a.Union(b)`: the distinct elements of `a`, then those of `b` not already seen. */
  function Union<T(==)>(a: seq<T>, b: seq<T>): seq<T>
  {
    Distinct(a + b)
  }

  /** The imports of a generated interface, from the namespaces each member mentions and
      the namespaces of the source type and of the void type. */
  function CollectImports(perMember: seq<seq<Option<string>>>, sourceNs: Option<string>, voidNs: Option<string>): (r: seq<string>)
    ensures NoDuplicates(r)
  {
    Distinct(NotNull(Union(Flatten(perMember), [sourceNs, voidNs])))
  }

  lemma DistinctMember<T>(s: seq<T>, x: T)
    ensures x in Distinct(s) <==> x in s
  {
    var r := Distinct(s);
    if x in r {
      var i :| 0 <= i < |r| && r[i] == x;
    }
    if x in s {
      var i :| 0 <= i < |s| && s[i] == x;
    }
  }

  /** A namespace is imported exactly when it is the source type's, the void type's, or
      one a member mentions; null namespaces (the global one) are never imported. */
  lemma {:induction false} CollectImportsMember(perMember: seq<seq<Option<string>>>, sourceNs: Option<string>, voidNs: Option<string>, x: string)
    ensures x in CollectImports(perMember, sourceNs, voidNs) <==>
      sourceNs == Some(x) || voidNs == Some(x) || exists i :: 0 <= i < |perMember| && Some(x) in perMember[i]
  {
    var all := Flatten(perMember) + [sourceNs, voidNs];
    var union := Union(Flatten(perMember), [sourceNs, voidNs]);
    DistinctMember(NotNull(union), x);
    FilterMapMember((y: Option<string>) => y, union, x);
    DistinctMember(all, Some(x));
    FlattenMember(perMember, Some(x));
    if x in NotNull(union) {
      var i :| 0 <= i < |union| && union[i] == Some(x);
      assert Some(x) in union;
    }
    if Some(x) in union {
      var i :| 0 <= i < |union| && union[i] == Some(x);
    }
  }
}
