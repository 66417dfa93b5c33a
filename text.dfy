/** The .NET string operations the generators use: `string.Join`, `string.Split`,
    `string.IsNullOrWhiteSpace`, and a `StringBuilder`. */
module Text {

  /** `Environment.NewLine`, fixed to a line feed in this model. */
  const NewLine: string := "\n"

  /** `char.IsWhiteSpace`: the Unicode space, line and paragraph separators,
      the C0 controls U+0009..U+000D and U+0085. */
  predicate IsWhiteSpace(c: char)
  {
    || c == ' ' || ('\t' <= c <= '\r') || c == '\U{0085}' || c == '\U{00A0}'
    || c == '\U{1680}' || ('\U{2000}' <= c <= '\U{200A}') || c == '\U{2028}' || c == '\U{2029}'
    || c == '\U{202F}' || c == '\U{205F}' || c == '\U{3000}'
  }

  /** `string.IsNullOrWhiteSpace` on a non-null string: true for "" too. */
  predicate IsBlank(s: string)
  {
    forall i :: 0 <= i < |s| ==> IsWhiteSpace(s[i])
  }

  /** A prefix stays a prefix when the text grows. */
  lemma PrefixGrows(a: string, b: string, c: string)
    requires a <= b
    ensures a <= b + c
  {
    assert (b + c)[..|a|] == b[..|a|];
  }

  /** `string.Join(sep, parts)`. */
  function Join(sep: string, parts: seq<string>): string
  {
    if |parts| == 0 then ""
    else if |parts| == 1 then parts[0]
    else parts[0] + sep + Join(sep, parts[1..])
  }

  /** Whether `t` occurs in `s`. */
  predicate Contains(s: string, t: string)
  {
    exists i :: 0 <= i <= |s| && t <= s[i..]
  }

  lemma ContainsMiddle(a: string, t: string, b: string)
    ensures Contains(a + t + b, t)
  {
    assert t <= (a + t + b)[|a|..];
  }

  lemma ContainsEnd(s: string, u: string, t: string)
    requires Contains(s, u + t)
    ensures Contains(s, t)
  {
    var i :| 0 <= i <= |s| && u + t <= s[i..];
    assert t <= s[i + |u|..];
  }

  lemma ContainsAfter(p: string, s: string, t: string)
    requires Contains(s, t)
    ensures Contains(p + s, t)
  {
    var i :| 0 <= i <= |s| && t <= s[i..];
    assert (p + s)[|p| + i..] == s[i..];
  }

  lemma ContainsBefore(s: string, t: string, p: string)
    requires Contains(s, t)
    ensures Contains(s + p, t)
  {
    var i :| 0 <= i <= |s| && t <= s[i..];
    assert t <= (s + p)[i..];
  }

  predicate EndsWith(s: string, t: string)
  {
    |t| <= |s| && s[|s| - |t|..] == t
  }

  /** An ending stays an ending when text is put in front. */
  lemma EndsWithAfter(p: string, s: string, t: string)
    requires EndsWith(s, t)
    ensures EndsWith(p + s, t)
  {
    assert (p + s)[|p + s| - |t|..] == s[|s| - |t|..];
  }

  /** Occurrence is transitive. */
  lemma ContainsTrans(s: string, t: string, u: string)
    requires Contains(s, t) && Contains(t, u)
    ensures Contains(s, u)
  {
    var i :| 0 <= i <= |s| && t <= s[i..];
    var j :| 0 <= j <= |t| && u <= t[j..];
    assert u <= s[i + j..];
  }

  /** Every part occurs in the joined text. */
  lemma {:induction false} JoinContains(sep: string, parts: seq<string>, k: nat)
    requires k < |parts|
    ensures Contains(Join(sep, parts), parts[k])
  {
    if |parts| == 1 {
      ContainsMiddle("", parts[0], "");
      assert "" + parts[0] + "" == parts[0];
    } else if k == 0 {
      ContainsMiddle("", parts[0], sep + Join(sep, parts[1..]));
      assert "" + parts[0] + (sep + Join(sep, parts[1..])) == Join(sep, parts);
    } else {
      JoinContains(sep, parts[1..], k - 1);
      ContainsAfter(parts[0] + sep, Join(sep, parts[1..]), parts[k]);
    }
  }

  /** Regrouping a concatenation, for texts built by successive appends. */
  lemma Regroup(a: string, b: string, c: string)
    ensures a + (b + c) == a + b + c
  {
  }

  /** A prefix of a prefix is a prefix. */
  lemma PrefixShrinks(a: string, b: string, s: string)
    requires a + b <= s
    ensures a <= s
  {
    assert (a + b)[..|a|] == a;
  }

  /** Number of occurrences of `c` in `s`. */
  function Occurrences(s: string, c: char): nat
  {
    if s == [] then 0 else (if s[0] == c then 1 else 0) + Occurrences(s[1..], c)
  }

  /** `s.Split(c)`: the pieces between occurrences of `c`, empty pieces included. */
  function Split(s: string, c: char): (r: seq<string>)
    ensures |r| == Occurrences(s, c) + 1
    ensures forall i :: 0 <= i < |r| ==> c !in r[i]
  {
    if s == [] then [""]
    else
      var rest := Split(s[1..], c);
      if s[0] == c then [""] + rest
      else [[s[0]] + rest[0]] + rest[1..]
  }

  /** Joining the pieces of a split with the separator gives back the string. */
  lemma {:induction false} JoinSplit(s: string, c: char)
    ensures Join([c], Split(s, c)) == s
  {
    if s != [] {
      var rest := Split(s[1..], c);
      JoinSplit(s[1..], c);
      if s[0] == c {
        assert ([""] + rest)[1..] == rest;
      } else if |rest| > 1 {
        assert Join([c], rest) == rest[0] + [c] + Join([c], rest[1..]);
        assert ([[s[0]] + rest[0]] + rest[1..])[1..] == rest[1..];
        assert s == [s[0]] + s[1..];
      } else {
        assert s == [s[0]] + s[1..];
      }
    }
  }

  /** Splitting a string that starts with a piece free of `c`. */
  lemma {:induction false} SplitPrefix(p: string, x: string, c: char)
    requires c !in p
    ensures Split(p + x, c) == [p + Split(x, c)[0]] + Split(x, c)[1..]
  {
    if p != [] {
      assert (p + x)[0] == p[0];
      assert (p + x)[1..] == p[1..] + x;
      SplitPrefix(p[1..], x, c);
      assert [p[0]] + (p[1..] + Split(x, c)[0]) == p + Split(x, c)[0];
    } else {
      var r := Split(x, c);
      assert p + x == x && p + r[0] == r[0];
      assert r == [r[0]] + r[1..];
    }
  }

  /** Splitting what was joined gives back the pieces, provided no piece holds the separator. */
  lemma {:induction false} SplitJoin(parts: seq<string>, c: char)
    requires |parts| >= 1
    requires forall i :: 0 <= i < |parts| ==> c !in parts[i]
    ensures Split(Join([c], parts), c) == parts
  {
    if |parts| == 1 {
      SplitPrefix(parts[0], "", c);
      assert parts[0] + "" == parts[0];
    } else {
      var tail := Join([c], parts[1..]);
      SplitJoin(parts[1..], c);
      SplitPrefix(parts[0], [c] + tail, c);
      assert ([c] + tail)[0] == c && ([c] + tail)[1..] == tail;
      assert Split([c] + tail, c) == [""] + parts[1..];
      assert Join([c], parts) == parts[0] + ([c] + tail);
      assert parts[0] + "" == parts[0];
      assert [parts[0]] + parts[1..] == parts;
    }
  }

  /** Lines each followed by a line feed, as repeated `AppendLine` calls produce them. */
  function Lines(ls: seq<string>): string
  {
    if ls == [] then "" else ls[0] + NewLine + Lines(ls[1..])
  }

  /** One more `AppendLine` extends the text by one line. */
  lemma {:induction false} LinesAppend(ls: seq<string>, x: string)
    ensures Lines(ls + [x]) == Lines(ls) + x + NewLine
  {
    if ls != [] {
      assert (ls + [x])[1..] == ls[1..] + [x];
      LinesAppend(ls[1..], x);
    } else {
      assert [x][1..] == [];
    }
  }

  /** Line-terminated text is the lines joined with line feeds, followed by one empty piece. */
  lemma {:induction false} LinesIsJoin(ls: seq<string>)
    ensures Lines(ls) == Join(NewLine, ls + [""])
  {
    if ls != [] {
      LinesIsJoin(ls[1..]);
      assert (ls + [""])[1..] == ls[1..] + [""];
    }
  }

  /** Splitting line-terminated text on line feeds recovers the lines and a final empty piece. */
  lemma SplitLines(ls: seq<string>)
    requires forall i :: 0 <= i < |ls| ==> '\n' !in ls[i]
    ensures Split(Lines(ls), '\n') == ls + [""]
  {
    LinesIsJoin(ls);
    SplitJoin(ls + [""], '\n');
  }

  /** `System.Text.StringBuilder`, reduced to what the emitter uses. */
  class StringBuilder {
    var contents: string

    constructor ()
      ensures contents == ""
    {
      contents := "";
    }

    method Append(s: string)
      modifies this
      ensures contents == old(contents) + s
    {
      contents := contents + s;
    }

    method AppendLine(s: string)
      modifies this
      ensures contents == old(contents) + s + NewLine
    {
      contents := contents + s + NewLine;
    }
  }
}
