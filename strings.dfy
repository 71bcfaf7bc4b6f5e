/** String operations the site generator borrows from the JavaScript runtime:
    `lastIndexOf`, `endsWith`, `toLowerCase`, `split(/[\\/]/)`, `Array.join`
    and the `/\.md$/` replacements. Strings are sequences of characters. */
module Strings {

  /** The two characters the indexer splits relative paths on. */
  predicate IsSep(c: char) {
    c == '/' || c == '\\'
  }

  /** `s.endsWith(suffix)`. */
  predicate EndsWith(s: string, suffix: string) {
    |suffix| <= |s| && s[|s| - |suffix|..] == suffix
  }

  /** `s.lastIndexOf(c)`: the position of the last `c`, or -1 when there is none. */
  function LastIndexOf(s: string, c: char): (r: int)
    ensures -1 <= r < |s|
    ensures r == -1 <==> c !in s
    ensures 0 <= r ==> s[r] == c
    ensures forall j :: r < j < |s| ==> s[j] != c
  {
    if |s| == 0 then -1
    else if s[|s| - 1] == c then |s| - 1
    else LastIndexOf(s[..|s| - 1], c)
  }

  /** Lower-cases the ASCII letters and leaves every other character alone. */
  function LowerChar(c: char): char {
    if 'A' <= c <= 'Z' then (c as int - 'A' as int + 'a' as int) as char else c
  }

  function ToLower(s: string): (r: string)
    ensures |r| == |s|
    ensures forall i :: 0 <= i < |s| ==> r[i] == LowerChar(s[i])
  {
    if |s| == 0 then "" else [LowerChar(s[0])] + ToLower(s[1..])
  }

  lemma LowerIdempotent(s: string)
    ensures ToLower(ToLower(s)) == ToLower(s)
  {
  }

  /** `s.split(/[\\/]/)`: the pieces between separators, empty pieces included;
      there is always at least one piece. */
  function Split(s: string): (parts: seq<string>)
    ensures |parts| >= 1
    ensures forall k, j :: 0 <= k < |parts| && 0 <= j < |parts[k]| ==> !IsSep(parts[k][j])
  {
    if |s| == 0 then [""]
    else
      var rest := Split(s[1..]);
      if IsSep(s[0]) then [""] + rest
      else [[s[0]] + rest[0]] + rest[1..]
  }

  /** `parts.join(sep)`: the parts with `sep` between neighbours. */
  function Join(parts: seq<string>, sep: string): string {
    if |parts| == 0 then ""
    else if |parts| == 1 then parts[0]
    else parts[0] + sep + Join(parts[1..], sep)
  }

  /** A join starts with the first part and ends with the last. */
  lemma {:induction false} JoinEnds(parts: seq<string>, sep: string)
    requires |parts| > 0
    ensures parts[0] <= Join(parts, sep)
    ensures EndsWith(Join(parts, sep), parts[|parts| - 1])
  {
    if |parts| > 1 {
      var tail := parts[1..];
      JoinEnds(tail, sep);
      assert tail[|tail| - 1] == parts[|parts| - 1];
      EndsWithExtended(parts[0] + sep, Join(tail, sep), parts[|parts| - 1]);
      assert Join(parts, sep) == parts[0] + sep + Join(tail, sep);
    }
  }

  lemma EndsWithExtended(prefix: string, s: string, suffix: string)
    requires EndsWith(s, suffix)
    ensures EndsWith(prefix + s, suffix)
  {
    assert (prefix + s)[|prefix + s| - |suffix|..] == s[|s| - |suffix|..];
  }

  /** The path with every `\` written as `/`: the separators `split(/[\\/]/)` treats alike. */
  function Slashed(s: string): (r: string)
    ensures |r| == |s|
    ensures forall i :: 0 <= i < |s| ==> r[i] == if IsSep(s[i]) then '/' else s[i]
  {
    if |s| == 0 then "" else [if IsSep(s[0]) then '/' else s[0]] + Slashed(s[1..])
  }

  /** Splitting any path and joining the parts with `/` gives the path with every
      separator written as `/`: nothing but the separators is lost. */
  lemma {:induction false} JoinSplitSlashed(s: string)
    ensures Join(Split(s), "/") == Slashed(s)
  {
    if |s| > 0 {
      var rest := Split(s[1..]);
      JoinSplitSlashed(s[1..]);
      assert Slashed(s) == [if IsSep(s[0]) then '/' else s[0]] + Slashed(s[1..]);
      if IsSep(s[0]) {
        assert Split(s) == [""] + rest;
        assert ([""] + rest)[1..] == rest;
      } else {
        assert Split(s) == [[s[0]] + rest[0]] + rest[1..];
        if |rest| > 1 {
          assert Join(rest, "/") == rest[0] + "/" + Join(rest[1..], "/");
        }
      }
    }
  }

  /** Splitting a path written with `/` only and joining it back with `/` gives the path. */
  lemma JoinSplit(s: string)
    requires '\\' !in s
    ensures Join(Split(s), "/") == s
  {
    JoinSplitSlashed(s);
    forall i | 0 <= i < |s| ensures Slashed(s)[i] == s[i] {
      assert s[i] in s;
    }
  }

  /** A path splits as its slashed form does: `\\` and `/` separate alike. */
  lemma SplitSlashed(s: string)
    ensures Split(Slashed(s)) == Split(s)
  {
    JoinSplitSlashed(s);
    SplitJoin(Split(s));
  }

  /** Joining separator-free pieces with `/` and splitting again gives the pieces back. */
  lemma {:induction false} SplitJoin(parts: seq<string>)
    requires |parts| >= 1
    requires forall k, j :: 0 <= k < |parts| && 0 <= j < |parts[k]| ==> !IsSep(parts[k][j])
    ensures Split(Join(parts, "/")) == parts
  {
    if |parts| == 1 {
      SplitPiece(parts[0]);
    } else {
      SplitJoin(parts[1..]);
      SplitAfterPiece(parts[0], Join(parts[1..], "/"));
      assert parts == [parts[0]] + parts[1..];
    }
  }

  lemma {:induction false} SplitPiece(p: string)
    requires forall j :: 0 <= j < |p| ==> !IsSep(p[j])
    ensures Split(p) == [p]
  {
    if |p| > 0 {
      SplitPiece(p[1..]);
      assert p == [p[0]] + p[1..];
    }
  }

  lemma SplitAfterPiece(p: string, rest: string)
    requires forall j :: 0 <= j < |p| ==> !IsSep(p[j])
    ensures Split(p + "/" + rest) == [p] + Split(rest)
  {
    SplitAfterSeparator(p, '/', rest);
  }

  /** A separator-free piece followed by either separator is the first part. */
  lemma {:induction false} SplitAfterSeparator(p: string, c: char, rest: string)
    requires IsSep(c)
    requires forall j :: 0 <= j < |p| ==> !IsSep(p[j])
    ensures Split(p + [c] + rest) == [p] + Split(rest)
  {
    if |p| == 0 {
      assert p + [c] + rest == [c] + rest;
      assert ([c] + rest)[1..] == rest;
    } else {
      SplitAfterSeparator(p[1..], c, rest);
      assert (p + [c] + rest)[1..] == p[1..] + [c] + rest;
      assert p == [p[0]] + p[1..];
    }
  }

  /** The `.replace(/\.md$/, '')` of a document name: strips one trailing `.md`. */
  function StripMd(s: string): (r: string)
    ensures EndsWith(s, ".md") ==> r + ".md" == s
    ensures !EndsWith(s, ".md") ==> r == s
  {
    if EndsWith(s, ".md") then s[..|s| - 3] else s
  }

  /** The `.replace(/\.md$/, ".html")` of a document name. */
  function MdToHtml(s: string): (r: string)
    ensures EndsWith(s, ".md") ==> r == StripMd(s) + ".html" && EndsWith(r, ".html")
    ensures !EndsWith(s, ".md") ==> r == s
  {
    if EndsWith(s, ".md") then s[..|s| - 3] + ".html" else s
  }

  /** Two different documents never share an output name: the rename is injective on `.md` names. */
  lemma MdToHtmlInjective(a: string, b: string)
    requires EndsWith(a, ".md") && EndsWith(b, ".md")
    requires MdToHtml(a) == MdToHtml(b)
    ensures a == b
  {
    var sa, sb := StripMd(a), StripMd(b);
    assert sa + ".html" == sb + ".html";
    assert |sa| == |sb|;
    assert sa == (sa + ".html")[..|sa|];
    assert sb == (sb + ".html")[..|sb|];
  }
}
