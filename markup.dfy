/** Building blocks for stating what a generated page contains: the concatenation
    of a listing and the relation "these pieces appear verbatim, in this order". */
module Markup {

  /** The pieces written one after the other, as a loop of `+=` writes them. */
  function Concat(pieces: seq<string>): string {
    if |pieces| == 0 then "" else pieces[0] + Concat(pieces[1..])
  }

  lemma {:induction false} ConcatSnoc(pieces: seq<string>, last: string)
    ensures Concat(pieces + [last]) == Concat(pieces) + last
  {
    if |pieces| > 0 {
      assert (pieces + [last])[1..] == pieces[1..] + [last];
      ConcatSnoc(pieces[1..], last);
    }
  }

  /** Appending a piece to a listing written after some text. */
  lemma {:induction false} ConcatAppend(content: string, pieces: seq<string>, last: string)
    ensures content + Concat(pieces + [last]) == content + Concat(pieces) + last
  {
    ConcatSnoc(pieces, last);
    assert content + (Concat(pieces) + last) == content + Concat(pieces) + last;
  }

  /** One string per element, in order: what a loop writing `f(x)` for each `x` produces. */
  function Mapped<T>(f: T -> string, xs: seq<T>): (ys: seq<string>)
    ensures |ys| == |xs|
    ensures forall i :: 0 <= i < |xs| ==> ys[i] == f(xs[i])
  {
    if |xs| == 0 then [] else Mapped(f, xs[..|xs| - 1]) + [f(xs[|xs| - 1])]
  }

  lemma MappedSnoc<T>(f: T -> string, xs: seq<T>, x: T)
    ensures Mapped(f, xs + [x]) == Mapped(f, xs) + [f(x)]
  {
    assert (xs + [x])[..|xs|] == xs;
  }

  /** `piece` occurs in `s` starting at position `i`. */
  predicate OccursAt(s: string, piece: string, i: int) {
    0 <= i <= |s| - |piece| && s[i..i + |piece|] == piece
  }

  /** Each piece occurs in `s`, verbatim, after the end of the one before it. */
  ghost predicate InOrder(s: string, pieces: seq<string>)
    decreases |pieces|
  {
    |pieces| == 0 ||
    exists i :: OccursAt(s, pieces[0], i) && InOrder(s[i + |pieces[0]|..], pieces[1..])
  }

  /** Text before a piece does not disturb the order of what follows. */
  lemma InOrderCons(before: string, piece: string, after: string, pieces: seq<string>)
    requires InOrder(after, pieces)
    ensures InOrder(before + piece + after, [piece] + pieces)
  {
    var s := before + piece + after;
    var i := |before|;
    assert s[i..i + |piece|] == piece;
    assert s[i + |piece|..] == after;
    var ps := [piece] + pieces;
    assert ps[0] == piece && ps[1..] == pieces;
    assert OccursAt(s, ps[0], i) && InOrder(s[i + |ps[0]|..], ps[1..]);
  }

  /** A piece followed by text holding the rest in order. */
  lemma InOrderHead(piece: string, after: string, pieces: seq<string>)
    requires InOrder(after, pieces)
    ensures InOrder(piece + after, [piece] + pieces)
  {
    var s := piece + after;
    assert s[0..|piece|] == piece;
    assert s[|piece|..] == after;
    var ps := [piece] + pieces;
    assert ps[0] == piece && ps[1..] == pieces;
    assert OccursAt(s, ps[0], 0) && InOrder(s[|ps[0]|..], ps[1..]);
  }

  /** Anything may follow the last piece. */
  lemma {:induction false} InOrderExtend(s: string, pieces: seq<string>, tail: string)
    requires InOrder(s, pieces)
    ensures InOrder(s + tail, pieces)
    decreases |pieces|
  {
    if |pieces| > 0 {
      var i :| OccursAt(s, pieces[0], i) && InOrder(s[i + |pieces[0]|..], pieces[1..]);
      InOrderExtend(s[i + |pieces[0]|..], pieces[1..], tail);
      assert (s + tail)[i..i + |pieces[0]|] == pieces[0];
      assert (s + tail)[i + |pieces[0]|..] == s[i + |pieces[0]|..] + tail;
      assert OccursAt(s + tail, pieces[0], i);
    }
  }

  /** A listing contains each of its entries, in order. */
  lemma {:induction false} ConcatInOrder(pieces: seq<string>)
    ensures InOrder(Concat(pieces), pieces)
  {
    if |pieces| > 0 {
      var rest := pieces[1..];
      ConcatInOrder(rest);
      InOrderHead(pieces[0], Concat(rest), rest);
      assert [pieces[0]] + rest == pieces;
    }
  }

  /** Two ordered runs of pieces, one after the other, form one ordered run. */
  lemma {:induction false} InOrderAppend(s: string, p: seq<string>, t: string, q: seq<string>)
    requires InOrder(s, p) && InOrder(t, q)
    ensures InOrder(s + t, p + q)
    decreases |p|
  {
    if |p| == 0 {
      InOrderPrefix(s, t, q);
      assert p + q == q;
    } else {
      var i :| OccursAt(s, p[0], i) && InOrder(s[i + |p[0]|..], p[1..]);
      InOrderAppend(s[i + |p[0]|..], p[1..], t, q);
      AppendStep(s, p, t, q, i);
    }
  }

  /** The first piece found in `s`, and the rest of both runs after it. */
  lemma AppendStep(s: string, p: seq<string>, t: string, q: seq<string>, i: int)
    requires |p| > 0 && OccursAt(s, p[0], i)
    requires InOrder(s[i + |p[0]|..] + t, p[1..] + q)
    ensures InOrder(s + t, p + q)
  {
    var rest := s[i + |p[0]|..];
    var whole := s[..i] + p[0] + (rest + t);
    var ps := [p[0]] + (p[1..] + q);
    InOrderCons(s[..i], p[0], rest + t, p[1..] + q);
    SplitAtPiece(s, p[0], i, t);
    HeadAndRest(p, q);
    assert whole == s + t && ps == p + q;
  }

  lemma HeadAndRest(p: seq<string>, q: seq<string>)
    requires |p| > 0
    ensures [p[0]] + (p[1..] + q) == p + q
  {
    assert p == [p[0]] + p[1..];
  }

  /** The text around an occurrence of a piece. */
  lemma SplitAtPiece(s: string, piece: string, i: int, t: string)
    requires OccursAt(s, piece, i)
    ensures s[..i] + piece + (s[i + |piece|..] + t) == s + t
  {
    assert s == s[..i] + piece + s[i + |piece|..];
  }

  /** Anything may precede the first piece. */
  lemma {:induction false} InOrderPrefix(before: string, t: string, q: seq<string>)
    requires InOrder(t, q)
    ensures InOrder(before + t, q)
  {
    if |q| > 0 {
      var i :| OccursAt(t, q[0], i) && InOrder(t[i + |q[0]|..], q[1..]);
      var s := before + t;
      var k := |before| + i;
      assert s[k..k + |q[0]|] == t[i..i + |q[0]|];
      assert s[k + |q[0]|..] == t[i + |q[0]|..];
      assert OccursAt(s, q[0], k);
    }
  }

  /** A listing between an opening and a closing: the opening, the pieces, then the closing, in order. */
  lemma Wrapped(open: string, pieces: seq<string>, close: string)
    ensures InOrder(open + Concat(pieces) + close, [open] + pieces + [close])
  {
    var front := [open] + pieces;
    assert front[1..] == pieces;
    ConcatSnoc(front, close);
    ConcatInOrder(front + [close]);
  }

  /** Text around a listing does not disturb the order of its pieces. */
  lemma Framed(before: string, pieces: seq<string>, after: string)
    ensures InOrder(before + Concat(pieces) + after, pieces)
  {
    ConcatInOrder(pieces);
    InOrderExtend(Concat(pieces), pieces, after);
    InOrderPrefix(before, Concat(pieces) + after, pieces);
    assert before + (Concat(pieces) + after) == before + Concat(pieces) + after;
  }

  /** A heading piece, then a listing: the heading comes before every entry, in order. */
  lemma Headed(before: string, head: string, between: string, pieces: seq<string>, after: string)
    ensures InOrder(before + head + between + Concat(pieces) + after, [head] + pieces)
  {
    Framed(between, pieces, after);
    InOrderCons(before, head, between + Concat(pieces) + after, pieces);
    assert before + head + (between + Concat(pieces) + after) == before + head + between + Concat(pieces) + after;
  }

  /** Three pieces written one after the other, with any text around them, appear in order. */
  lemma Adjacent(before: string, a: string, b: string, c: string, after: string)
    ensures InOrder(before + a + b + c + after, [a, b, c])
  {
    var pieces := [a, b, c];
    Framed(before, pieces, after);
    assert pieces[1..] == [b, c] && pieces[1..][1..] == [c] && [c][1..] == [];
    assert Concat([c]) == c + Concat([]);
    assert Concat(pieces[1..]) == b + Concat([c]);
    assert Concat(pieces) == a + (b + (c + ""));
    assert before + a + b + c + after == before + Concat(pieces) + after;
  }

  /** An empty listing adds nothing between its surroundings. */
  lemma EmptyListing(before: string, after: string)
    ensures before + Concat([]) + after == before + after
  {
    assert before + "" == before;
  }

  /** Fixed text and arguments taking turns: `fixed[0]`, `args[0]`, `fixed[1]`, ...,
      `fixed[|args|]`, the shape of a template literal. */
  function Weave(fixed: seq<string>, args: seq<string>): (pieces: seq<string>)
    requires |fixed| == |args| + 1
    ensures |pieces| == |fixed| + |args|
    ensures pieces[0] == fixed[0] && pieces[|pieces| - 1] == fixed[|fixed| - 1]
  {
    if |args| == 0 then fixed else [fixed[0], args[0]] + Weave(fixed[1..], args[1..])
  }

  /** A template literal shows its arguments verbatim, in order. */
  lemma {:induction false} WovenInOrder(fixed: seq<string>, args: seq<string>)
    requires |fixed| == |args| + 1
    ensures InOrder(Concat(Weave(fixed, args)), args)
  {
    if |args| > 0 {
      var rest := Weave(fixed[1..], args[1..]);
      WovenInOrder(fixed[1..], args[1..]);
      var w := [fixed[0], args[0]] + rest;
      assert w[1..][1..] == rest;
      assert Concat(w) == fixed[0] + args[0] + Concat(rest);
      InOrderCons(fixed[0], args[0], Concat(rest), args[1..]);
      assert [args[0]] + args[1..] == args;
    }
  }

  /** The text of a listing begins with its first piece and ends with its last. */
  lemma {:induction false} ConcatEnds(pieces: seq<string>)
    requires |pieces| > 0
    ensures pieces[0] <= Concat(pieces)
    ensures |pieces[|pieces| - 1]| <= |Concat(pieces)|
    ensures Concat(pieces)[|Concat(pieces)| - |pieces[|pieces| - 1]|..] == pieces[|pieces| - 1]
  {
    if |pieces| > 1 {
      ConcatEnds(pieces[1..]);
      assert Concat(pieces) == pieces[0] + Concat(pieces[1..]);
    }
  }

  function TitleElement(title: string): string {
    "<title>" + title + "</title>"
  }

  function StylesheetLink(href: string): string {
    "<link rel=\"stylesheet\" href=\"" + href + "\">"
  }

  /** The opening tag of a page's back button. */
  function BackLink(href: string): string {
    "<a href=\"" + href + "\" class=\"back-btn\">"
  }
}
