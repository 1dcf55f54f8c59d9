/** str.c: what finding, counting, splitting, joining and replacing mean. */
module Strings {
  import opened Wrappers

  predicate Occurs(s: string, i: nat, sub: string) {
    i + |sub| <= |s| && s[i..i + |sub|] == sub
  }

  /** strstr: the first place where sub occurs. */
  function Find(s: string, sub: string): (r: Option<nat>)
    ensures r.Some? ==> Occurs(s, r.value, sub)
    ensures forall i: nat :: Occurs(s, i, sub) ==> r.Some? && r.value <= i
  {
    if Occurs(s, 0, sub) then Some(0)
    else if s == "" then None
    else
      var rest := Find(s[1..], sub);
      assert forall i: nat :: Occurs(s, i, sub) ==> i > 0 && Occurs(s[1..], i - 1, sub);
      if rest.Some? then
        assert s[1..][rest.value..rest.value + |sub|] == s[rest.value + 1..rest.value + 1 + |sub|];
        Some(rest.value + 1)
      else None
  }

  ghost predicate Contains(s: string, sub: string) {
    exists i: nat :: Occurs(s, i, sub)
  }

  /** How often sub occurs, counted from the left without overlap; an empty sub does not. */
  function Count(s: string, sub: string): nat {
    if sub == "" then 0
    else
      match Find(s, sub)
      case None => 0
      case Some(k) => 1 + Count(s[k + |sub|..], sub)
  }

  /** A string cut at these places. */
  function Pieces(s: string, sep: string): (parts: seq<string>)
    requires sep != ""
    ensures parts != []
  {
    match Find(s, sep)
    case None => [s]
    case Some(k) => [s[..k]] + Pieces(s[k + |sep|..], sep)
  }

  function Join(parts: seq<string>, sep: string): string
    requires parts != []
  {
    if |parts| == 1 then parts[0] else parts[0] + sep + Join(parts[1..], sep)
  }

  function Replaced(s: string, sub: string, rep: string): string
    requires sub != ""
  {
    Join(Pieces(s, sub), rep)
  }

  lemma PiecesStep(s: string, sep: string)
    requires sep != ""
    ensures Find(s, sep).None? ==> Pieces(s, sep) == [s] && Count(s, sep) == 0
    ensures Find(s, sep).Some? ==>
      var k := Find(s, sep).value;
      k + |sep| <= |s| && s == s[..k] + sep + s[k + |sep|..]
      && Pieces(s, sep) == [s[..k]] + Pieces(s[k + |sep|..], sep)
      && Count(s, sep) == 1 + Count(s[k + |sep|..], sep)
  {
    hide Find;
  }

  lemma JoinStep(part: string, parts: seq<string>, sep: string)
    requires parts != []
    ensures Join([part] + parts, sep) == part + sep + Join(parts, sep)
  {
    assert ([part] + parts)[1..] == parts;
  }

  /** Before the first separator there is none. */
  lemma NoneBefore(s: string, sep: string)
    requires sep != "" && Find(s, sep).Some?
    ensures !Contains(s[..Find(s, sep).value], sep)
  {
    var k := Find(s, sep).value;
    forall i: nat | Occurs(s[..k], i, sep) ensures Occurs(s, i, sep) {
      assert s[..k][i..i + |sep|] == s[i..i + |sep|];
    }
  }

  /** Splitting gives one part more than there are separators, none with a separator in it,
      and the separator joins them to the string they came from. */
  lemma {:induction false} SplitThenJoin(s: string, sep: string)
    requires sep != ""
    ensures |Pieces(s, sep)| == Count(s, sep) + 1
    ensures Join(Pieces(s, sep), sep) == s
    ensures forall part :: part in Pieces(s, sep) ==> !Contains(part, sep)
    decreases |s|
  {
    PiecesStep(s, sep);
    hide Occurs, Contains, Find, Pieces, Count;
    if Find(s, sep).Some? {
      NoneBefore(s, sep);
      var k := Find(s, sep).value;
      var rest := s[k + |sep|..];
      SplitThenJoin(rest, sep);
      hide Join;
      JoinStep(s[..k], Pieces(rest, sep), sep);
    } else {
      NotContained(s, sep);
    }
  }

  lemma NotContained(s: string, sep: string)
    requires Find(s, sep).None?
    ensures !Contains(s, sep)
  {
    hide Find, Occurs;
  }

  ghost predicate Free(parts: seq<string>, c: char) {
    forall part :: part in parts ==> c !in part
  }

  lemma OccursChar(s: string, i: nat, c: char)
    ensures Occurs(s, i, [c]) <==> i < |s| && s[i] == c
  {
  }

  lemma FindChar(part: string, c: char, rest: string)
    requires c !in part
    ensures Find(part, [c]) == None
    ensures Find(part + [c] + rest, [c]) == Some(|part|)
  {
    var s := part + [c] + rest;
    forall i: nat ensures Occurs(part, i, [c]) <==> i < |part| && part[i] == c {
      OccursChar(part, i, c);
    }
    forall i: nat ensures Occurs(s, i, [c]) <==> i < |s| && s[i] == c {
      OccursChar(s, i, c);
    }
    assert Occurs(s, |part|, [c]);
  }

  /** Joining by a character that no part holds, and splitting by it, gives the parts back. */
  lemma {:induction false} JoinThenSplit(parts: seq<string>, c: char)
    requires parts != [] && Free(parts, c)
    ensures Pieces(Join(parts, [c]), [c]) == parts
  {
    if |parts| == 1 {
      FindChar(parts[0], c, "");
    } else {
      var first, others := parts[0], parts[1..];
      assert parts == [first] + others;
      JoinThenSplit(others, c);
      var rest := Join(others, [c]);
      hide Find, Occurs, Pieces, Join;
      JoinStep(first, others, [c]);
      var s := first + [c] + rest;
      FindChar(first, c, rest);
      PiecesStep(s, [c]);
      assert s[..|first|] == first && s[|first| + 1..] == rest;
    }
  }

  /** In every part but the last the separator behind it is the first there is, and the last part
      has none: the leftmost cut. */
  ghost predicate LeftmostCut(parts: seq<string>, sep: string)
    requires parts != []
  {
    (forall i :: 0 <= i < |parts| - 1 ==> Find(parts[i] + sep, sep) == Some(|parts[i]|))
    && !Contains(parts[|parts| - 1], sep)
  }

  lemma LeftmostStep(parts: seq<string>, sep: string)
    requires |parts| > 1
    ensures LeftmostCut(parts, sep) <==> Find(parts[0] + sep, sep) == Some(|parts[0]|) && LeftmostCut(parts[1..], sep)
  {
    hide Find, Contains;
    if LeftmostCut(parts[1..], sep) && Find(parts[0] + sep, sep) == Some(|parts[0]|) {
      forall i | 0 <= i < |parts| - 1
        ensures Find(parts[i] + sep, sep) == Some(|parts[i]|)
      {
        assert i > 0 ==> parts[1..][i - 1] == parts[i];
      }
    }
    if LeftmostCut(parts, sep) {
      forall i | 0 <= i < |parts| - 2
        ensures Find(parts[1..][i] + sep, sep) == Some(|parts[1..][i]|)
      {
        assert parts[1..][i] == parts[i + 1];
      }
    }
  }

  /** What stands behind the first separator of a text does not matter for finding one before. */
  lemma FindBefore(first: string, sep: string, rest: string)
    requires sep != ""
    ensures Find(first + sep + rest, sep) == Find(first + sep, sep)
    ensures Find(first + sep, sep).Some? && Find(first + sep, sep).value <= |first|
  {
    var s, t := first + sep + rest, first + sep;
    assert Occurs(t, |first|, sep);
    forall i: nat | i <= |first|
      ensures Occurs(s, i, sep) <==> Occurs(t, i, sep)
    {
      assert s[i..i + |sep|] == t[i..i + |sep|];
    }
    assert Occurs(s, |first|, sep);
  }

  /** Splitting a join gives the parts back if and only if they are the leftmost cut. */
  lemma {:induction false} SplitsExactly(parts: seq<string>, sep: string)
    requires sep != "" && parts != []
    ensures Pieces(Join(parts, sep), sep) == parts <==> LeftmostCut(parts, sep)
  {
    hide Find, Occurs, Contains, Pieces, LeftmostCut;
    if |parts| == 1 {
      SplitsWhole(parts[0], sep);
      assert parts == [parts[0]];
    } else {
      var first, others := parts[0], parts[1..];
      assert parts == [first] + others;
      SplitsExactly(others, sep);
      LeftmostStep(parts, sep);
      JoinStep(first, others, sep);
      SplitsFirst(first, others, sep);
    }
  }

  lemma SplitsWhole(s: string, sep: string)
    requires sep != ""
    ensures Pieces(s, sep) == [s] <==> LeftmostCut([s], sep)
  {
    assert Find(s, sep).Some? ==> Occurs(s, Find(s, sep).value, sep);
    assert Find(s, sep).Some? ==> |Pieces(s, sep)| > 1;
  }

  lemma SplitsFirst(first: string, others: seq<string>, sep: string)
    requires sep != "" && others != []
    ensures Pieces(first + sep + Join(others, sep), sep) == [first] + others
       <==> Find(first + sep, sep) == Some(|first|) && Pieces(Join(others, sep), sep) == others
  {
    hide Find, Occurs, Join, Pieces;
    var rest := Join(others, sep);
    var s := first + sep + rest;
    FindBefore(first, sep, rest);
    PiecesStep(s, sep);
    var k := Find(s, sep).value;
    if k == |first| {
      assert s[..k] == first && s[k + |sep|..] == rest;
      assert ([first] + others)[1..] == others && ([first] + Pieces(rest, sep))[1..] == Pieces(rest, sep);
    } else {
      assert |Pieces(s, sep)[0]| == k && |([first] + others)[0]| == |first|;
    }
  }

  lemma {:induction false} PiecesFree(s: string, sep: string, c: char)
    requires sep != "" && c !in s
    ensures Free(Pieces(s, sep), c)
    decreases |s|
  {
    PiecesStep(s, sep);
    hide Find, Occurs, Pieces;
    if Find(s, sep).Some? {
      var k := Find(s, sep).value;
      PiecesFree(s[k + |sep|..], sep, c);
      assert c !in s[..k];
    }
  }

  /** Replacing by a character the string does not hold can be undone. */
  lemma ReplaceAndBack(s: string, sub: string, c: char)
    requires sub != "" && c !in s
    ensures Replaced(Replaced(s, sub, [c]), [c], sub) == s
  {
    PiecesFree(s, sub, c);
    JoinThenSplit(Pieces(s, sub), c);
    SplitThenJoin(s, sub);
  }

  /** Replacing a pattern by itself changes nothing, and where the pattern does not occur,
      replacing it by anything does not. */
  lemma ReplaceSame(s: string, sub: string, rep: string)
    requires sub != ""
    ensures Replaced(s, sub, sub) == s
    ensures !Contains(s, sub) ==> Replaced(s, sub, rep) == s
  {
    SplitThenJoin(s, sub);
    assert Find(s, sub).Some? ==> Occurs(s, Find(s, sub).value, sub);
  }

  lemma ReplacedStep(s: string, sub: string, rep: string)
    requires sub != ""
    ensures Find(s, sub).None? ==> Replaced(s, sub, rep) == s
    ensures Find(s, sub).Some? ==>
      var k := Find(s, sub).value;
      k + |sub| <= |s| && Replaced(s, sub, rep) == s[..k] + rep + Replaced(s[k + |sub|..], sub, rep)
  {
    PiecesStep(s, sub);
    hide Find, Occurs, Pieces;
    if Find(s, sub).Some? {
      var k := Find(s, sub).value;
      JoinStep(s[..k], Pieces(s[k + |sub|..], sub), rep);
      hide Join;
    }
  }

  /** The size str_replace computes before it writes anything. */
  lemma {:induction false} ReplacedSize(s: string, sub: string, rep: string)
    requires sub != ""
    ensures |Replaced(s, sub, rep)| == |s| + (|rep| - |sub|) * Count(s, sub)
    decreases |s|
  {
    hide Find, Occurs, Replaced, Pieces, Count, Join;
    PiecesStep(s, sub);
    ReplacedStep(s, sub, rep);
    if Find(s, sub).Some? {
      var rest := s[Find(s, sub).value + |sub|..];
      ReplacedSize(rest, sub, rep);
      OneMore(|rep| - |sub|, Count(rest, sub));
    }
  }

  lemma OneMore(d: int, n: nat)
    ensures d * (1 + n) == d + d * n
  {
  }

  // ---- writing a join from left to right --------------------------------------------------

  /** The first i parts, each with the separator behind it. */
  function Trail(parts: seq<string>, i: nat, sep: string): string
    requires i <= |parts|
  {
    if i == 0 then "" else Trail(parts, i - 1, sep) + parts[i - 1] + sep
  }

  lemma {:induction false} TrailJoin(parts: seq<string>, i: nat, sep: string)
    requires i < |parts|
    ensures Join(parts, sep) == Trail(parts, i, sep) + Join(parts[i..], sep)
  {
    if i == 0 {
      assert parts[i..] == parts;
    } else {
      TrailJoin(parts, i - 1, sep);
      assert parts[i - 1..] == [parts[i - 1]] + parts[i..];
      JoinStep(parts[i - 1], parts[i..], sep);
    }
  }

  /** Having written part i, what is left is the separator and the parts behind it; a write
      that has come to its full length has only empty ones left. */
  lemma TrailStep(parts: seq<string>, i: nat, sep: string)
    requires i < |parts|
    ensures var sofar := Trail(parts, i, sep) + parts[i];
      |sofar| <= |Join(parts, sep)|
      && (i + 1 == |parts| ==> sofar == Join(parts, sep))
      && (i + 1 < |parts| ==> Trail(parts, i + 1, sep) == sofar + sep && |sofar + sep| <= |Join(parts, sep)|)
  {
    TrailJoin(parts, i, sep);
    assert parts[i..] == [parts[i]] + parts[i + 1..];
    if i + 1 < |parts| {
      JoinStep(parts[i], parts[i + 1..], sep);
    }
  }
}
