/** `split`: cutting a string at every occurrence of a separator, and the join that undoes it. */
module Tokenize {
  import opened Machine
  import opened Strings

  /** Where the separator is found when each search starts one byte after the last match. */
  function PositionsFrom(s: string, sep: string, from: nat): (r: seq<nat>)
    ensures forall i :: 0 <= i < |r| ==> r[i] + |sep| <= |s|
    decreases |s| + 1 - from
  {
    match FindFrom(s, sep, from)
    case None => []
    case Some(i) => [i] + PositionsFrom(s, sep, i + 1)
  }

  /** They are all the places where the separator occurs, in order. */
  lemma {:induction false} PositionsExact(s: string, sep: string, from: nat)
    ensures var r := PositionsFrom(s, sep, from);
      && (forall i :: 0 <= i < |r| ==> from <= r[i] && OccursAt(s, sep, r[i]))
      && (forall i, j :: 0 <= i < j < |r| ==> r[i] < r[j])
      && (forall p :: from <= p && OccursAt(s, sep, p) ==> p in r)
    decreases |s| + 1 - from
  {
    var found := FindFrom(s, sep, from);
    if found.Some? {
      PositionsExact(s, sep, found.value + 1);
    }
  }

  /** The bytes from `a` up to `b`; when `b` is before `a` the unsigned length wraps and
      std::string::substr returns the rest of the string. */
  function Piece(s: string, a: nat, b: nat): string
    requires a <= |s| && b <= |s|
  {
    if a <= b then s[a..b] else s[a..]
  }

  function Pieces(s: string, width: nat, start: nat, positions: seq<nat>): (r: seq<string>)
    requires start <= |s| && forall i :: 0 <= i < |positions| ==> positions[i] + width <= |s|
    ensures |r| == |positions| + 1
    decreases |positions|
  {
    if positions == [] then [s[start..]]
    else [Piece(s, start, positions[0])] + Pieces(s, width, positions[0] + width, positions[1..])
  }

  /** The value `split` returns. */
  function Split(s: string, sep: string): (r: seq<string>)
    ensures |r| >= 1
  {
    Pieces(s, |sep|, 0, PositionsFrom(s, sep, 0))
  }

  function Join(tokens: seq<string>, sep: string): string
    requires tokens != []
  {
    if |tokens| == 1 then tokens[0] else tokens[0] + sep + Join(tokens[1..], sep)
  }

  /** std::string::substr. */
  function Substr(s: string, from: nat, length: nat): string
    requires from <= |s|
  {
    if from + length < |s| then s[from..from + length] else s[from..]
  }

  /** A negative length, wrapped to size_t, makes substr return the rest of the string. */
  lemma WrappedPiece(s: string, a: nat, b: nat)
    requires a <= |s| && b <= |s| && |s| < UINT64 / 2
    ensures Substr(s, a, (b - a) % UINT64) == Piece(s, a, b)
  {
    if a <= b {
      assert (b - a) % UINT64 == b - a;
    } else {
      assert (b - a) % UINT64 == b - a + UINT64;
    }
  }

  lemma FoundInside(s: string, sep: string, from: nat)
    ensures FindFrom(s, sep, from).Some? ==> from <= FindFrom(s, sep, from).value <= |s|
  {
  }

  lemma PositionsStep(before: seq<nat>, s: string, sep: string, from: nat)
    ensures before + PositionsFrom(s, sep, from)
         == match FindFrom(s, sep, from)
      case None => before
      case Some(i) => before + [i] + PositionsFrom(s, sep, i + 1)
  {
    hide FindFrom;
    hide OccursAt;
  }

  /** The first loop of `split`: every place a search restarted one byte on finds a match. */
  method FindAll(s: string, sep: string) returns (indices: seq<nat>)
    ensures indices == PositionsFrom(s, sep, 0)
  {
    hide FindFrom;
    hide OccursAt;
    hide PositionsFrom;
    indices := [];
    var nextToken := 0;
    while true
      invariant PositionsFrom(s, sep, 0) == indices + PositionsFrom(s, sep, nextToken)
      decreases |s| + 1 - nextToken
    {
      FoundInside(s, sep, nextToken);
      var found := FindFrom(s, sep, nextToken);
      if found.None? {
        PositionsStep(indices, s, sep, nextToken);
        break;
      }
      PositionsStep(indices, s, sep, nextToken);
      indices := indices + [found.value];
      nextToken := found.value + 1;
    }
  }

  /** The k-th token runs from the end of the k-th match to the start of the next. */
  lemma {:induction false} PiecesAt(s: string, width: nat, start: nat, positions: seq<nat>, k: nat)
    requires start <= |s| && forall i :: 0 <= i < |positions| ==> positions[i] + width <= |s|
    requires k <= |positions|
    ensures Pieces(s, width, start, positions)[k]
         == Piece(s, if k == 0 then start else positions[k - 1] + width,
                  if k == |positions| then |s| else positions[k])
    decreases k
  {
    if k > 0 {
      PiecesAt(s, width, positions[0] + width, positions[1..], k - 1);
    }
  }

  /** The second loop of `split`: cut between consecutive matches. */
  method Cut(s: string, width: nat, indices: seq<nat>) returns (tokens: seq<string>)
    requires |s| < UINT64 / 2
    requires indices != [] && forall i :: 0 <= i < |indices| ==> indices[i] + width <= |s|
    ensures tokens == Pieces(s, width, 0, indices)
  {
    hide Pieces;
    hide Substr;
    ghost var pieces := Pieces(s, width, 0, indices);
    tokens := [s[..indices[0]]];
    PiecesAt(s, width, 0, indices, 0);
    var i := 0;
    while i < |indices| - 1
      invariant 0 <= i <= |indices| - 1
      invariant tokens == pieces[..i + 1]
    {
      var a := indices[i] + width;
      WrappedPiece(s, a, indices[i + 1]);
      PiecesAt(s, width, 0, indices, i + 1);
      tokens := tokens + [Substr(s, a, (indices[i + 1] - indices[i] - width) % UINT64)];
      i := i + 1;
    }
    PiecesAt(s, width, 0, indices, |indices|);
    var a := indices[|indices| - 1] + width;
    assert s[a..|s|] == s[a..];
    assert pieces == pieces[..i + 1] + [pieces[i + 1]];
    tokens := tokens + [s[a..]];
  }

  /** `split` as the program computes it. */
  method SplitString(s: string, sep: string) returns (tokens: seq<string>)
    requires |s| < UINT64 / 2
    ensures tokens == Split(s, sep)
  {
    var indices := FindAll(s, sep);
    if indices == [] {
      return [s];
    }
    tokens := Cut(s, |sep|, indices);
  }

  /** No two occurrences of the separator share a byte. */
  ghost predicate NoOverlap(s: string, sep: string)
  {
    forall i, j :: OccursAt(s, sep, i) && OccursAt(s, sep, j) && i < j ==> i + |sep| <= j
  }

  /** Consecutive positions are at least one separator apart, the first at or after `start`. */
  ghost predicate Spaced(positions: seq<nat>, width: nat, start: nat)
  {
    positions == [] || (start <= positions[0] && Spaced(positions[1..], width, positions[0] + width))
  }

  lemma {:induction false} SpacedIfApart(positions: seq<nat>, width: nat, start: nat)
    requires forall i :: 0 <= i < |positions| ==> start <= positions[i]
    requires forall i, j :: 0 <= i < j < |positions| ==> positions[i] + width <= positions[j]
    ensures Spaced(positions, width, start)
  {
    if positions != [] {
      SpacedIfApart(positions[1..], width, positions[0] + width);
    }
  }

  lemma {:induction false} ApartIfSpaced(positions: seq<nat>, width: nat, start: nat)
    requires Spaced(positions, width, start)
    ensures forall i :: 0 <= i < |positions| ==> start <= positions[i]
    ensures forall i, j :: 0 <= i < j < |positions| ==> positions[i] + width <= positions[j]
  {
    if positions != [] {
      var rest := positions[1..];
      ApartIfSpaced(rest, width, positions[0] + width);
      assert forall i :: 1 <= i < |positions| ==> positions[i] == rest[i - 1];
    }
  }

  /** ps lists the places where the separator occurs, in order. */
  ghost predicate Listed(s: string, sep: string, ps: seq<nat>)
  {
    && (forall i :: 0 <= i < |ps| ==> OccursAt(s, sep, ps[i]))
    && (forall i, j :: 0 <= i < j < |ps| ==> ps[i] < ps[j])
    && (forall p :: OccursAt(s, sep, p) ==> p in ps)
  }

  ghost predicate Apart(ps: seq<nat>, width: nat)
  {
    forall i, j :: 0 <= i < j < |ps| ==> ps[i] + width <= ps[j]
  }

  lemma ApartIffNoOverlap(s: string, sep: string, ps: seq<nat>)
    requires Listed(s, sep, ps)
    ensures Apart(ps, |sep|) <==> NoOverlap(s, sep)
  {
    hide OccursAt;
    if Apart(ps, |sep|) {
      forall a, b | OccursAt(s, sep, a) && OccursAt(s, sep, b) && a < b ensures a + |sep| <= b
      {
        assert a in ps && b in ps;
        var i :| 0 <= i < |ps| && ps[i] == a;
        var j :| 0 <= j < |ps| && ps[j] == b;
        assert i < j;
      }
    }
  }

  lemma PositionsListed(s: string, sep: string)
    ensures Listed(s, sep, PositionsFrom(s, sep, 0))
  {
    hide PositionsFrom;
    PositionsExact(s, sep, 0);
    forall p | OccursAt(s, sep, p) ensures p in PositionsFrom(s, sep, 0)
    {
      assert 0 <= p;
    }
  }

  lemma SpacedIffNoOverlap(s: string, sep: string)
    ensures Spaced(PositionsFrom(s, sep, 0), |sep|, 0) <==> NoOverlap(s, sep)
  {
    hide PositionsFrom;
    hide NoOverlap;
    var ps := PositionsFrom(s, sep, 0);
    PositionsListed(s, sep);
    hide Listed;
    hide OccursAt;
    ApartIffNoOverlap(s, sep, ps);
    if Apart(ps, |sep|) {
      SpacedIfApart(ps, |sep|, 0);
    }
    if Spaced(ps, |sep|, 0) {
      ApartIfSpaced(ps, |sep|, 0);
    }
  }

  lemma {:induction false} JoinPieces(s: string, sep: string, start: nat, positions: seq<nat>)
    requires start <= |s|
    requires forall i :: 0 <= i < |positions| ==> positions[i] + |sep| <= |s| && OccursAt(s, sep, positions[i])
    ensures |Join(Pieces(s, |sep|, start, positions), sep)| >= |s| - start
    ensures Spaced(positions, |sep|, start) ==> Join(Pieces(s, |sep|, start, positions), sep) == s[start..]
    ensures !Spaced(positions, |sep|, start) ==> |Join(Pieces(s, |sep|, start, positions), sep)| > |s| - start
    decreases |positions|
  {
    if positions != [] {
      var p := positions[0];
      JoinPieces(s, sep, p + |sep|, positions[1..]);
      assert OccursAt(s, sep, p);
      var r := Pieces(s, |sep|, start, positions);
      assert r[1..] == Pieces(s, |sep|, p + |sep|, positions[1..]);
      if start <= p {
        assert s[start..] == s[start..p] + s[p..p + |sep|] + s[p + |sep|..];
      }
    }
  }

  /** Joining undoes splitting exactly when no two matches of the separator overlap. */
  lemma JoinSplit(s: string, sep: string)
    ensures Join(Split(s, sep), sep) == s <==> NoOverlap(s, sep)
  {
    var ps := PositionsFrom(s, sep, 0);
    PositionsExact(s, sep, 0);
    JoinPieces(s, sep, 0, ps);
    SpacedIffNoOverlap(s, sep);
    assert s[0..] == s;
  }

  /** An overlapping separator that joining does not undo. */
  lemma OverlappingSeparator()
    ensures !NoOverlap("aaa", "aa") && Join(Split("aaa", "aa"), "aa") != "aaa"
  {
    assert OccursAt("aaa", "aa", 0) && OccursAt("aaa", "aa", 1);
    JoinSplit("aaa", "aa");
  }

  lemma SliceLacks(s: string, sep: string, a: nat, b: nat)
    requires a <= b <= |s| && forall p :: a <= p && OccursAt(s, sep, p) ==> p + |sep| > b
    ensures Lacks(s[a..b], sep)
  {
    forall i ensures !OccursAt(s[a..b], sep, i)
    {
      if 0 <= i && i + |sep| <= b - a {
        SliceOfSlice(s, a, b, i, i + |sep|);
        assert OccursAt(s, sep, a + i) <==> OccursAt(s[a..b], sep, i);
      }
    }
  }

  lemma {:induction false} PiecesLack(s: string, sep: string, start: nat, positions: seq<nat>)
    requires sep != "" && start <= |s| && Spaced(positions, |sep|, start)
    requires forall i :: 0 <= i < |positions| ==> positions[i] + |sep| <= |s| && OccursAt(s, sep, positions[i])
    requires forall p :: start <= p && OccursAt(s, sep, p) ==> p in positions
    ensures forall t :: t in Pieces(s, |sep|, start, positions) ==> Lacks(t, sep)
    decreases |positions|
  {
    ApartIfSpaced(positions, |sep|, start);
    var end := if positions == [] then |s| else positions[0];
    SliceLacks(s, sep, start, end);
    assert s[start..|s|] == s[start..];
    if positions != [] {
      assert Piece(s, start, positions[0]) == s[start..end];
      forall p | positions[0] + |sep| <= p && OccursAt(s, sep, p) ensures p in positions[1..]
      {
        assert p in positions;
      }
      PiecesLack(s, sep, positions[0] + |sep|, positions[1..]);
    }
  }

  /** No token contains the separator. */
  lemma TokensLackSeparator(s: string, sep: string)
    requires sep != "" && NoOverlap(s, sep)
    ensures forall t :: t in Split(s, sep) ==> Lacks(t, sep)
  {
    PositionsExact(s, sep, 0);
    SpacedIffNoOverlap(s, sep);
    PiecesLack(s, sep, 0, PositionsFrom(s, sep, 0));
  }

  lemma {:induction false} JoinCount(tokens: seq<string>, c: char)
    requires tokens != [] && forall t :: t in tokens ==> c !in t
    ensures multiset(Join(tokens, [c]))[c] == |tokens| - 1
  {
    assert tokens[0] in tokens;
    if |tokens| > 1 {
      JoinCount(tokens[1..], c);
      assert Join(tokens, [c]) == tokens[0] + [c] + Join(tokens[1..], [c]);
    }
  }

  lemma {:induction false} JoinInjective(a: seq<string>, b: seq<string>, c: char)
    requires a != [] && b != [] && Join(a, [c]) == Join(b, [c])
    requires forall t :: t in a ==> c !in t
    requires forall t :: t in b ==> c !in t
    ensures a == b
  {
    JoinCount(a, c);
    JoinCount(b, c);
    if |a| > 1 {
      var j := Join(a, [c]);
      assert a[0] in a && b[0] in b;
      assert j[|a[0]|] == c && j[|b[0]|] == c;
      assert forall i :: 0 <= i < |a[0]| ==> j[i] == a[0][i];
      assert forall i :: 0 <= i < |b[0]| ==> j[i] == b[0][i];
      assert |a[0]| == |b[0]|;
      assert a[0] == j[..|a[0]|] == b[0];
      assert Join(a[1..], [c]) == j[|a[0]| + 1..] == Join(b[1..], [c]);
      JoinInjective(a[1..], b[1..], c);
      assert a == [a[0]] + a[1..] && b == [b[0]] + b[1..];
    }
  }

  lemma CharTokensLack(s: string, c: char)
    ensures NoOverlap(s, [c])
    ensures forall t :: t in Split(s, [c]) ==> c !in t
  {
    TokensLackSeparator(s, [c]);
    forall t | t in Split(s, [c]) ensures c !in t
    {
      if i :| 0 <= i < |t| && t[i] == c {
        assert OccursAt(t, [c], i);
      }
    }
  }

  /** For a one-character separator: join undoes split, there is one more token than
      separators, and no token holds the separator. */
  lemma SplitByChar(s: string, c: char)
    ensures Join(Split(s, [c]), [c]) == s
    ensures |Split(s, [c])| == multiset(s)[c] + 1
    ensures forall t :: t in Split(s, [c]) ==> c !in t
  {
    CharTokensLack(s, c);
    JoinSplit(s, [c]);
    JoinCount(Split(s, [c]), c);
  }

  /** The other way round: split undoes join on separator-free tokens. */
  lemma SplitJoin(tokens: seq<string>, c: char)
    requires tokens != [] && forall t :: t in tokens ==> c !in t
    ensures Split(Join(tokens, [c]), [c]) == tokens
  {
    var s := Join(tokens, [c]);
    SplitByChar(s, c);
    JoinInjective(Split(s, [c]), tokens, c);
  }
}
