/** The std::string vocabulary the other modules share: searching for a substring,
    and how a search behaves when the searched text grows at its end. */
module Strings {

  datatype Option<+T> = None | Some(value: T)

  const CRLF: string := "\r\n"

  /** `needle` occurs in `s` at position `i`. */
  predicate OccursAt(s: string, needle: string, i: int)
  {
    0 <= i && i + |needle| <= |s| && s[i..i + |needle|] == needle
  }

  /** `needle` does not occur in `s`. */
  ghost predicate Lacks(s: string, needle: string)
  {
    forall i :: !OccursAt(s, needle, i)
  }

  /** A line without its line ending. */
  ghost predicate IsLine(line: string)
  {
    Lacks(line, CRLF)
  }

  /** std::string::find with a starting position. */
  function FindFrom(s: string, needle: string, from: nat): (r: Option<nat>)
    ensures r.Some? ==> from <= r.value && OccursAt(s, needle, r.value)
    ensures r.Some? ==> forall j :: from <= j < r.value ==> !OccursAt(s, needle, j)
    ensures r.None? ==> forall j :: from <= j ==> !OccursAt(s, needle, j)
    decreases |s| - from
  {
    if from + |needle| > |s| then None
    else if OccursAt(s, needle, from) then Some(from)
    else FindFrom(s, needle, from + 1)
  }

  /** std::string::find. */
  function Find(s: string, needle: string): (r: Option<nat>)
    ensures r.Some? ==> OccursAt(s, needle, r.value)
    ensures r.Some? ==> forall j :: j < r.value ==> !OccursAt(s, needle, j)
    ensures r.None? <==> Lacks(s, needle)
  {
    FindFrom(s, needle, 0)
  }

  lemma SliceOfSlice(s: string, a: nat, b: nat, i: nat, j: nat)
    requires a <= b <= |s| && i <= j <= b - a
    ensures s[a..b][i..j] == s[a + i..a + j]
  {
    assert forall k :: 0 <= k < j - i ==> s[a..b][i..j][k] == s[a + i..a + j][k];
  }

  lemma OccursInPrefix(s: string, t: string, needle: string, i: int)
    requires i + |needle| <= |s|
    ensures OccursAt(s + t, needle, i) <==> OccursAt(s, needle, i)
  {
    if 0 <= i {
      assert (s + t)[i..i + |needle|] == s[i..i + |needle|];
    }
  }

  lemma OccursInSuffix(s: string, t: string, needle: string, i: int)
    requires |s| <= i
    ensures OccursAt(s + t, needle, i) <==> OccursAt(t, needle, i - |s|)
  {
    if i + |needle| <= |s| + |t| {
      assert (s + t)[i..i + |needle|] == t[i - |s|..i - |s| + |needle|];
    }
  }

  /** A match stays the first match whatever is appended. */
  lemma FindStable(s: string, t: string, needle: string)
    requires Find(s, needle).Some?
    ensures Find(s + t, needle) == Find(s, needle)
  {
    var i := Find(s, needle).value;
    forall j | 0 <= j <= i
      ensures OccursAt(s + t, needle, j) <==> OccursAt(s, needle, j)
    {
      OccursInPrefix(s, t, needle, j);
    }
    assert OccursAt(s + t, needle, i);
  }

  /** A match that only appears once `t` is appended ends inside `t`. */
  lemma FindBeyond(s: string, t: string, needle: string)
    requires Find(s, needle).None? && Find(s + t, needle).Some?
    ensures Find(s + t, needle).value + |needle| > |s|
  {
    var i := Find(s + t, needle).value;
    if i + |needle| <= |s| {
      OccursInPrefix(s, t, needle, i);
    }
  }

  /** The first line ending after a line without one is the one that ends that line. */
  lemma FindLineEnd(line: string, rest: string)
    requires Lacks(line, CRLF)
    ensures Find(line + CRLF + rest, CRLF) == Some(|line|)
  {
    var s := line + CRLF + rest;
    assert OccursAt(s, CRLF, |line|);
    forall j | 0 <= j < |line|
      ensures !OccursAt(s, CRLF, j)
    {
      assert s == line + (CRLF + rest);
      if j + 2 <= |line| {
        OccursInPrefix(line, CRLF + rest, CRLF, j);
        assert !OccursAt(line, CRLF, j);
      } else {
        assert j + 1 == |line| && s[j + 1] == '\r';
        assert s[j..j + 2][1] == s[j + 1];
        assert CRLF[1] == '\n';
      }
    }
  }
}
