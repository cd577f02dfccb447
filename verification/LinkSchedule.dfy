/** The cyclic schedule of delivery opportunities: loading it, and where it stands. */
module LinkSchedule {
  import opened Strings
  import opened Ezio
  import opened Arithmetic
  import opened Machine

  ghost predicate Nondecreasing(s: seq<nat>)
  {
    forall i, j :: 0 <= i <= j < |s| ==> s[i] <= s[j]
  }

  /** A schedule the constructor accepts. */
  ghost predicate IsSchedule(s: seq<nat>)
  {
    s != [] && Nondecreasing(s) && s[|s| - 1] > 0
  }

  function Timestamp(line: string): Option<nat>
  {
    if line == "" then None
    else match Myatoi(line, 10)
      case None => None
      case Some(v) => Some(v % UINT64)
  }

  /** The lines of a trace file stand for these timestamps. */
  ghost predicate Denotes(lines: seq<string>, s: seq<nat>)
  {
    |lines| == |s| && forall i :: 0 <= i < |s| ==> Timestamp(lines[i]) == Some(s[i])
  }

  /** A line is a timestamp exactly when it is a decimal number in the range of a long; a negative
      one wraps around at 2^64. */
  lemma TimestampExact(line: string, n: nat)
    ensures Timestamp(line) == Some(n) <==> exists v :: Written(line, 10, v) && n == v % UINT64
  {
    hide Myatoi;
    hide Written;
    if Timestamp(line) == Some(n) {
      MyatoiExact(line, 10, Myatoi(line, 10).value);
    }
    if v :| Written(line, 10, v) && n == v % UINT64 {
      MyatoiExact(line, 10, v);
      NothingWritten(v);
    }
  }

  lemma NothingWritten(v: int)
    ensures !Written("", 10, v)
  {
    hide Written;
    MyatoiExact("", 10, v);
    assert SkipSpaces("") == "";
  }

  /** The trace whose lines are the numbers of a schedule in decimal, with any leading zeros, stands
      for that schedule and no other. */
  lemma PrintedTrace(lines: seq<string>, s: seq<nat>)
    requires |lines| == |s| && forall i :: 0 <= i < |s| ==> Worth(lines[i], 10, s[i]) && s[i] <= LONG_MAX
    ensures Denotes(lines, s) && forall t :: Denotes(lines, t) ==> t == s
  {
    hide Worth;
    hide Timestamp;
    forall i | 0 <= i < |s| ensures Timestamp(lines[i]) == Some(s[i])
    {
      TimestampRead(lines[i], s[i]);
    }
  }

  lemma TimestampRead(line: string, n: nat)
    requires Worth(line, 10, n) && n <= LONG_MAX
    ensures Timestamp(line) == Some(n)
  {
    hide Myatoi;
    hide Positional;
    var digits :| Spells(line, digits, 10) && Positional(digits, 10) == n;
    NumberRead(line, digits, 10);
  }

  /** A trace line that is negative is not refused: it stands for a moment far in the future. */
  lemma NegativeTimestamp()
    ensures Timestamp("-1") == Some(UINT64 - 1)
  {
    hide Digits;
    assert SkipSpaces("-1") == "-1";
    assert "-1"[1..] == "1" && SkipHexPrefix("1", 10) == "1";
    assert AllDigits("1", 10) by { assert IsDigit('1', 10); }
    assert "1"[..0] == "" && DigitsValue("", 10) == 0;
    assert DigitsValue("1", 10) == 1;
  }

  /** Reading a trace file, line by line: accepted exactly when every line is a timestamp,
      they never go back, and the last one is not zero. */
  method LoadSchedule(lines: seq<string>) returns (schedule: Option<seq<nat>>)
    ensures schedule.Some? ==> Denotes(lines, schedule.value) && IsSchedule(schedule.value)
    ensures schedule.None? ==> !exists s :: Denotes(lines, s) && IsSchedule(s)
  {
    hide Timestamp;
    var s: seq<nat> := [];
    for i := 0 to |lines|
      invariant |s| == i && Nondecreasing(s)
      invariant forall j :: 0 <= j < i ==> Timestamp(lines[j]) == Some(s[j])
    {
      var ms := Timestamp(lines[i]);
      if ms.None? {
        assert forall r: seq<nat> :: |r| == |lines| ==> Timestamp(lines[i]) != Some(r[i]);
        return None;
      }
      if s != [] && ms.value < s[|s| - 1] {
        assert forall r :: Denotes(lines, r) ==> r[i - 1] == s[i - 1] && r[i] == ms.value;
        return None;
      }
      s := s + [ms.value];
    }
    assert forall r :: Denotes(lines, r) ==> r == s;
    if s == [] || s[|s| - 1] == 0 {
      return None;
    }
    return Some(s);
  }

  /** next_delivery_, base_timestamp_ and finished_. */
  datatype Cursor = Cursor(next: nat, base: nat, finished: bool)

  /** next_delivery_time; None is the infinitely late value -1. */
  function NextTime(s: seq<nat>, c: Cursor): Option<nat>
    requires c.next < |s|
  {
    if c.finished then None else Some(s[c.next] + c.base)
  }

  /** use_a_delivery_opportunity */
  function Use(s: seq<nat>, repeating: bool, c: Cursor): Cursor
    requires c.next < |s|
  {
    var next := (c.next + 1) % |s|;
    if next != 0 then c.(next := next)
    else if repeating then c.(next := 0, base := c.base + s[|s| - 1])
    else c.(next := 0, finished := true)
  }

  /** The cursor after k opportunities. */
  function CursorAt(s: seq<nat>, repeating: bool, base: nat, k: nat): Cursor
    requires s != []
    requires !repeating ==> k <= |s|
  {
    if repeating then Cursor(k % |s|, base + (k / |s|) * s[|s| - 1], false)
    else if k < |s| then Cursor(k, base, false)
    else Cursor(0, base, true)
  }

  /** The time of the k-th opportunity, counted from zero. */
  function OpportunityTime(s: seq<nat>, base: nat, k: nat): nat
    requires s != []
  {
    base + (k / |s|) * s[|s| - 1] + s[k % |s|]
  }

  lemma NextQuotient(k: nat, n: nat)
    requires n > 0
    ensures (k + 1) % n == if k % n + 1 == n then 0 else k % n + 1
    ensures (k + 1) / n == if k % n + 1 == n then k / n + 1 else k / n
  {
    var q, r := k / n, k % n;
    assert k == q * n + r;
    if r + 1 == n {
      assert k + 1 == (q + 1) * n;
      Quotient(k + 1, n, q + 1, 0);
    } else {
      Quotient(k + 1, n, q, r + 1);
    }
  }

  lemma Quotient(a: nat, n: nat, q: nat, r: nat)
    requires n > 0 && r < n && a == q * n + r
    ensures a / n == q && a % n == r
  {
    var d := a / n;
    assert a == d * n + a % n;
    if d < q {
      MultiplesApart(n, d, q);
    } else if d > q {
      MultiplesApart(n, q, d);
    }
  }

  lemma MultiplesApart(n: nat, a: nat, b: nat)
    requires a < b
    ensures a * n + n <= b * n
  {
    MulAtLeast(n, b - a);
    assert b * n == a * n + n * (b - a);
  }

  /** Using the opportunities one after the other follows the closed form; without repeat the
      last one finishes the link. */
  lemma CursorAdvances(s: seq<nat>, repeating: bool, base: nat, k: nat)
    requires s != [] && (!repeating ==> k < |s|)
    ensures Use(s, repeating, CursorAt(s, repeating, base, k)) == CursorAt(s, repeating, base, k + 1)
    ensures NextTime(s, CursorAt(s, repeating, base, k)) == Some(OpportunityTime(s, base, k))
  {
    if repeating {
      RepeatAdvances(s, base, k);
    } else {
      OnceAdvances(s, base, k);
    }
  }

  lemma RepeatAdvances(s: seq<nat>, base: nat, k: nat)
    requires s != []
    ensures Use(s, true, CursorAt(s, true, base, k)) == CursorAt(s, true, base, k + 1)
    ensures NextTime(s, CursorAt(s, true, base, k)) == Some(OpportunityTime(s, base, k))
  {
    var n, last, q, r := |s|, s[|s| - 1], k / |s|, k % |s|;
    NextQuotient(k, n);
    Distribute(q, last);
    if r + 1 == n {
      Quotient(r + 1, n, 1, 0);
    } else {
      Quotient(r + 1, n, 0, r + 1);
    }
  }

  lemma Distribute(q: nat, last: nat)
    ensures (q + 1) * last == q * last + last
  {
  }

  lemma OnceAdvances(s: seq<nat>, base: nat, k: nat)
    requires k < |s|
    ensures Use(s, false, CursorAt(s, false, base, k)) == CursorAt(s, false, base, k + 1)
    ensures NextTime(s, CursorAt(s, false, base, k)) == Some(OpportunityTime(s, base, k))
  {
    Quotient(k, |s|, 0, k);
    if k + 1 < |s| {
      Quotient(k + 1, |s|, 0, k + 1);
    } else {
      Quotient(k + 1, |s|, 1, 0);
    }
  }

  /** n uses in a row. */
  function UseTimes(s: seq<nat>, repeating: bool, c: Cursor, n: nat): Cursor
    requires c.next < |s|
  {
    if n == 0 then c else Use(s, repeating, UseTimes(s, repeating, c, n - 1))
  }

  /** The k-th use finds the cursor where the closed form says. */
  lemma {:induction false} ScheduleClosedForm(s: seq<nat>, repeating: bool, base: nat, k: nat)
    requires s != [] && (!repeating ==> k <= |s|)
    ensures UseTimes(s, repeating, Cursor(0, base, false), k) == CursorAt(s, repeating, base, k)
    ensures NextTime(s, CursorAt(s, repeating, base, k)).None? <==> !repeating && k == |s|
  {
    hide Use;
    if k > 0 {
      ScheduleClosedForm(s, repeating, base, k - 1);
      CursorAdvances(s, repeating, base, k - 1);
    } else {
      Quotient(0, |s|, 0, 0);
    }
  }

  /** In its first turn the schedule falls at its own times. */
  lemma FirstTurn(s: seq<nat>, base: nat, k: nat)
    requires k < |s|
    ensures OpportunityTime(s, base, k) == base + s[k]
  {
    Quotient(k, |s|, 0, k);
  }

  /** Opportunities come in order, and each turn of the schedule takes its last entry longer. */
  lemma TimesNondecreasing(s: seq<nat>, base: nat, k: nat)
    requires IsSchedule(s)
    ensures OpportunityTime(s, base, k) <= OpportunityTime(s, base, k + 1)
    ensures OpportunityTime(s, base, k + |s|) == OpportunityTime(s, base, k) + s[|s| - 1]
  {
    var n, last, q, r := |s|, s[|s| - 1], k / |s|, k % |s|;
    NextQuotient(k, n);
    assert (q + 1) * last == q * last + last;
    assert k + n == (q + 1) * n + r;
    Quotient(k + n, n, q + 1, r);
  }

  /** Only finitely many opportunities fall at or before any moment. */
  lemma TimesUnbounded(s: seq<nat>, base: nat, now: nat)
    requires IsSchedule(s)
    ensures OpportunityTime(s, base, (now + 1) * |s|) > now
  {
    var n, last := |s|, s[|s| - 1];
    Quotient((now + 1) * n, n, now + 1, 0);
    MulAtLeast(now + 1, last);
  }
}
