/** Header lines: parsing, printing, and the case-insensitive lookup of a header by name. */
module HttpHeader {
  import opened Strings

  datatype Header = Header(key: string, value: string)

  /** The string without its leading spaces. */
  function StripSpaces(s: string): (r: string)
    ensures r == "" || r[0] != ' '
  {
    if s != "" && s[0] == ' ' then StripSpaces(s[1..]) else s
  }

  predicate Blank(s: string)
  {
    forall i :: 0 <= i < |s| ==> s[i] == ' '
  }

  /** The constructor from a line; None is the exception for a line without a colon. */
  function ParseHeader(line: string): Option<Header>
  {
    match Find(line, ":")
    case None => None
    case Some(i) =>
      var value := line[i + 1..];
      Some(Header(line[..i], if Blank(value) then value else StripSpaces(value)))
  }

  function PrintHeader(h: Header): string
  {
    h.key + ": " + h.value
  }

  lemma {:induction false} StripSpacesExact(s: string)
    ensures StripSpaces(s) == "" <==> Blank(s)
    ensures s != "" && s[0] == ' ' ==> |StripSpaces(s)| < |s|
    ensures s == "" || s[0] != ' ' ==> StripSpaces(s) == s
  {
    if s != "" && s[0] == ' ' {
      StripSpacesExact(s[1..]);
      if Blank(s[1..]) {
        assert forall i :: 1 <= i < |s| ==> s[i] == s[1..][i - 1];
      } else {
        var i :| 0 <= i < |s[1..]| && s[1..][i] != ' ';
        assert s[i + 1] != ' ';
      }
    }
  }

  lemma FindColon(key: string, rest: string)
    requires ':' !in key
    ensures Find(key + ":" + rest, ":") == Some(|key|)
  {
    var s := key + ":" + rest;
    assert s[|key|..|key| + 1] == ":";
    assert OccursAt(s, ":", |key|);
    forall j | 0 <= j < |key| ensures !OccursAt(s, ":", j)
    {
      assert s[j..j + 1][0] == key[j];
    }
  }

  /** What a printed header with a colon-free key is read back as: the key, and the value
      without its leading spaces, unless it is blank, when it comes back one space longer. */
  function RereadHeader(h: Header): Header
  {
    Header(h.key, RereadValue(h.value))
  }

  function RereadValue(value: string): string
  {
    if Blank(value) then " " + value else StripSpaces(value)
  }

  lemma ParsePrinted(h: Header)
    requires ':' !in h.key
    ensures ParseHeader(PrintHeader(h)) == Some(RereadHeader(h))
  {
    hide Find;
    var line := PrintHeader(h);
    assert line == h.key + ":" + (" " + h.value);
    FindColon(h.key, " " + h.value);
    assert line[|h.key| + 1..] == " " + h.value;
    assert line[..|h.key|] == h.key;
    assert (" " + h.value)[1..] == h.value;
    StripSpacesExact(h.value);
    assert Blank(" " + h.value) <==> Blank(h.value) by {
      if Blank(" " + h.value) {
        assert forall i :: 0 <= i < |h.value| ==> h.value[i] == (" " + h.value)[i + 1];
      }
    }
  }

  /** A header survives printing and parsing. */
  predicate Printable(h: Header)
  {
    ':' !in h.key && h.value != "" && h.value[0] != ' '
  }

  lemma RereadSame(h: Header)
    requires ':' !in h.key
    ensures RereadHeader(h) == h <==> Printable(h)
  {
    StripSpacesExact(h.value);
  }

  lemma ColonSplitsKey(line: string)
    requires ParseHeader(line).Some?
    ensures ':' !in ParseHeader(line).value.key
  {
    var i := Find(line, ":").value;
    forall j | 0 <= j < i ensures line[j] != ':'
    {
      assert !OccursAt(line, ":", j);
      assert line[j..j + 1] == [line[j]];
    }
  }

  /** Printing then parsing returns the header exactly when its key has no colon and its value
      starts with something other than a space. */
  lemma HeaderRoundTrip(h: Header)
    ensures ParseHeader(PrintHeader(h)) == Some(h) <==> Printable(h)
  {
    hide Find;
    if ':' in h.key {
      if ParseHeader(PrintHeader(h)).Some? {
        ColonSplitsKey(PrintHeader(h));
      }
    } else {
      ParsePrinted(h);
      RereadSame(h);
    }
  }

  /** An empty value comes back as one space. */
  lemma EmptyValueGrows()
    ensures ParseHeader(PrintHeader(Header("Accept", ""))) == Some(Header("Accept", " "))
  {
    hide Find;
    ParsePrinted(Header("Accept", ""));
    assert " " + "" == " ";
  }

  function ToLower(c: char): char
  {
    if 'A' <= c <= 'Z' then (c as int + 32) as char else c
  }

  function Lower(s: string): (r: string)
    ensures |r| == |s| && forall i :: 0 <= i < |s| ==> r[i] == ToLower(s[i])
  {
    seq(|s|, i requires 0 <= i < |s| => ToLower(s[i]))
  }

  /** Equal but for leading spaces and the case of ASCII letters. */
  predicate EquivalentStrings(a: string, b: string)
  {
    Lower(StripSpaces(a)) == Lower(StripSpaces(b))
  }

  const SMALL: string := "abcdefghijklmnopqrstuvwxyz"
  const LARGE: string := "ABCDEFGHIJKLMNOPQRSTUVWXYZ"

  /** The same character, or the same letter of the alphabet in the other case. */
  predicate SameLetter(a: char, b: char)
  {
    a == b || exists k :: 0 <= k < 26 && ((a == SMALL[k] && b == LARGE[k]) || (a == LARGE[k] && b == SMALL[k]))
  }

  predicate SameLetters(a: string, b: string)
  {
    |a| == |b| && forall i :: 0 <= i < |a| ==> SameLetter(a[i], b[i])
  }

  /** The k-th letter of either alphabet. */
  lemma Alphabet(k: nat)
    requires k < 26
    ensures SMALL[k] == (k + 97) as char && LARGE[k] == (k + 65) as char
  {
  }

  lemma LowerSame(a: char, b: char)
    ensures ToLower(a) == ToLower(b) <==> SameLetter(a, b)
  {
    if SameLetter(a, b) && a != b {
      var k :| 0 <= k < 26 && ((a == SMALL[k] && b == LARGE[k]) || (a == LARGE[k] && b == SMALL[k]));
      Alphabet(k);
    }
    if ToLower(a) == ToLower(b) && a != b {
      var k := ToLower(a) as int - 97;
      Alphabet(k);
      assert (a == SMALL[k] && b == LARGE[k]) || (a == LARGE[k] && b == SMALL[k]);
    }
  }

  lemma {:induction false} BlanksStripped(blanks: string, rest: string)
    requires Blank(blanks) && (rest == "" || rest[0] != ' ')
    ensures StripSpaces(blanks + rest) == rest
    decreases |blanks|
  {
    if blanks == "" {
      assert blanks + rest == rest;
    } else {
      assert blanks[0] == ' ' && (blanks + rest)[1..] == blanks[1..] + rest;
      BlanksStripped(blanks[1..], rest);
    }
  }

  /** Strings are equivalent exactly when what follows their leading spaces differs in nothing but
      the case of letters. */
  lemma EquivalentExactly(x: string, a: string, y: string, b: string)
    requires Blank(x) && Blank(y) && (a == "" || a[0] != ' ') && (b == "" || b[0] != ' ')
    ensures EquivalentStrings(x + a, y + b) <==> SameLetters(a, b)
  {
    hide ToLower;
    hide SameLetter;
    BlanksStripped(x, a);
    BlanksStripped(y, b);
    if |a| == |b| {
      forall i | 0 <= i < |a| ensures Lower(a)[i] == Lower(b)[i] <==> SameLetter(a[i], b[i])
      {
        LowerSame(a[i], b[i]);
      }
      assert Lower(a) == Lower(b) <==> forall i :: 0 <= i < |a| ==> Lower(a)[i] == Lower(b)[i];
    }
  }

  /** Names of headers agree up to leading spaces and the case of letters. */
  predicate SameName(a: string, b: string)
  {
    SameLetters(StripSpaces(a), StripSpaces(b))
  }

  lemma SameNameEquivalent(a: string, b: string)
    ensures EquivalentStrings(a, b) <==> SameName(a, b)
  {
    EquivalentExactly("", StripSpaces(a), "", StripSpaces(b));
    assert "" + StripSpaces(a) == StripSpaces(a) && "" + StripSpaces(b) == StripSpaces(b);
    StripSpacesExact(StripSpaces(a));
    StripSpacesExact(StripSpaces(b));
  }

  /** equivalent_strings, comparing character by character. */
  method CompareStrings(a: string, b: string) returns (same: bool)
    ensures same == EquivalentStrings(a, b)
  {
    var newA, newB := StripSpaces(a), StripSpaces(b);
    if |newA| != |newB| {
      return false;
    }
    for i := 0 to |newA|
      invariant forall j :: 0 <= j < i ==> ToLower(newA[j]) == ToLower(newB[j])
    {
      if ToLower(newA[i]) != ToLower(newB[i]) {
        assert Lower(newA)[i] != Lower(newB)[i];
        return false;
      }
    }
    return true;
  }

  /** The value of the first header of that name. */
  function Lookup(headers: seq<Header>, name: string): Option<string>
  {
    if headers == [] then None
    else if EquivalentStrings(headers[0].key, name) then Some(headers[0].value)
    else Lookup(headers[1..], name)
  }

  /** A header line as it is written: key, colon, blanks, value. */
  lemma ParseWritten(key: string, blanks: string, value: string)
    requires ':' !in key && Blank(blanks) && (value == "" || value[0] != ' ')
    ensures ParseHeader(key + ":" + (blanks + value)) == Some(Header(key, if value == "" then blanks else value))
  {
    hide Find;
    var line := key + ":" + (blanks + value);
    FindColon(key, blanks + value);
    assert line[|key| + 1..] == blanks + value && line[..|key|] == key;
    BlanksStripped(blanks, value);
    StripSpacesExact(blanks + value);
    assert value == "" ==> blanks + value == blanks;
  }

  /** A line without a colon is no header. */
  lemma NoColon(line: string)
    ensures ParseHeader(line).None? <==> ':' !in line
  {
    forall i | 0 <= i < |line| ensures OccursAt(line, ":", i) <==> line[i] == ':'
    {
      assert line[i..i + 1] == [line[i]];
    }
  }

  /** A header is found under every spelling of its name that differs in the case of letters only,
      unless one before it has that name too. */
  lemma {:induction false} LookupFirst(headers: seq<Header>, name: string, i: nat)
    requires i < |headers| && SameName(headers[i].key, name)
    requires forall j :: 0 <= j < i ==> !SameName(headers[j].key, name)
    ensures Lookup(headers, name) == Some(headers[i].value)
    decreases i
  {
    hide EquivalentStrings;
    hide SameName;
    SameNameEquivalent(headers[0].key, name);
    if i > 0 {
      LookupFirst(headers[1..], name, i - 1);
    }
  }

  /** None is found under a name that no header has. */
  lemma {:induction false} LookupNone(headers: seq<Header>, name: string)
    ensures Lookup(headers, name).None? <==> forall j :: 0 <= j < |headers| ==> !SameName(headers[j].key, name)
    decreases |headers|
  {
    hide EquivalentStrings;
    hide SameName;
    if headers != [] {
      SameNameEquivalent(headers[0].key, name);
      LookupNone(headers[1..], name);
      assert forall j :: 1 <= j < |headers| ==> headers[j] == headers[1..][j - 1];
    }
  }

  /** has_header and get_header_value. */
  method FindHeader(headers: seq<Header>, name: string) returns (value: Option<string>)
    ensures value == Lookup(headers, name)
  {
    for i := 0 to |headers|
      invariant Lookup(headers, name) == Lookup(headers[i..], name)
    {
      var same := CompareStrings(headers[i].key, name);
      if same {
        return Some(headers[i].value);
      }
    }
    return None;
  }
}
