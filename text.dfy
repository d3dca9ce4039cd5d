/**
 * The two Java string operations the line format leans on, written out:
 * `String.trim` and `String.split(",")` (src/BankSystem.java).
 */
module Text {

  /** `String.trim` removes every character whose code is at most that of a space. */
  predicate IsTrimmed(c: char)
  {
    c <= ' '
  }

  function TrimStart(s: string): (r: string)
    ensures |r| <= |s| && r == s[|s| - |r|..]
    ensures r == [] || !IsTrimmed(r[0])
    ensures forall i :: 0 <= i < |s| - |r| ==> IsTrimmed(s[i])
  {
    if s != [] && IsTrimmed(s[0]) then TrimStart(s[1..]) else s
  }

  function TrimEnd(s: string): (r: string)
    ensures |r| <= |s| && r == s[..|r|]
    ensures r == [] || !IsTrimmed(r[|r| - 1])
    ensures forall i :: |r| <= i < |s| ==> IsTrimmed(s[i])
  {
    if s != [] && IsTrimmed(s[|s| - 1]) then TrimEnd(s[..|s| - 1]) else s
  }

  /**
   * Java's `trim`: the infix of `s` left after removing the run of blanks at
   * its start and the run at its end; a string of blanks becomes empty.
   */
  function Trim(s: string): (r: string)
    ensures |s| - |TrimStart(s)| + |r| <= |s|
    ensures r == s[|s| - |TrimStart(s)|..|s| - |TrimStart(s)| + |r|]
    ensures forall j :: 0 <= j < |s| - |TrimStart(s)| ==> IsTrimmed(s[j])
    ensures forall j :: |s| - |TrimStart(s)| + |r| <= j < |s| ==> IsTrimmed(s[j])
    ensures r == [] || (!IsTrimmed(r[0]) && !IsTrimmed(r[|r| - 1]))
    ensures s != [] && !IsTrimmed(s[0]) && !IsTrimmed(s[|s| - 1]) ==> r == s
    ensures (forall i :: 0 <= i < |s| ==> IsTrimmed(s[i])) <==> r == []
  {
    var t := TrimStart(s);
    var r := TrimEnd(t);
    PrefixOfSuffix(s, t, r);
    assert r == [] ==> t == [];
    r
  }

  /** A prefix of a suffix of `s` is an infix of `s`, and what follows it in `s` follows it in the suffix. */
  lemma PrefixOfSuffix(s: string, t: string, r: string)
    requires |t| <= |s| && t == s[|s| - |t|..]
    requires |r| <= |t| && r == t[..|r|]
    ensures r == s[|s| - |t|..|s| - |t| + |r|]
    ensures forall j :: |s| - |t| + |r| <= j < |s| ==> s[j] == t[j - (|s| - |t|)]
  {
  }

  /** Position of the first occurrence of `c`, or `|s|` when there is none. */
  function IndexOf(s: string, c: char): (r: nat)
    ensures r <= |s|
    ensures r < |s| <==> c in s
    ensures r < |s| ==> s[r] == c
    ensures c !in s[..r]
  {
    if s == [] then 0
    else if s[0] == c then 0
    else
      var k := IndexOf(s[1..], c);
      assert s[..k + 1] == [s[0]] + s[1..][..k];
      k + 1
  }

  /** The comma-separated fields of `s`, empty fields included: one more field than commas. */
  function Fields(s: string): (r: seq<string>)
    ensures |r| >= 1
    ensures forall k :: 0 <= k < |r| ==> ',' !in r[k]
    decreases |s|
  {
    if ',' !in s then [s]
    else
      var i := IndexOf(s, ',');
      [s[..i]] + Fields(s[i + 1..])
  }

  /** The inverse of `Fields`: the fields written back with a comma between each pair. */
  function Join(parts: seq<string>): (s: string)
    requires |parts| >= 1
  {
    if |parts| == 1 then parts[0] else parts[0] + "," + Join(parts[1..])
  }

  /** A joined line starts with the first field and ends with the last one. */
  lemma {:induction false} JoinEnds(parts: seq<string>)
    requires |parts| >= 1
    ensures |parts[0]| <= |Join(parts)| && Join(parts)[..|parts[0]|] == parts[0]
    ensures |parts[|parts| - 1]| <= |Join(parts)|
    ensures Join(parts)[|Join(parts)| - |parts[|parts| - 1]|..] == parts[|parts| - 1]
  {
    if |parts| > 1 {
      var rest := Join(parts[1..]);
      JoinEnds(parts[1..]);
      assert Join(parts) == parts[0] + ("," + rest);
    }
  }

  /** Splitting a line and joining its fields gives the line back. */
  lemma {:induction false} JoinFields(s: string)
    ensures Join(Fields(s)) == s
    decreases |s|
  {
    if ',' in s {
      var i := IndexOf(s, ',');
      var first, rest := s[..i], s[i + 1..];
      assert s == first + "," + rest;
      FieldsCons(first, rest);
      JoinCons(first, Fields(rest));
      JoinFields(rest);
    }
  }

  /** Joining a field in front of others puts a comma between it and their join. */
  lemma JoinCons(first: string, parts: seq<string>)
    requires |parts| >= 1
    ensures Join([first] + parts) == first + "," + Join(parts)
  {
    assert ([first] + parts)[1..] == parts;
  }

  /** Joining comma-free fields and splitting the result gives the fields back. */
  lemma {:induction false} FieldsJoin(parts: seq<string>)
    requires |parts| >= 1
    requires forall k :: 0 <= k < |parts| ==> ',' !in parts[k]
    ensures Fields(Join(parts)) == parts
  {
    if |parts| > 1 {
      var tail := parts[1..];
      JoinCons(parts[0], tail);
      assert parts == [parts[0]] + tail;
      FieldsCons(parts[0], Join(tail));
      FieldsJoin(tail);
    }
  }

  /** A comma-free field followed by a comma is the first field of the line. */
  lemma FieldsCons(first: string, rest: string)
    requires ',' !in first
    ensures Fields(first + "," + rest) == [first] + Fields(rest)
  {
    var s := first + "," + rest;
    assert s[..|first|] == first;
    assert s[|first|] == ',';
    assert IndexOf(s, ',') == |first|;
    assert s[|first| + 1..] == rest;
  }

  /** `split` with no limit drops the empty fields at the end. */
  function DropTrailingEmpty(parts: seq<string>): (r: seq<string>)
    ensures |r| <= |parts| && r == parts[..|r|]
    ensures r == [] || r[|r| - 1] != []
    ensures forall k :: |r| <= k < |parts| ==> parts[k] == []
  {
    if parts != [] && parts[|parts| - 1] == [] then DropTrailingEmpty(parts[..|parts| - 1]) else parts
  }

  /**
   * Java's `s.split(",")`: a string without a comma is its own single field;
   * otherwise the fields between commas, less the empty ones at the end.
   */
  function Split(s: string): (r: seq<string>)
    ensures forall k :: 0 <= k < |r| ==> ',' !in r[k]
    ensures |r| <= |Fields(s)| && r == Fields(s)[..|r|]
    ensures ',' !in s ==> r == [s]
    ensures ',' in s ==> r == [] || r[|r| - 1] != []
    ensures forall k :: |r| <= k < |Fields(s)| ==> Fields(s)[k] == []
  {
    if ',' !in s then [s] else DropTrailingEmpty(Fields(s))
  }

  /** A line whose last field is not empty splits into exactly its fields. */
  lemma SplitJoin(parts: seq<string>)
    requires |parts| >= 1 && parts[|parts| - 1] != []
    requires forall k :: 0 <= k < |parts| ==> ',' !in parts[k]
    ensures Split(Join(parts)) == parts
  {
    FieldsJoin(parts);
  }
}
