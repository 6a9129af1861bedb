/** Configuration identifiers of the form `<id>-...-<name>`: Python's
    `str.split('-')` and the `get_id_name` helper built on it
    (prj_pystray.py:215-219; main.py:214-215 and 222-223 use the same split). */
module Identifiers {

  const Dash: char := '-'

  /** `sep.join(parts)`. */
  function Join(parts: seq<string>, sep: char): string
    requires |parts| >= 1
  {
    if |parts| == 1 then parts[0] else parts[0] + [sep] + Join(parts[1..], sep)
  }

  /** Position of the first occurrence of `c`. */
  function IndexOf(s: string, c: char): (i: nat)
    requires c in s
    ensures i < |s| && s[i] == c && c !in s[..i]
  {
    if s[0] == c then 0 else 1 + IndexOf(s[1..], c)
  }

  /** `s.split(sep)`: the maximal separator-free pieces, empty ones included;
      a string without `sep` is a single piece. */
  function Split(s: string, sep: char): (parts: seq<string>)
    ensures |parts| >= 1
    ensures forall i :: 0 <= i < |parts| ==> sep !in parts[i]
    ensures Join(parts, sep) == s
    decreases |s|
  {
    if sep !in s then [s]
    else
      var i := IndexOf(s, sep);
      var rest := Split(s[i + 1..], sep);
      var parts := [s[..i]] + rest;
      assert parts[1..] == rest;
      assert s == s[..i] + [sep] + s[i + 1..];
      parts
  }

  /** Splitting undoes joining: `Split` is the inverse of `Join` on lists
      of separator-free pieces. */
  lemma {:induction false} SplitJoin(parts: seq<string>, sep: char)
    requires |parts| >= 1
    requires forall i :: 0 <= i < |parts| ==> sep !in parts[i]
    ensures Split(Join(parts, sep), sep) == parts
    decreases |parts|
  {
    var s := Join(parts, sep);
    if |parts| == 1 {
    } else {
      var rest := parts[1..];
      assert s == parts[0] + [sep] + Join(rest, sep);
      assert sep in s by { assert s[|parts[0]|] == sep; }
      var i := IndexOf(s, sep);
      assert i == |parts[0]|;
      assert s[..i] == parts[0];
      assert s[i + 1..] == Join(rest, sep);
      SplitJoin(rest, sep);
    }
  }

  /** The last piece of a join is a suffix of it, preceded by the
      separator whenever there was more than one piece. */
  lemma {:induction false} JoinLast(parts: seq<string>, sep: char)
    requires |parts| >= 1
    ensures var s := Join(parts, sep); var l := parts[|parts| - 1];
      |l| <= |s| && s[|s| - |l|..] == l
      && (|parts| > 1 ==> |l| < |s| && s[|s| - |l| - 1] == sep)
    decreases |parts|
  {
    if |parts| > 1 {
      var rest := parts[1..];
      JoinLast(rest, sep);
      var s := Join(parts, sep);
      var t := Join(rest, sep);
      var l := parts[|parts| - 1];
      assert rest[|rest| - 1] == l;
      assert s == parts[0] + [sep] + t;
      assert s[|s| - |l|..] == t[|t| - |l|..];
      if |rest| == 1 {
        assert t == l;
        assert s[|s| - |l| - 1] == sep;
      } else {
        assert s[|s| - |l| - 1] == t[|t| - |l| - 1];
      }
    }
  }

  /** `get_id_name`: the first and the last dash-separated piece; middle
      pieces are dropped. */
  function GetIdName(s: string): (string, string) {
    var parts := Split(s, Dash);
    (parts[0], parts[|parts| - 1])
  }

  /** The id is the longest dash-free prefix of the identifier and the
      display name its longest dash-free suffix; an identifier without a
      dash is both, with no error. */
  lemma GetIdNameSpec(s: string)
    ensures var (id, name) := GetIdName(s);
      && Dash !in id && |id| <= |s| && s[..|id|] == id
      && (|id| < |s| ==> s[|id|] == Dash)
      && Dash !in name && |name| <= |s| && s[|s| - |name|..] == name
      && (|name| < |s| ==> s[|s| - |name| - 1] == Dash)
      && (Dash !in s ==> id == s && name == s)
  {
    var parts := Split(s, Dash);
    assert GetIdName(s) == (parts[0], parts[|parts| - 1]);
    JoinLast(parts, Dash);
    if |parts| > 1 {
      assert s == parts[0] + [Dash] + Join(parts[1..], Dash);
    } else {
      assert s == parts[0];
    }
  }

  /** `get_id_name` recovers the first and the last of dash-free pieces
      joined with dashes. */
  lemma GetIdNameJoin(parts: seq<string>)
    requires |parts| >= 1
    requires forall i :: 0 <= i < |parts| ==> Dash !in parts[i]
    ensures GetIdName(Join(parts, Dash)) == (parts[0], parts[|parts| - 1])
  {
    SplitJoin(parts, Dash);
    GetIdNameOfSplit(Join(parts, Dash), parts);
  }

  lemma GetIdNameOfSplit(s: string, parts: seq<string>)
    requires Split(s, Dash) == parts
    ensures |parts| >= 1 && GetIdName(s) == (parts[0], parts[|parts| - 1])
  {
    assert |parts| >= 1;
  }
}
