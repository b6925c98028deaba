/** The three functions of Go's `strings` package that address parsing is
    built from (Index, Contains, Split), for a non-empty separator, together
    with Join, the inverse of Split. */
module GoStrings {

  /** `sep` occurs in `s` starting at position `j`. */
  predicate OccursAt(s: string, sep: string, j: int) {
    0 <= j && j + |sep| <= |s| && s[j..j + |sep|] == sep
  }

  /** First occurrence of `sep` in `s` at or after position `p`, or -1. */
  function IndexFrom(s: string, sep: string, p: nat): (i: int)
    requires sep != "" && p <= |s|
    ensures i == -1 || (p <= i && OccursAt(s, sep, i))
    ensures forall j :: p <= j && (i < 0 || j < i) ==> !OccursAt(s, sep, j)
    decreases |s| - p
  {
    if p + |sep| > |s| then -1
    else if s[p..p + |sep|] == sep then p
    else IndexFrom(s, sep, p + 1)
  }

  /** strings.Index: the position of the first occurrence of `sep`, or -1. */
  function Index(s: string, sep: string): (i: int)
    requires sep != ""
    ensures i == -1 || OccursAt(s, sep, i)
    ensures i == -1 <==> forall j :: !OccursAt(s, sep, j)
    ensures forall j :: 0 <= j < i ==> !OccursAt(s, sep, j)
  {
    IndexFrom(s, sep, 0)
  }

  /** strings.Contains, which Go defines as Index(s, sep) >= 0. */
  predicate Contains(s: string, sep: string)
    requires sep != ""
    ensures Contains(s, sep) <==> exists j :: OccursAt(s, sep, j)
  {
    Index(s, sep) >= 0
  }

  /** The text of `s` in front of the first occurrence of `sep` contains no `sep`. */
  lemma PrefixBeforeFirst(s: string, sep: string)
    requires sep != "" && Contains(s, sep)
    ensures !Contains(s[..Index(s, sep)], sep)
  {
    var i := Index(s, sep);
    forall j | OccursAt(s[..i], sep, j)
      ensures false
    {
      assert s[..i][j..j + |sep|] == s[j..j + |sep|];
      assert OccursAt(s, sep, j);
    }
  }

  /** strings.Split(s, sep) with n = -1: the pieces between successive
      leftmost non-overlapping occurrences of `sep`. */
  function Split(s: string, sep: string): (parts: seq<string>)
    requires sep != ""
    ensures |parts| >= 1
    ensures !Contains(s, sep) <==> parts == [s]
    ensures Contains(s, sep) ==> |parts| >= 2 && parts[0] == s[..Index(s, sep)]
    ensures forall k :: 0 <= k < |parts| ==> !Contains(parts[k], sep)
    ensures Join(parts, sep) == s
    decreases |s|
  {
    var i := Index(s, sep);
    if i < 0 then [s]
    else
      PrefixBeforeFirst(s, sep);
      var rest := Split(s[i + |sep|..], sep);
      assert s == s[..i] + sep + s[i + |sep|..];
      [s[..i]] + rest
  }

  /** strings.Join: the pieces with `sep` between neighbours. */
  function Join(parts: seq<string>, sep: string): (s: string)
    decreases |parts|
  {
    if parts == [] then ""
    else if |parts| == 1 then parts[0]
    else parts[0] + sep + Join(parts[1..], sep)
  }
}
