/**
 * The few JavaScript string operations the helper relies on, stated over
 * `seq<char>`: `indexOf`, `replace` with a string pattern (first occurrence
 * only), `replace(/^\//, '')`, `replace(/[...]/g, '')`, `split(c)` and the
 * characters that `.` in a regular expression refuses to match.
 */
module Strings {

  /** The characters that end a line for JavaScript regular expressions. */
  predicate IsLineTerminator(c: char) {
    c == '\n' || c == '\r' || c == '\U{2028}' || c == '\U{2029}'
  }

  predicate NoLineTerminators(s: string) {
    forall i :: 0 <= i < |s| ==> !IsLineTerminator(s[i])
  }

  /** Number of occurrences of `c` in `s`. */
  function Count(s: string, c: char): nat {
    if s == [] then 0 else (if s[0] == c then 1 else 0) + Count(s[1..], c)
  }

  /** `pat` occurs in `s` at position `i`. */
  predicate OccursAt(s: string, pat: string, i: nat) {
    i + |pat| <= |s| && s[i..i + |pat|] == pat
  }

  /** `s.indexOf(pat, from)`: the first position at or after `from` where `pat` occurs, or -1. */
  function IndexOfFrom(s: string, pat: string, from: nat): (r: int)
    decreases |s| - from
    ensures r == -1 || (from <= r && OccursAt(s, pat, r))
    ensures r == -1 ==> forall i: nat :: from <= i ==> !OccursAt(s, pat, i)
    ensures r != -1 ==> forall i: nat :: from <= i < r ==> !OccursAt(s, pat, i)
  {
    if from + |pat| > |s| then -1
    else if s[from..from + |pat|] == pat then from
    else IndexOfFrom(s, pat, from + 1)
  }

  /** `s.indexOf(pat)`. */
  function IndexOf(s: string, pat: string): int {
    IndexOfFrom(s, pat, 0)
  }

  /** `s.indexOf(pat) !== -1`. */
  predicate Contains(s: string, pat: string) {
    IndexOf(s, pat) != -1
  }

  lemma ContainsIff(s: string, pat: string)
    ensures Contains(s, pat) <==> exists i: nat :: OccursAt(s, pat, i)
  {
  }

  /** `s.replace(pat, rep)` for a string `pat`: only the first occurrence is replaced. */
  function ReplaceFirst(s: string, pat: string, rep: string): string {
    var i := IndexOf(s, pat);
    if i == -1 then s else s[..i] + rep + s[i + |pat|..]
  }

  /**
   * Without an occurrence `s` is returned as it is; otherwise the occurrence
   * replaced is the leftmost one.
   */
  lemma ReplaceFirstSpec(s: string, pat: string, rep: string)
    ensures !Contains(s, pat) ==> ReplaceFirst(s, pat, rep) == s
    ensures Contains(s, pat) ==>
              exists i: nat :: OccursAt(s, pat, i) && ReplaceFirst(s, pat, rep) == s[..i] + rep + s[i + |pat|..]
                               && forall j: nat :: j < i ==> !OccursAt(s, pat, j)
  {
  }

  /** When `s` starts with `pat`, `replace` strips exactly that prefix. */
  lemma ReplaceFirstPrefix(pat: string, rest: string)
    ensures ReplaceFirst(pat + rest, pat, "") == rest
  {
    var s := pat + rest;
    assert OccursAt(s, pat, 0) by { assert s[..|pat|] == pat; }
    assert IndexOf(s, pat) == 0;
    assert s[|pat|..] == rest;
  }

  /** `s.replace(/^\//, '')`: at most one leading slash is removed. */
  function StripLeadingSlash(s: string): (r: string)
    ensures r == s || "/" + r == s
    ensures r != s <==> |s| > 0 && s[0] == '/'
  {
    if |s| > 0 && s[0] == '/' then s[1..] else s
  }

  /** Number of characters of `s` that belong to `cs`. */
  function CountIn(s: string, cs: set<char>): nat {
    if s == [] then 0 else (if s[0] in cs then 1 else 0) + CountIn(s[1..], cs)
  }

  /** `s.replace(/[...]/g, '')`: every character in `cs` is removed, the others kept in order. */
  function RemoveChars(s: string, cs: set<char>): (r: string)
    ensures |r| == |s| - CountIn(s, cs)
    ensures forall c :: c in r <==> c in s && c !in cs
  {
    if s == [] then []
    else (if s[0] in cs then [] else [s[0]]) + RemoveChars(s[1..], cs)
  }

  /** Removing characters that do not occur leaves the string as it is. */
  lemma {:induction false} RemoveCharsAbsent(s: string, cs: set<char>)
    requires forall i :: 0 <= i < |s| ==> s[i] !in cs
    ensures RemoveChars(s, cs) == s
  {
    if s != [] {
      RemoveCharsAbsent(s[1..], cs);
    }
  }

  lemma {:induction false} RemoveCharsAppend(a: string, b: string, cs: set<char>)
    ensures RemoveChars(a + b, cs) == RemoveChars(a, cs) + RemoveChars(b, cs)
  {
    if a == [] {
      assert a + b == b;
    } else {
      assert (a + b)[1..] == a[1..] + b;
      RemoveCharsAppend(a[1..], b, cs);
    }
  }

  /** A kept character between two strings stays between what is left of them. */
  lemma RemoveCharsAround(a: string, c: char, b: string, cs: set<char>)
    requires c !in cs
    ensures RemoveChars(a + [c] + b, cs) == RemoveChars(a, cs) + [c] + RemoveChars(b, cs)
  {
    assert a + [c] + b == a + ([c] + b);
    assert ([c] + b)[1..] == b;
    RemoveCharsAppend(a, [c] + b, cs);
  }

  /** `parts.join(sep)`, the inverse of `Split`. */
  function Join(parts: seq<string>, sep: char): string {
    if parts == [] then []
    else if |parts| == 1 then parts[0]
    else parts[0] + [sep] + Join(parts[1..], sep)
  }

  /**
   * `s.split(sep)`: the pieces between occurrences of `sep`. There is always at
   * least one piece (`"".split('\n')` is `[""]`), no piece contains `sep`, and
   * joining the pieces back gives `s`.
   */
  function Split(s: string, sep: char): (r: seq<string>)
    ensures |r| == Count(s, sep) + 1
    ensures forall i :: 0 <= i < |r| ==> sep !in r[i]
    ensures forall i, c :: 0 <= i < |r| && c in r[i] ==> c in s
    ensures Join(r, sep) == s
  {
    if s == [] then [""]
    else
      var rest := Split(s[1..], sep);
      assert forall c :: c in s[1..] ==> c in s;
      if s[0] == sep then [""] + rest
      else [[s[0]] + rest[0]] + rest[1..]
  }

  /** The other half of the round trip: splitting a join of separator-free pieces gives them back. */
  /** Joining one more empty piece adds a trailing separator. */
  lemma {:induction false} JoinSnocEmpty(parts: seq<string>, sep: char)
    requires parts != []
    ensures Join(parts + [""], sep) == Join(parts, sep) + [sep]
  {
    if |parts| > 1 {
      assert (parts + [""])[1..] == parts[1..] + [""];
      JoinSnocEmpty(parts[1..], sep);
    }
  }

  lemma {:induction false} SplitJoin(parts: seq<string>, sep: char)
    requires |parts| >= 1
    requires forall i :: 0 <= i < |parts| ==> sep !in parts[i]
    ensures Split(Join(parts, sep), sep) == parts
  {
    if |parts| == 1 {
      SplitNoSeparator(parts[0], sep);
    } else {
      SplitJoin(parts[1..], sep);
      SplitPiece(parts[0], Join(parts[1..], sep), sep);
    }
  }

  lemma {:induction false} SplitNoSeparator(s: string, sep: char)
    requires sep !in s
    ensures Split(s, sep) == [s]
  {
    if s != [] {
      SplitNoSeparator(s[1..], sep);
    }
  }

  lemma {:induction false} SplitPiece(p: string, t: string, sep: char)
    requires sep !in p
    ensures Split(p + [sep] + t, sep) == [p] + Split(t, sep)
  {
    if p == [] {
      assert p + [sep] + t == [sep] + t;
      assert ([sep] + t)[1..] == t;
    } else {
      assert (p + [sep] + t)[1..] == p[1..] + [sep] + t;
      SplitPiece(p[1..], t, sep);
      assert [p[0]] + p[1..] == p;
    }
  }

  /** The first piece of a split is the text before the first separator. */
  lemma SplitFirst(s: string, sep: char)
    ensures var first := Split(s, sep)[0];
            first <= s && sep !in first && (|first| < |s| ==> s[|first|] == sep)
  {
    var r := Split(s, sep);
    if |r| > 1 {
      assert Join(r, sep) == r[0] + ([sep] + Join(r[1..], sep));
    }
  }

  /** `s.lastIndexOf(c)`: the last position of `c` in `s`, or -1. */
  function LastIndexOf(s: string, c: char): (r: int)
    ensures -1 <= r < |s|
    ensures r >= 0 ==> s[r] == c
    ensures forall i :: r < i < |s| ==> s[i] != c
  {
    if s == [] then -1
    else if s[|s| - 1] == c then |s| - 1
    else LastIndexOf(s[..|s| - 1], c)
  }

  /** The last line terminator in `s`, or -1. */
  function LastLineTerminator(s: string): (r: int)
    ensures -1 <= r < |s|
    ensures r >= 0 ==> IsLineTerminator(s[r])
    ensures forall i :: r < i < |s| ==> !IsLineTerminator(s[i])
  {
    if s == [] then -1
    else if IsLineTerminator(s[|s| - 1]) then |s| - 1
    else LastLineTerminator(s[..|s| - 1])
  }
}
