/**
 * The functions of Go's `strings` package that dataparse calls, on strings
 * taken as sequences of runes.
 */
module GoStrings {

  /** `sub` occurs in `s` starting at position `i`. */
  predicate OccursAt(s: string, sub: string, i: nat)
  {
    i + |sub| <= |s| && s[i..i + |sub|] == sub
  }

  /** strings.Index from position `from` on: the first occurrence at or after `from`, or -1. */
  function IndexFrom(s: string, sub: string, from: nat): (r: int)
    requires from <= |s|
    ensures r == -1 || (from <= r <= |s| - |sub| && OccursAt(s, sub, r))
    ensures r == -1 ==> forall i :: from <= i <= |s| ==> !OccursAt(s, sub, i)
    ensures r != -1 ==> forall i :: from <= i < r ==> !OccursAt(s, sub, i)
    decreases |s| - from
  {
    if OccursAt(s, sub, from) then from
    else if from == |s| then -1
    else IndexFrom(s, sub, from + 1)
  }

  /** strings.Index: the first position where `sub` occurs in `s`, or -1. */
  function Index(s: string, sub: string): (r: int)
    ensures r == -1 || (0 <= r <= |s| - |sub| && OccursAt(s, sub, r))
    ensures r == -1 ==> forall i :: 0 <= i <= |s| ==> !OccursAt(s, sub, i)
    ensures r != -1 ==> forall i :: 0 <= i < r ==> !OccursAt(s, sub, i)
  {
    IndexFrom(s, sub, 0)
  }

  predicate Contains(s: string, sub: string)
  {
    Index(s, sub) >= 0
  }

  /** Splitting at the empty separator gives every rune on its own. */
  function Explode(s: string): (r: seq<string>)
    ensures |r| == |s|
    ensures forall i :: 0 <= i < |r| ==> r[i] == [s[i]]
  {
    seq(|s|, i requires 0 <= i < |s| => [s[i]])
  }

  /** strings.Split: the pieces between the non-overlapping occurrences of `sep`, from the left. */
  function Split(s: string, sep: string): seq<string>
    decreases |s|
  {
    if sep == [] then Explode(s)
    else
      var i := Index(s, sep);
      if i < 0 then [s] else [s[..i]] + Split(s[i + |sep|..], sep)
  }

  /** strings.SplitN(s, sep, 2): at most two pieces, cut at the first occurrence. */
  function SplitN2(s: string, sep: string): (r: seq<string>)
    requires sep != []
    ensures |r| == 1 || |r| == 2
    ensures |r| == 1 <==> !Contains(s, sep)
    ensures |r| == 1 ==> r == [s]
    ensures |r| == 2 ==> r[0] + sep + r[1] == s && !Contains(r[0], sep)
  {
    var i := Index(s, sep);
    if i < 0 then [s]
    else
      var r := [s[..i], s[i + |sep|..]];
      assert s[..i] + sep + s[i + |sep|..] == s by {
        assert s == s[..i] + s[i..i + |sep|] + s[i + |sep|..];
      }
      NoOccurrenceInPrefix(s, sep, i);
      r
  }

  /** strings.Join. */
  function Join(parts: seq<string>, sep: string): string
  {
    if parts == [] then ""
    else if |parts| == 1 then parts[0]
    else parts[0] + sep + Join(parts[1..], sep)
  }

  /** Before the first occurrence of `sep`, a prefix of `s` holds no occurrence of it. */
  lemma NoOccurrenceInPrefix(s: string, sep: string, i: nat)
    requires sep != [] && i <= |s|
    requires forall j :: 0 <= j < i ==> !OccursAt(s, sep, j)
    ensures !Contains(s[..i], sep)
  {
    var p := s[..i];
    if Index(p, sep) >= 0 {
      var j := Index(p, sep);
      assert p[j..j + |sep|] == s[j..j + |sep|];
      assert OccursAt(s, sep, j);
    }
  }

  /** A split at the first occurrence: the text before it, then the split of the rest. */
  lemma SplitStep(s: string, sep: string)
    requires sep != [] && Index(s, sep) >= 0
    ensures var i := Index(s, sep);
            && s == s[..i] + sep + s[i + |sep|..]
            && Split(s, sep) == [s[..i]] + Split(s[i + |sep|..], sep)
  {
    var i := Index(s, sep);
    assert s[i..i + |sep|] == sep;
    assert s == s[..i] + s[i..i + |sep|] + s[i + |sep|..];
  }

  /** Join puts the separator between the first part and the join of the others. */
  lemma JoinStep(p: string, tail: seq<string>, sep: string)
    requires tail != []
    ensures Join([p] + tail, sep) == p + sep + Join(tail, sep)
  {
    assert ([p] + tail)[1..] == tail;
  }

  /** Joining the pieces of a split with the same separator gives the string back. */
  lemma {:induction false} JoinSplit(s: string, sep: string)
    requires sep != []
    ensures Join(Split(s, sep), sep) == s
    decreases |s|
  {
    var i := Index(s, sep);
    if i < 0 {
      assert Split(s, sep) == [s];
    } else {
      var rest := s[i + |sep|..];
      SplitStep(s, sep);
      JoinSplit(rest, sep);
      SplitNonEmpty(rest, sep);
      JoinStep(s[..i], Split(rest, sep), sep);
    }
  }

  /** A split at a non-empty separator has at least one piece. */
  lemma SplitNonEmpty(s: string, sep: string)
    requires sep != []
    ensures |Split(s, sep)| >= 1
  {
  }

  /** No piece of a split contains the separator. */
  lemma {:induction false} SplitPiecesFree(s: string, sep: string)
    requires sep != []
    ensures forall p :: p in Split(s, sep) ==> !Contains(p, sep)
    decreases |s|
  {
    var i := Index(s, sep);
    if i < 0 {
      assert Split(s, sep) == [s];
    } else {
      var rest := s[i + |sep|..];
      SplitStep(s, sep);
      SplitPiecesFree(rest, sep);
      NoOccurrenceInPrefix(s, sep, i);
      forall p | p in Split(s, sep)
        ensures !Contains(p, sep)
      {
        if p != s[..i] {
          assert p in Split(rest, sep);
        }
      }
    }
  }

  /** A split at a non-empty separator is one piece exactly when the separator does not occur. */
  lemma SplitSingle(s: string, sep: string)
    requires sep != []
    ensures |Split(s, sep)| == 1 <==> !Contains(s, sep)
    ensures !Contains(s, sep) ==> Split(s, sep) == [s]
  {
    var i := Index(s, sep);
    if i >= 0 {
      SplitNonEmpty(s[i + |sep|..], sep);
    }
  }

  /** A string without the rune `c` does not contain [c]. */
  lemma AbsentRune(s: string, c: char)
    requires forall i :: 0 <= i < |s| ==> s[i] != c
    ensures !Contains(s, [c])
  {
    forall j | 0 <= j <= |s|
      ensures !OccursAt(s, [c], j)
    {
      if j < |s| {
        assert s[j..j + 1] == [s[j]];
      }
    }
  }

  /** Splitting `a`, the rune `c` and `b`, with neither `a` nor `b` holding `c`, at `c` gives [a, b]. */
  lemma SplitAtRune(a: string, b: string, c: char)
    requires forall i :: 0 <= i < |a| ==> a[i] != c
    requires forall i :: 0 <= i < |b| ==> b[i] != c
    ensures Split(a + [c] + b, [c]) == [a, b]
  {
    var s := a + [c] + b;
    assert s[|a|..|a| + 1] == [c];
    assert OccursAt(s, [c], |a|);
    forall i | 0 <= i < |a|
      ensures !OccursAt(s, [c], i)
    {
      assert s[i..i + 1] == [a[i]];
    }
    assert Index(s, [c]) == |a|;
    assert s[|a| + 1..] == b;
    assert s[..|a|] == a;
    AbsentRune(b, c);
    SplitSingle(b, [c]);
  }

  /** unicode.IsSpace: the white space runes strings.TrimSpace removes. */
  predicate IsSpace(c: char)
  {
    c == '\t' || c == '\n' || c == '\U{000B}' || c == '\U{000C}' || c == '\r' || c == ' '
    || c == '\U{0085}' || c == '\U{00A0}' || c == '\U{1680}'
    || ('\U{2000}' <= c <= '\U{200A}')
    || c == '\U{2028}' || c == '\U{2029}' || c == '\U{202F}' || c == '\U{205F}' || c == '\U{3000}'
  }

  function TrimLeft(s: string): (r: string)
    ensures |r| <= |s| && r == s[|s| - |r|..]
    ensures forall i :: 0 <= i < |s| - |r| ==> IsSpace(s[i])
    ensures r == [] || !IsSpace(r[0])
  {
    if s != [] && IsSpace(s[0]) then TrimLeft(s[1..]) else s
  }

  function TrimRight(s: string): (r: string)
    ensures |r| <= |s| && r == s[..|r|]
    ensures forall i :: |r| <= i < |s| ==> IsSpace(s[i])
    ensures r == [] || !IsSpace(r[|r| - 1])
  {
    if s != [] && IsSpace(s[|s| - 1]) then TrimRight(s[..|s| - 1]) else s
  }

  /** strings.TrimSpace: `s` without its leading and trailing white space. */
  function TrimSpace(s: string): (r: string)
    ensures |r| <= |s|
    ensures r == [] || (!IsSpace(r[0]) && !IsSpace(r[|r| - 1]))
  {
    TrimRight(TrimLeft(s))
  }

  /** Cutting white space off the front of `s` and then off the back leaves a slice s[i..j]. */
  lemma CutBothEnds(s: string, l: string, r: string) returns (i: nat, j: nat)
    requires |l| <= |s| && l == s[|s| - |l|..] && forall k :: 0 <= k < |s| - |l| ==> IsSpace(s[k])
    requires |r| <= |l| && r == l[..|r|] && forall k :: |r| <= k < |l| ==> IsSpace(l[k])
    ensures i <= j <= |s| && r == s[i..j]
    ensures forall k :: 0 <= k < i ==> IsSpace(s[k])
    ensures forall k :: j <= k < |s| ==> IsSpace(s[k])
  {
    i := |s| - |l|;
    j := i + |r|;
    forall k | j <= k < |s|
      ensures IsSpace(s[k])
    {
      assert s[k] == l[k - i];
    }
  }

  /** TrimSpace cuts white space, and only white space, off both ends: the result is s[i..j]. */
  lemma TrimSpaceCuts(s: string) returns (i: nat, j: nat)
    ensures i <= j <= |s| && TrimSpace(s) == s[i..j]
    ensures forall k :: 0 <= k < i ==> IsSpace(s[k])
    ensures forall k :: j <= k < |s| ==> IsSpace(s[k])
  {
    var l := TrimLeft(s);
    i, j := CutBothEnds(s, l, TrimRight(l));
  }

  /** Trimming a trimmed string changes nothing. */
  lemma TrimSpaceIdempotent(s: string)
    ensures TrimSpace(TrimSpace(s)) == TrimSpace(s)
  {
    var r := TrimSpace(s);
    assert TrimLeft(r) == r;
    assert TrimRight(r) == r;
  }

  /** Lower-cases ASCII letters and leaves every other rune alone. */
  function LowerRune(c: char): (r: char)
    ensures !('A' <= r <= 'Z')
  {
    if 'A' <= c <= 'Z' then (c as int + 32) as char else c
  }

  /** strings.ToLower, on ASCII letters. */
  function ToLower(s: string): (r: string)
    ensures |r| == |s|
    ensures forall i :: 0 <= i < |s| ==> r[i] == LowerRune(s[i])
  {
    seq(|s|, i requires 0 <= i < |s| => LowerRune(s[i]))
  }

  /** Lower-casing twice is lower-casing once. */
  lemma ToLowerIdempotent(s: string)
    ensures ToLower(ToLower(s)) == ToLower(s)
  {
  }
}
