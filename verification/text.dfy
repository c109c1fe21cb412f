/** The few Python string operations the recommendation engine relies on:
    `startswith`, `replace`, `", ".join` and `strip`, on `string` (a
    sequence of `char`). `Split` is the inverse of the join, used only to
    state what a joined reason sentence holds. */
module Text {

  /** `s.startswith(prefix)` */
  predicate StartsWith(s: string, prefix: string) {
    |prefix| <= |s| && s[..|prefix|] == prefix
  }

  /** `w in s` for a non-empty `w`: some slice of `s` equals `w`. */
  predicate Contains(s: string, w: string) {
    exists i | 0 <= i <= |s| - |w| :: StartsWith(s[i..], w)
  }

  /** `s.replace(pat, rep)`: every non-overlapping occurrence of `pat`,
      found from left to right, is replaced by `rep`. */
  function ReplaceAll(s: string, pat: string, rep: string): string
    requires |pat| > 0
    decreases |s|
  {
    if |s| < |pat| then s
    else if s[..|pat|] == pat then rep + ReplaceAll(s[|pat|..], pat, rep)
    else [s[0]] + ReplaceAll(s[1..], pat, rep)
  }

  /** A string in which `pat` does not occur is left as it is. */
  lemma {:induction false} ReplaceAbsent(s: string, pat: string, rep: string)
    requires |pat| > 0
    requires !Contains(s, pat)
    ensures ReplaceAll(s, pat, rep) == s
    decreases |s|
  {
    if |s| < |pat| {
    } else {
      assert StartsWith(s[0..], pat) ==> Contains(s, pat);
      assert s[0..] == s;
      forall i | 0 <= i <= |s[1..]| - |pat|
        ensures !StartsWith(s[1..][i..], pat)
      {
        assert s[1..][i..] == s[i + 1..];
        assert StartsWith(s[i + 1..], pat) ==> Contains(s, pat);
      }
      ReplaceAbsent(s[1..], pat, rep);
    }
  }

  /** A suffix of a string without `w` is also without `w`. */
  lemma NotContainsSuffix(s: string, k: nat, w: string)
    requires k <= |s| && !Contains(s, w)
    ensures !Contains(s[k..], w)
  {
    forall i | 0 <= i <= |s[k..]| - |w|
      ensures !StartsWith(s[k..][i..], w)
    {
      assert s[k..][i..] == s[i + k..];
    }
  }

  /** `sep.join(parts)` */
  function Join(parts: seq<string>, sep: string): string
    decreases |parts|
  {
    if |parts| == 0 then ""
    else if |parts| == 1 then parts[0]
    else parts[0] + sep + Join(parts[1..], sep)
  }

  /** `s.split(sep)` for a non-empty separator: the pieces between the
      occurrences of `sep`, found from left to right. */
  function Split(s: string, sep: string): (r: seq<string>)
    requires |sep| > 0
    ensures |r| > 0
    decreases |s|
  {
    if |s| < |sep| then [s]
    else if s[..|sep|] == sep then [""] + Split(s[|sep|..], sep)
    else
      var rest := Split(s[1..], sep);
      [[s[0]] + rest[0]] + rest[1..]
  }

  /** A joined string starts with its first part. */
  lemma JoinStartsWithFirst(parts: seq<string>, sep: string)
    requires |parts| > 0
    ensures StartsWith(Join(parts, sep), parts[0])
  {
    if |parts| > 1 {
      assert Join(parts, sep) == parts[0] + (sep + Join(parts[1..], sep));
    }
  }

  /** Splitting a piece that holds no character of the separator's first
      letter, followed by the separator, peels that piece off. */
  lemma {:induction false} SplitPeel(p: string, sep: string, t: string)
    requires |sep| > 0
    requires sep[0] !in p
    ensures Split(p + sep + t, sep) == [p] + Split(t, sep)
    decreases |p|
  {
    var s := p + sep + t;
    if |p| == 0 {
      assert s == sep + t;
      assert s[..|sep|] == sep;
      assert s[|sep|..] == t;
    } else {
      assert s[0] == p[0];
      assert s[..|sep|] != sep by {
        assert s[..|sep|][0] == p[0];
      }
      assert s[1..] == p[1..] + sep + t;
      SplitPeel(p[1..], sep, t);
      assert [p[0]] + p[1..] == p;
    }
  }

  /** A piece without the separator's first letter splits to itself. */
  lemma {:induction false} SplitWhole(p: string, sep: string)
    requires |sep| > 0
    requires sep[0] !in p
    ensures Split(p, sep) == [p]
    decreases |p|
  {
    if |p| >= |sep| {
      assert p[..|sep|] != sep by {
        assert p[..|sep|][0] == p[0];
      }
      SplitWhole(p[1..], sep);
      assert [p[0]] + p[1..] == p;
    }
  }

  /** Round trip: joining pieces that never contain the separator's first
      letter and splitting the result again gives back the pieces. */
  lemma {:induction false} SplitJoin(parts: seq<string>, sep: string)
    requires |sep| > 0
    requires |parts| > 0
    requires forall k | 0 <= k < |parts| :: sep[0] !in parts[k]
    ensures Split(Join(parts, sep), sep) == parts
    decreases |parts|
  {
    if |parts| == 1 {
      SplitWhole(parts[0], sep);
    } else {
      SplitJoin(parts[1..], sep);
      SplitPeel(parts[0], sep, Join(parts[1..], sep));
      assert [parts[0]] + parts[1..] == parts;
    }
  }

  /** Python's `str.isspace` for one character (the Unicode White_Space
      characters plus the four ASCII separators 0x1C-0x1F). */
  predicate IsSpace(c: char) {
    || ('\t' <= c <= '\r')
    || ('\U{1C}' <= c <= '\U{1F}')
    || c == ' '
    || c == '\U{85}'
    || c == '\U{A0}'
    || c == '\U{1680}'
    || ('\U{2000}' <= c <= '\U{200A}')
    || c == '\U{2028}'
    || c == '\U{2029}'
    || c == '\U{202F}'
    || c == '\U{205F}'
    || c == '\U{3000}'
  }

  /** Every character of `s` is white space. */
  predicate AllSpace(s: string)
    decreases |s|
  {
    |s| == 0 || (IsSpace(s[0]) && AllSpace(s[1..]))
  }

  /** Each character of an all-white-space string is white space. */
  lemma {:induction false} AllSpaceAt(s: string, i: nat)
    requires i < |s|
    ensures AllSpace(s) ==> IsSpace(s[i])
    decreases i
  {
    if i > 0 {
      AllSpaceAt(s[1..], i - 1);
    }
  }

  /** Two all-white-space strings concatenate to one. */
  lemma {:induction false} AllSpaceAppend(a: string, b: string)
    requires AllSpace(a) && AllSpace(b)
    ensures AllSpace(a + b)
    decreases |a|
  {
    if |a| > 0 {
      AllSpaceAppend(a[1..], b);
      assert (a + b)[0] == a[0] && (a + b)[1..] == a[1..] + b;
    } else {
      assert a + b == b;
    }
  }

  /** `s.lstrip()` */
  function TrimStart(s: string): (r: string)
    ensures |r| <= |s| && r == s[|s| - |r|..]
    ensures AllSpace(s[..|s| - |r|])
    ensures r == "" || !IsSpace(r[0])
    decreases |s|
  {
    if |s| > 0 && IsSpace(s[0]) then
      var r := TrimStart(s[1..]);
      SpaceBeforeSpaces(s, |s| - 1 - |r|);
      r
    else
      s
  }

  /** `s.rstrip()` */
  function TrimEnd(s: string): (r: string)
    ensures |r| <= |s| && r == s[..|r|]
    ensures AllSpace(s[|r|..])
    ensures r == "" || !IsSpace(r[|r| - 1])
    decreases |s|
  {
    if |s| > 0 && IsSpace(s[|s| - 1]) then
      var r := TrimEnd(s[..|s| - 1]);
      SpacesBeforeSpace(s, |r|);
      r
    else
      s
  }

  /** A white space character in front of a run of white space. */
  lemma SpaceBeforeSpaces(s: string, k: nat)
    requires k < |s| && IsSpace(s[0]) && AllSpace(s[1..][..k])
    ensures AllSpace(s[..k + 1])
  {
    assert s[..k + 1][1..] == s[1..][..k];
  }

  /** A run of white space followed by a white space character. */
  lemma SpacesBeforeSpace(s: string, k: nat)
    requires k < |s| && IsSpace(s[|s| - 1]) && AllSpace(s[..|s| - 1][k..])
    ensures AllSpace(s[k..])
  {
    var last := [s[|s| - 1]];
    assert last[1..] == [];
    AllSpaceAppend(s[..|s| - 1][k..], last);
    assert s[k..] == s[..|s| - 1][k..] + last;
  }

  /** `s.strip()`: the slice of `s` left after dropping white space at
      both ends. */
  function Strip(s: string): (r: string)
    ensures exists i, j | 0 <= i <= j <= |s| :: r == s[i..j] && AllSpace(s[..i]) && AllSpace(s[j..])
    ensures r == "" || (!IsSpace(r[0]) && !IsSpace(r[|r| - 1]))
  {
    var t := TrimStart(s);
    var r := TrimEnd(t);
    SliceOfSuffix(s, t, r);
    assert r != "" ==> r[0] == t[0];
    r
  }

  /** Cutting a prefix and then a suffix off `s` leaves a slice of `s`,
      followed in `s` by the part cut off last. */
  lemma SliceOfSuffix(s: string, t: string, r: string)
    requires |t| <= |s| && t == s[|s| - |t|..]
    requires |r| <= |t| && r == t[..|r|]
    ensures r == s[|s| - |t|..|s| - |t| + |r|]
    ensures s[|s| - |t| + |r|..] == t[|r|..]
  {
  }

  /** `strip()` gives the empty string exactly when `s` is all white
      space. */
  lemma StripEmptyIff(s: string)
    ensures Strip(s) == "" <==> AllSpace(s)
  {
    var t := TrimStart(s);
    TrimmedEmptyIff(s, t, TrimEnd(t));
  }

  /** If `t` is `s` without its leading white space and `r` is `t` with
      only white space cut off its end, `r` is empty exactly when `s` is
      all white space. */
  lemma TrimmedEmptyIff(s: string, t: string, r: string)
    requires |t| <= |s| && t == s[|s| - |t|..] && AllSpace(s[..|s| - |t|])
    requires t == "" || !IsSpace(t[0])
    requires |r| <= |t| && r == t[..|r|] && AllSpace(t[|r|..])
    ensures r == "" <==> AllSpace(s)
  {
    var i := |s| - |t|;
    assert s == s[..i] + t;
    if r == "" {
      assert t[|r|..] == t;
      AllSpaceAppend(s[..i], t);
    } else {
      assert t[0] == s[i];
      AllSpaceAt(s, i);
    }
  }
}
