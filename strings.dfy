/** The string library operations the plugin relies on: JavaScript's
    `String.prototype.split` with a non-empty separator and
    `Array.prototype.join`, with the laws that relate them. */
module Strings {

  /** `sub` occurs in `s` starting at index `i`. */
  predicate OccursAt(s: string, sub: string, i: int) {
    0 <= i <= |s| && sub <= s[i..]
  }

  predicate Contains(s: string, sub: string) {
    exists i :: 0 <= i <= |s| && OccursAt(s, sub, i)
  }

  lemma OccursShift(s: string, sub: string)
    requires |s| > 0
    ensures forall j :: 1 <= j <= |s| ==> (OccursAt(s, sub, j) <==> OccursAt(s[1..], sub, j - 1))
  {
    forall j | 1 <= j <= |s|
      ensures OccursAt(s, sub, j) <==> OccursAt(s[1..], sub, j - 1)
    {
      assert s[j..] == s[1..][j - 1..];
    }
  }

  /** The index of the leftmost occurrence of `sep` in `s`, or -1 when there
      is none (`FindLeftmost` states both). */
  function Find(s: string, sep: string): (k: int)
    requires |sep| > 0
    ensures k == -1 || 0 <= k <= |s| - |sep|
    decreases |s|
  {
    if sep <= s then 0
    else if |s| == 0 then -1
    else
      var k := Find(s[1..], sep);
      if k < 0 then -1 else k + 1
  }

  /** `Find` returns an occurrence, and no occurrence starts before it (none
      at all when it returns -1). */
  lemma {:induction false} FindLeftmost(s: string, sep: string)
    requires |sep| > 0
    ensures Find(s, sep) >= 0 ==> OccursAt(s, sep, Find(s, sep))
    ensures forall j :: 0 <= j < (if Find(s, sep) < 0 then |s| + 1 else Find(s, sep)) ==> !OccursAt(s, sep, j)
    decreases |s|
  {
    if !(sep <= s) && |s| > 0 {
      FindLeftmost(s[1..], sep);
      OccursShift(s, sep);
    }
  }

  /** Where the separator can occur in `p + t`: nowhere that starts inside
      `p` when `p` lacks the separator's first character, and at `j` in `t`
      exactly when at `|p| + j` in `p + t`. */
  lemma OccursAppend(p: string, t: string, sep: string)
    requires |sep| > 0
    ensures forall j :: |p| <= j <= |p| + |t| ==> (OccursAt(p + t, sep, j) <==> OccursAt(t, sep, j - |p|))
    ensures sep[0] !in p ==> forall j :: 0 <= j < |p| ==> !OccursAt(p + t, sep, j)
  {
    forall j | |p| <= j <= |p| + |t|
      ensures OccursAt(p + t, sep, j) <==> OccursAt(t, sep, j - |p|)
    {
      assert (p + t)[j..] == t[j - |p|..];
    }
    if sep[0] !in p {
      forall j | 0 <= j < |p|
        ensures !OccursAt(p + t, sep, j)
      {
        assert (p + t)[j] == p[j];
      }
    }
  }

  /** The search passes over a prefix lacking the separator's first character. */
  lemma FindGuardedPrefix(p: string, t: string, sep: string)
    requires |sep| > 0 && sep[0] !in p
    ensures Find(p + t, sep) == if Find(t, sep) < 0 then -1 else |p| + Find(t, sep)
  {
    OccursAppend(p, t, sep);
    FindLeftmost(p + t, sep);
    FindLeftmost(t, sep);
    var k := Find(p + t, sep);
    var kt := Find(t, sep);
    if kt >= 0 {
      assert OccursAt(p + t, sep, |p| + kt);
    } else {
      assert k >= 0 ==> OccursAt(t, sep, k - |p|);
    }
  }

  /** `s.split(sep)`: the text between leftmost, non-overlapping occurrences
      of `sep`; the empty string splits into one empty segment. */
  function Split(s: string, sep: string): (parts: seq<string>)
    requires |sep| > 0
    ensures |parts| >= 1
    decreases |s|
  {
    var k := Find(s, sep);
    if k < 0 then [s] else [s[..k]] + Split(s[k + |sep|..], sep)
  }

  /** One unfolding of `Split` without an occurrence: the whole string. */
  lemma SplitWhole(s: string, sep: string)
    requires |sep| > 0 && Find(s, sep) < 0
    ensures Split(s, sep) == [s]
  {
  }

  /** One unfolding of `Split` at the leftmost occurrence `k`, with the text
      before it and the text after it named by the caller. */
  lemma SplitAt(s: string, sep: string, k: int, before: string, after: string)
    requires |sep| > 0 && k == Find(s, sep) && k >= 0
    requires before == s[..k] && after == s[k + |sep|..]
    ensures Split(s, sep) == [before] + Split(after, sep)
  {
  }

  /** `parts.join(sep)`; an empty array joins to the empty string. */
  function Join(parts: seq<string>, sep: string): (r: string)
    ensures |parts| == 0 ==> r == ""
    ensures |parts| > 0 ==> parts[0] <= r
    decreases |parts|
  {
    if |parts| == 0 then ""
    else if |parts| == 1 then parts[0]
    else parts[0] + sep + Join(parts[1..], sep)
  }

  /** Dropping the head of a sequence built by consing. */
  lemma DropCons<T>(x: T, rest: seq<T>)
    ensures ([x] + rest)[0] == x && ([x] + rest)[1..] == rest
  {
  }

  /** Slicing a concatenation past its first operand. */
  lemma AppendSlices<T>(p: seq<T>, t: seq<T>, m: int)
    requires 0 <= m <= |t|
    ensures (p + t)[..|p| + m] == p + t[..m] && (p + t)[|p| + m..] == t[m..]
  {
  }

  /** A string cut around an occurrence of `sep` at `k`. */
  lemma CutAround<T>(s: seq<T>, k: int, sep: seq<T>)
    requires 0 <= k <= |s| && sep <= s[k..]
    ensures k + |sep| <= |s| && s == s[..k] + sep + s[k + |sep|..]
  {
    assert s[k..] == sep + s[k + |sep|..];
  }

  /** Counting `c` in `s` when its first occurrence is at `k` (or when it
      does not occur, `k == |s|`). */
  lemma CountFirst<T>(s: seq<T>, k: int, c: T)
    requires 0 <= k <= |s| && forall j :: 0 <= j < k ==> s[j] != c
    requires k < |s| ==> s[k] == c
    ensures multiset(s)[c] == if k == |s| then 0 else 1 + multiset(s[k + 1..])[c]
  {
    assert c !in s[..k];
    if k < |s| {
      assert s == s[..k] + [c] + s[k + 1..];
      assert multiset(s) == multiset(s[..k]) + multiset([c]) + multiset(s[k + 1..]);
    } else {
      assert s[..k] == s;
    }
  }

  lemma Singleton<T>(x: T)
    ensures [x][0] == x && [x][1..] == [] && [x] + [] == [x]
  {
  }

  /** The outer parts of `a + (b + c)`. */
  lemma CutConcat<T>(a: seq<T>, b: seq<T>, c: seq<T>)
    ensures (a + (b + c))[..|a|] == a && (a + (b + c))[|a| + |b|..] == c
  {
  }

  lemma ConcatAssociates(a: string, b: string, c: string)
    ensures a + (b + c) == a + b + c
  {
  }

  lemma JoinCons(first: string, rest: seq<string>, sep: string)
    requires |rest| > 0
    ensures Join([first] + rest, sep) == first + sep + Join(rest, sep)
  {
    DropCons(first, rest);
  }

  /** Joining the segments again gives back the split string. */
  lemma {:induction false} JoinSplit(s: string, sep: string)
    requires |sep| > 0
    ensures Join(Split(s, sep), sep) == s
    decreases |s|
  {
    var k := Find(s, sep);
    if k < 0 {
      SplitWhole(s, sep);
    } else {
      var t := s[k + |sep|..];
      var rest := Split(t, sep);
      SplitAt(s, sep, k, s[..k], t);
      JoinSplit(t, sep);
      JoinCons(s[..k], rest, sep);
      FindLeftmost(s, sep);
      CutAround(s, k, sep);
    }
  }

  /** `Split` cuts at the leftmost occurrence of the separator: the first
      segment is the prefix before it (or the whole string when there is
      none) and the other segments are the split of what follows it. */
  lemma SplitFirst(s: string, sep: string)
    requires |sep| > 0
    ensures var parts := Split(s, sep);
      parts[0] <= s &&
      (forall j :: 0 <= j < |parts[0]| ==> !OccursAt(s, sep, j)) &&
      (|parts| == 1 ==> parts[0] == s && !Contains(s, sep)) &&
      (|parts| > 1 ==> OccursAt(s, sep, |parts[0]|) &&
                       parts[1..] == Split(s[|parts[0]| + |sep|..], sep))
  {
    var k := Find(s, sep);
    var parts := Split(s, sep);
    FindLeftmost(s, sep);
    if k < 0 {
      SplitWhole(s, sep);
    } else {
      var t := s[k + |sep|..];
      SplitAt(s, sep, k, s[..k], t);
      DropCons(s[..k], Split(t, sep));
      assert |parts[0]| == k;
      assert s[|parts[0]| + |sep|..] == t;
    }
  }

  /** Splitting `p + t` when `p` never contains the separator's first
      character: `p` is glued to the front of the first segment of `t`. */
  lemma SplitGuardedPrefix(p: string, t: string, sep: string)
    requires |sep| > 0 && sep[0] !in p
    ensures Split(p + t, sep) == [p + Split(t, sep)[0]] + Split(t, sep)[1..]
  {
    FindGuardedPrefix(p, t, sep);
    if Find(t, sep) < 0 {
      SplitWhole(p + t, sep);
      SplitWhole(t, sep);
      Singleton(t);
      Singleton(p + t);
    } else {
      SplitShiftedCut(p, t, sep);
    }
  }

  /** `SplitGuardedPrefix` when `t` holds the separator. */
  lemma SplitShiftedCut(p: string, t: string, sep: string)
    requires |sep| > 0 && Find(t, sep) >= 0 && Find(p + t, sep) == |p| + Find(t, sep)
    ensures Split(p + t, sep) == [p + Split(t, sep)[0]] + Split(t, sep)[1..]
  {
    var kt := Find(t, sep);
    var u := t[kt + |sep|..];
    AppendSlices(p, t, kt);
    AppendSlices(p, t, kt + |sep|);
    SplitAt(p + t, sep, |p| + kt, p + t[..kt], u);
    SplitAt(t, sep, kt, t[..kt], u);
    DropCons(t[..kt], Split(u, sep));
  }

  /** The separator is found at the start of a string it begins. */
  lemma FindAtStart(t: string, sep: string)
    requires |sep| > 0
    ensures Find(sep + t, sep) == 0
  {
    assert sep <= sep + t;
  }

  /** Splitting a join gives back the parts, provided no part contains the
      separator's first character. */
  lemma {:induction false} SplitJoin(parts: seq<string>, sep: string)
    requires |sep| > 0 && |parts| >= 1
    requires forall i :: 0 <= i < |parts| ==> sep[0] !in parts[i]
    ensures Split(Join(parts, sep), sep) == parts
    decreases |parts|
  {
    if |parts| == 1 {
      assert sep[0] !in parts[0];
      SplitGuardedPrefix(parts[0], "", sep);
      assert parts[0] + "" == parts[0];
      assert parts == [parts[0]];
    } else {
      var j := Join(parts[1..], sep);
      SplitJoin(parts[1..], sep);
      assert sep[0] !in parts[0];
      FindGuardedPrefix(parts[0], sep + j, sep);
      FindAtStart(j, sep);
      SplitJoinStep(parts[0], parts[1..], j, sep);
      assert parts == [parts[0]] + parts[1..];
    }
  }

  /** The inductive step of `SplitJoin`: the separator after the first part
      is the leftmost one. */
  lemma SplitJoinStep(first: string, rest: seq<string>, j: string, sep: string)
    requires |sep| > 0 && |rest| >= 1
    requires Join(rest, sep) == j && Split(j, sep) == rest
    requires Find(first + (sep + j), sep) == |first|
    ensures Split(Join([first] + rest, sep), sep) == [first] + rest
  {
    var whole := first + (sep + j);
    CutConcat(first, sep, j);
    SplitAt(whole, sep, |first|, first, j);
    JoinCons(first, rest, sep);
    ConcatAssociates(first, sep, j);
  }

  /** For a one-character separator, `Find` is the index of the first
      occurrence of that character, or -1. */
  lemma FindChar(s: string, c: char)
    ensures var k := Find(s, [c]);
      (forall j :: 0 <= j < (if k < 0 then |s| else k) ==> s[j] != c) &&
      (k >= 0 ==> s[k] == c)
  {
    var k := Find(s, [c]);
    FindLeftmost(s, [c]);
    forall j | 0 <= j < (if k < 0 then |s| else k)
      ensures s[j] != c
    {
      assert !OccursAt(s, [c], j);
      assert s[j..][..1] == [s[j]];
    }
    if k >= 0 {
      assert [c] <= s[k..];
    }
  }

  /** Splitting on one character gives one segment more than the number of
      occurrences of that character. */
  lemma {:induction false} SplitCharCount(s: string, c: char)
    ensures |Split(s, [c])| == multiset(s)[c] + 1
    decreases |s|
  {
    var k := Find(s, [c]);
    FindChar(s, c);
    if k < 0 {
      SplitWhole(s, [c]);
      CountFirst(s, |s|, c);
    } else {
      var t := s[k + 1..];
      SplitAt(s, [c], k, s[..k], t);
      SplitCharCount(t, c);
      CountFirst(s, k, c);
    }
  }

  lemma {:induction false} JoinAppend(a: seq<string>, b: seq<string>, sep: string)
    requires |a| > 0 && |b| > 0
    ensures Join(a + b, sep) == Join(a, sep) + sep + Join(b, sep)
    decreases |a|
  {
    if |a| == 1 {
      JoinCons(a[0], b, sep);
      assert a + b == [a[0]] + b;
    } else {
      var t := a[1..];
      JoinAppend(t, b, sep);
      assert (a + b)[0] == a[0] && (a + b)[1..] == t + b;
      JoinCons(a[0], t + b, sep);
      JoinCons(a[0], t, sep);
      assert [a[0]] + (t + b) == a + b && [a[0]] + t == a;
      ConcatAssociates(a[0] + sep, Join(t, sep) + sep, Join(b, sep));
    }
  }

  /** A character that is in no part and not in the separator is not in the join. */
  lemma {:induction false} JoinNoChar(parts: seq<string>, sep: string, c: char)
    requires c !in sep && forall i :: 0 <= i < |parts| ==> c !in parts[i]
    ensures c !in Join(parts, sep)
    decreases |parts|
  {
    if |parts| > 1 {
      JoinNoChar(parts[1..], sep, c);
    }
  }
}
