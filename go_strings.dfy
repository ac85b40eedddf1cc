/**
 * The functions of Go's `strings` package that the harness uses, over
 * strings as sequences of characters.
 */
module GoStrings {
  import opened Results

  /** `pat` occurs in `s` starting at index `i`. */
  predicate OccursAt(s: string, pat: string, i: nat)
  {
    i + |pat| <= |s| && s[i..i + |pat|] == pat
  }

  /** strings.Contains */
  predicate Contains(s: string, pat: string)
  {
    exists i: nat :: i <= |s| && OccursAt(s, pat, i)
  }

  /** A one-character pattern occurs exactly where that character does. */
  lemma ContainsChar(s: string, c: char)
    ensures Contains(s, [c]) <==> c in s
  {
    if c in s {
      var i :| 0 <= i < |s| && s[i] == c;
      assert OccursAt(s, [c], i);
    }
    if Contains(s, [c]) {
      var i: nat :| i <= |s| && OccursAt(s, [c], i);
      assert s[i] == s[i..i + 1][0] == c;
    }
  }

  /** A pattern inside one part of a concatenation is inside the whole. */
  lemma ContainsInConcat(a: string, b: string, c: string, pat: string)
    requires Contains(b, pat)
    ensures Contains(a + b + c, pat)
  {
    var i: nat :| i <= |b| && OccursAt(b, pat, i);
    assert (a + b + c)[|a| + i..|a| + i + |pat|] == b[i..i + |pat|];
    assert OccursAt(a + b + c, pat, |a| + i);
  }

  /** A string is what comes before index `i`, the character there, and the rest. */
  lemma SplitAround(s: string, i: nat)
    requires i < |s|
    ensures s == s[..i] + [s[i]] + s[i + 1..]
  {
  }

  /** strings.Index: the first occurrence of `pat` at or after `from`. */
  function IndexFrom(s: string, pat: string, from: nat): (r: Option<nat>)
    ensures r.Some? ==> from <= r.value && OccursAt(s, pat, r.value)
    ensures r.Some? ==> forall j: nat :: from <= j < r.value ==> !OccursAt(s, pat, j)
    ensures r.None? ==> forall j: nat :: from <= j ==> !OccursAt(s, pat, j)
    decreases |s| + 1 - from
  {
    if from + |pat| > |s| then None
    else if s[from..from + |pat|] == pat then Some(from)
    else IndexFrom(s, pat, from + 1)
  }

  /** strings.Index */
  function Index(s: string, pat: string): (r: Option<nat>)
    ensures r.Some? ==> OccursAt(s, pat, r.value)
    ensures r.Some? ==> forall j: nat :: j < r.value ==> !OccursAt(s, pat, j)
    ensures r.None? <==> !Contains(s, pat)
  {
    IndexFrom(s, pat, 0)
  }

  /** strings.IndexByte: the first position of `c`. */
  function IndexByte(s: string, c: char): (r: Option<nat>)
    ensures r.Some? ==> r.value < |s| && s[r.value] == c
    ensures r.None? <==> c !in s
    decreases |s|
  {
    if |s| == 0 then None
    else if s[0] == c then Some(0)
    else
      match IndexByte(s[1..], c)
      case None => None
      case Some(i) => Some(i + 1)
  }

  /** IndexByte finds the first occurrence: nothing before it is `c`. */
  lemma {:induction false} IndexByteIsFirst(s: string, c: char)
    ensures IndexByte(s, c).Some? ==> c !in s[..IndexByte(s, c).value]
    decreases |s|
  {
    if |s| > 0 && s[0] != c {
      IndexByteIsFirst(s[1..], c);
      match IndexByte(s[1..], c)
      case None =>
      case Some(i) =>
        assert s[..i + 1] == [s[0]] + s[1..][..i];
    }
  }

  /**
   * strings.SplitN(s, sep, 2) with a one-character separator: the whole
   * string, or the text before the first separator and the text after it.
   */
  function SplitN2(s: string, sep: char): (kv: seq<string>)
    ensures |kv| == 1 || |kv| == 2
    ensures |kv| == 2 <==> sep in s
    ensures |kv| == 1 ==> kv[0] == s
    ensures |kv| == 2 ==> sep !in kv[0] && s == kv[0] + [sep] + kv[1]
  {
    IndexByteIsFirst(s, sep);
    match IndexByte(s, sep)
    case None => [s]
    case Some(i) =>
      SplitAround(s, i);
      [s[..i], s[i + 1..]]
  }

  /** strings.Join with a one-character separator. */
  function Join(parts: seq<string>, sep: char): string
    requires |parts| >= 1
  {
    if |parts| == 1 then parts[0] else parts[0] + [sep] + Join(parts[1..], sep)
  }

  /** strings.Split with a one-character separator: the text between separators. */
  function Split(s: string, sep: char): (parts: seq<string>)
    ensures |parts| >= 1
    decreases |s|
  {
    match IndexByte(s, sep)
    case None => [s]
    case Some(i) => [s[..i]] + Split(s[i + 1..], sep)
  }

  /** No part holds the separator, and joining the parts gives back the string. */
  lemma {:induction false} SplitJoin(s: string, sep: char)
    ensures forall k :: 0 <= k < |Split(s, sep)| ==> sep !in Split(s, sep)[k]
    ensures Join(Split(s, sep), sep) == s
    decreases |s|
  {
    match IndexByte(s, sep)
    case None =>
    case Some(i) =>
      var t := s[i + 1..];
      SplitJoin(t, sep);
      IndexByteIsFirst(s, sep);
      SplitAtFirst(s, sep, i);
      JoinPrepended(Split(s, sep), s[..i], Split(t, sep), sep);
      SplitAround(s, i);
  }

  lemma JoinPrepended(parts: seq<string>, first: string, rest: seq<string>, sep: char)
    requires parts == [first] + rest && |rest| >= 1
    ensures Join(parts, sep) == first + [sep] + Join(rest, sep)
    ensures forall k :: 1 <= k < |parts| ==> parts[k] == rest[k - 1]
  {
    assert parts[1..] == rest;
  }

  /** The last element of Split, as `parts[len(parts)-1]` reads it. */
  function LastPart(s: string, sep: char): string
  {
    var parts := Split(s, sep);
    parts[|parts| - 1]
  }

  /**
   * The last part of Split is what follows the last separator: a suffix of
   * `s` that is either all of `s` or preceded by the separator.
   */
  lemma {:induction false} LastPartIsSuffix(s: string, sep: char)
    ensures |LastPart(s, sep)| <= |s| && s[|s| - |LastPart(s, sep)|..] == LastPart(s, sep)
    ensures |LastPart(s, sep)| == |s| <==> sep !in s
    ensures |LastPart(s, sep)| < |s| ==> s[|s| - |LastPart(s, sep)| - 1] == sep
    ensures sep !in LastPart(s, sep)
    decreases |s|
  {
    var idx := IndexByte(s, sep);
    if idx.Some? {
      var i := idx.value;
      var t := s[i + 1..];
      LastPartOfTail(s, sep, i);
      LastPartIsSuffix(t, sep);
      SuffixOfTail(s, i + 1, |LastPart(t, sep)|);
    }
  }

  /** After the first separator, the last part is that of the rest. */
  lemma LastPartOfTail(s: string, sep: char, i: nat)
    requires IndexByte(s, sep) == Some(i)
    ensures LastPart(s, sep) == LastPart(s[i + 1..], sep)
  {
    SplitAtFirst(s, sep, i);
    var parts := Split(s, sep);
    var rest := Split(s[i + 1..], sep);
    LastOfPrepended(parts, s[..i], rest);
    assert LastPart(s, sep) == parts[|parts| - 1];
    assert LastPart(s[i + 1..], sep) == rest[|rest| - 1];
  }

  lemma LastOfPrepended(parts: seq<string>, first: string, rest: seq<string>)
    requires parts == [first] + rest && |rest| >= 1
    ensures parts[|parts| - 1] == rest[|rest| - 1]
  {
  }

  lemma SplitAtFirst(s: string, sep: char, i: nat)
    requires IndexByte(s, sep) == Some(i)
    ensures Split(s, sep) == [s[..i]] + Split(s[i + 1..], sep)
  {
  }

  /** Whatever follows a separator and holds none is the last part. */
  lemma LastPartAfterSep(head: string, seg: string, sep: char)
    requires |head| > 0 && head[|head| - 1] == sep && sep !in seg
    ensures LastPart(head + seg, sep) == seg
  {
    var s := head + seg;
    LastPartIsSuffix(s, sep);
    var last := LastPart(s, sep);
    assert sep !in last;
    assert s[|head| - 1] == sep;
    assert |last| == |seg|;
    assert s[|s| - |last|..] == seg;
  }

  /** A suffix of `s[k..]` is the suffix of `s` of the same length. */
  lemma SuffixOfTail(s: string, k: nat, n: nat)
    requires k <= |s| && n <= |s| - k
    ensures s[|s| - n..] == s[k..][|s| - k - n..]
    ensures n < |s| - k ==> s[|s| - n - 1] == s[k..][|s| - k - n - 1]
  {
  }

  /** strings.TrimRight: drop every trailing character that is in `cutset`. */
  function TrimRight(s: string, cutset: string): (r: string)
    ensures |r| <= |s| && r == s[..|r|]
    ensures forall i :: |r| <= i < |s| ==> s[i] in cutset
    ensures |r| > 0 ==> r[|r| - 1] !in cutset
    decreases |s|
  {
    if |s| > 0 && s[|s| - 1] in cutset then TrimRight(s[..|s| - 1], cutset) else s
  }

  /** strings.Replace(s, old, new, 1): replace the first occurrence only. */
  function ReplaceFirst(s: string, pat: string, repl: string): (r: string)
    ensures !Contains(s, pat) ==> r == s
    ensures Contains(s, pat) ==>
      exists i: nat ::
        && OccursAt(s, pat, i)
        && (forall j: nat :: j < i ==> !OccursAt(s, pat, j))
        && r == s[..i] + repl + s[i + |pat|..]
  {
    match Index(s, pat)
    case None => s
    case Some(i) => s[..i] + repl + s[i + |pat|..]
  }
}
