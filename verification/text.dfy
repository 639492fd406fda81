/** The Python string operations the generator is built from, with the
    semantics of CPython's `str` methods on ASCII text: `"".join`,
    `str.replace`, `str.split`, `str.splitlines(True)`, `str.rstrip`,
    `str.strip`, `str.upper` and `str.removesuffix`. */
module Text {
  import opened Outcome

  /* ----- Concatenation and occurrences ----- */

  /** `"".join(ls)`. */
  function Concat(ls: seq<string>): string
  {
    if |ls| == 0 then "" else ls[0] + Concat(ls[1..])
  }

  lemma {:induction false} ConcatAppend(a: seq<string>, b: seq<string>)
    ensures Concat(a + b) == Concat(a) + Concat(b)
  {
    if |a| == 0 {
      assert a + b == b;
    } else {
      assert (a + b)[1..] == a[1..] + b;
      ConcatAppend(a[1..], b);
    }
  }

  lemma {:induction false} ConcatThree(a: string, b: string, c: string)
    ensures Concat([a, b, c]) == a + b + c
  {
    assert [a, b, c][1..] == [b, c] && [b, c][1..] == [c] && [c][1..] == [];
    assert Concat([c]) == c + "" == c;
    assert Concat([b, c]) == b + c;
  }

  /** `p` occurs in `s` starting at index `i`. */
  predicate At(s: string, i: int, p: string)
  {
    0 <= i && i + |p| <= |s| && s[i..i + |p|] == p
  }

  /** `p in s`. */
  predicate Occurs(s: string, p: string)
  {
    exists i | 0 <= i <= |s| - |p| :: At(s, i, p)
  }

  predicate StartsWith(s: string, p: string)
  {
    |p| <= |s| && s[..|p|] == p
  }

  predicate EndsWith(s: string, p: string)
  {
    |p| <= |s| && s[|s| - |p|..] == p
  }

  /** A text ends with what was appended last. */
  lemma {:induction false} EndsWithTail(s: string, t: string)
    ensures EndsWith(s + t, t)
  {
    assert (s + t)[|s + t| - |t|..] == t;
  }

  /** Prepending text keeps an ending. */
  lemma {:induction false} EndsWithAfter(s: string, t: string, p: string)
    requires EndsWith(t, p)
    ensures EndsWith(s + t, p)
  {
    assert (s + t)[|s + t| - |p|..] == t[|t| - |p|..];
  }

  /** A string containing a character that `p` needs cannot contain `p`. */
  lemma {:induction false} NotOccursByChar(s: string, p: string, k: nat)
    requires k < |p| && p[k] !in s
    ensures !Occurs(s, p)
  {

  }

  /* ----- str.find, str.replace, str.split and str.join ----- */

  /** `s.find(p)`: the index of the leftmost occurrence of `p`, if any. */
  function Find(s: string, p: string): (r: Option<nat>)
    requires |p| > 0
    ensures r.Some? ==> r.value + |p| <= |s|
    decreases |s|
  {
    if |s| < |p| then None
    else if s[..|p|] == p then Some(0)
    else
      match Find(s[1..], p)
      case None => None
      case Some(i) => Some(i + 1)
  }

  /** What `find` reports is an occurrence. */
  lemma {:induction false} FindFound(s: string, p: string)
    requires |p| > 0
    ensures Find(s, p).Some? ==> At(s, Find(s, p).value, p)
    decreases |s|
  {
    if |s| >= |p| && s[..|p|] == p {
      assert At(s, 0, p);
    } else if |s| >= |p| {
      FindFound(s[1..], p);
      match Find(s[1..], p)
      case None =>
      case Some(i) =>
        assert Find(s, p) == Some(i + 1);
        AtTail(s, p);
        assert At(s[1..], i, p);
    }
  }

  /** `find` reports the leftmost occurrence, and reports none exactly when
      there is none. */
  lemma {:induction false} FindSpec(s: string, p: string)
    requires |p| > 0
    ensures Find(s, p).None? <==> !Occurs(s, p)
    ensures Find(s, p).Some? ==> At(s, Find(s, p).value, p)
    ensures Find(s, p).Some? ==> forall j :: 0 <= j < Find(s, p).value ==> !At(s, j, p)
    decreases |s|
  {
    if |s| < |p| {
    } else if s[..|p|] == p {
      assert At(s, 0, p);
    } else {
      assert s[0..|p|] == s[..|p|];
      AtTail(s, p);
      FindSpec(s[1..], p);
      match Find(s[1..], p)
      case None =>
      case Some(i) =>
        assert At(s, i + 1, p);
    }
  }

  /** Occurrences in `s[1..]` are the occurrences in `s`, shifted by one. */
  lemma {:induction false} AtTail(s: string, p: string)
    requires |s| > 0
    ensures forall j :: 1 <= j ==> (At(s, j, p) <==> At(s[1..], j - 1, p))
  {
    forall j | 1 <= j
      ensures At(s, j, p) <==> At(s[1..], j - 1, p)
    {
      if j + |p| <= |s| {
        var u := s[1..][j - 1..j - 1 + |p|];
        var v := s[j..j + |p|];
        assert forall k :: 0 <= k < |u| ==> u[k] == v[k];
      }
    }
  }

  /** `s.replace(pat, rep)`: every leftmost, non-overlapping occurrence of
      `pat` is replaced by `rep`. */
  function Replace(s: string, pat: string, rep: string): string
    requires |pat| > 0
    decreases |s|
  {
    match Find(s, pat)
    case None => s
    case Some(i) => s[..i] + rep + Replace(s[i + |pat|..], pat, rep)
  }

  /** `s.split(sep)`: the pieces between the leftmost, non-overlapping
      occurrences of `sep`; there is always at least one piece. */
  function Split(s: string, sep: string): (r: seq<string>)
    requires |sep| > 0
    ensures |r| >= 1
    decreases |s|
  {
    match Find(s, sep)
    case None => [s]
    case Some(i) => [s[..i]] + Split(s[i + |sep|..], sep)
  }

  /** `sep.join(ps)` for a non-empty list of pieces. */
  function Join(ps: seq<string>, sep: string): string
    requires |ps| >= 1
  {
    if |ps| == 1 then ps[0] else ps[0] + sep + Join(ps[1..], sep)
  }

  /** Splitting at `sep` and joining with `sep` gives the text back. */
  lemma {:induction false} SplitJoin(s: string, sep: string)
    requires |sep| > 0
    ensures Join(Split(s, sep), sep) == s
    decreases |s|
  {
    FindFound(s, sep);
    match Find(s, sep)
    case None =>
    case Some(i) =>
      var rest := s[i + |sep|..];
      SplitJoin(rest, sep);
      SplitAt(s, sep, i);
      assert s == s[..i] + sep + rest by {
        assert s[i..i + |sep|] == sep;
        assert s == s[..i] + s[i..i + |sep|] + rest;
      }
  }

  /** `split` at a known first occurrence, and the join that undoes it. */
  lemma {:induction false} SplitAt(s: string, sep: string, i: nat)
    requires |sep| > 0
    requires Find(s, sep) == Some(i)
    ensures Split(s, sep) == [s[..i]] + Split(s[i + |sep|..], sep)
    ensures Join(Split(s, sep), sep) == s[..i] + sep + Join(Split(s[i + |sep|..], sep), sep)
  {
    var r := Split(s, sep);
    assert r[0] == s[..i] && r[1..] == Split(s[i + |sep|..], sep);
  }

  /** No piece of a split contains the separator. */
  lemma {:induction false} SplitPiecesFree(s: string, sep: string)
    requires |sep| > 0
    ensures forall k :: 0 <= k < |Split(s, sep)| ==> !Occurs(Split(s, sep)[k], sep)
    decreases |s|
  {
    FindSpec(s, sep);
    match Find(s, sep)
    case None =>
    case Some(i) =>
      var rest := s[i + |sep|..];
      SplitPiecesFree(rest, sep);
      var r := Split(s, sep);
      forall k | 0 <= k < |r|
        ensures !Occurs(r[k], sep)
      {
        if k == 0 {
          forall j | 0 <= j <= |s[..i]| - |sep|
            ensures !At(s[..i], j, sep)
          {
            SliceOfPrefix(s, i, j, |sep|);
            assert !At(s, j, sep);
          }
        } else {
          assert r[k] == Split(rest, sep)[k - 1];
        }
      }
  }

  lemma {:induction false} SliceOfPrefix(s: string, i: nat, j: nat, n: nat)
    requires j + n <= i <= |s|
    ensures s[..i][j..j + n] == s[j..j + n]
  {
  }

  /** `s.replace(pat, rep)` is `rep.join(s.split(pat))`: the text is cut at
      the same occurrences that `split` finds and glued back with `rep`. */
  lemma {:induction false} ReplaceIsJoinOfSplit(s: string, pat: string, rep: string)
    requires |pat| > 0
    ensures Replace(s, pat, rep) == Join(Split(s, pat), rep)
    decreases |s|
  {
    match Find(s, pat)
    case None =>
    case Some(i) =>
      var rest := s[i + |pat|..];
      ReplaceIsJoinOfSplit(rest, pat, rep);
      assert Split(s, pat)[1..] == Split(rest, pat);
  }

  /** Text in which `pat` does not occur is left unchanged by `replace`. */
  lemma {:induction false} ReplaceAbsent(s: string, pat: string, rep: string)
    requires |pat| > 0
    requires !Occurs(s, pat)
    ensures Replace(s, pat, rep) == s
  {
    FindSpec(s, pat);
  }

  /** Occurrences in `b` are the occurrences in `a + b` from `|a|` on. */
  lemma {:induction false} AtShift(a: string, b: string, p: string)
    ensures forall j :: |a| <= j ==> (At(a + b, j, p) <==> At(b, j - |a|, p))
  {
    forall j | |a| <= j
      ensures At(a + b, j, p) <==> At(b, j - |a|, p)
    {
      if j + |p| <= |a + b| {
        var u := (a + b)[j..j + |p|];
        var v := b[j - |a|..j - |a| + |p|];
        assert forall k :: 0 <= k < |u| ==> u[k] == v[k];
      }
    }
  }

  /** When no occurrence starts inside `a`, the first occurrence in `a + b`
      is the first occurrence in `b`, shifted by `|a|`. */
  lemma {:induction false} FindSkip(a: string, b: string, p: string)
    requires |p| > 0
    requires forall i :: 0 <= i < |a| ==> !At(a + b, i, p)
    ensures Find(b, p).None? ==> Find(a + b, p).None?
    ensures Find(b, p).Some? ==> Find(a + b, p) == Some(|a| + Find(b, p).value)
  {
    AtShift(a, b, p);
    var s := a + b;
    FindSpec(s, p);
    FindSpec(b, p);
    var fb := Find(b, p);
    if fb.None? {
      forall j | 0 <= j <= |s| - |p|
        ensures !At(s, j, p)
      {
        if j >= |a| {
          assert At(s, j, p) <==> At(b, j - |a|, p);
        }
      }
    } else {
      var k := |a| + fb.value;
      assert At(s, k, p);
      forall j | 0 <= j < k
        ensures !At(s, j, p)
      {
        if j >= |a| {
          assert At(s, j, p) <==> At(b, j - |a|, p);
        }
      }
      var f := Find(s, p);
      assert f.value <= k;
      assert f.value >= k;
    }
  }

  /** A prefix in which no occurrence of `pat` starts passes through
      `replace` untouched. */
  lemma {:induction false} ReplaceSkip(a: string, b: string, pat: string, rep: string)
    requires |pat| > 0
    requires forall i :: 0 <= i < |a| ==> !At(a + b, i, pat)
    ensures Replace(a + b, pat, rep) == a + Replace(b, pat, rep)
  {
    FindSkip(a, b, pat);
    match Find(b, pat)
    case None =>
      ReplaceUnfold(a + b, pat, rep);
      ReplaceUnfold(b, pat, rep);
    case Some(i) =>
      ReplaceSkipAt(a, b, pat, rep, i);
  }

  lemma {:induction false} ReplaceSkipAt(a: string, b: string, pat: string, rep: string, i: nat)
    requires |pat| > 0
    requires Find(b, pat) == Some(i)
    requires Find(a + b, pat) == Some(|a| + i)
    ensures Replace(a + b, pat, rep) == a + Replace(b, pat, rep)
  {
    ReplaceAtConcat(a, b, pat, rep, i);
    ReplaceAt(b, pat, rep, i);
    Reassociate(a, b[..i], rep, Replace(b[i + |pat|..], pat, rep));
  }

  lemma {:induction false} ReplaceAtConcat(a: string, b: string, pat: string, rep: string, i: nat)
    requires |pat| > 0
    requires Find(a + b, pat) == Some(|a| + i)
    ensures i + |pat| <= |b|
    ensures Replace(a + b, pat, rep) == (a + b[..i]) + rep + Replace(b[i + |pat|..], pat, rep)
  {
    var s := a + b;
    ReplaceAt(s, pat, rep, |a| + i);
    var x := s[..|a| + i];
    var y := s[|a| + i + |pat|..];
    SliceOfConcat(a, b, i, i + |pat|);
    assert x == a + b[..i];
    assert y == b[i + |pat|..];
  }

  /** `replace` at a known first occurrence. */
  lemma {:induction false} ReplaceAt(s: string, pat: string, rep: string, j: nat)
    requires |pat| > 0
    requires Find(s, pat) == Some(j)
    ensures Replace(s, pat, rep) == s[..j] + rep + Replace(s[j + |pat|..], pat, rep)
  {
  }

  lemma {:induction false} SliceOfConcat(a: string, b: string, i: nat, k: nat)
    requires i <= k <= |b|
    ensures (a + b)[..|a| + i] == a + b[..i]
    ensures (a + b)[|a| + k..] == b[k..]
  {
  }

  lemma {:induction false} Reassociate(a: string, m: string, rep: string, r: string)
    ensures (a + m) + rep + r == a + (m + rep + r)
  {
  }

  /** One step of `replace`: up to the first occurrence, then the rest. */
  lemma {:induction false} ReplaceUnfold(s: string, pat: string, rep: string)
    requires |pat| > 0
    ensures Find(s, pat).None? ==> Replace(s, pat, rep) == s
    ensures Find(s, pat).Some? ==>
      Replace(s, pat, rep) == s[..Find(s, pat).value] + rep + Replace(s[Find(s, pat).value + |pat|..], pat, rep)
  {
  }

  /** An occurrence at the front is replaced, and scanning resumes after it. */
  lemma {:induction false} ReplaceHit(b: string, pat: string, rep: string)
    requires |pat| > 0
    ensures Replace(pat + b, pat, rep) == rep + Replace(b, pat, rep)
  {
    var s := pat + b;
    assert s[..|pat|] == pat;
    assert Find(s, pat) == Some(0);
    assert s[|pat|..] == b;
  }

  /** Replacement distributes over a concatenation when no occurrence of
      `pat` straddles the seam. */
  lemma {:induction false} ReplaceAppend(a: string, b: string, pat: string, rep: string)
    requires |pat| > 0
    requires !Occurs(a, pat)
    requires forall i :: |a| - |pat| < i < |a| ==> !At(a + b, i, pat)
    ensures Replace(a + b, pat, rep) == a + Replace(b, pat, rep)
  {
    forall i | 0 <= i < |a|
      ensures !At(a + b, i, pat)
    {
      if At(a + b, i, pat) && i <= |a| - |pat| {
        assert (a + b)[i..i + |pat|] == a[i..i + |pat|];
        assert At(a, i, pat);
      }
    }
    ReplaceSkip(a, b, pat, rep);
  }

  /** An occurrence of `pat` that straddles the seam of `a + b` holds the
      characters on both sides of the seam. */
  lemma {:induction false} SeamChars(a: string, b: string, pat: string, i: int)
    requires |a| - |pat| < i < |a|
    ensures At(a + b, i, pat) ==> pat[|a| - 1 - i] == a[|a| - 1]
    ensures At(a + b, i, pat) && |b| > 0 ==> pat[|a| - i] == b[0]
  {
    if At(a + b, i, pat) {
      var s := a + b;
      assert s[i..i + |pat|][|a| - 1 - i] == s[|a| - 1];
      if |b| > 0 {
        assert s[i..i + |pat|][|a| - i] == s[|a|];
      }
    }
  }

  /** An occurrence of `pat` cannot straddle the seam of `a + b` when the
      character on either side of the seam is not in `pat`. */
  lemma {:induction false} NoStraddle(a: string, b: string, pat: string)
    requires (|a| > 0 && a[|a| - 1] !in pat) || (|b| > 0 && b[0] !in pat)
    ensures forall i :: |a| - |pat| < i < |a| ==> !At(a + b, i, pat)
  {
    forall i | |a| - |pat| < i < |a|
      ensures !At(a + b, i, pat)
    {
      SeamChars(a, b, pat, i);
    }
  }

  /** Two texts free of `pat`, joined at a seam it cannot straddle. */
  lemma {:induction false} NotOccursJoin(a: string, b: string, pat: string)
    requires !Occurs(a, pat) && !Occurs(b, pat)
    requires (|a| > 0 && a[|a| - 1] !in pat) || (|b| > 0 && b[0] !in pat)
    ensures !Occurs(a + b, pat)
  {
    NoStraddle(a, b, pat);
    AtShift(a, b, pat);
    forall i | 0 <= i <= |a + b| - |pat|
      ensures !At(a + b, i, pat)
    {
      if i + |pat| <= |a| {
        assert (a + b)[i..i + |pat|] == a[i..i + |pat|];
        assert !At(a, i, pat);
      } else if i >= |a| {
        assert !At(b, i - |a|, pat);
      }
    }
  }

  /** With a tail free of `pat` that no occurrence can reach into, the
      occurrences in `a + b` are those in `a`. */
  lemma {:induction false} OccurrencesBeforeTail(a: string, b: string, pat: string)
    requires !Occurs(b, pat) && |b| > 0 && b[0] !in pat
    ensures forall i :: At(a + b, i, pat) <==> At(a, i, pat)
  {
    AtShift(a, b, pat);
    forall i
      ensures At(a + b, i, pat) <==> At(a, i, pat)
    {
      if 0 <= i && i + |pat| <= |a| {
        assert (a + b)[i..i + |pat|] == a[i..i + |pat|];
      } else if 0 <= i < |a| {
        SeamChars(a, b, pat, i);
      }
    }
  }

  lemma {:induction false} FindBeforeTail(a: string, b: string, pat: string)
    requires |pat| > 0 && !Occurs(b, pat) && |b| > 0 && b[0] !in pat
    ensures Find(a + b, pat) == Find(a, pat)
  {
    OccurrencesBeforeTail(a, b, pat);
    FindSpec(a + b, pat);
    FindSpec(a, pat);
    if Find(a, pat).Some? && Find(a + b, pat).Some? {
      var i, j := Find(a, pat).value, Find(a + b, pat).value;
      assert !(j < i) && !(i < j);
    }
  }

  /** A tail free of `pat` that no occurrence can reach into passes
      through `replace` untouched. */
  lemma {:induction false} ReplaceBeforeTail(a: string, b: string, pat: string, rep: string)
    requires |pat| > 0 && !Occurs(b, pat) && |b| > 0 && b[0] !in pat
    ensures Replace(a + b, pat, rep) == Replace(a, pat, rep) + b
    decreases |a|
  {
    var s := a + b;
    FindBeforeTail(a, b, pat);
    ReplaceUnfold(s, pat, rep);
    ReplaceUnfold(a, pat, rep);
    match Find(a, pat)
    case None =>
    case Some(i) =>
      assert s[..i] == a[..i];
      assert s[i + |pat|..] == a[i + |pat|..] + b;
      ReplaceBeforeTail(a[i + |pat|..], b, pat, rep);
  }

  /** `replace` on a framed text rewrites only the middle, when head and
      tail are free of `pat` and no occurrence can cross into them. */
  lemma {:induction false} ReplaceFramed(head: string, body: string, tail: string, pat: string, rep: string)
    requires |pat| > 0
    requires !Occurs(head, pat) && |head| > 0 && head[|head| - 1] !in pat
    requires !Occurs(tail, pat) && |tail| > 0 && tail[0] !in pat
    ensures Replace(head + body + tail, pat, rep) == head + Replace(body, pat, rep) + tail
  {
    NoStraddle(head, body + tail, pat);
    assert head + body + tail == head + (body + tail);
    ReplaceAppend(head, body + tail, pat, rep);
    ReplaceBeforeTail(body, tail, pat, rep);
  }

  /** No proper suffix of `p` is also a prefix of it, so two occurrences
      of `p` can never overlap. */
  predicate OverlapFree(p: string)
  {
    forall k :: 0 < k < |p| ==> p[k..] != p[..|p| - k]
  }

  /** Text free of `pat` followed by one copy of `pat`: exactly that copy
      is replaced. */
  lemma {:induction false} ReplaceAtEnd(a: string, pat: string, rep: string)
    requires |pat| > 0
    requires OverlapFree(pat)
    requires !Occurs(a, pat)
    ensures Replace(a + pat, pat, rep) == a + rep
  {
    var s := a + pat;
    forall i | |a| - |pat| < i < |a|
      ensures !At(s, i, pat)
    {
      if 0 <= i {
        SelfOverlapAt(a, pat, i);
      }
    }
    ReplaceAppend(a, pat, pat, rep);
    ReplaceHit("", pat, rep);
    assert pat + "" == pat;
    assert Replace("", pat, rep) == "";
  }

  /** An occurrence of `pat` in `a + pat` that starts inside `a` but ends
      inside the appended copy is a self-overlap of `pat`. */
  lemma {:induction false} SelfOverlapAt(a: string, pat: string, i: int)
    requires |a| - |pat| < i < |a| && 0 <= i
    ensures At(a + pat, i, pat) ==> pat[|a| - i..] == pat[..|pat| - (|a| - i)]
  {
    if At(a + pat, i, pat) {
      var s := a + pat;
      var k := |a| - i;
      var u := pat[k..];
      var v := pat[..|pat| - k];
      assert forall j :: 0 <= j < |u| ==> u[j] == s[|a| + j] == v[j];
    }
  }

  /** Number of occurrences of the character `c` in `s`. */
  function Tally(s: string, c: char): (n: nat)
    ensures n <= |s|
  {
    if |s| == 0 then 0 else (if s[0] == c then 1 else 0) + Tally(s[1..], c)
  }

  lemma {:induction false} TallyConcat(a: string, b: string, c: char)
    ensures Tally(a + b, c) == Tally(a, c) + Tally(b, c)
  {
    if |a| > 0 {
      assert (a + b)[1..] == a[1..] + b;
      TallyConcat(a[1..], b, c);
    } else {
      assert a + b == b;
    }
  }

  /** When `pat` and `rep` hold the same surplus of `x` over `y`, replacing
      one by the other keeps the surplus of the whole text. */
  lemma {:induction false} ReplaceKeepsSurplus(s: string, pat: string, rep: string, x: char, y: char)
    requires |pat| > 0
    requires Tally(pat, x) - Tally(pat, y) == Tally(rep, x) - Tally(rep, y)
    ensures Tally(Replace(s, pat, rep), x) - Tally(Replace(s, pat, rep), y) == Tally(s, x) - Tally(s, y)
    decreases |s|
  {
    FindFound(s, pat);
    match Find(s, pat)
    case None =>
    case Some(i) =>
      var head := s[..i];
      var rest := s[i + |pat|..];
      ReplaceKeepsSurplus(rest, pat, rep, x, y);
      var r := Replace(rest, pat, rep);
      assert s == head + pat + rest;
      assert Replace(s, pat, rep) == head + rep + r;
      TallyConcat(head + pat, rest, x);
      TallyConcat(head + pat, rest, y);
      TallyConcat(head, pat, x);
      TallyConcat(head, pat, y);
      TallyConcat(head + rep, r, x);
      TallyConcat(head + rep, r, y);
      TallyConcat(head, rep, x);
      TallyConcat(head, rep, y);
  }

  /* ----- str.splitlines(True) ----- */

  /** A complete line: a terminating newline and no other. */
  predicate IsLine(l: string)
  {
    |l| > 0 && l[|l| - 1] == '\n' && forall i :: 0 <= i < |l| - 1 ==> l[i] != '\n'
  }

  /** Length of the first line of `s`, newline included. */
  function LineLen(s: string): (n: nat)
    requires |s| > 0
    ensures 0 < n <= |s|
    decreases |s|
  {
    if s[0] == '\n' || |s| == 1 then 1 else 1 + LineLen(s[1..])
  }

  /** `s.splitlines(True)` for text whose only line break is `'\n'`: the
      lines keep their terminators, and a final unterminated remainder is a
      line of its own. */
  function Lines(s: string): (r: seq<string>)
    ensures Concat(r) == s
    decreases |s|
  {
    if |s| == 0 then []
    else
      var n := LineLen(s);
      assert s == s[..n] + s[n..];
      [s[..n]] + Lines(s[n..])
  }

  lemma {:induction false} LineLenOfLine(l: string, rest: string)
    requires IsLine(l)
    ensures LineLen(l + rest) == |l|
    decreases |l|
  {
    if |l| > 1 {
      assert l[0] != '\n';
      assert IsLine(l[1..]);
      assert (l + rest)[1..] == l[1..] + rest;
      LineLenOfLine(l[1..], rest);
    }
  }

  /** Splitting a concatenation of complete lines into lines gives back
      exactly those lines. */
  lemma {:induction false} LinesOfConcat(ls: seq<string>)
    requires forall i :: 0 <= i < |ls| ==> IsLine(ls[i])
    ensures Lines(Concat(ls)) == ls
  {
    if |ls| > 0 {
      var s := Concat(ls);
      LineLenOfLine(ls[0], Concat(ls[1..]));
      assert s[..|ls[0]|] == ls[0];
      assert s[|ls[0]|..] == Concat(ls[1..]);
      LinesOfConcat(ls[1..]);
    }
  }

  /** Text without a newline, followed by one, is a line. */
  lemma {:induction false} LineOf(a: string)
    requires '\n' !in a
    ensures IsLine(a + "\n")
  {
    forall i | 0 <= i < |a|
      ensures (a + "\n")[i] != '\n'
    {
      assert (a + "\n")[i] == a[i];
    }
  }

  /** Text without a newline in either part has none in the whole. */
  lemma {:induction false} NoNewline(a: string, b: string)
    requires '\n' !in a && '\n' !in b
    ensures '\n' !in a + b
  {
    assert forall c :: c in a + b ==> c in a || c in b;
  }

  lemma {:induction false} ConcatTwo(a: string, b: string)
    ensures Concat([a, b]) == a + b
  {
    assert [a, b][1..] == [b] && [b][1..] == [];
    assert Concat([b]) == b + "";
  }

  /** Five runs of complete lines, concatenated, read back as the same
      runs. */
  lemma {:induction false} FramedLines(a: seq<string>, b: seq<string>, c: seq<string>, d: seq<string>, e: seq<string>)
    requires forall k :: 0 <= k < |a| ==> IsLine(a[k])
    requires forall k :: 0 <= k < |b| ==> IsLine(b[k])
    requires forall k :: 0 <= k < |c| ==> IsLine(c[k])
    requires forall k :: 0 <= k < |d| ==> IsLine(d[k])
    requires forall k :: 0 <= k < |e| ==> IsLine(e[k])
    ensures Lines(Concat(a) + Concat(b) + Concat(c) + Concat(d) + Concat(e)) == a + b + c + d + e
  {
    var all := a + b + c + d + e;
    ConcatAppend(a, b);
    ConcatAppend(a + b, c);
    ConcatAppend(a + b + c, d);
    ConcatAppend(a + b + c + d, e);
    forall k | 0 <= k < |all|
      ensures IsLine(all[k])
    {
      if k < |a| {
        assert all[k] == a[k];
      } else if k < |a| + |b| {
        assert all[k] == b[k - |a|];
      } else if k < |a| + |b| + |c| {
        assert all[k] == c[k - |a| - |b|];
      } else if k < |a| + |b| + |c| + |d| {
        assert all[k] == d[k - |a| - |b| - |c|];
      } else {
        assert all[k] == e[k - |a| - |b| - |c| - |d|];
      }
    }
    LinesOfConcat(all);
  }

  /** A text framed by a head and a tail starts with the one and ends with
      the other. */
  lemma {:induction false} Framed(head: string, body: string, tail: string)
    ensures StartsWith(head + body + tail, head) && EndsWith(head + body + tail, tail)
    ensures (head + body + tail)[|head|..|head + body + tail| - |tail|] == body
  {
    assert (head + body + tail)[..|head|] == head;
    assert (head + body + tail)[|head + body|..] == tail;
  }

  /** `head + mid + tail`, read back as its three parts. */
  function Frame(head: string, mid: string, tail: string): (r: string)
    ensures StartsWith(r, head) && EndsWith(r, tail)
    ensures |head| + |tail| <= |r| && r[|head|..|r| - |tail|] == mid
  {
    Framed(head, mid, tail);
    head + mid + tail
  }

  /* ----- Stripping, case and suffixes ----- */

  /** Characters for which `str.isspace()` holds, within ASCII. */
  predicate IsSpace(c: char)
  {
    c == ' ' || c == '\t' || c == '\n' || c == '\r' || c == '\U{0B}' || c == '\U{0C}'
    || ('\U{1C}' <= c <= '\U{1F}')
  }

  /** `s.rstrip(chars)` for a set of characters. */
  function RStrip(s: string, chars: set<char>): (r: string)
    ensures |r| <= |s| && r == s[..|r|]
    ensures |r| > 0 ==> r[|r| - 1] !in chars
    ensures forall i :: |r| <= i < |s| ==> s[i] in chars
  {
    if |s| > 0 && s[|s| - 1] in chars then RStrip(s[..|s| - 1], chars) else s
  }

  /** `r` is `s` with some whitespace cut from each end. */
  predicate TrimOf(s: string, r: string)
  {
    exists a, b :: 0 <= a <= b <= |s| && r == s[a..b]
      && (forall k :: 0 <= k < a ==> IsSpace(s[k]))
      && (forall k :: b <= k < |s| ==> IsSpace(s[k]))
  }

  /** `s.strip()` with no argument: leading and trailing whitespace
      removed. */
  function Strip(s: string): (r: string)
    ensures |r| <= |s|
    ensures |r| > 0 ==> !IsSpace(r[0]) && !IsSpace(r[|r| - 1])
    ensures TrimOf(s, r)
  {
    if |s| > 0 && IsSpace(s[0]) then
      var r := Strip(s[1..]);
      TrimAfterSpace(s, r);
      r
    else if |s| > 0 && IsSpace(s[|s| - 1]) then
      var r := Strip(s[..|s| - 1]);
      TrimBeforeSpace(s, r);
      r
    else
      assert s == s[0..|s|];
      s
  }

  /** A trim of the text after a leading space is a trim of the whole. */
  lemma {:induction false} TrimAfterSpace(s: string, r: string)
    requires |s| > 0 && IsSpace(s[0]) && TrimOf(s[1..], r)
    ensures TrimOf(s, r)
  {
    var a, b :| 0 <= a <= b <= |s[1..]| && r == s[1..][a..b]
      && (forall k :: 0 <= k < a ==> IsSpace(s[1..][k]))
      && (forall k :: b <= k < |s[1..]| ==> IsSpace(s[1..][k]));
    assert r == s[a + 1..b + 1];
    forall k | 0 <= k < a + 1
      ensures IsSpace(s[k])
    {
      if k > 0 {
        assert s[k] == s[1..][k - 1];
      }
    }
    forall k | b + 1 <= k < |s|
      ensures IsSpace(s[k])
    {
      assert s[k] == s[1..][k - 1];
    }
  }

  /** A trim of the text before a trailing space is a trim of the whole. */
  lemma {:induction false} TrimBeforeSpace(s: string, r: string)
    requires |s| > 0 && IsSpace(s[|s| - 1]) && TrimOf(s[..|s| - 1], r)
    ensures TrimOf(s, r)
  {
    var t := s[..|s| - 1];
    var a, b :| 0 <= a <= b <= |t| && r == t[a..b]
      && (forall k :: 0 <= k < a ==> IsSpace(t[k]))
      && (forall k :: b <= k < |t| ==> IsSpace(t[k]));
    assert r == s[a..b];
    forall k | b <= k < |s|
      ensures IsSpace(s[k])
    {
      if k < |t| {
        assert s[k] == t[k];
      }
    }
  }

  /** Text that neither starts nor ends with whitespace is its own strip. */
  lemma {:induction false} StripClean(s: string)
    requires |s| > 0 ==> !IsSpace(s[0]) && !IsSpace(s[|s| - 1])
    ensures Strip(s) == s
  {
  }

  /** `c.upper()` for ASCII: lower-case letters become upper-case. */
  function UpperChar(c: char): (r: char)
    ensures !('a' <= r <= 'z')
    ensures !('a' <= c <= 'z') ==> r == c
  {
    if 'a' <= c <= 'z' then (c as int - 32) as char else c
  }

  /** `s.upper()` for ASCII text. */
  function Upper(s: string): (r: string)
    ensures |r| == |s|
    ensures forall i :: 0 <= i < |s| ==> r[i] == UpperChar(s[i])
  {
    if |s| == 0 then "" else [UpperChar(s[0])] + Upper(s[1..])
  }

  /** `s.removesuffix(suffix)`. */
  function RemoveSuffix(s: string, suffix: string): (r: string)
    ensures EndsWith(s, suffix) && |suffix| > 0 ==> r + suffix == s
    ensures !EndsWith(s, suffix) || |suffix| == 0 ==> r == s
  {
    if |suffix| > 0 && EndsWith(s, suffix) then s[..|s| - |suffix|] else s
  }

  /** `"\t" * n`. */
  function Tabs(n: nat): (r: string)
    ensures |r| == n
    ensures forall i :: 0 <= i < n ==> r[i] == '\t'
  {
    if n == 0 then "" else "\t" + Tabs(n - 1)
  }

  /** `"".join(p + sep for p in ps)`: every piece followed by `sep`. */
  function Terminated(ps: seq<string>, sep: string): string
  {
    if |ps| == 0 then "" else ps[0] + sep + Terminated(ps[1..], sep)
  }

  /** Appending a separator after every piece and stripping the separator's
      characters from the end gives the pieces joined by the separator, as
      long as the last piece does not itself end in one of those
      characters. */
  lemma {:induction false} StripTerminated(head: string, ps: seq<string>, sep: string, chars: set<char>)
    requires |ps| >= 1
    requires forall c :: c in sep ==> c in chars
    requires |ps[|ps| - 1]| > 0 && ps[|ps| - 1][|ps[|ps| - 1]| - 1] !in chars
    ensures RStrip(head + Terminated(ps, sep), chars) == head + Join(ps, sep)
  {
    TerminatedIsJoin(ps, sep);
    var j := Join(ps, sep);
    JoinEndsWithLast(ps, sep);
    StripSep(head + j, sep, chars);
    assert head + Terminated(ps, sep) == (head + j) + sep;
  }

  lemma {:induction false} TerminatedIsJoin(ps: seq<string>, sep: string)
    requires |ps| >= 1
    ensures Terminated(ps, sep) == Join(ps, sep) + sep
  {
    if |ps| > 1 {
      TerminatedIsJoin(ps[1..], sep);
    }
  }

  lemma {:induction false} JoinEndsWithLast(ps: seq<string>, sep: string)
    requires |ps| >= 1
    ensures EndsWith(Join(ps, sep), ps[|ps| - 1])
  {
    if |ps| > 1 {
      JoinEndsWithLast(ps[1..], sep);
      assert ps[1..][|ps| - 2] == ps[|ps| - 1];
    }
  }

  lemma {:induction false} StripSep(x: string, sep: string, chars: set<char>)
    requires forall c :: c in sep ==> c in chars
    requires |x| > 0 && x[|x| - 1] !in chars
    ensures RStrip(x + sep, chars) == x
    decreases |sep|
  {
    if |sep| > 0 {
      var y := x + sep;
      assert y[|y| - 1] == sep[|sep| - 1];
      assert y[..|y| - 1] == x + sep[..|sep| - 1];
      assert forall c :: c in sep[..|sep| - 1] ==> c in sep;
      StripSep(x, sep[..|sep| - 1], chars);
    } else {
      assert x + sep == x;
    }
  }
}
