/** The three `re.sub` rewrites the external transition applies to bag
    expressions. Each pattern is `\b([a-zA-Z_][a-zA-Z0-9_]*)` followed by a
    fixed literal. The scan goes left to right, a match takes the whole
    identifier (the `*` is greedy and nothing after it can match a word
    character), and scanning resumes after the literal. */
module BagRewrite {
  import opened Text

  /** The characters `\w` matches and `\b` separates, within ASCII. */
  predicate WordChar(c: char)
  {
    'a' <= c <= 'z' || 'A' <= c <= 'Z' || '0' <= c <= '9' || c == '_'
  }

  predicate IdentStart(c: char)
  {
    'a' <= c <= 'z' || 'A' <= c <= 'Z' || c == '_'
  }

  /** An identifier as the pattern's group captures it. */
  predicate IsIdent(x: string)
  {
    |x| > 0 && IdentStart(x[0]) && forall k :: 0 <= k < |x| ==> WordChar(x[k])
  }

  /** End of the run of word characters that starts at `i`. */
  function WordEnd(s: string, i: nat): (e: nat)
    requires i <= |s|
    ensures i <= e <= |s|
    ensures forall k :: i <= k < e ==> WordChar(s[k])
    ensures e < |s| ==> !WordChar(s[e])
    decreases |s| - i
  {
    if i < |s| && WordChar(s[i]) then WordEnd(s, i + 1) else i
  }

  datatype Rule =
    | NonEmpty  // `X.bagSize() != 0` becomes `!X->empty()`
    | Empty     // `X.bagSize() == 0` becomes `X->empty()`
    | Last      // `X.bag(-1)` becomes `X->getBag().back()`

  /** The literal that follows the identifier in the rule's pattern. */
  function Literal(rule: Rule): string
  {
    match rule
    case NonEmpty => ".bagSize() != 0"
    case Empty => ".bagSize() == 0"
    case Last => ".bag(-1)"
  }

  /** The rule's replacement for a captured identifier. */
  function Rewrite(rule: Rule, x: string): string
  {
    match rule
    case NonEmpty => "!" + x + "->empty()"
    case Empty => x + "->empty()"
    case Last => x + "->getBag().back()"
  }

  /** The pattern matches at `i`: a word boundary, an identifier start, and
      the literal right after the identifier's last character. */
  predicate MatchAt(s: string, i: nat, lit: string)
    requires i <= |s|
  {
    && i < |s|
    && IdentStart(s[i])
    && (i == 0 || !WordChar(s[i - 1]))
    && At(s, WordEnd(s, i), lit)
  }

  /** `re.sub` on `s[i..]` of the pattern with literal `lit`, each match
      replaced by `rep` of its identifier; boundaries are judged in all of
      `s`. */
  function SubFrom(s: string, i: nat, lit: string, rep: string -> string): string
    requires i <= |s|
    decreases |s| - i
  {
    if i == |s| then ""
    else if MatchAt(s, i, lit) then
      var e := WordEnd(s, i);
      rep(s[i..e]) + SubFrom(s, e + |lit|, lit, rep)
    else [s[i]] + SubFrom(s, i + 1, lit, rep)
  }

  /** `re.sub(pattern, replacement, s)` for one of the three rules. */
  function Sub(s: string, rule: Rule): string
  {
    SubFrom(s, 0, Literal(rule), x => Rewrite(rule, x))
  }

  /** Where the pattern matches nowhere from `i` on, the rest of the text is
      copied unchanged. */
  lemma {:induction false} SubFromNoMatch(s: string, i: nat, lit: string, rep: string -> string)
    requires i <= |s|
    requires forall j :: i <= j < |s| ==> !MatchAt(s, j, lit)
    ensures SubFrom(s, i, lit, rep) == s[i..]
    decreases |s| - i
  {
    if i < |s| {
      SubFromNoMatch(s, i + 1, lit, rep);
      assert s[i..] == [s[i]] + s[i + 1..];
    }
  }

  /** Text that does not contain the rule's literal is left as it is. */
  lemma {:induction false} SubWithoutLiteral(s: string, rule: Rule)
    requires !Occurs(s, Literal(rule))
    ensures Sub(s, rule) == s
  {
    var lit := Literal(rule);
    forall j | 0 <= j < |s|
      ensures !MatchAt(s, j, lit)
    {
      AtOccurs(s, WordEnd(s, j), lit);
    }
    SubFromNoMatch(s, 0, lit, x => Rewrite(rule, x));
  }

  lemma {:induction false} AtOccurs(s: string, i: nat, p: string)
    ensures At(s, i, p) ==> Occurs(s, p)
  {
  }

  /** Where the pattern matches nowhere in `[i, k)`, that stretch is copied
      and the scan goes on at `k`. */
  lemma {:induction false} SubFromSkip(s: string, i: nat, k: nat, lit: string, rep: string -> string)
    requires i <= k <= |s|
    requires forall j :: i <= j < k ==> !MatchAt(s, j, lit)
    ensures SubFrom(s, i, lit, rep) == s[i..k] + SubFrom(s, k, lit, rep)
  {
    var scan := (j: nat) => if j <= |s| then SubFrom(s, j, lit, rep) else "";
    forall j | i <= j < k
      ensures scan(j) == [s[j]] + scan(j + 1)
    {
      SubFromCopies(s, j, lit, rep);
    }
    CopiedStretch(s, i, k, scan);
  }

  /** Where the pattern does not match, one character is copied. */
  lemma {:induction false} SubFromCopies(s: string, i: nat, lit: string, rep: string -> string)
    requires i < |s| && !MatchAt(s, i, lit)
    ensures SubFrom(s, i, lit, rep) == [s[i]] + SubFrom(s, i + 1, lit, rep)
  {
  }

  /** A scan that copies every character of `[i, k)` yields that stretch
      followed by what it yields from `k`. */
  lemma {:induction false} CopiedStretch(s: string, i: nat, k: nat, scan: nat -> string)
    requires i <= k <= |s|
    requires forall j :: i <= j < k ==> scan(j) == [s[j]] + scan(j + 1)
    ensures scan(i) == s[i..k] + scan(k)
    decreases k - i
  {
    if i < k {
      CopiedStretch(s, i + 1, k, scan);
      assert s[i..k] == [s[i]] + s[i + 1..k];
    }
  }

  /** An identifier standing on its own in front of the literal is
      rewritten, and the text around it is kept, provided the pattern
      matches nowhere else in it. */
  lemma {:induction false} SubOne(p: string, x: string, q: string, rule: Rule)
    requires IsIdent(x)
    requires |p| == 0 || !WordChar(p[|p| - 1])
    requires forall j :: 0 <= j < |p| ==> !MatchAt(p + x + Literal(rule) + q, j, Literal(rule))
    requires forall j :: |p| + |x| + |Literal(rule)| <= j < |p + x + Literal(rule) + q| ==> !MatchAt(p + x + Literal(rule) + q, j, Literal(rule))
    ensures Sub(p + x + Literal(rule) + q, rule) == p + Rewrite(rule, x) + q
  {
    var lit := Literal(rule);
    assert lit[0] == '.';
    SubOneOf(p, x, lit, q, x => Rewrite(rule, x));
  }

  lemma {:induction false} SubOneOf(p: string, x: string, lit: string, q: string, rep: string -> string)
    requires IsIdent(x)
    requires |lit| > 0 && lit[0] == '.'
    requires |p| == 0 || !WordChar(p[|p| - 1])
    requires forall j :: 0 <= j < |p| ==> !MatchAt(p + x + lit + q, j, lit)
    requires forall j :: |p| + |x| + |lit| <= j < |p + x + lit + q| ==> !MatchAt(p + x + lit + q, j, lit)
    ensures SubFrom(p + x + lit + q, 0, lit, rep) == p + rep(x) + q
  {
    var s := p + x + lit + q;
    Pieces(p, x, lit, q);
    WordEndOf(p, x, lit + q);
    assert s == p + x + (lit + q);
    assert MatchAt(s, |p|, lit);
    SubAround(s, |p|, lit, rep);
  }

  /** A match with no other match before or after it. */
  lemma {:induction false} SubAround(s: string, a: nat, lit: string, rep: string -> string)
    requires a <= |s| && MatchAt(s, a, lit)
    requires forall j :: 0 <= j < a ==> !MatchAt(s, j, lit)
    requires forall j :: WordEnd(s, a) + |lit| <= j < |s| ==> !MatchAt(s, j, lit)
    ensures WordEnd(s, a) + |lit| <= |s|
    ensures SubFrom(s, 0, lit, rep) == s[..a] + rep(s[a..WordEnd(s, a)]) + s[WordEnd(s, a) + |lit|..]
  {
    var e := WordEnd(s, a);
    var t := e + |lit|;
    SubFromHit(s, a, lit, rep);
    SubFromSkip(s, 0, a, lit, rep);
    assert s[0..a] == s[..a];
    SubFromNoMatch(s, t, lit, rep);
  }

  lemma {:induction false} SubFromHit(s: string, a: nat, lit: string, rep: string -> string)
    requires a <= |s| && MatchAt(s, a, lit)
    ensures WordEnd(s, a) + |lit| <= |s|
    ensures SubFrom(s, a, lit, rep) == rep(s[a..WordEnd(s, a)]) + SubFrom(s, WordEnd(s, a) + |lit|, lit, rep)
  {
  }

  lemma {:induction false} Pieces(p: string, x: string, l: string, q: string)
    ensures var s := p + x + l + q;
      && s[..|p|] == p
      && s[|p|..|p| + |x|] == x
      && s[|p| + |x|..|p| + |x| + |l|] == l
      && s[|p| + |x| + |l|..] == q
  {
  }

  /** The run of word characters starting where an identifier starts ends
      where it ends, when what follows starts with the literal. */
  lemma {:induction false} WordEndOf(p: string, x: string, rest: string)
    requires IsIdent(x)
    requires |rest| > 0 && rest[0] == '.'
    ensures WordEnd(p + x + rest, |p|) == |p| + |x|
  {
    var s := p + x + rest;
    WordEndRun(s, |p|, |p| + |x|);
  }

  lemma {:induction false} WordEndRun(s: string, i: nat, e: nat)
    requires i <= e < |s|
    requires forall k :: i <= k < e ==> WordChar(s[k])
    requires !WordChar(s[e])
    ensures WordEnd(s, i) == e
    decreases e - i
  {
    if i < e {
      WordEndRun(s, i + 1, e);
    }
  }

  /* ----- A line with one bag expression ----- */

  /** Every literal starts with `.bag` and holds no other `.`. */
  lemma {:induction false} LiteralShape(rule: Rule)
    ensures StartsWith(Literal(rule), ".bag") && '.' !in Literal(rule)[1..]
  {
  }

  /** A `.bag` in `pre + x + lit + post` that is neither in `pre + x` nor
      in `post` can only be the literal's own. */
  lemma {:induction false} OnlyBagAt(pre: string, x: string, lit: string, post: string)
    requires IsIdent(x)
    requires StartsWith(lit, ".bag") && '.' !in lit[1..]
    requires !Occurs(pre + x, ".bag") && !Occurs(post, ".bag")
    ensures forall e :: At(pre + x + lit + post, e, ".bag") ==> e == |pre| + |x|
  {
    var s := pre + x + lit + post;
    var m := |pre| + |x|;
    Pieces(pre, x, lit, post);
    forall e | 0 <= e && e + 4 <= |s|
      ensures At(s, e, ".bag") ==> e == m
    {
      var w := s[e..e + 4];
      if e + 4 <= m {
        assert w == (pre + x)[e..e + 4];
        assert !At(pre + x, e, ".bag");
      } else if e < m {
        assert s[m] == lit[0] == '.';
        assert w[m - e] == s[m];
      } else if m < e < m + |lit| {
        assert s[e] == lit[e - m] == lit[1..][e - m - 1];
        assert w[0] == s[e];
      } else if e >= m + |lit| {
        assert w == post[e - m - |lit|..e - m - |lit| + 4];
        assert !At(post, e - m - |lit|, ".bag");
      }
    }
  }

  /** In such a line a pattern whose literal starts with `.bag` can match
      only at the identifier in front of the literal. */
  lemma {:induction false} MatchesOnlyAt(pre: string, x: string, lit: string, post: string, other: string)
    requires IsIdent(x) && (|pre| == 0 || !WordChar(pre[|pre| - 1]))
    requires StartsWith(lit, ".bag") && '.' !in lit[1..]
    requires !Occurs(pre + x, ".bag") && !Occurs(post, ".bag")
    requires StartsWith(other, ".bag")
    ensures forall j :: 0 <= j <= |pre + x + lit + post| ==>
      (MatchAt(pre + x + lit + post, j, other) ==> j == |pre|)
  {
    var s := pre + x + lit + post;
    var m := |pre| + |x|;
    OnlyBagAt(pre, x, lit, post);
    Pieces(pre, x, lit, post);
    forall j | 0 <= j <= |s|
      ensures MatchAt(s, j, other) ==> j == |pre|
    {
      var e := WordEnd(s, j);
      AtPrefix(s, e, other, ".bag");
      if j < |pre| {
        assert s[|pre| - 1] == pre[|pre| - 1];
      } else if |pre| < j < m {
        assert s[j - 1] == x[j - 1 - |pre|];
      } else if j == m && j < |s| {
        assert s[j] == lit[0];
      }
    }
  }

  lemma {:induction false} AtPrefix(s: string, e: int, p: string, q: string)
    requires StartsWith(p, q)
    ensures At(s, e, p) ==> At(s, e, q)
  {
    if At(s, e, p) {
      assert s[e..e + |q|] == s[e..e + |p|][..|q|];
    }
  }

  /** The rule's own pattern rewrites the one identifier in front of its
      literal and keeps the rest of the line. */
  lemma {:induction false} SubSingle(pre: string, x: string, post: string, rule: Rule)
    requires IsIdent(x) && (|pre| == 0 || !WordChar(pre[|pre| - 1]))
    requires !Occurs(pre + x, ".bag") && !Occurs(post, ".bag")
    ensures Sub(pre + x + Literal(rule) + post, rule) == pre + Rewrite(rule, x) + post
  {
    var lit := Literal(rule);
    LiteralShape(rule);
    MatchesOnlyAt(pre, x, lit, post, lit);
    SubOne(pre, x, post, rule);
  }

  /** Another rule whose literal has the same length matches nowhere in the
      line, so it leaves the line as it is. */
  lemma {:induction false} SubOtherRule(pre: string, x: string, post: string, rule: Rule, other: Rule)
    requires IsIdent(x) && (|pre| == 0 || !WordChar(pre[|pre| - 1]))
    requires !Occurs(pre + x, ".bag") && !Occurs(post, ".bag")
    requires Literal(other) != Literal(rule) && |Literal(other)| == |Literal(rule)|
    ensures Sub(pre + x + Literal(rule) + post, other) == pre + x + Literal(rule) + post
  {
    var lit := Literal(rule);
    var s := pre + x + lit + post;
    LiteralShape(rule);
    LiteralShape(other);
    MatchesOnlyAt(pre, x, lit, post, Literal(other));
    WordEndOf(pre, x, lit + post);
    assert s == pre + x + (lit + post);
    Pieces(pre, x, lit, post);
    forall j | 0 <= j < |s|
      ensures !MatchAt(s, j, Literal(other))
    {
      if j == |pre| {
        assert s[|pre| + |x|..|pre| + |x| + |lit|] == lit;
      }
    }
    SubFromNoMatch(s, 0, Literal(other), y => Rewrite(other, y));
    assert s[0..] == s;
  }
}
