/** The DEVS functions of an atomic model's class
    (`generate_atomic_model_hpp.py`): the internal transition, the external
    transition with its bag rewrites, the output function with its message
    rewrite, and the time advance. */
module AtomicFunctions {
  import opened Outcome
  import opened Json
  import opened Text
  import opened Helper
  import opened SimpleStatements
  import opened BagRewrite
  import opened AtomicClass

  /* ----- Branch lines ----- */

  /** The number of tabs a line starts with. */
  function TabRun(s: string): (k: nat)
    ensures k <= |s|
    ensures forall i :: 0 <= i < k ==> s[i] == '\t'
    ensures k < |s| ==> s[k] != '\t'
  {
    if |s| > 0 && s[0] == '\t' then 1 + TabRun(s[1..]) else 0
  }

  /** `line.lstrip('\t')`. */
  function LStripTabs(s: string): (r: string)
    ensures EndsWith(s, r)
    ensures |r| > 0 ==> r[0] != '\t'
    ensures forall i :: 0 <= i < |s| - |r| ==> s[i] == '\t'
  {
    s[TabRun(s)..]
  }

  lemma {:induction false} LStripTabsOf(n: nat, w: string)
    requires |w| > 0 && w[0] != '\t'
    ensures LStripTabs(Tabs(n) + w) == w
  {
    var s := Tabs(n) + w;
    TabRunOf(s, n);
    assert s[n..] == w;
  }

  lemma {:induction false} TabRunOf(s: string, n: nat)
    requires n < |s| && s[n] != '\t'
    requires forall i :: 0 <= i < n ==> s[i] == '\t'
    ensures TabRun(s) == n
    decreases n
  {
    if n > 0 {
      TabRunOf(s[1..], n - 1);
    }
  }

  /** What a branch line starts with once its tabs are stripped. */
  predicate BranchStart(t: string)
  {
    StartsWith(t, "if") || StartsWith(t, "else if") || StartsWith(t, "else") || StartsWith(t, "{") || StartsWith(t, "}")
  }

  /** A line that opens, continues or closes a branch: after its tabs it
      starts with `if`, `else if`, `else`, `{` or `}`. */
  predicate IsBranchLine(line: string)
  {
    BranchStart(LStripTabs(line))
  }

  /** A word followed by a space starts with a prefix without spaces only
      when the word does. */
  lemma {:induction false} WordThenSpace(a: string, b: string, p: string)
    requires ' ' !in p && |b| > 0 && b[0] == ' '
    ensures StartsWith(a + b, p) ==> StartsWith(a, p)
  {
    CharAfter(a, b, p);
    if StartsWith(a + b, p) && |p| <= |a| {
      assert (a + b)[..|p|] == a[..|p|];
    }
  }

  lemma {:induction false} CharAfter(a: string, b: string, p: string)
    requires |b| > 0
    ensures StartsWith(a + b, p) && |a| < |p| ==> p[|a|] == b[0]
  {
    if StartsWith(a + b, p) && |a| < |p| {
      assert (a + b)[|a|] == b[0];
    }
  }

  lemma {:induction false} StartsWithLonger(s: string, p: string, q: string)
    ensures StartsWith(s, p + q) ==> StartsWith(s, p)
  {
    if StartsWith(s, p + q) {
      assert s[..|p|] == (p + q)[..|p|];
    }
  }

  /** An indented statement whose target is an identifier not spelled
      like a branch keyword is not a branch line. */
  lemma {:induction false} StatementIsNotBranch(n: nat, target: string, rest: string)
    requires IsIdent(target) && !StartsWith(target, "if") && !StartsWith(target, "else")
    requires |rest| > 0 && rest[0] == ' '
    ensures !IsBranchLine(Tabs(n) + target + rest)
  {
    var w := target + rest;
    assert Tabs(n) + target + rest == Tabs(n) + w;
    assert w[0] == target[0];
    LStripTabsOf(n, w);
    WordThenSpace(target, rest, "if");
    WordThenSpace(target, rest, "else");
    StartsWithLonger(w, "else", " if");
    assert "else" + " if" == "else if";
  }

  /** An indented line whose text starts with `if` or `}` is a branch
      line. */
  lemma {:induction false} BranchLineOf(n: nat, h: string, rest: string)
    requires |h| > 0 && h[0] != '\t' && (StartsWith(h, "if") || StartsWith(h, "}"))
    ensures IsBranchLine(Tabs(n) + h + rest)
  {
    assert Tabs(n) + h + rest == Tabs(n) + (h + rest);
    LStripTabsOf(n, h + rest);
    assert (h + rest)[..|h|] == h;
  }

  /** Characters outside identifiers and tabs. */
  lemma {:induction false} IdentAvoids(x: string, c: char)
    requires IsIdent(x) && !WordChar(c)
    ensures c !in x
  {
  }

  lemma {:induction false} TabsAvoid(n: nat, c: char)
    requires c != '\t'
    ensures c !in Tabs(n)
  {
  }

  lemma {:induction false} AvoidsConcat(a: string, b: string, c: char)
    requires c !in a && c !in b
    ensures c !in a + b
  {
  }

  /* ----- generate_internal_transition ----- */

  function InternalHead(stateName: string): string
  {
    InternalOpen + stateName + InternalClose
  }

  /** `generate_internal_transition`: the conditional text of `delta_int`
      with the infinity rewrite; a missing text cannot be concatenated.
      For a state name that cannot close a call or a statement, the
      rewrite touches the tree's text only. */
  function InternalTransition(stateName: string, deltaInt: Value, names: seq<string>): (r: Result<string>)
    ensures r.Ok? <==> BuildConditionals(deltaInt, names).Ok? && BuildConditionals(deltaInt, names).value.Some?
    ensures r.Ok? && ')' !in stateName && ';' !in stateName ==>
      r.value == InternalHead(stateName) + ReplaceInf(BuildConditionals(deltaInt, names).value.value) + CloseMember + Blank
  {
    var body :- BuildConditionals(deltaInt, names);
    if body.None? then Err(TypeError("can only concatenate str (not \"NoneType\") to str"))
    else
      InternalFramed(stateName, body.value);
      Ok(ReplaceInf(InternalHead(stateName) + body.value + CloseMember + Blank))
  }

  /** The signature and the closing brace hold no spelling of infinity,
      so only the tree's text is rewritten. */
  lemma {:induction false} InternalFramed(stateName: string, body: string)
    ensures ')' !in stateName && ';' !in stateName ==>
      ReplaceInf(InternalHead(stateName) + body + CloseMember + Blank) == InternalHead(stateName) + ReplaceInf(body) + CloseMember + Blank
  {
    if ')' !in stateName && ';' !in stateName {
      var head := InternalHead(stateName);
      var tail := CloseMember + Blank;
      InternalHeadFree(stateName);
      assert tail == "\t}\n\n";
      assert tail[1] !in InfInitialiser && tail[1] !in InfStatement;
      NotOccursByChar(tail, InfInitialiser, 1);
      NotOccursByChar(tail, InfStatement, 1);
      assert '\n' !in InfInitialiser && '\n' !in InfStatement;
      assert tail[0] !in InfInitialiser && tail[0] !in InfStatement;
      ReplaceInfFramed(head, body, tail);
      assert head + body + CloseMember + Blank == head + body + tail;
      assert head + ReplaceInf(body) + CloseMember + Blank == head + ReplaceInf(body) + tail;
    }
  }

  lemma {:induction false} InternalHeadFree(stateName: string)
    requires ')' !in stateName && ';' !in stateName
    ensures var head := InternalHead(stateName);
      !Occurs(head, InfInitialiser) && !Occurs(head, InfStatement) && head[|head| - 1] == '\n'
  {
    var p := InternalOpen;
    var q := InternalClose;
    assert InternalHead(stateName) == p + stateName + q;
    InternalHeadNoInitialiser(p, stateName, q);
    InternalHeadNoStatement(p, stateName, q);
  }

  const InternalOpen: string := "\tvoid internalTransition("

  const InternalClose: string := "& state) const override {\n"

  lemma {:induction false} InternalHeadNoInitialiser(p: string, name: string, q: string)
    requires p == InternalOpen && q == InternalClose && ')' !in name
    ensures !Occurs(p + name + q, InfInitialiser)
  {
    assert ')' !in p;
    AvoidsConcat(p, name, ')');
    NotOccursByChar(p + name, InfInitialiser, 4);
    assert '(' !in q;
    NotOccursByChar(q, InfInitialiser, 0);
    assert q[0] !in InfInitialiser;
    NotOccursJoin(p + name, q, InfInitialiser);
  }

  lemma {:induction false} InternalHeadNoStatement(p: string, name: string, q: string)
    requires p == InternalOpen && q == InternalClose && ';' !in name
    ensures !Occurs(p + name + q, InfStatement)
  {
    assert ';' !in p && ';' !in q;
    AvoidsConcat(p, name, ';');
    AvoidsConcat(p + name, q, ';');
    NotOccursByChar(p + name + q, InfStatement, 4);
  }

  /** A body that mentions neither spelling of infinity is emitted as it
      is, between the signature and the closing brace. */
  lemma {:induction false} InternalWithoutInfinity(stateName: string, deltaInt: Value, names: seq<string>, body: string)
    requires BuildConditionals(deltaInt, names) == Ok(Some(body))
    requires var text := InternalHead(stateName) + body + CloseMember + Blank;
      !Occurs(text, InfInitialiser) && !Occurs(text, InfStatement)
    ensures InternalTransition(stateName, deltaInt, names) == Ok(InternalHead(stateName) + body + CloseMember + Blank)
  {
    ReplaceInfAbsent(InternalHead(stateName) + body + CloseMember + Blank);
  }

  /* ----- generate_external_transition ----- */

  /** One line of the external transition: branch lines get the two bag
      size rewrites, every other line the last-element rewrite. */
  function BagLine(line: string): string
  {
    if IsBranchLine(line) then Sub(Sub(line, NonEmpty), Empty) else Sub(line, Last)
  }

  function BagLines(ls: seq<string>): (r: seq<string>)
    ensures |r| == |ls| && forall k :: 0 <= k < |ls| ==> r[k] == BagLine(ls[k])
  {
    seq(|ls|, k requires 0 <= k < |ls| => BagLine(ls[k]))
  }

  function ExternalHead(stateName: string): string
  {
    "\tvoid externalTransition(" + stateName + "& state, double e) const override {\n"
  }

  /** `generate_external_transition`: between the signature and the
      closing brace, every line of the tree's text rewritten by `BagLine`. */
  function ExternalTransition(stateName: string, deltaExt: Value, names: seq<string>): (r: Result<string>)
    ensures r.Ok? <==> BuildConditionals(deltaExt, names).Ok? && BuildConditionals(deltaExt, names).value.Some?
    ensures r.Ok? ==> StartsWith(r.value, ExternalHead(stateName)) && EndsWith(r.value, CloseMember + Blank)
    ensures r.Ok? ==>
      && |ExternalHead(stateName)| + |CloseMember + Blank| <= |r.value|
      && r.value[|ExternalHead(stateName)|..|r.value| - |CloseMember + Blank|]
         == Concat(BagLines(Lines(BuildConditionals(deltaExt, names).value.value)))
  {
    var body :- BuildConditionals(deltaExt, names);
    if body.None? then Err(AttributeError("'NoneType' object has no attribute 'splitlines'"))
    else
      Ok(Frame(ExternalHead(stateName), Concat(BagLines(Lines(body.value))), CloseMember + Blank))
  }

  /** Conditional text that mentions no bag at all passes through the
      external transition unchanged. */
  lemma {:induction false} ExternalWithoutBags(stateName: string, deltaExt: Value, names: seq<string>, body: string)
    requires BuildConditionals(deltaExt, names) == Ok(Some(body))
    requires !Occurs(body, ".bag")
    ensures ExternalTransition(stateName, deltaExt, names) == Ok(ExternalHead(stateName) + body + CloseMember + Blank)
  {
    var ls := Lines(body);
    BagLinesWithoutBags(ls);
    assert Concat(BagLines(ls)) == body;
    var tail := CloseMember + Blank;
    assert Frame(ExternalHead(stateName), body, tail) == ExternalHead(stateName) + body + CloseMember + Blank;
  }

  /** Lines whose text holds no `.bag` are kept by the bag rewrites. */
  lemma {:induction false} BagLinesWithoutBags(ls: seq<string>)
    requires !Occurs(Concat(ls), ".bag")
    ensures BagLines(ls) == ls
  {
    forall k | 0 <= k < |ls|
      ensures BagLine(ls[k]) == ls[k]
    {
      NotInPart(ls, k, ".bag");
      LiteralsStartWithBag(ls[k]);
      SubWithoutLiteral(ls[k], Last);
      SubWithoutLiteral(ls[k], NonEmpty);
      SubWithoutLiteral(ls[k], Empty);
    }
  }

  lemma {:induction false} LiteralsStartWithBag(s: string)
    requires !Occurs(s, ".bag")
    ensures !Occurs(s, Literal(NonEmpty)) && !Occurs(s, Literal(Empty)) && !Occurs(s, Literal(Last))
  {
    assert Literal(NonEmpty) == ".bag" + "Size() != 0";
    assert Literal(Empty) == ".bag" + "Size() == 0";
    assert Literal(Last) == ".bag" + "(-1)";
    PrefixOccurs(s, ".bag", "Size() != 0");
    PrefixOccurs(s, ".bag", "Size() == 0");
    PrefixOccurs(s, ".bag", "(-1)");
  }

  /** A text that contains `p + q` contains `p`. */
  lemma {:induction false} PrefixOccurs(s: string, p: string, q: string)
    ensures Occurs(s, p + q) ==> Occurs(s, p)
  {
    if Occurs(s, p + q) {
      var i :| 0 <= i <= |s| - |p + q| && At(s, i, p + q);
      assert s[i..i + |p|] == (p + q)[..|p|];
      assert At(s, i, p);
    }
  }

  /** A part of a concatenation that contains a text makes the whole
      contain it. */
  lemma {:induction false} NotInPart(ls: seq<string>, k: nat, p: string)
    requires k < |ls| && !Occurs(Concat(ls), p)
    ensures !Occurs(ls[k], p)
    decreases k
  {
    assert Concat(ls) == ls[0] + Concat(ls[1..]);
    if k == 0 {
      forall i | 0 <= i <= |ls[0]| - |p| && At(ls[0], i, p)
        ensures At(Concat(ls), i, p)
      {
        assert Concat(ls)[i..i + |p|] == ls[0][i..i + |p|];
      }
    } else {
      AtShift(ls[0], Concat(ls[1..]), p);
      forall i | 0 <= i <= |Concat(ls[1..])| - |p| && At(Concat(ls[1..]), i, p)
        ensures At(Concat(ls), |ls[0]| + i, p)
      {
      }
      NotInPart(ls[1..], k - 1, p);
    }
  }

  /** On a branch line whose one bag expression is `X.bagSize() != 0` or
      `X.bagSize() == 0`, it becomes `!X->empty()` or `X->empty()` and the
      rest of the line is kept. */
  lemma {:induction false} BranchBagRewrite(pre: string, x: string, post: string, rule: Rule)
    requires rule == NonEmpty || rule == Empty
    requires IsIdent(x) && (|pre| == 0 || !WordChar(pre[|pre| - 1]))
    requires !Occurs(pre + x, ".bag") && !Occurs(post, ".bag")
    requires IsBranchLine(pre + x + Literal(rule) + post)
    ensures BagLine(pre + x + Literal(rule) + post) == pre + Rewrite(rule, x) + post
  {
    assert Literal(NonEmpty)[11] != Literal(Empty)[11];
    if rule == NonEmpty {
      SubSingle(pre, x, post, NonEmpty);
      var done := pre + Rewrite(NonEmpty, x) + post;
      NoBagAfterNonEmpty(pre, x, post);
      LiteralsStartWithBag(done);
      SubWithoutLiteral(done, Empty);
    } else {
      SubOtherRule(pre, x, post, Empty, NonEmpty);
      SubSingle(pre, x, post, Empty);
    }
  }

  /** Once `X.bagSize() != 0` is rewritten, the line holds no `.bag`. */
  lemma {:induction false} NoBagAfterNonEmpty(pre: string, x: string, post: string)
    requires IsIdent(x)
    requires !Occurs(pre + x, ".bag") && !Occurs(post, ".bag")
    ensures !Occurs(pre + Rewrite(NonEmpty, x) + post, ".bag")
  {
    var rw := Rewrite(NonEmpty, x);
    PrefixStillOccurs(pre, x, ".bag");
    IdentAvoids(x, '.');
    AvoidsConcat("!", x, '.');
    AvoidsConcat("!" + x, "->empty()", '.');
    NotOccursByChar(rw, ".bag", 0);
    NotOccursJoin(pre, rw, ".bag");
    assert (pre + rw)[|pre + rw| - 1] == ')';
    NotOccursJoin(pre + rw, post, ".bag");
  }

  /** A text that occurs in a prefix occurs in the whole. */
  lemma {:induction false} PrefixStillOccurs(a: string, b: string, p: string)
    ensures Occurs(a, p) ==> Occurs(a + b, p)
  {
    if Occurs(a, p) {
      var i :| 0 <= i <= |a| - |p| && At(a, i, p);
      assert (a + b)[i..i + |p|] == a[i..i + |p|];
      assert At(a + b, i, p);
    }
  }

  /** On a statement line whose one bag expression is `X.bag(-1)`, it
      becomes `X->getBag().back()` and the rest of the line is kept. */
  lemma {:induction false} StatementBagRewrite(pre: string, x: string, post: string)
    requires IsIdent(x) && (|pre| == 0 || !WordChar(pre[|pre| - 1]))
    requires !Occurs(pre + x, ".bag") && !Occurs(post, ".bag")
    requires !IsBranchLine(pre + x + Literal(Last) + post)
    ensures BagLine(pre + x + Literal(Last) + post) == pre + Rewrite(Last, x) + post
  {
    SubSingle(pre, x, post, Last);
  }

  /* ----- generate_output_function ----- */

  const MessageOpen: string := "->addMessage("

  /** One line of the output function: branch lines are kept, and in every
      other line ` = ` opens a message and each `;` closes it. */
  function MessageLine(line: string): string
  {
    if IsBranchLine(line) then line else Replace(Replace(line, " = ", MessageOpen), ";", ");")
  }

  function MessageLines(ls: seq<string>): (r: seq<string>)
    ensures |r| == |ls| && forall k :: 0 <= k < |ls| ==> r[k] == MessageLine(ls[k])
  {
    seq(|ls|, k requires 0 <= k < |ls| => MessageLine(ls[k]))
  }

  function OutputHead(stateName: string): string
  {
    "\tvoid output(const " + stateName + "& state) const override {\n"
  }

  /** `generate_output_function`: between the signature and the closing
      brace, every line of the tree's text rewritten by `MessageLine`. */
  function OutputFunction(stateName: string, lambda: Value, names: seq<string>): (r: Result<string>)
    ensures r.Ok? <==> BuildConditionals(lambda, names).Ok? && BuildConditionals(lambda, names).value.Some?
    ensures r.Ok? ==> StartsWith(r.value, OutputHead(stateName)) && EndsWith(r.value, CloseMember + Blank)
    ensures r.Ok? ==>
      && |OutputHead(stateName)| + |CloseMember + Blank| <= |r.value|
      && r.value[|OutputHead(stateName)|..|r.value| - |CloseMember + Blank|]
         == Concat(MessageLines(Lines(BuildConditionals(lambda, names).value.value)))
  {
    var body :- BuildConditionals(lambda, names);
    if body.None? then Err(AttributeError("'NoneType' object has no attribute 'splitlines'"))
    else
      Ok(Frame(OutputHead(stateName), Concat(MessageLines(Lines(body.value))), CloseMember + Blank))
  }

  /** An assignment to an output port becomes a message on that port. */
  lemma {:induction false} AssignmentBecomesMessage(n: nat, port: string, expr: string)
    requires IsIdent(port) && !StartsWith(port, "if") && !StartsWith(port, "else")
    requires !Occurs(expr + ";\n", " = ") && ';' !in expr
    ensures MessageLine(AssignmentLine(n, port, expr)) == Tabs(n) + port + MessageOpen + expr + ");\n"
  {
    var a := Tabs(n) + port;
    var line := AssignmentLine(n, port, expr);
    assert line == a + (" = " + expr + ";\n");
    assert line == Tabs(n) + port + (" = " + expr + ";\n");
    StatementIsNotBranch(n, port, " = " + expr + ";\n");
    TabsAvoid(n, ' ');
    IdentAvoids(port, ' ');
    AvoidsConcat(Tabs(n), port, ' ');
    OpenMessage(a, expr);
    TabsAvoid(n, ';');
    IdentAvoids(port, ';');
    AvoidsConcat(Tabs(n), port, ';');
    AvoidsConcat(a, MessageOpen, ';');
    AvoidsConcat(a + MessageOpen, expr, ';');
    CloseMessage(a + MessageOpen + expr);
  }

  /** The ` = ` after the port is the only one in the line. */
  lemma {:induction false} OpenMessage(a: string, expr: string)
    requires ' ' !in a
    requires !Occurs(expr + ";\n", " = ")
    ensures Replace(a + (" = " + expr + ";\n"), " = ", MessageOpen) == a + MessageOpen + expr + ";\n"
  {
    var b := " = " + (expr + ";\n");
    assert a + (" = " + expr + ";\n") == a + b;
    forall i | 0 <= i < |a|
      ensures !At(a + b, i, " = ")
    {
      assert (a + b)[i] == a[i];
    }
    ReplaceSkip(a, b, " = ", MessageOpen);
    ReplaceHit(expr + ";\n", " = ", MessageOpen);
    ReplaceAbsent(expr + ";\n", " = ", MessageOpen);
  }

  /** The final `;` is the only one in the line. */
  lemma {:induction false} CloseMessage(a: string)
    requires ';' !in a
    ensures Replace(a + ";\n", ";", ");") == a + ");\n"
  {
    forall i | 0 <= i < |a|
      ensures !At(a + ";\n", i, ";")
    {
      assert (a + ";\n")[i] == a[i];
    }
    assert a + ";\n" == a + (";" + "\n");
    ReplaceSkip(a, ";" + "\n", ";", ");");
    ReplaceHit("\n", ";", ");");
    NotOccursByChar("\n", ";", 0);
    ReplaceAbsent("\n", ";", ");");
  }

  /* ----- generate_time_advance_function ----- */

  function TimeAdvanceHead(stateName: string): string
  {
    "\t[[nodiscard]] double timeAdvance(const " + stateName + "& state) const override {\n"
  }

  /** `generate_time_advance_function`: a `return` of the `otherwise`
      expression for a one-key `ta`, and an empty body for any other
      size. */
  function TimeAdvance(stateName: string, ta: Value): (r: Result<string>)
    ensures r.Ok? <==> Len(ta).Some? && (Len(ta) == Some(1) ==> LookupStr(ta, "otherwise").Ok?)
    ensures r.Ok? && Len(ta) != Some(1) ==> r.value == TimeAdvanceHead(stateName) + CloseMember + Blank
  {
    match Len(ta)
    case None => Err(TypeError("object has no len()"))
    case Some(n) =>
      if n == 1 then
        var e :- LookupStr(ta, "otherwise");
        Ok(TimeAdvanceHead(stateName) + "\t\treturn state." + e + ";\n" + CloseMember + Blank)
      else Ok(TimeAdvanceHead(stateName) + CloseMember + Blank)
  }

  /** A one-key `ta` returns its `otherwise` expression, read from the
      state; a one-key `ta` with any other key fails. */
  lemma {:induction false} TimeAdvanceReturns(stateName: string, key: string, e: string)
    ensures TimeAdvance(stateName, Obj([("otherwise", Str(e))]))
            == Ok(TimeAdvanceHead(stateName) + "\t\treturn state." + e + ";\n" + CloseMember + Blank)
    ensures key != "otherwise" ==> TimeAdvance(stateName, Obj([(key, Str(e))])) == Err(KeyError("otherwise"))
  {
    assert Get([("otherwise", Str(e))], "otherwise") == Some(Str(e));
    if key != "otherwise" {
      assert Get([(key, Str(e))][1..], "otherwise") == None;
    }
  }
}
