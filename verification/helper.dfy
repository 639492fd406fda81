/** The conditional-block compiler of `helper.py`.

    A DEVSMap function body is a condition tree: an object whose keys are
    C++ conditions (or the word `otherwise`) and whose values are either an
    expression, an object of assignments, or a nested tree. It becomes
    C++ `if` / `else if` / `else` text, after which every state variable is
    qualified with `state.`. */
module Helper {
  import opened Outcome
  import opened Json
  import opened Text

  /* ----- prefix_states ----- */

  /** The two rewrites for one variable: `v ` to `state.v `, then `v;` to
      `state.v;`. */
  function Qualify(text: string, v: string): string
  {
    Replace(Replace(text, v + " ", "state." + v + " "), v + ";", "state." + v + ";")
  }

  /** `prefix_states`: the variables are qualified one after the other, in
      list order, each over the text the previous ones produced. */
  function PrefixStates(text: string, vars: seq<string>): (r: string)
    ensures |vars| == 0 ==> r == text
    decreases |vars|
  {
    if |vars| == 0 then text else PrefixStates(Qualify(text, vars[0]), vars[1..])
  }

  /** Text in which no listed variable is followed by a space or a
      semicolon comes back unchanged. */
  lemma {:induction false} PrefixStatesAbsent(text: string, vars: seq<string>)
    requires forall k :: 0 <= k < |vars| ==> !Occurs(text, vars[k] + " ") && !Occurs(text, vars[k] + ";")
    ensures PrefixStates(text, vars) == text
    decreases |vars|
  {
    if |vars| > 0 {
      var v := vars[0];
      ReplaceAbsent(text, v + " ", "state." + v + " ");
      ReplaceAbsent(text, v + ";", "state." + v + ";");
      assert forall k :: 0 <= k < |vars| - 1 ==> vars[1..][k] == vars[k + 1];
      PrefixStatesAbsent(text, vars[1..]);
    }
  }

  /** Qualifying `v` cuts the text at every occurrence of `v ` and glues
      the pieces back with `state.v `, then does the same for `v;`: the
      pieces are exactly what lies between the occurrences, and none of
      them contains one. */
  lemma {:induction false} QualifyRewritesEveryOccurrence(text: string, v: string)
    ensures
      var spaced := Split(text, v + " ");
      var mid := Join(spaced, "state." + v + " ");
      var ended := Split(mid, v + ";");
      && Join(spaced, v + " ") == text
      && (forall k :: 0 <= k < |spaced| ==> !Occurs(spaced[k], v + " "))
      && Join(ended, v + ";") == mid
      && (forall k :: 0 <= k < |ended| ==> !Occurs(ended[k], v + ";"))
      && Qualify(text, v) == Join(ended, "state." + v + ";")
  {
    var spaced := Split(text, v + " ");
    var mid := Join(spaced, "state." + v + " ");
    SplitJoin(text, v + " ");
    SplitPiecesFree(text, v + " ");
    ReplaceIsJoinOfSplit(text, v + " ", "state." + v + " ");
    SplitJoin(mid, v + ";");
    SplitPiecesFree(mid, v + ";");
    ReplaceIsJoinOfSplit(mid, v + ";", "state." + v + ";");
  }

  /** Only the end of a name is checked: a variable that ends a longer
      word is qualified inside it (`targetnumber ` becomes
      `targetstate.number ` for a variable `number`). */
  lemma {:induction false} QualifiesInsideLongerName(w: string, v: string, rest: string)
    requires forall i :: 0 <= i < |w| ==> !At(w + (v + " " + rest), i, v + " ")
    requires !Occurs(rest, v + " ")
    requires !Occurs(w + ("state." + v + " " + rest), v + ";")
    ensures PrefixStates(w + (v + " " + rest), [v]) == w + ("state." + v + " " + rest)
  {
    var pat := v + " ";
    var rep := "state." + v + " ";
    ReplaceSkip(w, pat + rest, pat, rep);
    ReplaceHit(rest, pat, rep);
    ReplaceAbsent(rest, pat, rep);
    assert Replace(w + (pat + rest), pat, rep) == w + (rep + rest);
    ReplaceAbsent(w + (rep + rest), v + ";", "state." + v + ";");
    assert [v][1..] == [];
  }

  /* ----- Rendering a condition tree ----- */

  /** What stands in for `write_conditions`, the name the helper calls for
      a nested branch set: the undefined name as written, or the helper's
      own recursion one level deeper. */
  datatype Nesting = AsWritten | Corrected

  /** The empty top-level `else` block that rendering removes. */
  const EmptyElse: string := " else {\n\t\t}\n"

  /** The body emitted for a function whose tree is a lone empty
      `otherwise`. */
  const NotImplemented: string := "\t\t// Not implemented\n"

  /** An assignment statement `target = expr;` on a line of its own. */
  function AssignmentLine(indent: nat, target: string, expr: string): string
  {
    Tabs(indent) + target + " = " + expr + ";\n"
  }

  /** `simple_conditional_statement`: the assignment line of the lone
      `otherwise` case is the helper's leaf line at two tabs. */
  function SimpleStatement(key: string, value: string): (r: string)
    ensures r == AssignmentLine(2, key, value)
  {
    "\t\t" + key + " = " + value + ";\n"
  }

  /** The entries of a leaf object as assignment lines, in declared order.
      Every expression must be a string, or the concatenation fails. */
  function Assignments(fs: seq<(string, Value)>, indent: nat): (r: Result<seq<string>>)
    ensures r.Ok? <==> forall k :: 0 <= k < |fs| ==> fs[k].1.Str?
    ensures r.Ok? ==> |r.value| == |fs|
    ensures r.Ok? ==> forall k :: 0 <= k < |fs| ==> r.value[k] == AssignmentLine(indent, fs[k].0, fs[k].1.s)
    ensures r.Err? ==> r.error.TypeError?
  {
    if |fs| == 0 then Ok([])
    else if !fs[0].1.Str? then Err(TypeError("can only concatenate str to str"))
    else
      var rest :- Assignments(fs[1..], indent);
      Ok([AssignmentLine(indent, fs[0].0, fs[0].1.s)] + rest)
  }

  /** No value of the object is itself an object. */
  predicate AllLeaves(fs: seq<(string, Value)>)
  {
    forall k :: 0 <= k < |fs| ==> !fs[k].1.Obj?
  }

  /** How block `i` opens: `else` for the `otherwise` key wherever it is
      declared, `if` for any other first key, `else if` after that. */
  function Header(key: string, i: nat, indent: nat): string
  {
    if key == "otherwise" then "else {\n"
    else if i == 0 then Tabs(indent) + "if (" + key + ") {\n"
    else "else if (" + key + ") {\n"
  }

  /** How a block closes: on the same line as the next block's `else`, or
      with a newline after the last block. */
  function Closing(indent: nat, last: bool): string
  {
    if last then Tabs(indent) + "}\n" else Tabs(indent) + "} "
  }

  /** The statements inside a block whose key is `key` and value `value`. */
  function Body(key: string, value: Value, indent: nat, nesting: Nesting): Result<string>
    decreases value, 1, 0
  {
    match value
    case Obj(fs) =>
      if AllLeaves(fs) then
        var lines :- Assignments(fs, indent + 1);
        Ok(Concat(lines))
      else if nesting == AsWritten then Err(NameError("write_conditions"))
      else
        var nested :- Render(fs, indent + 1, nesting);
        Ok(if nested.Some? then nested.value else "")
    case Str(s) => Ok(AssignmentLine(indent + 1, key, s))
    case _ => Err(TypeError("can only concatenate str to str"))
  }

  /** The blocks from index `i` on, before the empty `else` is removed. */
  function Blocks(fields: seq<(string, Value)>, indent: nat, i: nat, nesting: Nesting): Result<string>
    requires i <= |fields|
    decreases Obj(fields), 0, |fields| - i
  {
    if i == |fields| then Ok("")
    else
      var body :- Body(fields[i].0, fields[i].1, indent, nesting);
      var rest :- Blocks(fields, indent, i + 1, nesting);
      Ok(Header(fields[i].0, i, indent) + body + Closing(indent, i == |fields| - 1) + rest)
  }

  /** Removal of every empty top-level `else` block. */
  function Prune(s: string): string
  {
    Replace(s, EmptyElse, "\n")
  }

  /** `build_conditional_statements_helper`: nothing at all for a tree
      without keys, otherwise the pruned blocks. */
  function Render(fields: seq<(string, Value)>, indent: nat, nesting: Nesting): (r: Result<Option<string>>)
    ensures r.Ok? ==> (r.value.Some? <==> |fields| > 0)
    decreases Obj(fields), 0, |fields| + 1
  {
    if |fields| == 0 then Ok(None)
    else
      var raw :- Blocks(fields, indent, 0, nesting);
      Ok(Some(Prune(raw)))
  }

  /** `build_conditional_statements`. A tree with one key must have it be
      `otherwise`: an empty leaf there means "not implemented", a
      non-empty one is a list of plain assignments. Any other tree goes
      through the helper. The text is then qualified with the state
      variables, except for the "not implemented" marker. `None` is the
      helper's `None` for a tree without keys, which only survives when
      there are no state variables to qualify. */
  function BuildConditionals(data: Value, vars: seq<string>): (r: Result<Option<string>>)
    ensures r.Ok? && r.value.None? ==> data == Obj([]) && |vars| == 0
  {
    match Len(data)
    case None => Err(TypeError("object has no len()"))
    case Some(n) =>
      if n == 1 then
        var leaf :- Lookup(data, "otherwise");
        match Len(leaf)
        case None => Err(TypeError("object has no len()"))
        case Some(m) =>
          if m == 0 then Ok(Some(NotImplemented))
          else
            var fs :- Entries(leaf);
            var lines :- Assignments(fs, 2);
            Ok(Some(PrefixStates(Concat(lines), vars)))
      else if !data.Obj? then Err(AttributeError("object has no attribute 'keys'"))
      else
        var h :- Render(data.fields, 2, Corrected);
        match h
        case Some(text) => Ok(Some(PrefixStates(text, vars)))
        case None =>
          if |vars| > 0 then Err(AttributeError("'NoneType' object has no attribute 'replace'"))
          else Ok(None)
  }

  /* ----- The lone `otherwise` ----- */

  /** A lone `otherwise` with an empty leaf gives exactly the marker, with
      no branch keywords and nothing qualified. */
  lemma {:induction false} EmptyOtherwiseNotImplemented(leaf: Value, vars: seq<string>)
    requires Len(leaf) == Some(0)
    ensures BuildConditionals(Obj([("otherwise", leaf)]), vars) == Ok(Some(NotImplemented))
  {
    assert Lookup(Obj([("otherwise", leaf)]), "otherwise") == Ok(leaf);
  }

  /** A lone `otherwise` with a non-empty leaf gives one assignment line
      per entry, in declared order, and nothing else, before
      qualification. */
  lemma {:induction false} OtherwiseOnlyAssigns(fs: seq<(string, Value)>, vars: seq<string>)
    requires |fs| > 0
    requires forall k :: 0 <= k < |fs| ==> fs[k].1.Str?
    ensures Assignments(fs, 2).Ok?
    ensures
      var lines := Assignments(fs, 2).value;
      && BuildConditionals(Obj([("otherwise", Obj(fs))]), vars) == Ok(Some(PrefixStates(Concat(lines), vars)))
      && |lines| == |fs|
      && forall k :: 0 <= k < |fs| ==> lines[k] == SimpleStatement(fs[k].0, fs[k].1.s)
  {
    assert Lookup(Obj([("otherwise", Obj(fs))]), "otherwise") == Ok(Obj(fs));
  }

  /** A tree with a single key other than `otherwise` is rejected by the
      lookup of `otherwise`. */
  lemma {:induction false} LoneKeyMustBeOtherwise(key: string, value: Value, vars: seq<string>)
    requires key != "otherwise"
    ensures BuildConditionals(Obj([(key, value)]), vars) == Err(KeyError("otherwise"))
  {
    assert Get([(key, value)], "otherwise") == None;
  }

  /** A lone `otherwise` holding a non-empty list is subscripted by the
      list's first item: an integer out of range is an `IndexError`, and
      every other first item ends in a `TypeError`. */
  lemma {:induction false} OtherwiseListFails(items: seq<Value>, vars: seq<string>)
    requires |items| > 0
    ensures BuildConditionals(Obj([("otherwise", Arr(items))]), vars).Err?
    ensures var e := BuildConditionals(Obj([("otherwise", Arr(items))]), vars).error;
      (e.IndexError? <==> IndexOutOfRange(items[0], |items|)) && (e.IndexError? || e.TypeError?)
  {
    assert Lookup(Obj([("otherwise", Arr(items))]), "otherwise") == Ok(Arr(items));
  }

  /** A tree without keys: the helper's `None` reaches the qualification,
      which fails on it as soon as there is a variable to qualify. */
  lemma {:induction false} EmptyTree(vars: seq<string>)
    ensures |vars| > 0 ==> BuildConditionals(Obj([]), vars).Err?
    ensures |vars| == 0 ==> BuildConditionals(Obj([]), vars) == Ok(None)
  {
  }

  /** Assignment lines of newline-free names and expressions are lines in
      the sense of `splitlines(True)`: splitting the rendered text into
      lines gives back one line per entry. */
  lemma {:induction false} AssignmentsAreLines(fs: seq<(string, Value)>, indent: nat)
    requires forall k :: 0 <= k < |fs| ==> fs[k].1.Str? && '\n' !in fs[k].0 && '\n' !in fs[k].1.s
    ensures Assignments(fs, indent).Ok?
    ensures Lines(Concat(Assignments(fs, indent).value)) == Assignments(fs, indent).value
  {
    var lines := Assignments(fs, indent).value;
    forall k | 0 <= k < |lines|
      ensures IsLine(lines[k])
    {
      var a := Tabs(indent) + fs[k].0 + " = " + fs[k].1.s + ";";
      assert '\n' !in a by {
        assert a == Tabs(indent) + fs[k].0 + " = " + fs[k].1.s + ";";
        forall j | 0 <= j < |a|
          ensures a[j] != '\n'
        {
          if j < indent {
          } else if j < indent + |fs[k].0| {
            assert a[j] == fs[k].0[j - indent];
          } else if j < indent + |fs[k].0| + 3 {
          } else if j < indent + |fs[k].0| + 3 + |fs[k].1.s| {
            assert a[j] == fs[k].1.s[j - indent - |fs[k].0| - 3];
          }
        }
      }
      LineOf(a);
      assert lines[k] == a + "\n";
    }
    LinesOfConcat(lines);
  }

  /* ----- Block structure ----- */

  /** The blocks from `i` on start with block `i`'s header. */
  lemma {:induction false} BlocksStartWithHeader(fields: seq<(string, Value)>, indent: nat, i: nat, nesting: Nesting)
    requires i < |fields|
    requires Blocks(fields, indent, i, nesting).Ok?
    ensures StartsWith(Blocks(fields, indent, i, nesting).value, Header(fields[i].0, i, indent))
  {
    var raw := Blocks(fields, indent, i, nesting).value;
    var h := Header(fields[i].0, i, indent);
    var body := Body(fields[i].0, fields[i].1, indent, nesting).value;
    var rest := Blocks(fields, indent, i + 1, nesting).value;
    var tail := body + Closing(indent, i == |fields| - 1) + rest;
    assert raw == h + tail;
    assert (h + tail)[..|h|] == h;
  }

  /** Each block opens as its key demands: `else` for `otherwise` at
      whatever position it is declared, `if` for any other first key and
      `else if` for any other later key. */
  lemma {:induction false} BlockOpens(fields: seq<(string, Value)>, indent: nat, i: nat, nesting: Nesting)
    requires i < |fields|
    requires Blocks(fields, indent, i, nesting).Ok?
    ensures var raw := Blocks(fields, indent, i, nesting).value;
      var key := fields[i].0;
      && (key == "otherwise" ==> StartsWith(raw, "else {\n"))
      && (key != "otherwise" && i == 0 ==> StartsWith(raw, Tabs(indent) + "if (" + key + ") {\n"))
      && (key != "otherwise" && i > 0 ==> StartsWith(raw, "else if (" + key + ") {\n"))
  {
    BlocksStartWithHeader(fields, indent, i, nesting);
  }

  /** The last block closes with a brace and a newline at the block's
      indentation. */
  lemma {:induction false} BlocksClose(fields: seq<(string, Value)>, indent: nat, i: nat, nesting: Nesting)
    requires i < |fields|
    requires Blocks(fields, indent, i, nesting).Ok?
    ensures EndsWith(Blocks(fields, indent, i, nesting).value, Tabs(indent) + "}\n")
    decreases |fields| - i
  {
    var raw := Blocks(fields, indent, i, nesting).value;
    var front := Header(fields[i].0, i, indent) + Body(fields[i].0, fields[i].1, indent, nesting).value;
    var c := Closing(indent, i == |fields| - 1);
    var rest := Blocks(fields, indent, i + 1, nesting).value;
    assert raw == front + c + rest;
    if i == |fields| - 1 {
      assert raw == front + c;
      EndsWithTail(front, c);
    } else {
      BlocksClose(fields, indent, i + 1, nesting);
      EndsWithAfter(front + c, rest, Tabs(indent) + "}\n");
    }
  }

  /* ----- Every block is closed ----- */

  /** Text without braces. */
  predicate BraceFree(s: string)
  {
    '{' !in s && '}' !in s
  }

  /** Conditions, names and expressions of a tree are all brace-free. */
  predicate BraceFreeTree(v: Value)
  {
    match v
    case Str(s) => BraceFree(s)
    case Obj(fs) => forall k :: 0 <= k < |fs| ==> BraceFree(fs[k].0) && BraceFreeTree(fs[k].1)
    case _ => true
  }

  /** Opening braces minus closing braces. */
  function Surplus(s: string): int
  {
    Tally(s, '{') - Tally(s, '}')
  }

  lemma {:induction false} SurplusConcat(a: string, b: string)
    ensures Surplus(a + b) == Surplus(a) + Surplus(b)
  {
    TallyConcat(a, b, '{');
    TallyConcat(a, b, '}');
  }

  lemma {:induction false} SurplusBraceFree(s: string)
    requires BraceFree(s)
    ensures Surplus(s) == 0
    decreases |s|
  {
    if |s| > 0 {
      assert s == [s[0]] + s[1..];
      assert BraceFree(s[1..]) by {
        assert forall j :: 0 <= j < |s| - 1 ==> s[1..][j] == s[j + 1];
      }
      SurplusBraceFree(s[1..]);
    }
  }

  /** Tabs and the fixed fragments of the generated text. */
  lemma {:induction false} SurplusOfTabs(n: nat)
    ensures Surplus(Tabs(n)) == 0
  {
    SurplusBraceFree(Tabs(n));
  }

  lemma {:induction false} SurplusOfBraces()
    ensures Surplus("{") == 1 && Surplus("}") == -1
  {
    assert "{"[1..] == "" && "}"[1..] == "";
  }

  /** A brace-free piece, an opening brace, and a brace-free piece. */
  lemma {:induction false} SurplusOfOpening(a: string, b: string)
    requires BraceFree(a) && BraceFree(b)
    ensures Surplus(a + "{" + b) == 1
  {
    SurplusOfBraces();
    SurplusBraceFree(a);
    SurplusBraceFree(b);
    SurplusConcat(a + "{", b);
    SurplusConcat(a, "{");
  }

  lemma {:induction false} SurplusOfHeader(key: string, i: nat, indent: nat)
    requires BraceFree(key)
    ensures Surplus(Header(key, i, indent)) == 1
  {
    if key == "otherwise" {
      assert "else {\n" == "else " + "{" + "\n";
      SurplusOfOpening("else ", "\n");
    } else {
      var lead := if i == 0 then Tabs(indent) + "if (" else "else if (";
      assert BraceFree(lead + key + ") ") by {
        SurplusBraceFree(Tabs(indent));
        assert forall c :: c in lead + key + ") " ==> c in lead || c in key || c in ") ";
      }
      assert Header(key, i, indent) == (lead + key + ") ") + "{" + "\n";
      SurplusOfOpening(lead + key + ") ", "\n");
    }
  }

  lemma {:induction false} SurplusOfClosing(indent: nat, last: bool)
    ensures Surplus(Closing(indent, last)) == -1
  {
    SurplusOfTabs(indent);
    var tail := if last then "\n" else " ";
    assert Closing(indent, last) == Tabs(indent) + "}" + tail;
    SurplusConcat(Tabs(indent) + "}", tail);
    SurplusConcat(Tabs(indent), "}");
  }

  lemma {:induction false} SurplusOfConcat(ls: seq<string>)
    requires forall k :: 0 <= k < |ls| ==> Surplus(ls[k]) == 0
    ensures Surplus(Concat(ls)) == 0
  {
    if |ls| > 0 {
      SurplusConcat(ls[0], Concat(ls[1..]));
      SurplusOfConcat(ls[1..]);
    }
  }

  /** Pruning replaces one opening and one closing brace by none. */
  lemma {:induction false} PruneKeepsSurplus(s: string)
    ensures Surplus(Prune(s)) == Surplus(s)
  {
    SurplusOfEmptyElse();
    SurplusBraceFree("\n");
    ReplaceKeepsSurplus(s, EmptyElse, "\n", '{', '}');
  }

  lemma {:induction false} SurplusOfEmptyElse()
    ensures Surplus(EmptyElse) == 0
  {
  }

  /** With brace-free conditions, names and expressions, the corrected
      rendering closes every block it opens, nested ones included. */
  lemma {:induction false} BodyBalanced(key: string, value: Value, indent: nat)
    requires BraceFree(key) && BraceFreeTree(value)
    requires Body(key, value, indent, Corrected).Ok?
    ensures Surplus(Body(key, value, indent, Corrected).value) == 0
    decreases value, 1, 0
  {
    match value
    case Obj(fs) =>
      if AllLeaves(fs) {
        var lines := Assignments(fs, indent + 1).value;
        forall k | 0 <= k < |lines|
          ensures Surplus(lines[k]) == 0
        {
          SurplusOfAssignment(indent + 1, fs[k].0, fs[k].1.s);
        }
        SurplusOfConcat(lines);
      } else {
        RenderBalanced(fs, indent + 1);
      }
    case Str(s) =>
      SurplusOfAssignment(indent + 1, key, s);
  }

  lemma {:induction false} SurplusOfAssignment(indent: nat, target: string, expr: string)
    requires BraceFree(target) && BraceFree(expr)
    ensures Surplus(AssignmentLine(indent, target, expr)) == 0
  {
    SurplusOfTabs(indent);
    SurplusBraceFree(target);
    SurplusBraceFree(expr);
    SurplusBraceFree(" = ");
    SurplusBraceFree(";\n");
    SurplusConcat(Tabs(indent) + target + " = " + expr, ";\n");
    SurplusConcat(Tabs(indent) + target + " = ", expr);
    SurplusConcat(Tabs(indent) + target, " = ");
    SurplusConcat(Tabs(indent), target);
  }

  lemma {:induction false} BlocksBalanced(fields: seq<(string, Value)>, indent: nat, i: nat)
    requires i <= |fields|
    requires BraceFreeTree(Obj(fields))
    requires Blocks(fields, indent, i, Corrected).Ok?
    ensures Surplus(Blocks(fields, indent, i, Corrected).value) == 0
    decreases Obj(fields), 0, |fields| - i
  {
    if i < |fields| {
      var key := fields[i].0;
      var h := Header(key, i, indent);
      var body := Body(key, fields[i].1, indent, Corrected).value;
      var c := Closing(indent, i == |fields| - 1);
      var rest := Blocks(fields, indent, i + 1, Corrected).value;
      BodyBalanced(key, fields[i].1, indent);
      BlocksBalanced(fields, indent, i + 1);
      SurplusOfHeader(key, i, indent);
      SurplusOfClosing(indent, i == |fields| - 1);
      SurplusConcat(h + body + c, rest);
      SurplusConcat(h + body, c);
      SurplusConcat(h, body);
    }
  }

  lemma {:induction false} RenderBalanced(fields: seq<(string, Value)>, indent: nat)
    requires BraceFreeTree(Obj(fields))
    requires Render(fields, indent, Corrected).Ok?
    ensures Render(fields, indent, Corrected).value.Some? ==>
      Surplus(Render(fields, indent, Corrected).value.value) == 0
    decreases Obj(fields), 0, |fields| + 1
  {
    if |fields| > 0 {
      BlocksBalanced(fields, indent, 0);
      PruneKeepsSurplus(Blocks(fields, indent, 0, Corrected).value);
    }
  }

  /* ----- Pruning the empty `else` ----- */

  lemma {:induction false} EmptyElseOverlapFree()
    ensures OverlapFree(EmptyElse)
  {
    var p := EmptyElse;
    forall k | 0 < k < |p|
      ensures p[k..] != p[..|p| - k]
    {
      if k == 5 {
        assert p[k..][1] != p[..|p| - k][1];
      } else {
        assert p[k..][0] != p[..|p| - k][0];
      }
    }
  }

  /** A condition with its assignments followed by an empty `otherwise`:
      the empty `else` is removed and the `if` block ends the text. */
  lemma {:induction false} EmptyOtherwisePruned(cond: string, fs: seq<(string, Value)>, nesting: Nesting)
    requires cond != "otherwise"
    requires AllLeaves(fs) && Assignments(fs, 3).Ok?
    requires !Occurs(Tabs(2) + "if (" + cond + ") {\n" + Concat(Assignments(fs, 3).value) + Tabs(2) + "}", EmptyElse)
    ensures Render([(cond, Obj(fs)), ("otherwise", Obj([]))], 2, nesting)
         == Ok(Some(Tabs(2) + "if (" + cond + ") {\n" + Concat(Assignments(fs, 3).value) + Tabs(2) + "}\n"))
  {
    var fields := [(cond, Obj(fs)), ("otherwise", Obj([]))];
    var body := Concat(Assignments(fs, 3).value);
    var h := Tabs(2) + "if (" + cond + ") {\n";
    var a := h + body + Tabs(2) + "}";
    var last := "else {\n" + Tabs(2) + "}\n";
    TwoBlocks(fields, nesting, body, last);
    assert Header(cond, 0, 2) == h;
    assert Closing(2, false) == Tabs(2) + "} ";
    Seam();
    assert Blocks(fields, 2, 0, nesting).value == a + EmptyElse by {
      assert h + body + (Tabs(2) + "} ") + last == (h + body) + ((Tabs(2) + "} ") + last);
      assert a + EmptyElse == (h + body) + ((Tabs(2) + "}") + EmptyElse);
    }
    EmptyElseOverlapFree();
    ReplaceAtEnd(a, EmptyElse, "\n");
    assert a + "\n" == h + body + Tabs(2) + "}\n";
  }

  /** The two blocks of a condition followed by an empty `otherwise`. */
  lemma {:induction false} TwoBlocks(fields: seq<(string, Value)>, nesting: Nesting, body: string, last: string)
    requires |fields| == 2 && fields[0].1.Obj? && AllLeaves(fields[0].1.fields)
    requires Assignments(fields[0].1.fields, 3).Ok? && body == Concat(Assignments(fields[0].1.fields, 3).value)
    requires fields[1] == ("otherwise", Obj([]))
    requires last == "else {\n" + Tabs(2) + "}\n"
    ensures Blocks(fields, 2, 0, nesting) == Ok(Header(fields[0].0, 0, 2) + body + Closing(2, false) + last)
  {
    assert Blocks(fields, 2, 2, nesting) == Ok("");
    assert Assignments([], 3) == Ok([]);
    assert Body("otherwise", Obj([]), 2, nesting) == Ok("");
    assert Blocks(fields, 2, 1, nesting) == Ok("else {\n" + "" + Closing(2, true) + "");
    assert "else {\n" + "" + Closing(2, true) + "" == last;
    assert Body(fields[0].0, fields[0].1, 2, nesting) == Ok(body);
  }

  /** Where the first block's closing brace meets the empty `else`. */
  lemma {:induction false} Seam()
    ensures (Tabs(2) + "} ") + ("else {\n" + Tabs(2) + "}\n") == (Tabs(2) + "}") + EmptyElse
  {
    assert Tabs(2) == "\t\t";
  }

  /* ----- The undefined `write_conditions` ----- */

  /** Rendering as written fails on a nested branch set, because the name
      it calls there is not defined, while the corrected rendering
      succeeds whenever the nested tree renders. */
  lemma {:induction false} NestedBranchesNeedRecursion(cond: string, fs: seq<(string, Value)>, indent: nat)
    requires !AllLeaves(fs)
    requires Render(fs, indent + 1, Corrected).Ok?
    ensures Render([(cond, Obj(fs))], indent, AsWritten) == Err(NameError("write_conditions"))
    ensures Render([(cond, Obj(fs))], indent, Corrected).Ok?
  {
    var fields := [(cond, Obj(fs))];
    assert fields[0] == (cond, Obj(fs));
    assert Body(cond, Obj(fs), indent, AsWritten) == Err(NameError("write_conditions"));
    assert Blocks(fields, indent, 0, AsWritten) == Err(NameError("write_conditions"));
    assert Body(cond, Obj(fs), indent, Corrected).Ok?;
    assert Blocks(fields, indent, 1, Corrected) == Ok("");
  }

  /** Trees of depth at most one never reach the nested call, so the two
      readings agree on them. */
  predicate Shallow(fields: seq<(string, Value)>)
  {
    forall k :: 0 <= k < |fields| ==> (fields[k].1.Obj? ==> AllLeaves(fields[k].1.fields))
  }

  lemma {:induction false} ShallowBlocksAgree(fields: seq<(string, Value)>, indent: nat, i: nat)
    requires i <= |fields|
    requires Shallow(fields)
    ensures Blocks(fields, indent, i, AsWritten) == Blocks(fields, indent, i, Corrected)
    decreases |fields| - i
  {
    if i < |fields| {
      ShallowBlocksAgree(fields, indent, i + 1);
      assert Body(fields[i].0, fields[i].1, indent, AsWritten) == Body(fields[i].0, fields[i].1, indent, Corrected);
    }
  }

  lemma {:induction false} ShallowRenderAgrees(fields: seq<(string, Value)>, indent: nat)
    requires Shallow(fields)
    ensures Render(fields, indent, AsWritten) == Render(fields, indent, Corrected)
  {
    if |fields| > 0 {
      ShallowBlocksAgree(fields, indent, 0);
    }
  }
}
