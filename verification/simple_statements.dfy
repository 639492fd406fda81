/** The small statement builders of `generate_simple_statements.py`:
    include lines, the include guard, the infinity rewrite, and the
    experiment and repository lookups that name the top model. */
module SimpleStatements {
  import opened Outcome
  import opened Json
  import opened Text

  const IncludeLimits: string := "#include <limits>\n"

  const CadmiumNamespace: string := "using namespace cadmium;\n\n"

  /** The last text of every generated header: it closes the include
      guard. */
  const EndGuard: string := "#endif"

  /** Cadmium's spelling of an infinite time. */
  const Infinity: string := "std::numeric_limits<double>::infinity()"

  const IncludeModelOpen: string := "#include \"include/"

  const IncludeModelClose: string := ".hpp\"\n\n"

  /* ----- include_model ----- */

  /** `include_model`: the include line of a generated model header,
      followed by a blank line. */
  function IncludeModel(model: string): (r: string)
    ensures StartsWith(r, IncludeModelOpen) && EndsWith(r, IncludeModelClose)
    ensures |r| == |IncludeModelOpen| + |model| + |IncludeModelClose|
  {
    IncludeModelOpen + model + IncludeModelClose
  }

  /** The model an include line names, read back out of it. */
  function IncludedModel(line: string): Option<string>
  {
    if |line| >= |IncludeModelOpen| + |IncludeModelClose|
       && StartsWith(line, IncludeModelOpen) && EndsWith(line, IncludeModelClose)
    then Some(line[|IncludeModelOpen|..|line| - |IncludeModelClose|])
    else None
  }

  /** The include line determines the model, and every line that names a
      model is that model's include line. */
  lemma {:induction false} IncludeModelRoundTrip(model: string, line: string)
    ensures IncludedModel(IncludeModel(model)) == Some(model)
    ensures IncludedModel(line) == Some(model) ==> IncludeModel(model) == line
  {
    var r := IncludeModel(model);
    assert r[|IncludeModelOpen|..|r| - |IncludeModelClose|] == model;
    if IncludedModel(line) == Some(model) {
      var a := line[..|IncludeModelOpen|];
      var b := line[|IncludeModelOpen|..|line| - |IncludeModelClose|];
      var c := line[|line| - |IncludeModelClose|..];
      assert line == a + b + c;
    }
  }

  /* ----- generate_file_definition ----- */

  /** The include-guard macro: the model name upper-cased, then `_HPP`. */
  function Guard(model: string): (g: string)
    ensures |g| == |model| + 4 && EndsWith(g, "_HPP")
    ensures g[..|model|] == Upper(model)
    ensures forall i :: 0 <= i < |g| ==> !('a' <= g[i] <= 'z')
  {
    Upper(model) + "_HPP"
  }

  /** `generate_file_definition`: `#ifndef` and `#define` of the guard,
      then a blank line. */
  function FileDefinition(model: string): string
  {
    "#ifndef " + Guard(model) + "\n#define " + Guard(model) + "\n\n"
  }

  /** For a one-line model name the definition is exactly three lines: the
      `#ifndef` and the `#define` of one and the same guard, and a blank
      line. */
  lemma {:induction false} FileDefinitionLines(model: string)
    requires '\n' !in model
    ensures Lines(FileDefinition(model)) == ["#ifndef " + Guard(model) + "\n", "#define " + Guard(model) + "\n", "\n"]
  {
    var g := Guard(model);
    GuardOneLine(model);
    var l1 := "#ifndef " + g;
    var l2 := "#define " + g;
    NoNewlineConcat("#ifndef ", g);
    NoNewlineConcat("#define ", g);
    LineOf(l1);
    LineOf(l2);
    LineOf("");
    var ls := [l1 + "\n", l2 + "\n", "" + "\n"];
    FileDefinitionPieces(model);
    ConcatThree(l1 + "\n", l2 + "\n", "" + "\n");
    assert Concat(ls) == FileDefinition(model);
    assert IsLine(ls[0]) && IsLine(ls[1]) && IsLine(ls[2]);
    LinesOfConcat(ls);
    assert "" + "\n" == "\n";
  }

  /** The guard of a one-line model name is itself one line. */
  lemma {:induction false} GuardOneLine(model: string)
    requires '\n' !in model
    ensures '\n' !in Guard(model)
  {
    var g := Guard(model);
    forall i | 0 <= i < |g|
      ensures g[i] != '\n'
    {
      if i < |model| {
        assert g[i] == UpperChar(model[i]);
        assert model[i] != '\n';
      } else {
        assert g[i] == "_HPP"[i - |model|];
      }
    }
  }

  lemma {:induction false} NoNewlineConcat(a: string, b: string)
    requires '\n' !in a && '\n' !in b
    ensures '\n' !in a + b
  {
    assert forall c :: c in a + b ==> c in a || c in b;
  }

  lemma {:induction false} FileDefinitionPieces(model: string)
    ensures FileDefinition(model) == ("#ifndef " + Guard(model) + "\n") + ("#define " + Guard(model) + "\n") + ("" + "\n")
  {
    assert "\n#define " == "\n" + "#define " && "\n\n" == "\n" + "\n";
  }

  /** The guard ignores the case of the model name. */
  lemma {:induction false} FileDefinitionIgnoresCase(model: string)
    ensures FileDefinition(Upper(model)) == FileDefinition(model)
  {
    assert Upper(Upper(model)) == Upper(model);
  }

  /* ----- replace_inf ----- */

  const InfInitialiser: string := "(inf)"

  const InfStatement: string := " inf;"

  /** `replace_inf`: `(inf)` and then ` inf;` become Cadmium's infinity. */
  function ReplaceInf(text: string): string
  {
    Replace(Replace(text, InfInitialiser, "(" + Infinity + ")"), InfStatement, " " + Infinity + ";")
  }

  /** Text without `(inf)` and ` inf;` is left as it is, however often the
      letters `inf` appear in it otherwise. */
  lemma {:induction false} ReplaceInfAbsent(text: string)
    requires !Occurs(text, InfInitialiser) && !Occurs(text, InfStatement)
    ensures ReplaceInf(text) == text
  {
    ReplaceAbsent(text, InfInitialiser, "(" + Infinity + ")");
    ReplaceAbsent(text, InfStatement, " " + Infinity + ";");
  }

  /** A head and a tail that hold neither spelling, and whose characters at
      the seams are in neither, keep the rewrite inside the middle. */
  lemma {:induction false} ReplaceInfFramed(head: string, body: string, tail: string)
    requires !Occurs(head, InfInitialiser) && !Occurs(head, InfStatement)
    requires |head| > 0 && head[|head| - 1] !in InfInitialiser && head[|head| - 1] !in InfStatement
    requires !Occurs(tail, InfInitialiser) && !Occurs(tail, InfStatement)
    requires |tail| > 0 && tail[0] !in InfInitialiser && tail[0] !in InfStatement
    ensures ReplaceInf(head + body + tail) == head + ReplaceInf(body) + tail
  {
    var rep1 := "(" + Infinity + ")";
    ReplaceFramed(head, body, tail, InfInitialiser, rep1);
    ReplaceFramed(head, Replace(body, InfInitialiser, rep1), tail, InfStatement, " " + Infinity + ";");
  }

  /** Every occurrence of the two spellings is rewritten: the text is cut
      at each `(inf)`, reglued with the initialiser spelling, then cut at
      each ` inf;` and reglued with the statement spelling. */
  lemma {:induction false} ReplaceInfRewritesEveryOccurrence(text: string)
    ensures
      var first := Split(text, InfInitialiser);
      var mid := Join(first, "(" + Infinity + ")");
      var second := Split(mid, InfStatement);
      && Join(first, InfInitialiser) == text
      && (forall k :: 0 <= k < |first| ==> !Occurs(first[k], InfInitialiser))
      && Join(second, InfStatement) == mid
      && (forall k :: 0 <= k < |second| ==> !Occurs(second[k], InfStatement))
      && ReplaceInf(text) == Join(second, " " + Infinity + ";")
  {
    var first := Split(text, InfInitialiser);
    var mid := Join(first, "(" + Infinity + ")");
    SplitJoin(text, InfInitialiser);
    SplitPiecesFree(text, InfInitialiser);
    ReplaceIsJoinOfSplit(text, InfInitialiser, "(" + Infinity + ")");
    SplitJoin(mid, InfStatement);
    SplitPiecesFree(mid, InfStatement);
    ReplaceIsJoinOfSplit(mid, InfStatement, " " + Infinity + ";");
  }

  /* ----- Experiment lookups ----- */

  /** `get_simulation_time_in_seconds`: the experiment's `time_span`. */
  function SimulationTime(experiment: Value): (r: Result<Value>)
    ensures r.Ok? <==> experiment.Obj? && "time_span" in KeySet(experiment.fields)
    ensures r.Ok? ==> Get(experiment.fields, "time_span") == Some(r.value)
  {
    Lookup(experiment, "time_span")
  }

  const CoupledSuffix: string := "_coupled.json"

  /** `get_top_model_name`: the model under test, without a trailing
      `_coupled.json`. */
  function TopModelName(experiment: Value): (r: Result<string>)
    ensures r.Ok? ==> exists model ::
      && Lookup(experiment, "model_under_test").Ok?
      && Lookup(Lookup(experiment, "model_under_test").value, "model") == Ok(Str(model))
      && (if EndsWith(model, CoupledSuffix) then r.value + CoupledSuffix == model else r.value == model)
  {
    var test :- Lookup(experiment, "model_under_test");
    var model :- Lookup(test, "model");
    if model.Str? then Ok(RemoveSuffix(model.s, CoupledSuffix))
    else Err(AttributeError("object has no attribute 'removesuffix'"))
  }

  /** An experiment naming a coupled-model file yields that model's name,
      and one naming a bare model yields the name itself. */
  lemma {:induction false} TopModelNameOfFile(name: string, rest: seq<(string, Value)>, others: seq<(string, Value)>)
    ensures
      var exp := (m: string) => Obj([("model_under_test", Obj([("model", Str(m))] + rest))] + others);
      && TopModelName(exp(name + CoupledSuffix)) == Ok(name)
      && (!EndsWith(name, CoupledSuffix) ==> TopModelName(exp(name)) == Ok(name))
  {
    var m := name + CoupledSuffix;
    assert m[|m| - |CoupledSuffix|..] == CoupledSuffix;
    assert m[..|m| - |CoupledSuffix|] == name;
  }

  /** `get_top_model`: the top model is looked up in the first coupled
      model record only. */
  function TopModel(coupledModels: seq<Value>, topModelName: string): (r: Result<Value>)
    ensures |coupledModels| == 0 ==> r.Err? && r.error.IndexError?
    ensures r.Ok? ==> coupledModels[0].Obj? && Get(coupledModels[0].fields, topModelName) == Some(r.value)
  {
    if |coupledModels| == 0 then Err(IndexError("list index out of range"))
    else Lookup(coupledModels[0], topModelName)
  }

  /** Records after the first never matter, even when only they hold the
      name. */
  lemma {:induction false} TopModelFirstRecordOnly(first: Value, a: seq<Value>, b: seq<Value>, topModelName: string)
    ensures TopModel([first] + a, topModelName) == TopModel([first] + b, topModelName)
    ensures (!first.Obj? || topModelName !in KeySet(first.fields)) ==> TopModel([first] + a, topModelName).Err?
  {
    assert ([first] + a)[0] == first && ([first] + b)[0] == first;
  }
}
