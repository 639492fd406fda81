/** The header of a coupled model (`generate_coupled_model_hpp.py`): the
    includes of its components' headers, and a struct whose constructor
    adds every component and every internal coupling. */
module CoupledModel {
  import opened Outcome
  import opened Json
  import opened Text
  import opened SimpleStatements

  const IncludeCoupled: string := "#include \"cadmium/modeling/devs/coupled.hpp\"\n"

  /* ----- get_components ----- */

  /** `get_components`: the `components` member of the model. */
  function Components(model: Value): (r: Result<Value>)
    ensures r.Ok? <==> model.Obj? && "components" in KeySet(model.fields)
  {
    Lookup(model, "components")
  }

  /** The components are handed on as the model holds them. */
  lemma {:induction false} ComponentsUnchanged(before: seq<(string, Value)>, components: Value, after: seq<(string, Value)>)
    requires "components" !in KeySet(before)
    ensures Components(Obj(before + [("components", components)] + after)) == Ok(components)
    decreases |before|
  {
    var fs := before + [("components", components)] + after;
    if |before| == 0 {
      assert fs[0] == ("components", components);
    } else {
      assert fs[1..] == before[1..] + [("components", components)] + after;
      assert "components" !in KeySet(before[1..]) by {
        forall i | 0 <= i < |before[1..]|
          ensures before[1..][i].0 != "components"
        {
          assert before[1..][i] == before[i + 1];
        }
      }
      ComponentsUnchanged(before[1..], components, after);
    }
  }

  /* ----- include_component_models ----- */

  const IncludeOpen: string := "#include \""

  const IncludeClose: string := ".hpp\"\n"

  /** The include line of one component's header. */
  function IncludeLine(name: string): (r: string)
    ensures StartsWith(r, IncludeOpen) && EndsWith(r, IncludeClose)
    ensures |r| == |IncludeOpen| + |name| + |IncludeClose|
  {
    IncludeOpen + name + IncludeClose
  }

  /** The component an include line names, read back out of it. */
  function IncludedName(line: string): Option<string>
  {
    if |line| >= |IncludeOpen| + |IncludeClose| && StartsWith(line, IncludeOpen) && EndsWith(line, IncludeClose)
    then Some(line[|IncludeOpen|..|line| - |IncludeClose|])
    else None
  }

  /** The include line determines the component, and every line that
      names a component is that component's include line. */
  lemma {:induction false} IncludeLineRoundTrip(name: string, line: string)
    ensures IncludedName(IncludeLine(name)) == Some(name)
    ensures IncludedName(line) == Some(name) ==> IncludeLine(name) == line
  {
    var r := IncludeLine(name);
    assert r[|IncludeOpen|..|r| - |IncludeClose|] == name;
    if IncludedName(line) == Some(name) {
      var a := line[..|IncludeOpen|];
      var b := line[|IncludeOpen|..|line| - |IncludeClose|];
      var c := line[|line| - |IncludeClose|..];
      assert line == a + b + c;
    }
  }

  function IncludeLinesOf(names: seq<string>): (r: seq<string>)
    ensures |r| == |names| && forall k :: 0 <= k < |names| ==> r[k] == IncludeLine(names[k])
  {
    seq(|names|, k requires 0 <= k < |names| => IncludeLine(names[k]))
  }

  /** `for file_name in components`: what iterating the components yields,
      each of which must be a string. */
  function ComponentNames(components: Value): (r: Result<seq<string>>)
    ensures r.Ok? <==> Iterate(components).Ok? && forall k :: 0 <= k < |Iterate(components).value| ==> Iterate(components).value[k].Str?
    ensures r.Ok? ==> |r.value| == |Iterate(components).value|
    ensures r.Ok? ==> forall k :: 0 <= k < |r.value| ==> Iterate(components).value[k] == Str(r.value[k])
  {
    var items :- Iterate(components);
    Strings(items)
  }

  function Strings(items: seq<Value>): (r: Result<seq<string>>)
    ensures r.Ok? <==> forall k :: 0 <= k < |items| ==> items[k].Str?
    ensures r.Ok? ==> |r.value| == |items| && forall k :: 0 <= k < |items| ==> items[k] == Str(r.value[k])
  {
    if |items| == 0 then Ok([])
    else if !items[0].Str? then Err(TypeError("can only concatenate str to str"))
    else
      var rest :- Strings(items[1..]);
      Ok([items[0].s] + rest)
  }

  /** An object of components yields its keys, the component types, in
      declared order. */
  lemma {:induction false} ComponentNamesAreKeys(fields: seq<(string, Value)>)
    ensures ComponentNames(Obj(fields)) == Ok(Keys(fields))
  {
    var items := Iterate(Obj(fields)).value;
    var r := ComponentNames(Obj(fields));
    assert r.Ok?;
    assert r.value == Keys(fields);
  }

  /** `include_component_models`: one include line per component, then a
      blank line. */
  function IncludeComponents(model: Value): Result<string>
  {
    var components :- Components(model);
    var names :- ComponentNames(components);
    Ok(Concat(IncludeLinesOf(names)) + "\n")
  }

  /** Read back line by line, the includes are exactly one line per
      component, in declared order, and a blank line. */
  lemma {:induction false} IncludeComponentsLines(model: Value)
    requires IncludeComponents(model).Ok?
    requires forall k :: 0 <= k < |ComponentNames(Components(model).value).value| ==> '\n' !in ComponentNames(Components(model).value).value[k]
    ensures Lines(IncludeComponents(model).value) == IncludeLinesOf(ComponentNames(Components(model).value).value) + ["\n"]
  {
    var names := ComponentNames(Components(model).value).value;
    assert IncludeComponents(model).value == Concat(IncludeLinesOf(names)) + "\n";
    IncludeLinesThenBlank(names);
  }

  lemma {:induction false} IncludeLinesThenBlank(names: seq<string>)
    requires forall k :: 0 <= k < |names| ==> '\n' !in names[k]
    ensures Lines(Concat(IncludeLinesOf(names)) + "\n") == IncludeLinesOf(names) + ["\n"]
  {
    var ls := IncludeLinesOf(names);
    var all := ls + ["\n"];
    forall k | 0 <= k < |all|
      ensures IsLine(all[k])
    {
      if k < |ls| {
        IncludeIsLine(names[k]);
      } else {
        assert all[k] == "\n";
      }
    }
    ConcatAppend(ls, ["\n"]);
    assert ["\n"][1..] == [];
    assert Concat(["\n"]) == "\n";
    assert Concat(all) == Concat(ls) + "\n";
    LinesOfConcat(all);
  }

  lemma {:induction false} IncludeIsLine(name: string)
    requires '\n' !in name
    ensures IsLine(IncludeLine(name))
  {
    NoNewline(IncludeOpen, name);
    NoNewline(IncludeOpen + name, ".hpp\"");
    LineOf(IncludeOpen + name + ".hpp\"");
  }

  /* ----- generate_coupled_model_struct ----- */

  function StructHead(name: string): string
  {
    "struct " + name + " : public Coupled {\n"
  }

  function CoupledConstructorHead(name: string): string
  {
    "\t" + name + "(const std::string& id) : Coupled(id) {\n"
  }

  /** The statement that adds one component, given its type and its id. */
  function AddComponent(component: (string, string)): string
  {
    "\t\tauto " + component.1 + " = addComponent<" + component.0 + ">(\"" + component.1 + "\");\n"
  }

  function AddComponentsOf(components: seq<(string, string)>): (r: seq<string>)
    ensures |r| == |components| && forall k :: 0 <= k < |components| ==> r[k] == AddComponent(components[k])
  {
    seq(|components|, k requires 0 <= k < |components| => AddComponent(components[k]))
  }

  /** `components.items()`: the components must be an object whose ids
      are strings. */
  function ComponentEntries(components: Value): (r: Result<seq<(string, string)>>)
    ensures r.Ok? <==> components.Obj? && StringEntries(components.fields).Ok?
    ensures r.Ok? ==> r.value == StringEntries(components.fields).value
  {
    match components
    case Obj(fields) => StringEntries(fields)
    case _ => Err(AttributeError("object has no attribute 'items'"))
  }

  /** The statement that couples an output port of one component to an
      input port of another. */
  function AddCoupling(from: string, portFrom: string, to: string, portTo: string): string
  {
    "\t\taddCoupling(" + from + "->" + portFrom + ", " + to + "->" + portTo + ");\n"
  }

  /** One entry of `ic`: its four members are read in this order and must
      be strings. */
  function Coupling(c: Value): (r: Result<string>)
    ensures r.Ok? <==> LookupStr(c, "component_from").Ok? && LookupStr(c, "port_from").Ok?
                       && LookupStr(c, "component_to").Ok? && LookupStr(c, "port_to").Ok?
    ensures r.Ok? ==> r.value == AddCoupling(LookupStr(c, "component_from").value, LookupStr(c, "port_from").value,
                                             LookupStr(c, "component_to").value, LookupStr(c, "port_to").value)
  {
    var from :- LookupStr(c, "component_from");
    var portFrom :- LookupStr(c, "port_from");
    var to :- LookupStr(c, "component_to");
    var portTo :- LookupStr(c, "port_to");
    Ok(AddCoupling(from, portFrom, to, portTo))
  }

  /** The coupling statements of `ic`, in list order. */
  function Couplings(items: seq<Value>): (r: Result<seq<string>>)
    ensures r.Ok? <==> forall k :: 0 <= k < |items| ==> Coupling(items[k]).Ok?
    ensures r.Ok? ==> |r.value| == |items| && forall k :: 0 <= k < |items| ==> r.value[k] == Coupling(items[k]).value
  {
    MapResult(items, Coupling)
  }

  const StructEnd: seq<string> := ["\t}\n", "};\n", "\n"]

  /** The struct's lines before the components: its head, a blank line and
      the constructor's head, all named after the model. */
  function StructOpening(name: string): seq<string>
  {
    [StructHead(name), "\n", CoupledConstructorHead(name)]
  }

  /** `generate_coupled_model_struct`: the components are added in
      declared order, then the couplings in list order. */
  function CoupledStruct(name: string, model: Value): (r: Result<string>)
    ensures r.Ok? <==> Components(model).Ok? && ComponentEntries(Components(model).value).Ok?
                       && Lookup(model, "ic").Ok? && Iterate(Lookup(model, "ic").value).Ok?
                       && Couplings(Iterate(Lookup(model, "ic").value).value).Ok?
  {
    var components :- Components(model);
    var entries :- ComponentEntries(components);
    var ic :- Lookup(model, "ic");
    var items :- Iterate(ic);
    var couplings :- Couplings(items);
    Ok(Concat(StructOpening(name)) + Concat(AddComponentsOf(entries)) + Concat(["\n"]) + Concat(couplings) + Concat(StructEnd))
  }

  /** Component types and ids, and coupling statements, that fit on one
      line. */
  predicate OneLineEntries(entries: seq<(string, string)>)
  {
    forall k :: 0 <= k < |entries| ==> '\n' !in entries[k].0 && '\n' !in entries[k].1
  }

  /** Read back line by line, the struct is its head, a blank line and the
      constructor head, both named after the model; then exactly one
      `addComponent` line per component in declared order, a blank line,
      exactly one `addCoupling` line per internal coupling in list order,
      and the closing braces. */
  lemma {:induction false} CoupledStructLines(name: string, model: Value)
    requires CoupledStruct(name, model).Ok?
    requires '\n' !in name
    requires OneLineEntries(ComponentEntries(Components(model).value).value)
    requires forall k :: 0 <= k < |Iterate(Lookup(model, "ic").value).value| ==>
      OneLineCoupling(Iterate(Lookup(model, "ic").value).value[k])
    ensures
      var adds := AddComponentsOf(ComponentEntries(Components(model).value).value);
      var cs := Couplings(Iterate(Lookup(model, "ic").value).value).value;
      Lines(CoupledStruct(name, model).value) == StructOpening(name) + adds + ["\n"] + cs + StructEnd
  {
    var entries := ComponentEntries(Components(model).value).value;
    var items := Iterate(Lookup(model, "ic").value).value;
    var adds := AddComponentsOf(entries);
    var cs := Couplings(items).value;
    OpeningIsLines(name);
    forall k | 0 <= k < |adds|
      ensures IsLine(adds[k])
    {
      AddComponentIsLine(entries[k]);
    }
    forall k | 0 <= k < |cs|
      ensures IsLine(cs[k])
    {
      CouplingIsLine(items[k]);
    }
    assert IsLine("\n");
    EndIsLines();
    FramedLines(StructOpening(name), adds, ["\n"], cs, StructEnd);
  }

  lemma {:induction false} OpeningIsLines(name: string)
    requires '\n' !in name
    ensures forall k :: 0 <= k < |StructOpening(name)| ==> IsLine(StructOpening(name)[k])
  {
    StructHeadIsLine(name);
    ConstructorHeadIsLine(name);
    assert IsLine("\n");
  }

  lemma {:induction false} StructHeadIsLine(name: string)
    requires '\n' !in name
    ensures IsLine(StructHead(name))
  {
    NoNewline("struct ", name);
    NoNewline("struct " + name, " : public Coupled {");
    LineOf("struct " + name + " : public Coupled {");
  }

  lemma {:induction false} ConstructorHeadIsLine(name: string)
    requires '\n' !in name
    ensures IsLine(CoupledConstructorHead(name))
  {
    NoNewline("\t", name);
    NoNewline("\t" + name, "(const std::string& id) : Coupled(id) {");
    LineOf("\t" + name + "(const std::string& id) : Coupled(id) {");
  }

  lemma {:induction false} EndIsLines()
    ensures forall k :: 0 <= k < |StructEnd| ==> IsLine(StructEnd[k])
  {
  }

  lemma {:induction false} AddComponentIsLine(c: (string, string))
    requires '\n' !in c.0 && '\n' !in c.1
    ensures IsLine(AddComponent(c))
  {
    var a := "\t\tauto " + c.1;
    NoNewline("\t\tauto ", c.1);
    NoNewline(a, " = addComponent<");
    NoNewline(a + " = addComponent<", c.0);
    NoNewline(a + " = addComponent<" + c.0, ">(\"");
    NoNewline(a + " = addComponent<" + c.0 + ">(\"", c.1);
    NoNewline(a + " = addComponent<" + c.0 + ">(\"" + c.1, "\");");
    LineOf(a + " = addComponent<" + c.0 + ">(\"" + c.1 + "\");");
  }

  /** A coupling whose four members are one-line strings. */
  predicate OneLineCoupling(c: Value)
  {
    c.Obj? ==> forall k :: 0 <= k < |c.fields| ==> (c.fields[k].1.Str? ==> '\n' !in c.fields[k].1.s)
  }

  lemma {:induction false} CouplingIsLine(c: Value)
    requires Coupling(c).Ok? && OneLineCoupling(c)
    ensures IsLine(Coupling(c).value)
  {
    var f := LookupStr(c, "component_from").value;
    var pf := LookupStr(c, "port_from").value;
    var t := LookupStr(c, "component_to").value;
    var pt := LookupStr(c, "port_to").value;
    var a := "\t\taddCoupling(" + f;
    NoNewline("\t\taddCoupling(", f);
    NoNewline(a, "->");
    NoNewline(a + "->", pf);
    NoNewline(a + "->" + pf, ", ");
    NoNewline(a + "->" + pf + ", ", t);
    NoNewline(a + "->" + pf + ", " + t, "->");
    NoNewline(a + "->" + pf + ", " + t + "->", pt);
    NoNewline(a + "->" + pf + ", " + t + "->" + pt, ");");
    LineOf(a + "->" + pf + ", " + t + "->" + pt + ");");
  }

  /* ----- generate_coupled_model ----- */

  /** `generate_coupled_model`: the text written to `<model>.hpp`. */
  function CoupledFile(name: string, model: Value): (r: Result<string>)
    ensures r.Ok? <==> IncludeComponents(model).Ok? && CoupledStruct(name, model).Ok?
    ensures r.Ok? ==> StartsWith(r.value, FileDefinition(name)) && EndsWith(r.value, EndGuard)
  {
    var includes :- IncludeComponents(model);
    var st :- CoupledStruct(name, model);
    var def := FileDefinition(name);
    var body := IncludeCoupled + includes + CadmiumNamespace + st;
    Framed(def, body, EndGuard);
    Ok(def + body + EndGuard)
  }

  /** The path and text of the header generated for one record. */
  function CoupledRecordFile(record: Value): (r: Result<(string, string)>)
    ensures r.Ok? ==> RecordName(record).Ok? && r.value.0 == RecordName(record).value + ".hpp"
  {
    var name :- RecordName(record);
    var text :- CoupledFile(name, record.fields[0].1);
    Ok((name + ".hpp", text))
  }

  /** `generate_coupled_models`: one header per record, in record order. */
  function CoupledModels(records: seq<Value>): (r: Result<seq<(string, string)>>)
    ensures r.Ok? <==> forall i :: 0 <= i < |records| ==> CoupledRecordFile(records[i]).Ok?
    ensures r.Ok? ==> |r.value| == |records|
    ensures r.Ok? ==> forall i :: 0 <= i < |records| ==> r.value[i] == CoupledRecordFile(records[i]).value
  {
    MapResult(records, CoupledRecordFile)
  }
}
