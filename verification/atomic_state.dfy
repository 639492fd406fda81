/** The state half of an atomic model's header (`generate_atomic_model_hpp.py`):
    the state type's name, the search for the model's initial values in the
    repository's initial-state document, the state struct with its
    constructor, and the `<<` printer for the state. */
module AtomicState {
  import opened Outcome
  import opened Json
  import opened Text
  import opened SimpleStatements

  /* ----- get_state_name ----- */

  const StateSuffix: string := "State"

  /** `get_state_name`: the model name with `State` appended. */
  function StateName(model: string): (r: string)
    ensures EndsWith(r, StateSuffix) && |r| == |model| + |StateSuffix|
  {
    model + StateSuffix
  }

  /** The model name is recovered from the state name by removing the
      suffix, so distinct models have distinct state types. */
  lemma {:induction false} StateNameRoundTrip(model: string, other: string)
    ensures RemoveSuffix(StateName(model), StateSuffix) == model
    ensures StateName(model) == StateName(other) ==> model == other
  {
    var r := StateName(model);
    assert r[..|r| - |StateSuffix|] == model;
    if StateName(model) == StateName(other) {
      assert other == StateName(other)[..|other|];
    }
  }

  /* ----- find_initialization_values_for_model ----- */

  /** An object whose key set is exactly the state variables' names. */
  predicate Matches(v: Value, names: set<string>)
  {
    v.Obj? && KeySet(v.fields) == names
  }

  /** `recursive_search`: an object that matches is returned as it is;
      otherwise the values of an object, or the items of a list, are
      searched in order and the first truthy result is returned. */
  function Search(v: Value, names: set<string>): Option<Value>
    decreases v, 1
  {
    match v
    case Obj(fs) => if KeySet(fs) == names then Some(v) else SearchFields(fs, names, 0)
    case Arr(items) => SearchItems(items, names, 0)
    case _ => None
  }

  function SearchFields(fs: seq<(string, Value)>, names: set<string>, i: nat): Option<Value>
    requires i <= |fs|
    decreases Obj(fs), 0, |fs| - i
  {
    if i == |fs| then None
    else
      var r := Search(fs[i].1, names);
      if r.Some? && Truthy(r.value) then r else SearchFields(fs, names, i + 1)
  }

  function SearchItems(items: seq<Value>, names: set<string>, i: nat): Option<Value>
    requires i <= |items|
    decreases Arr(items), 0, |items| - i
  {
    if i == |items| then None
    else
      var r := Search(items[i], names);
      if r.Some? && Truthy(r.value) then r else SearchItems(items, names, i + 1)
  }

  /** Every node of a document in pre-order: a node, then the nodes under
      each of its values or items in order. */
  function PreOrder(v: Value): seq<Value>
    decreases v, 1
  {
    [v] + match v
      case Obj(fs) => FieldsPreOrder(fs, 0)
      case Arr(items) => ItemsPreOrder(items, 0)
      case _ => []
  }

  function FieldsPreOrder(fs: seq<(string, Value)>, i: nat): seq<Value>
    requires i <= |fs|
    decreases Obj(fs), 0, |fs| - i
  {
    if i == |fs| then [] else PreOrder(fs[i].1) + FieldsPreOrder(fs, i + 1)
  }

  function ItemsPreOrder(items: seq<Value>, i: nat): seq<Value>
    requires i <= |items|
    decreases Arr(items), 0, |items| - i
  {
    if i == |items| then [] else PreOrder(items[i]) + ItemsPreOrder(items, i + 1)
  }

  /** The first node of a list that matches and is non-empty. */
  function FirstMatch(vs: seq<Value>, names: set<string>): (r: Option<Value>)
    ensures r.Some? ==> Matches(r.value, names) && Truthy(r.value) && r.value in vs
    ensures r.None? ==> forall k :: 0 <= k < |vs| ==> !(Matches(vs[k], names) && Truthy(vs[k]))
  {
    if |vs| == 0 then None
    else if Matches(vs[0], names) && Truthy(vs[0]) then Some(vs[0])
    else FirstMatch(vs[1..], names)
  }

  lemma {:induction false} FirstMatchConcat(a: seq<Value>, b: seq<Value>, names: set<string>)
    ensures FirstMatch(a + b, names) == if FirstMatch(a, names).Some? then FirstMatch(a, names) else FirstMatch(b, names)
  {
    if |a| > 0 {
      assert (a + b)[0] == a[0];
      assert (a + b)[1..] == a[1..] + b;
      FirstMatchConcat(a[1..], b, names);
    } else {
      assert a + b == b;
    }
  }

  /** The search returns the document itself when it matches, and otherwise
      the first node below it, in pre-order, that matches and is not empty.
      Scalars never match. */
  lemma {:induction false} SearchIsFirstMatch(v: Value, names: set<string>)
    ensures Search(v, names) == if Matches(v, names) then Some(v) else FirstMatch(PreOrder(v)[1..], names)
    decreases v, 1, 0
  {
    var below := PreOrder(v)[1..];
    match v
    case Obj(fs) =>
      assert below == FieldsPreOrder(fs, 0);
      if KeySet(fs) != names {
        SearchFieldsIsFirstMatch(fs, names, 0);
      }
    case Arr(items) =>
      assert below == ItemsPreOrder(items, 0);
      SearchItemsIsFirstMatch(items, names, 0);
    case _ =>
      assert below == [];
  }

  lemma {:induction false} SearchFieldsIsFirstMatch(fs: seq<(string, Value)>, names: set<string>, i: nat)
    requires i <= |fs|
    ensures SearchFields(fs, names, i) == FirstMatch(FieldsPreOrder(fs, i), names)
    decreases Obj(fs), 0, |fs| - i
  {
    if i < |fs| {
      ChildIsFirstMatch(fs[i].1, names);
      SearchFieldsIsFirstMatch(fs, names, i + 1);
      FirstMatchConcat(PreOrder(fs[i].1), FieldsPreOrder(fs, i + 1), names);
    }
  }

  lemma {:induction false} SearchItemsIsFirstMatch(items: seq<Value>, names: set<string>, i: nat)
    requires i <= |items|
    ensures SearchItems(items, names, i) == FirstMatch(ItemsPreOrder(items, i), names)
    decreases Arr(items), 0, |items| - i
  {
    if i < |items| {
      ChildIsFirstMatch(items[i], names);
      SearchItemsIsFirstMatch(items, names, i + 1);
      FirstMatchConcat(PreOrder(items[i]), ItemsPreOrder(items, i + 1), names);
    }
  }

  /** What a parent keeps of a child's search: the result when it is
      truthy, which is the first match in the child's whole pre-order. */
  lemma {:induction false} ChildIsFirstMatch(c: Value, names: set<string>)
    ensures (if Search(c, names).Some? && Truthy(Search(c, names).value) then Search(c, names) else None)
            == FirstMatch(PreOrder(c), names)
    decreases c, 2, 0
  {
    SearchIsFirstMatch(c, names);
    var p := PreOrder(c);
    assert p[0] == c;
    if Matches(c, names) && !Truthy(c) {
      assert c == Obj([]);
      assert p == [c];
    }
  }

  /** `find_initialization_values_for_model`. */
  function FindInitialisation(initStates: Value, names: set<string>): (r: Option<Value>)
    ensures r.Some? ==> Matches(r.value, names)
  {
    SearchIsFirstMatch(initStates, names);
    Search(initStates, names)
  }

  /* ----- generate_state_struct ----- */

  /** `model['s']`, iterated with `.items()`: it must be an object. */
  function StateVariables(model: Value): (r: Result<seq<(string, Value)>>)
    ensures r.Ok? <==> Lookup(model, "s").Ok? && Lookup(model, "s").value.Obj?
    ensures r.Ok? ==> Lookup(model, "s").value == Obj(r.value)
  {
    var s :- Lookup(model, "s");
    if s.Obj? then Ok(s.fields) else Err(AttributeError("object has no attribute 'items'"))
  }

  /** The declaration of one state variable. */
  function Declaration(name: string, typ: string): string
  {
    "\t" + typ + " " + name + ";\n"
  }

  /** The declarations of the state variables in declared order; every type
      must be a string. */
  function Declarations(vars: seq<(string, Value)>): (r: Result<seq<string>>)
    ensures r.Ok? <==> forall k :: 0 <= k < |vars| ==> vars[k].1.Str?
    ensures r.Ok? ==> |r.value| == |vars|
    ensures r.Ok? ==> forall k :: 0 <= k < |vars| ==> r.value[k] == Declaration(vars[k].0, vars[k].1.s)
    ensures r.Err? ==> r.error.TypeError?
  {
    if |vars| == 0 then Ok([])
    else if !vars[0].1.Str? then Err(TypeError("can only concatenate str to str"))
    else
      var rest :- Declarations(vars[1..]);
      Ok([Declaration(vars[0].0, vars[0].1.s)] + rest)
  }

  /** One member initialiser, without the separator after it. */
  function Initialiser(name: string, value: string): string
  {
    " " + name + "(" + value + ")"
  }

  /** The initialisers of the state variables in declared order. With no
      initial-value object found the first subscription fails, and every
      value must be a string. */
  function Initialisers(vars: seq<(string, Value)>, init: Option<Value>): (r: Result<seq<string>>)
    ensures |vars| > 0 && init.None? ==> r.Err? && r.error.TypeError?
    ensures r.Ok? ==> |r.value| == |vars|
    ensures r.Ok? ==> forall k :: 0 <= k < |vars| ==>
      init.Some? && LookupStr(init.value, vars[k].0).Ok?
      && r.value[k] == Initialiser(vars[k].0, LookupStr(init.value, vars[k].0).value)
  {
    if |vars| == 0 then Ok([])
    else if init.None? then Err(TypeError("'NoneType' object is not subscriptable"))
    else
      var value :- LookupStr(init.value, vars[0].0);
      var rest :- Initialisers(vars[1..], init);
      Ok([Initialiser(vars[0].0, value)] + rest)
  }

  const InitSeparator: string := ", "

  /** The characters `rstrip(', ')` removes. */
  const CommaSpace: set<char> := {',', ' '}

  const StructClose: string := " {\n\t}\n};\n\n"

  /** The struct before the infinity rewrite. */
  function StructText(stateName: string, vars: seq<(string, Value)>, init: Option<Value>): Result<string>
  {
    var decls :- Declarations(vars);
    var inits :- Initialisers(vars, init);
    Ok("struct " + stateName + " {\n" + Concat(decls) + "\n\texplicit " + stateName + "(): "
       + RStrip(Terminated(inits, InitSeparator), CommaSpace) + StructClose)
  }

  /** `generate_state_struct_no_parameters`. */
  function StateStruct(initStates: Value, stateName: string, model: Value): Result<string>
  {
    var vars :- StateVariables(model);
    var text :- StructText(stateName, vars, FindInitialisation(initStates, KeySet(vars)));
    Ok(ReplaceInf(text))
  }

  /** The constructor initialises every state variable once, in declared
      order, with the value the matching initial-state object holds for
      it; the initialisers are separated by the separator and nothing
      trails the last one. */
  lemma {:induction false} ConstructorInitialisesEveryVariable(stateName: string, vars: seq<(string, Value)>, init: Option<Value>)
    requires StructText(stateName, vars, init).Ok?
    ensures Declarations(vars).Ok? && Initialisers(vars, init).Ok?
    ensures
      var inits := Initialisers(vars, init).value;
      var list := if |vars| == 0 then "" else Join(inits, InitSeparator);
      StructText(stateName, vars, init).value
        == "struct " + stateName + " {\n" + Concat(Declarations(vars).value) + "\n\texplicit " + stateName + "(): "
           + list + StructClose
  {
    var inits := Initialisers(vars, init).value;
    if |vars| > 0 {
      var last := inits[|inits| - 1];
      assert last[|last| - 1] == ')';
      StripTerminated("", inits, InitSeparator, CommaSpace);
      assert "" + Terminated(inits, InitSeparator) == Terminated(inits, InitSeparator);
      assert "" + Join(inits, InitSeparator) == Join(inits, InitSeparator);
    }
  }

  /** A model with state variables but no matching initial-state object
      cannot be generated. */
  lemma {:induction false} MissingInitialisation(initStates: Value, stateName: string, model: Value)
    requires StateVariables(model).Ok? && |StateVariables(model).value| > 0
    requires FindInitialisation(initStates, KeySet(StateVariables(model).value)).None?
    ensures StateStruct(initStates, stateName, model).Err?
    ensures StateStruct(initStates, stateName, model).error.TypeError?
  {
  }

  /* ----- generate_bitshift_override_function ----- */

  /** How a state variable is printed, without the separator after it. */
  function Printed(name: string): string
  {
    name + ": \" << state." + name + " << \""
  }

  /** The printed form of every state variable, in declared order. */
  function PrintedAll(names: seq<string>): (r: seq<string>)
    ensures |r| == |names|
    ensures forall k :: 0 <= k < |names| ==> r[k] == Printed(names[k])
  {
    seq(|names|, k requires 0 <= k < |names| => Printed(names[k]))
  }

  function PrinterHead(stateName: string): string
  {
    "#ifndef NO_LOGGING\n" + "\tstd::ostream& operator<<(std::ostream &out, const " + stateName + "& state) {\n"
  }

  const PrinterTail: string := "\t\treturn out;\n" + "\t}\n#endif\n\n"

  const PrintOpen: string := "\t\tout << \"{"

  const PrintClose: string := "}\";\n"

  /** `generate_bitshift_override_function`. */
  function Printer(stateName: string, model: Value): Result<string>
  {
    var vars :- StateVariables(model);
    var names := Keys(vars);
    var head := PrinterHead(stateName);
    var items := PrintedAll(names);
    if |names| > 0 then
      Ok(RStrip(head + PrintOpen + Terminated(items, InitSeparator), CommaSpace) + PrintClose + PrinterTail)
    else
      Ok(head + PrinterTail)
  }

  lemma {:induction false} PrintedEndsWithQuote(name: string)
    ensures |Printed(name)| > 0 && Printed(name)[|Printed(name)| - 1] !in CommaSpace
  {
    var p := Printed(name);
    assert p == (name + ": \" << state." + name + " << ") + "\"";
  }

  /** Stripping the separators after the last piece of a list. */
  lemma {:induction false} StripList(head: string, open: string, items: seq<string>, close: string, tail: string)
    requires |items| > 0
    requires |items[|items| - 1]| > 0 && items[|items| - 1][|items[|items| - 1]| - 1] !in CommaSpace
    ensures RStrip(head + open + Terminated(items, InitSeparator), CommaSpace) + close + tail
            == head + (open + Join(items, InitSeparator) + close) + tail
  {
    StripTerminated(head + open, items, InitSeparator, CommaSpace);
  }

  /** The printer writes every state variable once, in declared order, as
      `name: value`, separated by the separator, all inside one pair of
      braces; without state variables it prints nothing. */
  lemma {:induction false} PrinterListsEveryVariable(stateName: string, model: Value)
    requires StateVariables(model).Ok?
    ensures
      var names := Keys(StateVariables(model).value);
      var items := PrintedAll(names);
      Printer(stateName, model) == Ok(PrinterHead(stateName)
        + (if |names| == 0 then "" else PrintOpen + Join(items, InitSeparator) + PrintClose)
        + PrinterTail)
  {
    var names := Keys(StateVariables(model).value);
    var items := PrintedAll(names);
    var head := PrinterHead(stateName);
    if |names| > 0 {
      assert items[|items| - 1] == Printed(names[|names| - 1]);
      PrintedEndsWithQuote(names[|names| - 1]);
      StripList(head, PrintOpen, items, PrintClose, PrinterTail);
    } else {
      assert head + "" + PrinterTail == head + PrinterTail;
    }
  }
}
