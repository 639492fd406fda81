/** One atomic model's header file and the loop over all atomic models
    (`generate_atomic_model_hpp.py`): the class that holds the ports, the
    constructor and the four DEVS functions, and the file that wraps the
    state struct, its printer and the class in an include guard. */
module AtomicModel {
  import opened Outcome
  import opened Json
  import opened Text
  import opened SimpleStatements
  import opened AtomicState
  import opened AtomicClass
  import opened AtomicFunctions

  /* ----- generate_class ----- */

  /** The members `generate_class` reads after the state variables, in the
      order it reads them. */
  const ClassKeys: seq<string> := ["x", "y", "delta_int", "delta_ext", "lambda", "ta"]

  /** The values of `keys` in `v`, read in order: the first missing key is
      the one reported. */
  function Members(v: Value, keys: seq<string>): (r: Result<seq<Value>>)
    ensures r.Ok? <==> forall j :: 0 <= j < |keys| ==> Lookup(v, keys[j]).Ok?
    ensures r.Ok? ==> |r.value| == |keys| && forall j :: 0 <= j < |keys| ==> r.value[j] == Lookup(v, keys[j]).value
  {
    if |keys| == 0 then Ok([])
    else
      var first :- Lookup(v, keys[0]);
      var rest :- Members(v, keys[1..]);
      Ok([first] + rest)
  }

  /** Of an object's members, the first one missing in the reading order
      is the one reported. */
  lemma {:induction false} FirstMissingMember(fields: seq<(string, Value)>, keys: seq<string>, i: nat)
    requires i < |keys|
    requires forall j :: 0 <= j < i ==> keys[j] in KeySet(fields)
    requires keys[i] !in KeySet(fields)
    ensures Members(Obj(fields), keys) == Err(KeyError(keys[i]))
    decreases i
  {
    if i > 0 {
      FirstMissingMember(fields, keys[1..], i - 1);
    }
  }

  function ClassHead(modelName: string, stateName: string): string
  {
    "class " + modelName + " : public Atomic<" + stateName + "> {\n"
  }

  const ClassClose: string := "};\n\n"

  /** `generate_class`: the port declarations, the constructor, the
      internal transition, the external transition, the output function
      and the time advance, in this order. */
  function Class(modelName: string, stateName: string, model: Value): (r: Result<string>)
    ensures r.Ok? ==> StartsWith(r.value, ClassHead(modelName, stateName)) && EndsWith(r.value, ClassClose)
    ensures r.Ok? ==> StateVariables(model).Ok? && Members(model, ClassKeys).Ok?
  {
    var vars :- StateVariables(model);
    var names := Keys(vars);
    var m :- Members(model, ClassKeys);
    var ports :- PortDeclarations(m[0], m[1]);
    var ctor :- Constructor(modelName, stateName, m[0], m[1]);
    var internal :- InternalTransition(stateName, m[2], names);
    var external :- ExternalTransition(stateName, m[3], names);
    var output :- OutputFunction(stateName, m[4], names);
    var ta :- TimeAdvance(stateName, m[5]);
    var head := ClassHead(modelName, stateName);
    var body := ports + ctor + internal + external + output + ta;
    Framed(head, body, ClassClose);
    Ok(head + body + ClassClose)
  }

  /** The class reads `s` and then its six other members in a fixed order,
      and a model that lacks one of them is reported by the first one it
      lacks. */
  lemma {:induction false} ClassReportsFirstMissingMember(modelName: string, stateName: string, fields: seq<(string, Value)>, i: nat)
    requires StateVariables(Obj(fields)).Ok?
    requires i < |ClassKeys|
    requires forall j :: 0 <= j < i ==> ClassKeys[j] in KeySet(fields)
    requires ClassKeys[i] !in KeySet(fields)
    ensures Class(modelName, stateName, Obj(fields)) == Err(KeyError(ClassKeys[i]))
  {
    FirstMissingMember(fields, ClassKeys, i);
  }

  /* ----- generate_atomic_model ----- */

  const IncludeIostream: string := "#include <iostream>\n"

  const IncludeAtomic: string := "#include \"cadmium/modeling/devs/atomic.hpp\"\n\n"

  /** The file behind the include guard: the includes, the namespace, the
      state struct, its printer and the class. */
  function AtomicBody(initStates: Value, modelName: string, model: Value): (r: Result<string>)
    ensures r.Ok? ==> StartsWith(r.value, Includes)
  {
    var stateName := StateName(modelName);
    var st :- StateStruct(initStates, stateName, model);
    var pr :- Printer(stateName, model);
    var cl :- Class(modelName, stateName, model);
    Framed(Includes, st + pr + cl, "");
    assert Includes + (st + pr + cl) + "" == Includes + (st + pr + cl);
    Ok(Includes + (st + pr + cl))
  }

  /** The includes and the namespace every atomic model's file opens
      with. */
  const Includes: string := IncludeIostream + IncludeAtomic + CadmiumNamespace

  /** `generate_atomic_model`: the text written to `<model>.hpp`. */
  function AtomicFile(initStates: Value, modelName: string, model: Value): (r: Result<string>)
    ensures r.Ok? <==> AtomicBody(initStates, modelName, model).Ok?
    ensures r.Ok? ==> StartsWith(r.value, FileDefinition(modelName)) && EndsWith(r.value, EndGuard)
  {
    var body :- AtomicBody(initStates, modelName, model);
    var def := FileDefinition(modelName);
    Framed(def, body, EndGuard);
    Ok(def + body + EndGuard)
  }

  /* ----- generate_atomic_models ----- */

  /** The path and text of the header generated for one record. */
  function RecordFile(initStates: Value, record: Value): (r: Result<(string, string)>)
    ensures r.Ok? ==> RecordName(record).Ok? && r.value.0 == RecordName(record).value + ".hpp"
  {
    var name :- RecordName(record);
    var text :- AtomicFile(initStates, name, record.fields[0].1);
    Ok((name + ".hpp", text))
  }

  /** `generate_atomic_models`: one header per record, in record order;
      the first record that cannot be generated stops the loop. */
  function AtomicModels(records: seq<Value>, initStates: Value): (r: Result<seq<(string, string)>>)
    ensures r.Ok? <==> forall i :: 0 <= i < |records| ==> RecordFile(initStates, records[i]).Ok?
    ensures r.Ok? ==> |r.value| == |records|
    ensures r.Ok? ==> forall i :: 0 <= i < |records| ==> r.value[i] == RecordFile(initStates, records[i]).value
  {
    MapResult(records, record => RecordFile(initStates, record))
  }

  /** A record that holds one model yields the header of that model,
      named after it. */
  lemma {:induction false} RecordFileNamedAfterModel(initStates: Value, name: string, model: Value)
    requires AtomicFile(initStates, name, model).Ok?
    ensures RecordFile(initStates, Obj([(name, model)])) == Ok((name + ".hpp", AtomicFile(initStates, name, model).value))
  {
    assert Get([(name, model)], name) == Some(model);
  }
}
