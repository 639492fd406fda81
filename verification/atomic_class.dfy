/** The class half of an atomic model's header (`generate_atomic_model_hpp.py`):
    port declarations, the constructor that registers the ports, the
    internal and external transitions, the output function, the time
    advance, and the assembly of the whole header file. */
module AtomicClass {
  import opened Outcome
  import opened Json
  import opened Text
  import opened Helper
  import opened SimpleStatements
  import opened BagRewrite
  import opened AtomicState

  /* ----- Ports ----- */

  /** A port set (`model['x']` or `model['y']`) as name and type pairs, in
      declared order; every type must be a string. */
  function PortTypes(ports: Value): (r: Result<seq<(string, string)>>)
    ensures r.Ok? ==> Entries(ports).Ok? && |r.value| == |Entries(ports).value|
    ensures r.Ok? ==> forall k :: 0 <= k < |r.value| ==>
      Entries(ports).value[k] == (r.value[k].0, Str(r.value[k].1))
    ensures Entries(ports).Ok? && (forall k :: 0 <= k < |Entries(ports).value| ==> Entries(ports).value[k].1.Str?) ==> r.Ok?
  {
    var es :- Entries(ports);
    StringEntries(es)
  }

  /** A port's member declaration. */
  function PortDeclaration(port: (string, string)): string
  {
    "\tPort<" + port.1 + "> " + port.0 + ";\n"
  }

  function PortDeclarationsOf(ports: seq<(string, string)>): (r: seq<string>)
    ensures |r| == |ports| && forall k :: 0 <= k < |ports| ==> r[k] == PortDeclaration(ports[k])
  {
    seq(|ports|, k requires 0 <= k < |ports| => PortDeclaration(ports[k]))
  }

  const Public: string := "\tpublic:\n"

  const InputsComment: string := "\t//input ports\n"

  const OutputsComment: string := "\t//output ports\n"

  const InputsRegComment: string := "\t\t//input ports\n"

  const OutputsRegComment: string := "\t\t//output ports\n"

  const Blank: string := "\n"

  const CloseMember: string := "\t}\n"

  /** `generate_port_declarations`: the input ports, then the output
      ports. */
  function PortDeclarations(inputs: Value, outputs: Value): Result<string>
  {
    var ins :- PortTypes(inputs);
    var outs :- PortTypes(outputs);
    Ok(Public + InputsComment + Concat(PortDeclarationsOf(ins))
       + Blank + OutputsComment + Concat(PortDeclarationsOf(outs)) + Blank)
  }

  /** The statement that registers a port in the constructor. */
  function PortRegistration(port: (string, string), direction: string): string
  {
    "\t\t" + port.0 + " = add" + direction + "Port<" + port.1 + ">(\"" + port.0 + "\");\n"
  }

  function PortRegistrationsOf(ports: seq<(string, string)>, direction: string): (r: seq<string>)
    ensures |r| == |ports| && forall k :: 0 <= k < |ports| ==> r[k] == PortRegistration(ports[k], direction)
  {
    seq(|ports|, k requires 0 <= k < |ports| => PortRegistration(ports[k], direction))
  }

  function ConstructorHead(modelName: string, stateName: string): string
  {
    "\t" + modelName + "(const std::string id) : Atomic<" + stateName + ">(id, " + stateName + "()) {\n"
  }

  /** `generate_class_constructor`: the input ports are registered, then
      the output ports. */
  function Constructor(modelName: string, stateName: string, inputs: Value, outputs: Value): Result<string>
  {
    var ins :- PortTypes(inputs);
    var outs :- PortTypes(outputs);
    Ok(ConstructorHead(modelName, stateName) + InputsRegComment + Concat(PortRegistrationsOf(ins, "In"))
       + Blank + OutputsRegComment + Concat(PortRegistrationsOf(outs, "Out")) + CloseMember + Blank)
  }

  /** Names and types that fit on one line. */
  predicate OneLine(ports: seq<(string, string)>)
  {
    forall k :: 0 <= k < |ports| ==> '\n' !in ports[k].0 && '\n' !in ports[k].1
  }

  lemma {:induction false} DeclarationsAreLines(ports: seq<(string, string)>)
    requires OneLine(ports)
    ensures forall k :: 0 <= k < |ports| ==> IsLine(PortDeclarationsOf(ports)[k])
  {
    forall k | 0 <= k < |ports|
      ensures IsLine(PortDeclaration(ports[k]))
    {
      var p := ports[k];
      NoNewline("\tPort<", p.1);
      NoNewline("\tPort<" + p.1, "> ");
      NoNewline("\tPort<" + p.1 + "> ", p.0);
      NoNewline("\tPort<" + p.1 + "> " + p.0, ";");
      LineOf("\tPort<" + p.1 + "> " + p.0 + ";");
    }
  }

  lemma {:induction false} RegistrationsAreLines(ports: seq<(string, string)>, direction: string)
    requires OneLine(ports) && '\n' !in direction
    ensures forall k :: 0 <= k < |ports| ==> IsLine(PortRegistrationsOf(ports, direction)[k])
  {
    forall k | 0 <= k < |ports|
      ensures IsLine(PortRegistration(ports[k], direction))
    {
      var p := ports[k];
      NoNewline("\t\t", p.0);
      NoNewline("\t\t" + p.0, " = add");
      NoNewline("\t\t" + p.0 + " = add", direction);
      NoNewline("\t\t" + p.0 + " = add" + direction, "Port<");
      NoNewline("\t\t" + p.0 + " = add" + direction + "Port<", p.1);
      NoNewline("\t\t" + p.0 + " = add" + direction + "Port<" + p.1, ">(\"");
      NoNewline("\t\t" + p.0 + " = add" + direction + "Port<" + p.1 + ">(\"", p.0);
      NoNewline("\t\t" + p.0 + " = add" + direction + "Port<" + p.1 + ">(\"" + p.0, "\");");
      LineOf("\t\t" + p.0 + " = add" + direction + "Port<" + p.1 + ">(\"" + p.0 + "\");");
    }
  }

  /** Read back line by line, the declarations are a header line, the
      input ports' lines in declared order, a blank line, a comment line,
      the output ports' lines in declared order and a blank line: every
      port is declared exactly once, inputs before outputs. */
  lemma {:induction false} PortDeclarationLines(inputs: Value, outputs: Value)
    requires PortDeclarations(inputs, outputs).Ok?
    requires OneLine(PortTypes(inputs).value) && OneLine(PortTypes(outputs).value)
    ensures
      var ins := PortDeclarationsOf(PortTypes(inputs).value);
      var outs := PortDeclarationsOf(PortTypes(outputs).value);
      Lines(PortDeclarations(inputs, outputs).value)
        == [Public, InputsComment] + ins + [Blank, OutputsComment] + outs + [Blank]
  {
    DeclarationsAreLines(PortTypes(inputs).value);
    DeclarationsAreLines(PortTypes(outputs).value);
    FixedLines();
    var ins := PortDeclarationsOf(PortTypes(inputs).value);
    var outs := PortDeclarationsOf(PortTypes(outputs).value);
    assert Concat([Blank]) == Blank + "";
    assert PortDeclarations(inputs, outputs).value
        == Public + InputsComment + Concat(ins) + Blank + OutputsComment + Concat(outs) + Concat([Blank]);
    Sandwich(Public, InputsComment, ins, Blank, OutputsComment, outs, [Blank]);
  }

  /** Read back line by line, the constructor is its head, the
      registrations of the input ports in declared order, a blank line,
      and those of the output ports in declared order, then its closing
      brace and a blank line. */
  lemma {:induction false} ConstructorLines(modelName: string, stateName: string, inputs: Value, outputs: Value)
    requires Constructor(modelName, stateName, inputs, outputs).Ok?
    requires '\n' !in modelName && '\n' !in stateName
    requires OneLine(PortTypes(inputs).value) && OneLine(PortTypes(outputs).value)
    ensures
      var ins := PortRegistrationsOf(PortTypes(inputs).value, "In");
      var outs := PortRegistrationsOf(PortTypes(outputs).value, "Out");
      Lines(Constructor(modelName, stateName, inputs, outputs).value)
        == [ConstructorHead(modelName, stateName), InputsRegComment] + ins
           + [Blank, OutputsRegComment] + outs + [CloseMember, Blank]
  {
    RegistrationsAreLines(PortTypes(inputs).value, "In");
    RegistrationsAreLines(PortTypes(outputs).value, "Out");
    HeadIsLine(modelName, stateName);
    FixedLines();
    var ins := PortRegistrationsOf(PortTypes(inputs).value, "In");
    var outs := PortRegistrationsOf(PortTypes(outputs).value, "Out");
    var head := ConstructorHead(modelName, stateName);
    ConcatTwo(CloseMember, Blank);
    assert Constructor(modelName, stateName, inputs, outputs).value
        == head + InputsRegComment + Concat(ins) + Blank + OutputsRegComment + Concat(outs) + Concat([CloseMember, Blank]);
    Sandwich(head, InputsRegComment, ins, Blank, OutputsRegComment, outs, [CloseMember, Blank]);
  }

  lemma {:induction false} FixedLines()
    ensures IsLine(Public) && IsLine(InputsComment) && IsLine(OutputsComment)
    ensures IsLine(InputsRegComment) && IsLine(OutputsRegComment) && IsLine(Blank) && IsLine(CloseMember)
  {
  }

  /** Two lines, a run of lines, two lines, a run of lines, and a run of
      closing lines, read back as exactly those lines. */
  lemma {:induction false} Sandwich(h1: string, h2: string, b: seq<string>, m1: string, m2: string, d: seq<string>, tail: seq<string>)
    requires IsLine(h1) && IsLine(h2) && IsLine(m1) && IsLine(m2)
    requires forall k :: 0 <= k < |b| ==> IsLine(b[k])
    requires forall k :: 0 <= k < |d| ==> IsLine(d[k])
    requires forall k :: 0 <= k < |tail| ==> IsLine(tail[k])
    ensures Lines(h1 + h2 + Concat(b) + m1 + m2 + Concat(d) + Concat(tail))
            == [h1, h2] + b + [m1, m2] + d + tail
  {
    ConcatTwo(h1, h2);
    ConcatTwo(m1, m2);
    FramedLines([h1, h2], b, [m1, m2], d, tail);
    Regroup(h1, h2, Concat(b), m1, m2, Concat(d), Concat(tail));
  }

  lemma {:induction false} Regroup(h1: string, h2: string, b: string, m1: string, m2: string, d: string, t: string)
    ensures (h1 + h2) + b + (m1 + m2) + d + t == h1 + h2 + b + m1 + m2 + d + t
  {
  }

  lemma {:induction false} HeadIsLine(modelName: string, stateName: string)
    requires '\n' !in modelName && '\n' !in stateName
    ensures IsLine(ConstructorHead(modelName, stateName))
  {
    var a := "\t" + modelName + "(const std::string id) : Atomic<";
    NoNewline("\t", modelName);
    NoNewline("\t" + modelName, "(const std::string id) : Atomic<");
    NoNewline(a, stateName);
    NoNewline(a + stateName, ">(id, ");
    NoNewline(a + stateName + ">(id, ", stateName);
    NoNewline(a + stateName + ">(id, " + stateName, "()) {");
    LineOf(a + stateName + ">(id, " + stateName + "()) {");
  }
}
