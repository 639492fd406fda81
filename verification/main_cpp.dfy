/** The simulation driver `main.cpp` (`generate_main_cpp.py`): the
    includes, the instantiation of the top model, its root coordinator, the
    logger selection and the run. */
module MainCpp {
  import opened Outcome
  import opened Json
  import opened Text
  import opened SimpleStatements

  /* ----- Includes ----- */

  const IncludeLoggers: string :=
    "#ifndef NO_LOGGING\n\t#include \"cadmium/simulation/logger/stdout.hpp\"\n\t#include \"cadmium/simulation/logger/csv.hpp\"\n#endif\n\n"

  const IncludeRootCoordinator: string := "#include \"cadmium/simulation/root_coordinator.hpp\"\n"

  /** `write_main_cpp_top_of_file_for_simulation`: the root coordinator,
      the limits, the top model, the loggers and the namespace. */
  function TopOfFile(topModel: string): string
  {
    IncludeRootCoordinator + IncludeLimits + IncludeModel(topModel) + IncludeLoggers + CadmiumNamespace
  }

  /** The include of the top model sits right after the root coordinator
      and the limits, and names the top model. */
  lemma {:induction false} TopOfFileIncludesModel(topModel: string)
    ensures
      var before := |IncludeRootCoordinator + IncludeLimits|;
      var top := TopOfFile(topModel);
      && before + |IncludeModel(topModel)| <= |top|
      && StartsWith(top, IncludeRootCoordinator + IncludeLimits)
      && IncludedModel(top[before..before + |IncludeModel(topModel)|]) == Some(topModel)
  {
    var head := IncludeRootCoordinator + IncludeLimits;
    var line := IncludeModel(topModel);
    var tail := IncludeLoggers + CadmiumNamespace;
    Slices(head, line, tail);
    assert TopOfFile(topModel) == head + line + tail;
    IncludeModelRoundTrip(topModel, line);
  }

  lemma {:induction false} Slices(a: string, b: string, c: string)
    ensures (a + b + c)[..|a|] == a && (a + b + c)[|a|..|a| + |b|] == b
  {
  }

  /* ----- initialize_simulated_model ----- */

  const ModelOpen: string := "\t\tstd::shared_ptr<"

  const ModelMiddle: string := "> model = std::make_shared<"

  const ModelQuote: string := ">(\""

  const ModelClose: string := "\");\n\n"

  /** `initialize_simulated_model`: the top model's type, the type it is
      made as, and its id all spell the top model's name. */
  function InitializeModel(topModel: string): (r: string)
    ensures |r| == |ModelOpen| + |ModelMiddle| + |ModelQuote| + |ModelClose| + 3 * |topModel|
  {
    ModelOpen + topModel + ModelMiddle + topModel + ModelQuote + topModel + ModelClose
  }

  /** Different top models are instantiated by different statements. */
  lemma {:induction false} InitializeModelInjective(a: string, b: string)
    ensures InitializeModel(a) == InitializeModel(b) ==> a == b
  {
    if InitializeModel(a) == InitializeModel(b) {
      assert |a| == |b|;
      var n := |ModelOpen|;
      assert InitializeModel(a)[n..n + |a|] == a;
      assert InitializeModel(b)[n..n + |b|] == b;
    }
  }

  const InitializeRootCoordinator: string := "\t\tauto rootCoordinator = cadmium::RootCoordinator(model);\n\n"

  /* ----- set_logger ----- */

  const StdoutLogger: string := "STDOUTLogger"

  const CsvLogger: string := "CSVLogger"

  /** The logger the driver is generated with. */
  const LoggerType: string := StdoutLogger

  const LoggerIndent: string := "\t\t\t"

  const CommentMark: string := "//"

  const Coordinator: string := "rootCoordinator"

  const StdoutSetter: string := ".setLogger<cadmium::STDOUTLogger>(\";\");"

  const CsvFile: string := "\"logfile.csv\", "

  const CsvSetter: string := ".setLogger<cadmium::CSVLogger>(" + CsvFile + "\";\");"

  const StdoutCall: string := Coordinator + StdoutSetter + "\n"

  const CsvCall: string := Coordinator + CsvSetter + "\n"

  /** Both calls are one line on the root coordinator. */
  lemma {:induction false} CallsAreLines()
    ensures StartsWith(StdoutCall, Coordinator) && IsLine(StdoutCall)
    ensures StartsWith(CsvCall, Coordinator) && IsLine(CsvCall)
  {
    StdoutSetterOneLine();
    CsvSetterOneLine();
    CallIsCoordinatorLine(StdoutSetter);
    CallIsCoordinatorLine(CsvSetter);
  }

  lemma {:induction false} StdoutSetterOneLine()
    ensures '\n' !in StdoutSetter
  {
  }

  lemma {:induction false} CsvSetterOneLine()
    ensures '\n' !in CsvSetter
  {
    assert '\n' !in CsvFile;
    NoNewline(".setLogger<cadmium::CSVLogger>(", CsvFile);
    NoNewline(".setLogger<cadmium::CSVLogger>(" + CsvFile, "\";\");");
  }

  lemma {:induction false} CallIsCoordinatorLine(setter: string)
    requires '\n' !in setter
    ensures StartsWith(Coordinator + setter + "\n", Coordinator) && IsLine(Coordinator + setter + "\n")
  {
    Slices(Coordinator, setter, "\n");
    NoNewline(Coordinator, setter);
    LineOf(Coordinator + setter);
  }

  const LoggerOpen: string := "\t\t#ifndef NO_LOGGING\n"

  const LoggerClose: string := "\t\t#endif\n\n"

  /** One `setLogger` line, commented out unless it is active. */
  function LoggerLine(active: bool, call: string): (r: string)
    ensures StartsWith(r, LoggerIndent) && EndsWith(r, call)
  {
    var r := LoggerIndent + (if active then "" else CommentMark) + call;
    assert r[..|LoggerIndent|] == LoggerIndent;
    assert r[|r| - |call|..] == call;
    r
  }

  /** A line that calls `setLogger`, rather than carrying a commented-out
      call. */
  predicate IsActive(line: string)
  {
    StartsWith(line, LoggerIndent + Coordinator)
  }

  lemma {:induction false} LoggerLineActive(active: bool, call: string)
    requires StartsWith(call, Coordinator)
    ensures IsActive(LoggerLine(active, call)) <==> active
  {
    var r := LoggerLine(active, call);
    var p := LoggerIndent + Coordinator;
    if active {
      assert r == LoggerIndent + call;
      assert r[..|p|] == LoggerIndent + call[..|Coordinator|];
    } else {
      assert r == LoggerIndent + CommentMark + call;
      assert r[|LoggerIndent|] == '/';
      assert p[|LoggerIndent|] == 'r';
    }
  }

  /** `set_logger`: the STDOUT logger's line, then the CSV logger's, each
      commented out unless it is the chosen type. */
  function SetLogger(typeOfLogger: string): string
  {
    LoggerOpen + LoggerLine(typeOfLogger == StdoutLogger, StdoutCall)
    + LoggerLine(typeOfLogger == CsvLogger, CsvCall) + LoggerClose
  }

  /** The number of active `setLogger` lines. */
  function ActiveCount(ls: seq<string>): (n: nat)
    ensures n <= |ls|
  {
    if |ls| == 0 then 0 else (if IsActive(ls[0]) then 1 else 0) + ActiveCount(ls[1..])
  }

  /** The logger lines as the driver holds them. */
  function LoggerLines(typeOfLogger: string): seq<string>
  {
    LoggerLinesOf(typeOfLogger == StdoutLogger, typeOfLogger == CsvLogger)
  }

  /** Read back line by line, the logger selection has exactly one active
      `setLogger` line when the type is one of the two loggers, that
      logger's, and none for any other type. */
  lemma {:induction false} SetLoggerActivatesOne(typeOfLogger: string)
    ensures Lines(SetLogger(typeOfLogger)) == LoggerLines(typeOfLogger)
    ensures ActiveCount(LoggerLines(typeOfLogger)) == (if typeOfLogger == StdoutLogger || typeOfLogger == CsvLogger then 1 else 0)
    ensures IsActive(LoggerLines(typeOfLogger)[1]) <==> typeOfLogger == StdoutLogger
    ensures IsActive(LoggerLines(typeOfLogger)[2]) <==> typeOfLogger == CsvLogger
  {
    LoggerLinesRead(typeOfLogger);
    LoggerLinesCount(typeOfLogger == StdoutLogger, typeOfLogger == CsvLogger);
    assert StdoutLogger != CsvLogger;
  }

  /** The logger lines with the two lines' states given. */
  function LoggerLinesOf(stdout: bool, csv: bool): seq<string>
  {
    [LoggerOpen, LoggerLine(stdout, StdoutCall), LoggerLine(csv, CsvCall), "\t\t#endif\n", "\n"]
  }

  lemma {:induction false} LoggerLinesRead(typeOfLogger: string)
    ensures Lines(SetLogger(typeOfLogger)) == LoggerLines(typeOfLogger)
  {
    var ls := LoggerLines(typeOfLogger);
    LoggerLinesAreLines(typeOfLogger == StdoutLogger, typeOfLogger == CsvLogger);
    LoggerText(typeOfLogger);
    LinesOfConcat(ls);
  }

  lemma {:induction false} LoggerLinesCount(stdout: bool, csv: bool)
    ensures var ls := LoggerLinesOf(stdout, csv);
      && (IsActive(ls[1]) <==> stdout) && (IsActive(ls[2]) <==> csv)
      && ActiveCount(ls) == (if stdout then 1 else 0) + (if csv then 1 else 0)
  {
    CallsAreLines();
    LoggerLineActive(stdout, StdoutCall);
    LoggerLineActive(csv, CsvCall);
    FixedInactive();
    CountFive(LoggerLinesOf(stdout, csv));
  }

  lemma {:induction false} FixedInactive()
    ensures !IsActive(LoggerOpen) && !IsActive("\t\t#endif\n") && !IsActive("\n")
  {
    assert LoggerOpen[2] != (LoggerIndent + Coordinator)[2];
    assert "\t\t#endif\n"[2] != (LoggerIndent + Coordinator)[2];
  }

  lemma {:induction false} LoggerLinesAreLines(a: bool, b: bool)
    ensures IsLine(LoggerOpen) && IsLine(LoggerLine(a, StdoutCall)) && IsLine(LoggerLine(b, CsvCall))
    ensures IsLine("\t\t#endif\n") && IsLine("\n")
  {
    CallsAreLines();
    CallIsLine(a, StdoutCall);
    CallIsLine(b, CsvCall);
  }

  lemma {:induction false} CallIsLine(active: bool, call: string)
    requires IsLine(call)
    ensures IsLine(LoggerLine(active, call))
  {
    var head := LoggerIndent + (if active then "" else CommentMark);
    assert '\n' !in head;
    assert LoggerLine(active, call) == head + call;
    forall i | 0 <= i < |head + call| - 1
      ensures (head + call)[i] != '\n'
    {
      if i < |head| {
        assert (head + call)[i] == head[i];
      } else {
        assert (head + call)[i] == call[i - |head|];
      }
    }
  }

  lemma {:induction false} LoggerText(typeOfLogger: string)
    ensures Concat(LoggerLines(typeOfLogger)) == SetLogger(typeOfLogger)
  {
    var ls := LoggerLines(typeOfLogger);
    ConcatFive(ls[0], ls[1], ls[2], ls[3], ls[4]);
    assert ls == [ls[0], ls[1], ls[2], ls[3], ls[4]];
    assert LoggerClose == ls[3] + ls[4];
  }

  lemma {:induction false} ConcatFive(a: string, b: string, c: string, d: string, e: string)
    ensures Concat([a, b, c, d, e]) == a + b + c + d + e
  {
    assert [a, b, c, d, e] == [a, b, c] + [d, e];
    ConcatAppend([a, b, c], [d, e]);
    ConcatThree(a, b, c);
    ConcatTwo(d, e);
  }

  lemma {:induction false} CountFive(ls: seq<string>)
    requires |ls| == 5 && !IsActive(ls[0]) && !IsActive(ls[3]) && !IsActive(ls[4])
    ensures ActiveCount(ls) == (if IsActive(ls[1]) then 1 else 0) + (if IsActive(ls[2]) then 1 else 0)
  {
    assert ls[4..][1..] == [];
    assert ActiveCount(ls[4..]) == 0;
    assert ls[3..][1..] == ls[4..];
    assert ActiveCount(ls[3..]) == 0;
    assert ls[2..][1..] == ls[3..];
    assert ActiveCount(ls[2..]) == (if IsActive(ls[2]) then 1 else 0);
    assert ls[1..][1..] == ls[2..];
  }

  /* ----- run_simulation ----- */

  const Start: string := "\t\trootCoordinator.start();\n\n"

  const Stop: string := "\t\trootCoordinator.stop();\n\n"

  function Simulate(simulationTime: string): string
  {
    "\t\trootCoordinator.simulate(" + simulationTime + ");\n"
  }

  /** `run_simulation`: start, simulate for the time given, stop. */
  function RunSimulation(simulationTime: string): string
  {
    Start + Simulate(simulationTime) + "\n" + Stop
  }

  /** Read back line by line, the run is a start, a simulation for the
      given time and a stop, in this order, each followed by a blank
      line. */
  lemma {:induction false} RunSimulationOrder(simulationTime: string)
    requires '\n' !in simulationTime
    ensures Lines(RunSimulation(simulationTime))
            == ["\t\trootCoordinator.start();\n", "\n", Simulate(simulationTime), "\n", "\t\trootCoordinator.stop();\n", "\n"]
  {
    var ls := ["\t\trootCoordinator.start();\n", "\n", Simulate(simulationTime), "\n", "\t\trootCoordinator.stop();\n", "\n"];
    NoNewline("\t\trootCoordinator.simulate(", simulationTime);
    NoNewline("\t\trootCoordinator.simulate(" + simulationTime, ");");
    LineOf("\t\trootCoordinator.simulate(" + simulationTime + ");");
    assert IsLine(ls[0]) && IsLine(ls[1]) && IsLine(ls[2]) && IsLine(ls[4]);
    RunSimulationPieces(ls[0], ls[2], ls[4], simulationTime);
    LinesOfConcat(ls);
  }

  lemma {:induction false} RunSimulationPieces(start: string, simulate: string, stop: string, simulationTime: string)
    requires start + "\n" == Start && simulate == Simulate(simulationTime) && stop + "\n" == Stop
    ensures Concat([start, "\n", simulate, "\n", stop, "\n"]) == RunSimulation(simulationTime)
  {
    ConcatSix(start, "\n", simulate, "\n", stop, "\n");
    assert start + "\n" + simulate + "\n" + stop + "\n" == (start + "\n") + simulate + "\n" + (stop + "\n");
  }

  lemma {:induction false} ConcatSix(a: string, b: string, c: string, d: string, e: string, f: string)
    ensures Concat([a, b, c, d, e, f]) == a + b + c + d + e + f
  {
    assert [a, b, c, d, e, f] == [a, b, c] + [d, e, f];
    ConcatAppend([a, b, c], [d, e, f]);
    ConcatThree(a, b, c);
    ConcatThree(d, e, f);
  }

  const FinalReturn: string := "\t\treturn 0;\n"

  const MainOpen: string := "extern \"C\" {\n\n" + "\t int main() {\n"

  const MainClose: string := "\t}\n}"

  /** `generate_main_cpp`: the text written to `main.cpp`. The simulation
      time is concatenated into the text, so it must be a string. */
  function MainFile(topModel: string, simulationTime: Value): (r: Result<string>)
    ensures r.Ok? <==> simulationTime.Str?
    ensures r.Ok? ==> StartsWith(r.value, TopOfFile(topModel)) && EndsWith(r.value, FinalReturn + MainClose)
  {
    if !simulationTime.Str? then Err(TypeError("can only concatenate str to str"))
    else
      var head := TopOfFile(topModel);
      var body := MainOpen + InitializeModel(topModel) + InitializeRootCoordinator + SetLogger(LoggerType)
                  + RunSimulation(simulationTime.s);
      Framed(head, body, FinalReturn + MainClose);
      Ok(head + body + (FinalReturn + MainClose))
  }

  /** The driver is generated with the STDOUT logger active and the CSV
      logger commented out. */
  lemma {:induction false} MainLogsToStdout()
    ensures IsActive(LoggerLines(LoggerType)[1]) && !IsActive(LoggerLines(LoggerType)[2])
    ensures ActiveCount(LoggerLines(LoggerType)) == 1
  {
    SetLoggerActivatesOne(LoggerType);
  }
}
