/** Turning the data of the experiment form into an experiment record
    (`generate_experiment_json_from_gui_data.py`): the file-name sanitiser,
    the coupling normaliser, the record with its check that some coupling
    is given, and the name the record is saved under.

    The time span's parse as a floating-point number is not modelled: the
    record takes the time span's text as given. */
module ExperimentJson {
  import opened Outcome
  import opened Json
  import opened Text
  import SimpleStatements
  import RepositoryBuilder

  /* ----- _safe_filename ----- */

  /** `c.isalnum()` for ASCII. */
  predicate IsAlnum(c: char)
  {
    ('a' <= c <= 'z') || ('A' <= c <= 'Z') || ('0' <= c <= '9')
  }

  /** The characters a sanitised name keeps as they are. */
  predicate Allowed(c: char)
  {
    IsAlnum(c) || c == '_' || c == '-' || c == '.'
  }

  /** What one character of the stripped name contributes. */
  function KeepChar(c: char): string
  {
    if Allowed(c) then [c]
    else if IsSpace(c) then "_"
    else ""
  }

  /** The loop of `_safe_filename`: allowed characters are kept, whitespace
      becomes `_`, and everything else is dropped. */
  function Sanitize(s: string): (r: string)
    ensures |r| <= |s|
    ensures forall i :: 0 <= i < |r| ==> Allowed(r[i])
  {
    if |s| == 0 then "" else KeepChar(s[0]) + Sanitize(s[1..])
  }

  const DefaultName: string := "experiment"

  /** `_safe_filename`: the stripped name, sanitised, or `experiment` when
      nothing is left. */
  function SafeFilename(name: string): (r: string)
    ensures |r| > 0
    ensures forall i :: 0 <= i < |r| ==> Allowed(r[i])
  {
    var out := Sanitize(Strip(name));
    if |out| == 0 then DefaultName else out
  }

  lemma {:induction false} SanitizeConcat(a: string, b: string)
    ensures Sanitize(a + b) == Sanitize(a) + Sanitize(b)
    decreases |a|
  {
    if |a| == 0 {
      assert a + b == b;
    } else {
      assert (a + b)[0] == a[0];
      assert (a + b)[1..] == a[1..] + b;
      SanitizeConcat(a[1..], b);
    }
  }

  lemma {:induction false} SanitizeSplit(a: string, c: char, b: string)
    ensures Sanitize(a + [c] + b) == Sanitize(a) + KeepChar(c) + Sanitize(b)
  {
    SanitizeConcat(a + [c], b);
    SanitizeConcat(a, [c]);
    assert [c][1..] == [];
    assert Sanitize([c]) == KeepChar(c);
  }

  /** Each character is handled where it stands: an allowed character is
      kept, a whitespace character becomes `_` and any other character is
      dropped, without affecting the text around it. */
  lemma {:induction false} SanitizeChar(a: string, c: char, b: string)
    ensures Allowed(c) ==> Sanitize(a + [c] + b) == Sanitize(a) + [c] + Sanitize(b)
    ensures IsSpace(c) ==> Sanitize(a + [c] + b) == Sanitize(a) + "_" + Sanitize(b)
    ensures !Allowed(c) && !IsSpace(c) ==> Sanitize(a + [c] + b) == Sanitize(a) + Sanitize(b)
  {
    SanitizeSplit(a, c, b);
    if !Allowed(c) && !IsSpace(c) {
      assert Sanitize(a) + KeepChar(c) == Sanitize(a);
    }
  }

  /** Sanitising leaves a name unchanged exactly when every character of it
      is allowed. */
  lemma {:induction false} SanitizeFixed(s: string)
    ensures Sanitize(s) == s <==> forall i :: 0 <= i < |s| ==> Allowed(s[i])
    decreases |s|
  {
    if |s| > 0 && forall i :: 0 <= i < |s| ==> Allowed(s[i]) {
      assert forall i :: 0 <= i < |s[1..]| ==> Allowed(s[1..][i]);
      SanitizeFixed(s[1..]);
      assert s == [s[0]] + s[1..];
    }
  }

  /** A sanitised name is its own sanitised name. */
  lemma {:induction false} SafeFilenameIdempotent(name: string)
    ensures SafeFilename(SafeFilename(name)) == SafeFilename(name)
  {
    var r := SafeFilename(name);
    assert !IsSpace(r[0]) && !IsSpace(r[|r| - 1]);
    StripClean(r);
    SanitizeFixed(r);
  }

  /* ----- save_experiment ----- */

  const ExperimentSuffix: string := "_experiment.json"

  /** The name `save_experiment` gives the record's file. */
  function ExperimentFileName(name: string): (r: string)
    ensures EndsWith(r, ExperimentSuffix)
    ensures r[..|r| - |ExperimentSuffix|] == SafeFilename(name)
  {
    SafeFilename(name) + ExperimentSuffix
  }

  /** A saved experiment is one the fileset check counts and the sorter
      files as the experiment. */
  lemma {:induction false} SavedExperimentIsRecognised(name: string)
    ensures EndsWith(ExperimentFileName(name), RepositoryBuilder.ExperimentSuffix)
    ensures RepositoryBuilder.FileType(ExperimentFileName(name)) == "experiment"
  {
    assert RepositoryBuilder.ExperimentSuffix == ExperimentSuffix;
    RepositoryBuilder.ExperimentFilesSorted(ExperimentFileName(name));
  }

  /* ----- str() of a JSON value ----- */

  function Digit(d: int): char
    requires 0 <= d < 10
  {
    "0123456789"[d]
  }

  /** `str(n)` for a non-negative integer. */
  function Digits(n: nat): (r: string)
    ensures |r| > 0
    decreases n
  {
    if n < 10 then [Digit(n)] else Digits(n / 10) + [Digit(n % 10)]
  }

  /** `str(n)` for an integer. */
  function IntText(n: int): (r: string)
    ensures |r| > 0
  {
    if n < 0 then "-" + Digits(-n) else Digits(n)
  }

  /** `", ".join(ps)`, also for no pieces. */
  function CommaJoin(ps: seq<string>): string
  {
    if |ps| == 0 then "" else Join(ps, ", ")
  }

  /** `repr(v)` of a parsed JSON value; strings are quoted with `'` and not
      escaped. */
  function Repr(v: Value): (r: string)
    ensures |r| > 0
    decreases v
  {
    match v
    case Null => "None"
    case Bool(b) => if b then "True" else "False"
    case Num(n) => IntText(n)
    case Str(s) => "'" + s + "'"
    case Arr(items) =>
      "[" + CommaJoin(seq(|items|, i requires 0 <= i < |items| => Repr(items[i]))) + "]"
    case Obj(fields) =>
      "{" + CommaJoin(seq(|fields|, i requires 0 <= i < |fields| =>
                          "'" + fields[i].0 + "': " + Repr(fields[i].1))) + "}"
  }

  /** `str(v)`: a string is itself, anything else is its `repr`. */
  function PyStr(v: Value): (r: string)
    ensures v.Str? ==> r == v.s
    ensures !v.Str? ==> r == Repr(v)
  {
    if v.Str? then v.s else Repr(v)
  }

  /** The text of anything but a string, once stripped, is never empty. */
  lemma {:induction false} NonStringTextNotBlank(v: Value)
    requires !v.Str?
    ensures |Strip(PyStr(v))| > 0
  {
    var r := Repr(v);
    assert !IsSpace(r[0]) by {
      match v
      case Null =>
      case Bool(b) =>
      case Num(n) =>
        assert r == IntText(n);
        if n >= 0 {
          DigitsStart(n);
        }
      case Arr(items) =>
      case Obj(fields) =>
    }
    LeadingNotBlank(r);
  }

  lemma {:induction false} DigitsStart(n: nat)
    ensures '0' <= Digits(n)[0] <= '9'
    decreases n
  {
    if n >= 10 {
      DigitsStart(n / 10);
    }
  }

  /** A text that does not start with whitespace is not blank after
      stripping. */
  lemma {:induction false} LeadingNotBlank(s: string)
    requires |s| > 0 && !IsSpace(s[0])
    ensures |Strip(s)| > 0
    decreases |s|
  {
    if |s| > 1 && IsSpace(s[|s| - 1]) {
      LeadingNotBlank(s[..|s| - 1]);
    }
  }

  /* ----- normalize_couplings ----- */

  /** A coupling as the form sends it and as the record stores it. */
  datatype Coupling = Coupling(portFrom: string, portTo: string)

  /** `str(item[key]).strip()`. */
  function PortText(fields: seq<(string, Value)>, key: string): string
    requires key in KeySet(fields)
  {
    Strip(PyStr(Get(fields, key).value))
  }

  /** An item the normaliser accepts: an object with both ports, neither of
      which is blank. */
  predicate ValidItem(item: Value)
  {
    && item.Obj?
    && "port_from" in KeySet(item.fields) && "port_to" in KeySet(item.fields)
    && |PortText(item.fields, "port_from")| > 0 && |PortText(item.fields, "port_to")| > 0
  }

  function AtIndex(i: nat): string
  {
    "Coupling at index " + IntText(i)
  }

  /** One item of the list, at index `i`. */
  function NormalizeItem(item: Value, i: nat): (r: Result<Coupling>)
    ensures r.Ok? <==> ValidItem(item)
    ensures r.Ok? ==> r.value == Coupling(PortText(item.fields, "port_from"), PortText(item.fields, "port_to"))
    ensures r.Err? ==> r.error.ValueError? && StartsWith(r.error.msg, AtIndex(i))
  {
    if !item.Obj? then Err(ValueError(AtIndex(i) + " must be an object."))
    else if "port_from" !in KeySet(item.fields) || "port_to" !in KeySet(item.fields) then
      Err(ValueError(AtIndex(i) + " must have port_from and port_to."))
    else
      var portFrom := PortText(item.fields, "port_from");
      var portTo := PortText(item.fields, "port_to");
      if |portFrom| == 0 || |portTo| == 0 then Err(ValueError(AtIndex(i) + " has empty port_from/port_to."))
      else Ok(Coupling(portFrom, portTo))
  }

  const NotAList: string := "Couplings must be an array (list)."

  /** `normalize_couplings`: no couplings for `None`, a `ValueError` for
      anything but a list, and otherwise every item cleaned in order, the
      first bad item stopping the loop with a message naming its index. */
  function NormalizeCouplings(raw: Value): (r: Result<seq<Coupling>>)
    ensures raw.Null? ==> r == Ok([])
    ensures !raw.Null? && !raw.Arr? ==> r == Err(ValueError(NotAList))
    ensures raw.Arr? ==> (r.Ok? <==> forall i :: 0 <= i < |raw.items| ==> NormalizeItem(raw.items[i], i).Ok?)
    ensures raw.Arr? && r.Ok? ==> |r.value| == |raw.items|
                                  && forall i :: 0 <= i < |raw.items| ==> NormalizeItem(raw.items[i], i) == Ok(r.value[i])
    ensures raw.Arr? && r.Err? ==> exists i :: 0 <= i < |raw.items| && NormalizeItem(raw.items[i], i) == Err(r.error)
                                               && forall j :: 0 <= j < i ==> NormalizeItem(raw.items[j], j).Ok?
  {
    match raw
    case Null => Ok([])
    case Arr(items) => MapIndexed(items, 0, NormalizeItem)
    case _ => Err(ValueError(NotAList))
  }

  /** A list is accepted exactly when every item has both ports and
      neither is blank. */
  lemma {:induction false} AcceptedLists(items: seq<Value>)
    ensures NormalizeCouplings(Arr(items)).Ok? <==> forall i :: 0 <= i < |items| ==> ValidItem(items[i])
  {
  }

  /** The first item that is not acceptable is the one the error names. */
  lemma {:induction false} FirstBadItemReported(items: seq<Value>, i: nat)
    requires i < |items| && !ValidItem(items[i])
    requires forall j :: 0 <= j < i ==> ValidItem(items[j])
    ensures NormalizeCouplings(Arr(items)) == Err(NormalizeItem(items[i], i).error)
  {
    var r := NormalizeCouplings(Arr(items));
    assert r.Err?;
    var k :| 0 <= k < |items| && NormalizeItem(items[k], k) == Err(r.error)
             && forall j :: 0 <= j < k ==> NormalizeItem(items[j], j).Ok?;
    assert NormalizeItem(items[i], i).Err?;
    assert forall j :: 0 <= j < i ==> NormalizeItem(items[j], j).Ok?;
    assert k == i;
  }

  /** A coupling the normaliser produces: both ports non-empty and free of
      surrounding whitespace. */
  predicate Clean(c: Coupling)
  {
    && |c.portFrom| > 0 && !IsSpace(c.portFrom[0]) && !IsSpace(c.portFrom[|c.portFrom| - 1])
    && |c.portTo| > 0 && !IsSpace(c.portTo[0]) && !IsSpace(c.portTo[|c.portTo| - 1])
  }

  /** The couplings as they are written into the record. */
  function CouplingsValue(cs: seq<Coupling>): (r: Value)
    ensures r.Arr? && |r.items| == |cs|
    ensures forall i :: 0 <= i < |cs| ==> r.items[i] == CouplingValue(cs[i])
  {
    Arr(seq(|cs|, i requires 0 <= i < |cs| => CouplingValue(cs[i])))
  }

  function CouplingValue(c: Coupling): Value
  {
    Obj([("port_from", Str(c.portFrom)), ("port_to", Str(c.portTo))])
  }

  /** Every coupling the normaliser returns is clean. */
  lemma {:induction false} NormalizedAreClean(raw: Value)
    requires NormalizeCouplings(raw).Ok?
    ensures forall i :: 0 <= i < |NormalizeCouplings(raw).value| ==> Clean(NormalizeCouplings(raw).value[i])
  {
    var cs := NormalizeCouplings(raw).value;
    forall i | 0 <= i < |cs|
      ensures Clean(cs[i])
    {
      var item := raw.items[i];
      assert ValidItem(item);
      assert cs[i] == Coupling(PortText(item.fields, "port_from"), PortText(item.fields, "port_to"));
    }
  }

  /** A clean coupling written into a record is read back as itself. */
  lemma {:induction false} CouplingRoundTrip(c: Coupling)
    requires Clean(c)
    ensures ValidItem(CouplingValue(c))
    ensures Coupling(PortText(CouplingValue(c).fields, "port_from"), PortText(CouplingValue(c).fields, "port_to")) == c
  {
    var fields := CouplingValue(c).fields;
    assert Get(fields, "port_from") == Some(Str(c.portFrom));
    assert Get(fields[1..], "port_to") == Some(Str(c.portTo));
    assert Get(fields, "port_to") == Some(Str(c.portTo));
    StripClean(c.portFrom);
    StripClean(c.portTo);
  }

  /** Clean couplings written into a record normalise back to themselves. */
  lemma {:induction false} NormalizeRoundTrip(cs: seq<Coupling>)
    requires forall i :: 0 <= i < |cs| ==> Clean(cs[i])
    ensures NormalizeCouplings(CouplingsValue(cs)) == Ok(cs)
  {
    var v := CouplingsValue(cs);
    forall i | 0 <= i < |cs|
      ensures ValidItem(v.items[i])
      ensures Coupling(PortText(v.items[i].fields, "port_from"), PortText(v.items[i].fields, "port_to")) == cs[i]
    {
      CouplingRoundTrip(cs[i]);
    }
    var r := NormalizeCouplings(v);
    assert r.Ok?;
    assert |r.value| == |cs|;
    assert forall i :: 0 <= i < |cs| ==> r.value[i] == cs[i];
    assert r.value == cs;
  }

  /** Normalising the normalised couplings changes nothing. */
  lemma {:induction false} NormalizeIdempotent(raw: Value)
    requires NormalizeCouplings(raw).Ok?
    ensures NormalizeCouplings(CouplingsValue(NormalizeCouplings(raw).value)) == NormalizeCouplings(raw)
  {
    NormalizedAreClean(raw);
    NormalizeRoundTrip(NormalizeCouplings(raw).value);
  }

  /* ----- build_experiment_json ----- */

  /** `payload.get(key, default)`. */
  function GetOr(payload: seq<(string, Value)>, key: string, default: Value): (r: Value)
    ensures key in KeySet(payload) ==> Some(r) == Get(payload, key)
    ensures key !in KeySet(payload) ==> r == default
  {
    match Get(payload, key)
    case Some(v) => v
    case None => default
  }

  /** `(payload.get(key) or "").strip()`: a missing or falsy member is the
      empty text, a string is stripped, and any other value has no
      `strip`. */
  function TextField(payload: seq<(string, Value)>, key: string): (r: Result<string>)
    ensures r.Ok? <==> !Truthy(GetOr(payload, key, Null)) || GetOr(payload, key, Null).Str?
    ensures r.Ok? && GetOr(payload, key, Null).Str? ==> r.value == Strip(GetOr(payload, key, Null).s)
    ensures r.Ok? && !GetOr(payload, key, Null).Str? ==> r.value == ""
  {
    var v := GetOr(payload, key, Null);
    if !Truthy(v) then Ok(Strip(""))
    else if v.Str? then Ok(Strip(v.s))
    else Err(AttributeError("object has no attribute 'strip'"))
  }

  const NoCoupling: string := "Add at least one coupling: CPIC or POCC."

  /** The coupling part of `build_experiment_json`: both lists normalised,
      `cpic` first, and rejected when both come out empty. */
  function ExperimentCouplings(payload: seq<(string, Value)>): (r: Result<(seq<Coupling>, seq<Coupling>)>)
    ensures r.Ok? <==> NormalizeCouplings(GetOr(payload, "cpic", Arr([]))).Ok?
                       && NormalizeCouplings(GetOr(payload, "pocc", Arr([]))).Ok?
                       && (|NormalizeCouplings(GetOr(payload, "cpic", Arr([]))).value| > 0
                           || |NormalizeCouplings(GetOr(payload, "pocc", Arr([]))).value| > 0)
    ensures r.Ok? ==> r.value == (NormalizeCouplings(GetOr(payload, "cpic", Arr([]))).value,
                                  NormalizeCouplings(GetOr(payload, "pocc", Arr([]))).value)
    ensures NormalizeCouplings(GetOr(payload, "cpic", Arr([]))).Err? ==> r == Err(NormalizeCouplings(GetOr(payload, "cpic", Arr([]))).error)
  {
    var cpic :- NormalizeCouplings(GetOr(payload, "cpic", Arr([])));
    var pocc :- NormalizeCouplings(GetOr(payload, "pocc", Arr([])));
    if |cpic| == 0 && |pocc| == 0 then Err(ValueError(NoCoupling))
    else Ok((cpic, pocc))
  }

  /** A payload without any couplings, or with empty or `null` lists, is
      rejected. */
  lemma {:induction false} NoCouplingsRejected(payload: seq<(string, Value)>)
    requires GetOr(payload, "cpic", Arr([])) in {Null, Arr([])}
    requires GetOr(payload, "pocc", Arr([])) in {Null, Arr([])}
    ensures ExperimentCouplings(payload) == Err(ValueError(NoCoupling))
  {
  }

  /** A model under test or an experimental frame. */
  function Part(model: string, initialState: string): Value
  {
    Obj([("model", Str(model)), ("initial_state", Str(initialState)), ("parameters", Str(""))])
  }

  /** The record `build_experiment_json` returns. */
  function ExperimentRecord(mutModel: string, mutInit: string, efModel: string, efInit: string,
                            cpic: seq<Coupling>, pocc: seq<Coupling>, timeSpan: string): Value
  {
    Obj([
      ("model_under_test", Part(mutModel, mutInit)),
      ("experimental_frame", Part(efModel, efInit)),
      ("cpic", CouplingsValue(cpic)),
      ("pocc", CouplingsValue(pocc)),
      ("time_span", Str(timeSpan))])
  }

  /** The generator reads the model under test back from a record, without
      a trailing `_coupled.json`. */
  lemma {:induction false} RecordModelUnderTest(mutModel: string, mutInit: string, efModel: string, efInit: string,
                                                cpic: seq<Coupling>, pocc: seq<Coupling>, timeSpan: string)
    ensures SimpleStatements.TopModelName(ExperimentRecord(mutModel, mutInit, efModel, efInit, cpic, pocc, timeSpan))
            == Ok(RemoveSuffix(mutModel, SimpleStatements.CoupledSuffix))
  {
    var f := ExperimentRecord(mutModel, mutInit, efModel, efInit, cpic, pocc, timeSpan).fields;
    assert Get(f, "model_under_test") == Some(Part(mutModel, mutInit));
    assert Get(Part(mutModel, mutInit).fields, "model") == Some(Str(mutModel));
  }

  /** The generator reads the time span back from a record. */
  lemma {:induction false} RecordTimeSpan(mutModel: string, mutInit: string, efModel: string, efInit: string,
                                          cpic: seq<Coupling>, pocc: seq<Coupling>, timeSpan: string)
    ensures SimpleStatements.SimulationTime(ExperimentRecord(mutModel, mutInit, efModel, efInit, cpic, pocc, timeSpan))
            == Ok(Str(timeSpan))
  {
    var f := ExperimentRecord(mutModel, mutInit, efModel, efInit, cpic, pocc, timeSpan).fields;
    GetFirst(f, "time_span", 4);
  }

  /** A record's `cpic` list is read back as written. */
  lemma {:induction false} RecordCpic(mutModel: string, mutInit: string, efModel: string, efInit: string,
                                      cpic: seq<Coupling>, pocc: seq<Coupling>, timeSpan: string)
    ensures Lookup(ExperimentRecord(mutModel, mutInit, efModel, efInit, cpic, pocc, timeSpan), "cpic") == Ok(CouplingsValue(cpic))
  {
    GetFirst(ExperimentRecord(mutModel, mutInit, efModel, efInit, cpic, pocc, timeSpan).fields, "cpic", 2);
  }

  /** A record's `pocc` list is read back as written. */
  lemma {:induction false} RecordPocc(mutModel: string, mutInit: string, efModel: string, efInit: string,
                                      cpic: seq<Coupling>, pocc: seq<Coupling>, timeSpan: string)
    ensures Lookup(ExperimentRecord(mutModel, mutInit, efModel, efInit, cpic, pocc, timeSpan), "pocc") == Ok(CouplingsValue(pocc))
  {
    GetFirst(ExperimentRecord(mutModel, mutInit, efModel, efInit, cpic, pocc, timeSpan).fields, "pocc", 3);
  }

  /** `build_experiment_json` once the time span has been read as the text
      `timeSpan`: the four names, then the couplings, then the record. */
  function BuildExperiment(payload: seq<(string, Value)>, timeSpan: string): (r: Result<Value>)
    ensures r.Ok? <==> TextField(payload, "mutModel").Ok? && TextField(payload, "efModel").Ok?
                       && TextField(payload, "mutInit").Ok? && TextField(payload, "efInit").Ok?
                       && ExperimentCouplings(payload).Ok?
  {
    var mutModel :- TextField(payload, "mutModel");
    var efModel :- TextField(payload, "efModel");
    var mutInit :- TextField(payload, "mutInit");
    var efInit :- TextField(payload, "efInit");
    var couplings :- ExperimentCouplings(payload);
    Ok(ExperimentRecord(mutModel, mutInit, efModel, efInit, couplings.0, couplings.1, timeSpan))
  }

  /** A record built from a form names the model under test and the time
      span the driver generator reads back, and its couplings normalise to
      the ones the form gave. */
  lemma {:induction false} BuildExperimentReadBack(payload: seq<(string, Value)>, timeSpan: string)
    requires BuildExperiment(payload, timeSpan).Ok?
    ensures var rec := BuildExperiment(payload, timeSpan).value;
      && SimpleStatements.TopModelName(rec)
         == Ok(RemoveSuffix(TextField(payload, "mutModel").value, SimpleStatements.CoupledSuffix))
      && SimpleStatements.SimulationTime(rec) == Ok(Str(timeSpan))
      && Lookup(rec, "cpic").Ok? && NormalizeCouplings(Lookup(rec, "cpic").value) == Ok(ExperimentCouplings(payload).value.0)
      && Lookup(rec, "pocc").Ok? && NormalizeCouplings(Lookup(rec, "pocc").value) == Ok(ExperimentCouplings(payload).value.1)
  {
    var mutModel := TextField(payload, "mutModel").value;
    var efModel := TextField(payload, "efModel").value;
    var mutInit := TextField(payload, "mutInit").value;
    var efInit := TextField(payload, "efInit").value;
    var couplings := ExperimentCouplings(payload).value;
    assert BuildExperiment(payload, timeSpan).value
           == ExperimentRecord(mutModel, mutInit, efModel, efInit, couplings.0, couplings.1, timeSpan);
    RecordModelUnderTest(mutModel, mutInit, efModel, efInit, couplings.0, couplings.1, timeSpan);
    RecordTimeSpan(mutModel, mutInit, efModel, efInit, couplings.0, couplings.1, timeSpan);
    RecordCpic(mutModel, mutInit, efModel, efInit, couplings.0, couplings.1, timeSpan);
    RecordPocc(mutModel, mutInit, efModel, efInit, couplings.0, couplings.1, timeSpan);
    CouplingsReadBack(payload);
  }

  lemma {:induction false} CouplingsReadBack(payload: seq<(string, Value)>)
    requires ExperimentCouplings(payload).Ok?
    ensures NormalizeCouplings(CouplingsValue(ExperimentCouplings(payload).value.0)) == Ok(ExperimentCouplings(payload).value.0)
    ensures NormalizeCouplings(CouplingsValue(ExperimentCouplings(payload).value.1)) == Ok(ExperimentCouplings(payload).value.1)
  {
    NormalizeIdempotent(GetOr(payload, "cpic", Arr([])));
    NormalizeIdempotent(GetOr(payload, "pocc", Arr([])));
  }
}
