/** Organising the parsed DEVSMap files (`parser_reading_files.py`): the
    type of a file read off its name, the records sorted into buckets by
    that type, and the check that a directory holds a usable set of files.

    The directory listing and the parsed contents are given as values:
    listing, reading and decoding the files is not modelled. */
module RepositoryBuilder {
  import opened Outcome
  import opened Json
  import opened Text

  /* ----- File types ----- */

  /** `key.split('_')[-1].split('.')[0]`: the text before the first `.` of
      the last `_`-separated part of a file name. */
  function FileType(name: string): (r: string)
    ensures '_' !in r && '.' !in r
  {
    var words := Split(name, "_");
    var last := words[|words| - 1];
    SplitPiecesFree(name, "_");
    FirstPieceIsPrefix(last, ".");
    SplitPiecesFree(last, ".");
    NotOccursChar(last, '_');
    NotOccursChar(Split(last, ".")[0], '.');
    Split(last, ".")[0]
  }

  lemma {:induction false} FirstPieceIsPrefix(s: string, sep: string)
    requires |sep| > 0
    ensures StartsWith(s, Split(s, sep)[0])
  {
    FindFound(s, sep);
  }

  /** A character that occurs nowhere as a one-character pattern is not in
      the text. */
  lemma {:induction false} NotOccursChar(s: string, c: char)
    requires !Occurs(s, [c])
    ensures forall t :: StartsWith(s, t) ==> c !in t
  {
    forall t | StartsWith(s, t)
      ensures c !in t
    {
      if c in t {
        var k :| 0 <= k < |t| && t[k] == c;
        assert s[k..k + 1] == [c];
        assert At(s, k, [c]);
      }
    }
  }

  /** A character at index `n` is found at or before `n`. */
  lemma {:induction false} FindChar(s: string, c: char, n: nat)
    requires n < |s| && s[n] == c
    ensures Find(s, [c]).Some? && Find(s, [c]).value <= n && s[Find(s, [c]).value] == c
  {
    assert s[n..n + 1] == [c];
    assert At(s, n, [c]);
    FindSpec(s, [c]);
  }

  /** Splitting at a one-character separator: the last piece is whatever
      follows the last separator. */
  lemma {:induction false} LastSplitPiece(a: string, c: char, b: string)
    requires c !in b
    ensures var ws := Split(a + [c] + b, [c]); ws[|ws| - 1] == b
    decreases |a|
  {
    var s := a + [c] + b;
    FindChar(s, c, |a|);
    var k := Find(s, [c]).value;
    var rest := s[k + 1..];
    assert Split(s, [c]) == [s[..k]] + Split(rest, [c]);
    if k == |a| {
      assert rest == b;
      NotOccursByChar(b, [c], 0);
      FindSpec(b, [c]);
    } else {
      assert rest == a[k + 1..] + [c] + b;
      LastSplitPiece(a[k + 1..], c, b);
    }
  }

  /** Splitting at a one-character separator that does not occur leaves
      one piece, and one that first occurs right after `t` cuts `t` off. */
  lemma {:induction false} FirstSplitPiece(t: string, c: char, q: string)
    requires c !in t
    requires q == [] || q[0] == c
    ensures Split(t + q, [c])[0] == t
  {
    forall i | 0 <= i < |t|
      ensures !At(t + q, i, [c])
    {
      assert (t + q)[i] == t[i];
    }
    if q == [] {
      assert t + q == t;
      NotOccursByChar(t, [c], 0);
      FindSpec(t, [c]);
    } else {
      assert q[..1] == [c];
      FindSkip(t, q, [c]);
    }
  }

  /** The file type is the part after the last `_` and before the next
      `.`: a name made of any prefix ending in `_` (or none), a part
      without `_` or `.`, and a rest without `_` that is empty or starts
      with `.` has that part as its type. */
  lemma {:induction false} FileTypeOf(p: string, t: string, q: string)
    requires p == [] || p[|p| - 1] == '_'
    requires '_' !in t && '.' !in t && '_' !in q
    requires q == [] || q[0] == '.'
    ensures FileType(p + t + q) == t
  {
    var name := p + t + q;
    assert '_' !in t + q;
    if p == [] {
      assert name == t + q;
      NotOccursByChar(t + q, "_", 0);
      FindSpec(t + q, "_");
    } else {
      var a := p[..|p| - 1];
      assert name == a + ['_'] + (t + q);
      LastSplitPiece(a, '_', t + q);
    }
    FirstSplitPiece(t, '.', q);
  }

  /** A file named `<anything>_<t>.json` has type `t`; so `_init_state.json`
      files have type `state`. */
  lemma {:induction false} FileTypeOfSuffix(name: string, t: string, suffix: string)
    requires '_' !in t && '.' !in t
    requires suffix == "_" + t + ".json"
    requires EndsWith(name, suffix)
    ensures FileType(name) == t
  {
    var n := |name| - |t| - 5;
    var p := name[..n];
    assert name[n - 1..] == suffix;
    assert p[|p| - 1] == '_';
    assert name == p + t + ".json";
    FileTypeOf(p, t, ".json");
  }

  /* ----- sort_json_files ----- */

  /** The buckets `sort_json_files` fills. The definition, parameter and
      metadata buckets are never written and are not modelled; `Null`
      stands for `None`. */
  datatype Repository = Repository(
    atomicModels: seq<Value>,
    coupledModels: seq<Value>,
    experiment: Value,
    initStates: Value)

  const EmptyRepository: Repository := Repository([], [], Null, Null)

  /** One file sorted into the buckets: atomic and coupled records are
      appended, an experiment replaces the previous one, an init-state file
      stores its `init_states` member, and any other type is skipped. */
  function SortFile(repo: Repository, file: (string, Value)): (r: Result<Repository>)
    ensures r.Ok? <==> FileType(file.0) == "state" ==> Lookup(file.1, "init_states").Ok?
    ensures r.Ok? ==> r.value.atomicModels == repo.atomicModels + (if FileType(file.0) == "atomic" then [file.1] else [])
    ensures r.Ok? ==> r.value.coupledModels == repo.coupledModels + (if FileType(file.0) == "coupled" then [file.1] else [])
    ensures r.Ok? ==> r.value.experiment == (if FileType(file.0) == "experiment" then file.1 else repo.experiment)
    ensures r.Ok? ==> r.value.initStates == (if FileType(file.0) == "state" then Lookup(file.1, "init_states").value else repo.initStates)
  {
    match FileType(file.0)
    case "atomic" => Ok(repo.(atomicModels := repo.atomicModels + [file.1]))
    case "coupled" => Ok(repo.(coupledModels := repo.coupledModels + [file.1]))
    case "experiment" => Ok(repo.(experiment := file.1))
    case "state" =>
      var initStates :- Lookup(file.1, "init_states");
      Ok(repo.(initStates := initStates))
    case _ => Ok(repo)
  }

  /** The records of the files of type `t`, in file order. */
  function OfType(files: seq<(string, Value)>, t: string): (r: seq<Value>)
    ensures |r| <= |files|
  {
    if |files| == 0 then []
    else (if FileType(files[0].0) == t then [files[0].1] else []) + OfType(files[1..], t)
  }

  /** The positions of the files of type `t`. */
  function Positions(files: seq<(string, Value)>, t: string): (r: set<int>)
    ensures forall i :: i in r <==> 0 <= i < |files| && FileType(files[i].0) == t
  {
    Flagged(TypeFlags(files, t))
  }

  /** For each file, whether it has type `t`. */
  function TypeFlags(files: seq<(string, Value)>, t: string): (r: seq<bool>)
    ensures |r| == |files| && forall i :: 0 <= i < |files| ==> (r[i] <==> FileType(files[i].0) == t)
  {
    seq(|files|, i requires 0 <= i < |files| => FileType(files[i].0) == t)
  }

  /** The positions at which a flag is set. */
  function Flagged(flags: seq<bool>): (r: set<int>)
    ensures forall i :: i in r <==> 0 <= i < |flags| && flags[i]
  {
    set i | 0 <= i < |flags| && flags[i]
  }

  lemma {:induction false} FlaggedAppend(flags: seq<bool>, b: bool)
    ensures |Flagged(flags + [b])| == |Flagged(flags)| + (if b then 1 else 0)
  {
    var all := flags + [b];
    var n := |flags|;
    var before := Flagged(flags);
    assert forall j :: 0 <= j < n ==> all[j] == flags[j];
    assert n !in before;
    if b {
      assert Flagged(all) == before + {n};
    } else {
      assert Flagged(all) == before;
    }
  }

  /** File `i` is the last file of type `t`. */
  predicate LastOfType(files: seq<(string, Value)>, t: string, i: int)
  {
    0 <= i < |files| && FileType(files[i].0) == t
    && forall j :: i < j < |files| ==> FileType(files[j].0) != t
  }

  /** No file has type `t`. */
  predicate NoneOfType(files: seq<(string, Value)>, t: string)
  {
    forall i :: 0 <= i < |files| ==> FileType(files[i].0) != t
  }

  /** Every init-state file holds an `init_states` member. */
  predicate StatesReadable(files: seq<(string, Value)>)
  {
    forall i :: 0 <= i < |files| && FileType(files[i].0) == "state" ==> Lookup(files[i].1, "init_states").Ok?
  }

  /** The buckets hold what the files say: the atomic and the coupled
      records in file order, and the experiment and the initial states of
      the last file of their type, or `None` when there is none. */
  ghost predicate Sorted(files: seq<(string, Value)>, repo: Repository)
  {
    && repo.atomicModels == OfType(files, "atomic")
    && repo.coupledModels == OfType(files, "coupled")
    && (NoneOfType(files, "experiment") ==> repo.experiment == Null)
    && (forall i :: LastOfType(files, "experiment", i) ==> repo.experiment == files[i].1)
    && (NoneOfType(files, "state") ==> repo.initStates == Null)
    && (forall i :: LastOfType(files, "state", i) ==>
          Lookup(files[i].1, "init_states").Ok? && repo.initStates == Lookup(files[i].1, "init_states").value)
  }

  /** `sort_json_files`: the files, in the order they were read, sorted into
      the buckets. Sorting fails exactly when an init-state file has no
      `init_states` member. */
  function SortJsonFiles(files: seq<(string, Value)>): (r: Result<Repository>)
    ensures r.Ok? <==> StatesReadable(files)
    ensures r.Ok? ==> Sorted(files, r.value)
  {
    if |files| == 0 then Ok(EmptyRepository)
    else
      var init := files[..|files| - 1];
      var last := files[|files| - 1];
      assert files == init + [last];
      ReadableStep(init, last);
      var repo :- SortJsonFiles(init);
      SortStep(init, last, repo);
      SortFile(repo, last)
  }

  lemma {:induction false} ReadableStep(files: seq<(string, Value)>, file: (string, Value))
    ensures StatesReadable(files + [file])
            <==> StatesReadable(files) && (FileType(file.0) == "state" ==> Lookup(file.1, "init_states").Ok?)
  {
    var all := files + [file];
    assert forall j :: 0 <= j < |files| ==> all[j] == files[j];
    assert all[|files|] == file;
  }

  lemma {:induction false} SortStep(files: seq<(string, Value)>, file: (string, Value), repo: Repository)
    requires Sorted(files, repo)
    ensures SortFile(repo, file).Ok? ==> Sorted(files + [file], SortFile(repo, file).value)
  {
    OfTypeAppend(files, file, "atomic");
    OfTypeAppend(files, file, "coupled");
    LastOfTypeAppend(files, file, "experiment");
    LastOfTypeAppend(files, file, "state");
  }

  lemma {:induction false} OfTypeAppend(files: seq<(string, Value)>, file: (string, Value), t: string)
    ensures OfType(files + [file], t) == OfType(files, t) + (if FileType(file.0) == t then [file.1] else [])
    decreases |files|
  {
    if |files| == 0 {
      assert files + [file] == [file];
    } else {
      var all := files + [file];
      assert all[0] == files[0];
      assert all[1..] == files[1..] + [file];
      OfTypeAppend(files[1..], file, t);
      assert OfType(all, t) == (if FileType(files[0].0) == t then [files[0].1] else []) + OfType(files[1..] + [file], t);
    }
  }

  lemma {:induction false} LastOfTypeAppend(files: seq<(string, Value)>, file: (string, Value), t: string)
    ensures FileType(file.0) == t ==> LastOfType(files + [file], t, |files|)
    ensures FileType(file.0) == t ==> forall i :: LastOfType(files + [file], t, i) ==> i == |files|
    ensures FileType(file.0) != t ==> forall i :: LastOfType(files + [file], t, i) <==> LastOfType(files, t, i)
    ensures NoneOfType(files + [file], t) <==> NoneOfType(files, t) && FileType(file.0) != t
  {
    var all := files + [file];
    assert forall j :: 0 <= j < |files| ==> all[j] == files[j];
    assert all[|files|] == file;
  }

  /** The number of atomic (or coupled) records is the number of files of
      that type. */
  lemma {:induction false} OfTypeCounts(files: seq<(string, Value)>, t: string)
    ensures |OfType(files, t)| == |Positions(files, t)|
    decreases |files|
  {
    if |files| > 0 {
      var init := files[..|files| - 1];
      var last := files[|files| - 1];
      assert files == init + [last];
      OfTypeAppend(init, last, t);
      OfTypeCounts(init, t);
      PositionsAppend(init, last, t);
    }
  }

  lemma {:induction false} PositionsAppend(files: seq<(string, Value)>, file: (string, Value), t: string)
    ensures |Positions(files + [file], t)| == |Positions(files, t)| + (if FileType(file.0) == t then 1 else 0)
  {
    var all := files + [file];
    assert forall j :: 0 <= j < |files| ==> all[j] == files[j];
    assert TypeFlags(all, t) == TypeFlags(files, t) + [FileType(file.0) == t];
    FlaggedAppend(TypeFlags(files, t), FileType(file.0) == t);
  }

  /** Sorting keeps one atomic record per atomic file and one coupled
      record per coupled file. */
  lemma {:induction false} SortedCounts(files: seq<(string, Value)>)
    requires SortJsonFiles(files).Ok?
    ensures |SortJsonFiles(files).value.atomicModels| == |Positions(files, "atomic")|
    ensures |SortJsonFiles(files).value.coupledModels| == |Positions(files, "coupled")|
  {
    OfTypeCounts(files, "atomic");
    OfTypeCounts(files, "coupled");
  }

  /** A file of an unrecognised type leaves every bucket as it was. */
  lemma {:induction false} UnknownTypeSkipped(files: seq<(string, Value)>, file: (string, Value))
    requires FileType(file.0) !in {"atomic", "coupled", "experiment", "state"}
    ensures SortJsonFiles(files + [file]) == SortJsonFiles(files)
  {
    assert (files + [file])[..|files|] == files;
  }

  /** A later experiment file overwrites an earlier one. */
  lemma {:induction false} LaterExperimentWins(files: seq<(string, Value)>, name: string, record: Value)
    requires SortJsonFiles(files).Ok?
    requires FileType(name) == "experiment"
    ensures SortJsonFiles(files + [(name, record)]).Ok?
    ensures SortJsonFiles(files + [(name, record)]).value.experiment == record
  {
    assert (files + [(name, record)])[..|files|] == files;
  }

  /* ----- check_file_counts ----- */

  /** A directory entry: its name and whether it is a regular file. */
  datatype Entry = Entry(name: string, isFile: bool)

  const AtomicSuffix: string := "_atomic.json"
  const CoupledSuffix: string := "_coupled.json"
  const ExperimentSuffix: string := "_experiment.json"
  const InitStateSuffix: string := "_init_state.json"

  /** A regular file whose name ends with `suffix`. */
  predicate Matches(e: Entry, suffix: string)
  {
    e.isFile && EndsWith(e.name, suffix)
  }

  /** The positions among the first `n` entries that match `suffix`. */
  function Matching(entries: seq<Entry>, n: nat, suffix: string): (r: set<int>)
    requires n <= |entries|
    ensures forall i :: i in r <==> 0 <= i < n && Matches(entries[i], suffix)
  {
    set i | 0 <= i < n && Matches(entries[i], suffix)
  }

  /** The number of regular files whose names end with `suffix`. */
  function CountMatching(entries: seq<Entry>, suffix: string): nat
  {
    CountBefore(entries, |entries|, suffix)
  }

  /** The number of matching files among the first `n` entries. */
  function CountBefore(entries: seq<Entry>, n: nat, suffix: string): nat
    requires n <= |entries|
  {
    |Matching(entries, n, suffix)|
  }

  /** Some regular file's name ends with `suffix`. */
  predicate AnyMatching(entries: seq<Entry>, suffix: string)
  {
    exists i :: 0 <= i < |entries| && Matches(entries[i], suffix)
  }


  /** The fileset the generator needs: at least one atomic model, at least
      one coupled model, exactly one experiment and exactly one set of
      initial states. */
  predicate ValidFileset(entries: seq<Entry>)
  {
    AnyMatching(entries, AtomicSuffix) && AnyMatching(entries, CoupledSuffix)
    && CountMatching(entries, ExperimentSuffix) == 1 && CountMatching(entries, InitStateSuffix) == 1
  }

  lemma {:induction false} MatchingStep(entries: seq<Entry>, n: nat, suffix: string)
    requires n < |entries|
    ensures CountBefore(entries, n + 1, suffix) == CountBefore(entries, n, suffix) + (if Matches(entries[n], suffix) then 1 else 0)
  {
    if Matches(entries[n], suffix) {
      assert Matching(entries, n + 1, suffix) == Matching(entries, n, suffix) + {n};
    } else {
      assert Matching(entries, n + 1, suffix) == Matching(entries, n, suffix);
    }
  }

  lemma {:induction false} SomeMatching(entries: seq<Entry>, suffix: string)
    ensures AnyMatching(entries, suffix) <==> CountMatching(entries, suffix) > 0
  {
    var m := Matching(entries, |entries|, suffix);
    if AnyMatching(entries, suffix) {
      var i :| 0 <= i < |entries| && Matches(entries[i], suffix);
      assert i in m;
    } else {
      assert m == {};
    }
  }

  /** `check_file_counts`, over the directory's entries in listing order. */
  method CheckFileCounts(entries: seq<Entry>) returns (valid: bool)
    ensures valid <==> ValidFileset(entries)
  {
    valid := CheckCounts(entries, AtomicSuffix, CoupledSuffix, ExperimentSuffix, InitStateSuffix);
  }

  /** The loop of `check_file_counts` with its four name suffixes as
      parameters: one pass over the entries that records whether any
      atomic or coupled file was seen and counts the experiment and
      init-state files. */
  method CheckCounts(entries: seq<Entry>, atomic: string, coupled: string, experiment: string, initState: string)
    returns (valid: bool)
    ensures valid <==> AnyMatching(entries, atomic) && AnyMatching(entries, coupled)
                       && CountMatching(entries, experiment) == 1 && CountMatching(entries, initState) == 1
  {
    var hasAtomic := false;
    var hasCoupled := false;
    var experimentCount := 0;
    var initStatesCount := 0;
    var i := 0;
    while i < |entries|
      invariant 0 <= i <= |entries|
      invariant hasAtomic <==> CountBefore(entries, i, atomic) > 0
      invariant hasCoupled <==> CountBefore(entries, i, coupled) > 0
      invariant experimentCount == CountBefore(entries, i, experiment)
      invariant initStatesCount == CountBefore(entries, i, initState)
    {
      var e := entries[i];
      MatchingStep(entries, i, atomic);
      MatchingStep(entries, i, coupled);
      MatchingStep(entries, i, experiment);
      MatchingStep(entries, i, initState);
      if e.isFile {
        if EndsWith(e.name, atomic) {
          hasAtomic := true;
        }
        if EndsWith(e.name, coupled) {
          hasCoupled := true;
        }
        if EndsWith(e.name, experiment) {
          experimentCount := experimentCount + 1;
        }
        if EndsWith(e.name, initState) {
          initStatesCount := initStatesCount + 1;
        }
      }
      i := i + 1;
    }
    valid := hasAtomic && hasCoupled && experimentCount == 1 && initStatesCount == 1;
    SomeMatching(entries, atomic);
    SomeMatching(entries, coupled);
  }

  /** Every file the check counts is sorted into the bucket of the same
      kind: atomic, coupled and experiment files by their own names, and
      init-state files as type `state`. */
  lemma {:induction false} AtomicFilesSorted(name: string)
    requires EndsWith(name, AtomicSuffix)
    ensures FileType(name) == "atomic"
  {
    FileTypeOfSuffix(name, "atomic", AtomicSuffix);
  }

  lemma {:induction false} CoupledFilesSorted(name: string)
    requires EndsWith(name, CoupledSuffix)
    ensures FileType(name) == "coupled"
  {
    FileTypeOfSuffix(name, "coupled", CoupledSuffix);
  }

  lemma {:induction false} ExperimentFilesSorted(name: string)
    requires EndsWith(name, ExperimentSuffix)
    ensures FileType(name) == "experiment"
  {
    FileTypeOfSuffix(name, "experiment", ExperimentSuffix);
  }

  lemma {:induction false} InitStateFilesSorted(name: string)
    requires EndsWith(name, InitStateSuffix)
    ensures FileType(name) == "state"
  {
    assert name[|name| - 11..] == InitStateSuffix[5..];
    FileTypeOfSuffix(name, "state", "_state.json");
  }
}
