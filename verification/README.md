# DEVSMap to Cadmium: a Dafny model of the text compiler

The DEVSMap-to-Cadmium generator reads a directory of DEVSMap JSON files.
It writes the Cadmium C++ simulation that the files describe:
- one header per atomic model;
- one header per coupled model;
- a `main.cpp` driver.

A small form back end also turns form data into a DEVSMap experiment file.

This project models the part of the generator that turns parsed JSON records into C++ text:
- the conditional-block compiler (`helper.py`);
- the atomic model emitter (`generate_atomic_model_hpp.py`);
- the small statement helpers (`generate_simple_statements.py`);
- the coupled model emitter (`generate_coupled_model_hpp.py`);
- the driver emitter (`generate_main_cpp.py`);
- the sorting of parsed files by type and the fileset check (`parser_reading_files.py`);
- the file-name sanitiser, coupling normaliser and record builder of the experiment form (`generate_experiment_json_from_gui_data.py`).

Every generator is a pure function from parsed values to a `Result<string>`.
A Python exception becomes an `Err` of the matching kind (`KeyError`, `TypeError`, `NameError`, `ValueError`, `IndexError`, `AttributeError`).
A parsed JSON value is `Json.Value`; an object is an ordered `seq<(string, Value)>`, so iteration order is declaration order.

Modules, in dependency order:
- `Outcome` — `Option`, `Result`, the error kinds, and the two loops that stop at the first failing item (`MapResult`, `MapIndexed`).
- `Json` — values, lookups and Python's `len`, iteration and truthiness on them.
- `Text` — the Python string operations the generator uses: `replace`, `split`, `join`, `strip`, `rstrip`, `upper`, `removesuffix`, `splitlines(True)`.
- `BagRewrite` — the three `re.sub` rewrites of the external transition.
- `Helper`, `SimpleStatements`, `AtomicState`, `AtomicClass`, `AtomicFunctions`, `AtomicModel`, `CoupledModel`, `MainCpp`, `RepositoryBuilder`, `ExperimentJson` — one per source file or concern, named after what they generate.

Where the code and its comments disagree, the model follows the code:
- `prefix_states` is plain substring replacement. Its comment says `targetnumber` is left alone when `number` is a state variable. The code rewrites it to `targetstate.number` whenever a space or `;` follows (`Helper.QualifiesInsideLongerName`).
- The helper renders `otherwise` as `else` at whatever position it is declared, not only last (`Helper.BlockOpens`).
- A time-advance tree whose key count is not one yields an empty function body, not an error (`AtomicFunctions.TimeAdvance`).
- A condition tree without keys makes the helper return `None`. That fails in `prefix_states` as soon as there is a state variable (`Helper.EmptyTree`).
- The constructor's initialisers are written as ` name(value), ` and then right-stripped of commas and spaces. Consecutive initialisers are therefore separated by `,` and two spaces (`AtomicState.ConstructorInitialisesEveryVariable`).
- The search for initial values discards a match that is an empty object, because the caller tests `if result:` (`AtomicState.ChildIsFirstMatch`).

## Model

| member | source | states |
|---|---|---|
| Helper.PrefixStates | helper.py:15-18 | With no state variables the text comes back unchanged. |
| Helper.PrefixStatesAbsent | helper.py:15-18 | Text in which no listed variable is followed by a space or a `;` comes back unchanged. |
| Helper.QualifyRewritesEveryOccurrence | helper.py:16-17 | Qualifying one variable cuts the text at every `v ` and reglues the pieces with `state.v `, then does the same for `v;`. The pieces are exactly the text between the occurrences and contain none. |
| Helper.QualifiesInsideLongerName | helper.py:1-18 | A variable that ends a longer word is qualified inside that word, contrary to the comment's claim. |
| Helper.Assignments | helper.py:109-111 | An object of assignments yields one `var = expr;` line per entry, in declared order, at the given indentation. A non-string expression is a `TypeError`. |
| Helper.AssignmentsAreLines | helper.py:109-111 | Read back line by line, the assignments are exactly the lines generated, one per entry. |
| Helper.Render | helper.py:76-132 | The helper returns text exactly when the tree has at least one key, and `None` for a tree without keys. |
| Helper.BuildConditionals | helper.py:21-61 | The compiler yields `None` only for a tree without keys and no state variables. Every other outcome is text or an error. |
| Helper.EmptyOtherwiseNotImplemented | helper.py:51-54 | A lone `otherwise` with an empty leaf yields exactly the "Not implemented" comment, with no branch and nothing qualified. |
| Helper.OtherwiseOnlyAssigns | helper.py:55-61 | A lone `otherwise` with a non-empty leaf yields one `\t\tk = v;` line per entry, in declared order, and then qualifies them. |
| Helper.LoneKeyMustBeOtherwise | helper.py:51-52 | A tree whose single key is not `otherwise` fails with `KeyError('otherwise')`. |
| Helper.OtherwiseListFails | helper.py:52-58 | A lone `otherwise` holding a non-empty list fails: with `IndexError` exactly when the list's first item is an integer outside its index range, and with `TypeError` otherwise. |
| Helper.EmptyTree | helper.py:59-61 | A tree without keys fails once there is a state variable to qualify, and yields `None` otherwise. |
| Helper.BlocksStartWithHeader | helper.py:98-104 | The blocks from position `i` on begin with block `i`'s header. |
| Helper.BlockOpens | helper.py:99-104 | `otherwise` opens with `else {` at any position. Any other first key opens with `if (key) {` at the block's indentation. Any other later key opens with `else if (key) {`. |
| Helper.BlocksClose | helper.py:119-129 | The last block closes with `}` and a newline at the block's indentation. |
| Helper.BodyBalanced | helper.py:106-117 | In the corrected helper, a block body whose conditions and expressions hold no braces opens as many braces as it closes. |
| Helper.BlocksBalanced | helper.py:93-129 | In the corrected helper, k blocks open k braces and close k braces, nested blocks included. |
| Helper.PruneKeepsSurplus | helper.py:131 | Removing empty `else` blocks keeps the balance of braces. |
| Helper.RenderBalanced | helper.py:120-132 | The corrected helper's text, after pruning, closes every brace it opens. |
| Helper.EmptyOtherwisePruned | helper.py:120-131 | A condition followed by an empty `otherwise` renders as the `if` block alone, ending in `}` and a newline. |
| Helper.NestedBranchesNeedRecursion | helper.py:107-114 | As written, a block whose value holds a nested condition fails with `NameError('write_conditions')`. The corrected helper renders it whenever the nested tree renders. |
| Helper.ShallowRenderAgrees | helper.py:107-117 | On trees without nested conditions, the code as written and the corrected helper produce the same result. |
| SimpleStatements.IncludeModel | generate_simple_statements.py:10-17 | The include line opens with `#include "include/` and closes with `.hpp"` and two newlines, with the model name in between. |
| SimpleStatements.IncludeModelRoundTrip | generate_simple_statements.py:17 | The model name is read back from its include line, and only that line includes it. |
| SimpleStatements.Guard | generate_simple_statements.py:35 | The guard is the model name upper-cased, letter by letter, followed by `_HPP`, and holds no lower-case letter. |
| SimpleStatements.FileDefinitionLines | generate_simple_statements.py:35-36 | Read back line by line, the file definition is `#ifndef G`, `#define G` with the same guard G, and a blank line. |
| SimpleStatements.FileDefinitionIgnoresCase | generate_simple_statements.py:35 | A model name and its upper-cased form get the same include guard. |
| SimpleStatements.ReplaceInfAbsent | generate_simple_statements.py:46-60 | Text containing neither `(inf)` nor ` inf;` comes back unchanged, however often the letters `inf` appear in it otherwise. |
| SimpleStatements.ReplaceInfRewritesEveryOccurrence | generate_simple_statements.py:57-59 | Every `(inf)` becomes `(std::numeric_limits<double>::infinity())`, then every ` inf;` becomes ` std::numeric_limits<double>::infinity();`. |
| SimpleStatements.ReplaceInfFramed | generate_simple_statements.py:57-59 | Around a middle, a head and a tail that hold neither spelling and cannot take part in one across the seams are kept, and only the middle is rewritten. |
| SimpleStatements.SimulationTime | generate_simple_statements.py:64-72 | The simulation time is the experiment's `time_span` member, and it exists exactly when the experiment is an object holding it. |
| SimpleStatements.TopModelName | generate_simple_statements.py:75-83 | The top model is `model_under_test.model`, with a trailing `_coupled.json` removed when present. |
| SimpleStatements.TopModelNameOfFile | generate_simple_statements.py:83 | Naming `m_coupled.json` or a bare `m` both yield `m`. |
| SimpleStatements.TopModel | generate_simple_statements.py:86-96 | With no coupled records the lookup is an `IndexError`. Otherwise the top model is the first record's member of that name. |
| SimpleStatements.TopModelFirstRecordOnly | generate_simple_statements.py:96 | Records after the first never affect the result, even when only they hold the name. |
| Json.RecordName | generate_atomic_model_hpp.py:18-19 | A record's model name is its first key. It exists exactly when the record is a non-empty object. |
| Json.Len | helper.py:51 | `len` is defined on strings, lists and objects, and undefined on `None`, booleans and numbers. |
| Json.Entries | generate_atomic_model_hpp.py:250-251 | Iterating a mapping and indexing it by each key works for an object, in declared order, and for an empty string or list. A non-empty list fails with `IndexError` exactly when its first item is an integer outside the list's index range; every other failure is a `TypeError`. |
| Json.Iterate | generate_coupled_model_hpp.py:70 | Iterating an object yields its keys in order, a list its items, and a string its characters. |
| Text.RStrip | generate_atomic_model_hpp.py:151 | The result is the longest prefix that does not end in one of the stripped characters, and everything removed is such a character. |
| Text.Strip | generate_experiment_json_from_gui_data.py:38-39 | The result is a slice of the text with only whitespace cut from either end, and it neither starts nor ends with whitespace. |
| Text.RemoveSuffix | generate_simple_statements.py:83 | A present non-empty suffix is removed exactly once; otherwise the text is unchanged. |
| Text.Upper | generate_simple_statements.py:35 | Upper-casing keeps the length and leaves no lower-case letter. |
| AtomicState.StateName | generate_atomic_model_hpp.py:60-68 | The state type's name ends with `State` and is the model name's length plus five. |
| AtomicState.StateNameRoundTrip | generate_atomic_model_hpp.py:68 | The model name is recovered by removing `State`, so distinct models have distinct state types. |
| AtomicState.FirstMatch | generate_atomic_model_hpp.py:100-114 | The reference search: the first truthy object whose key set is the variable names, or none when no such object is in the list. |
| AtomicState.SearchIsFirstMatch | generate_atomic_model_hpp.py:100-113 | The recursive search returns the node itself when it matches. Otherwise it returns the first truthy match in pre-order over object values and list items below it. |
| AtomicState.ChildIsFirstMatch | generate_atomic_model_hpp.py:104-112 | What a parent keeps of a child's search (`if result:`) is the first truthy match in the child's whole pre-order. |
| AtomicState.FindInitialisation | generate_atomic_model_hpp.py:90-114 | A value found is an object whose key set is exactly the state variables' names. |
| AtomicState.StateVariables | generate_atomic_model_hpp.py:130-131 | The state variables are the members of the model's `s` object. Reading them fails when `s` is missing or not an object. |
| AtomicState.Declarations | generate_atomic_model_hpp.py:135-138 | One `\ttype name;` declaration per state variable, in declared order. A non-string type is a `TypeError`. |
| AtomicState.Initialisers | generate_atomic_model_hpp.py:143-149 | One `name(value)` initialiser per state variable, in declared order, each value taken from the object found. When nothing was found and there are variables, this is a `TypeError`. |
| AtomicState.ConstructorInitialisesEveryVariable | generate_atomic_model_hpp.py:129-153 | The struct is its head, the declarations in order, the constructor head, and the initialisers joined without a trailing comma, then the closing. |
| AtomicState.MissingInitialisation | generate_atomic_model_hpp.py:143-147 | A model with state variables but no matching initial-state object cannot be generated. |
| AtomicState.PrinterListsEveryVariable | generate_atomic_model_hpp.py:166-193 | With no state variables the printer only returns `out`. Otherwise it prints `name: " << state.name` for every variable in order, without a trailing separator. |
| AtomicClass.PortTypes | generate_atomic_model_hpp.py:250-257 | Ports are read in declared order with their types. Reading succeeds when every type is a string. |
| AtomicClass.PortDeclarationLines | generate_atomic_model_hpp.py:233-258 | Read back line by line: `public:`, the inputs comment, one declaration per input port in order, a blank line, the outputs comment, one per output port in order, and a blank line. |
| AtomicClass.ConstructorLines | generate_atomic_model_hpp.py:261-288 | Read back line by line: the constructor head, then `addInPort` registrations for the inputs in order, before `addOutPort` registrations for the outputs in order, then the closing. |
| AtomicFunctions.LStripTabs | generate_atomic_model_hpp.py:330 | The result is a suffix of the line that does not start with a tab, and everything removed is a tab. |
| AtomicFunctions.StatementIsNotBranch | generate_atomic_model_hpp.py:330-332 | An assignment to a name that starts with neither `if` nor `else` is never taken for a branch line. |
| AtomicFunctions.BranchLineOf | generate_atomic_model_hpp.py:330-332 | An indented line that starts with `if` or `}` is a branch line. |
| AtomicFunctions.InternalTransition | generate_atomic_model_hpp.py:291-306 | The internal transition succeeds exactly when its condition tree compiles to text. For a state name without `)` or `;`, it is the signature, the tree's text with the infinity rewrite, and the closing brace: the rewrite touches nothing outside the tree's text. |
| AtomicFunctions.InternalWithoutInfinity | generate_atomic_model_hpp.py:302-306 | Without `(inf)` or ` inf;` in it, the internal transition is its head, the compiled tree and the closing, unchanged. |
| AtomicFunctions.ExternalTransition | generate_atomic_model_hpp.py:309-347 | The external transition succeeds exactly when its condition tree compiles to text. It starts with the signature and ends with the closing brace, and in between holds each line of the tree's text after the bag rewrites of `BagLine`. |
| AtomicFunctions.ExternalWithoutBags | generate_atomic_model_hpp.py:328-344 | A compiled tree that never mentions `.bag` passes through the line rewrites unchanged. |
| AtomicFunctions.BranchBagRewrite | generate_atomic_model_hpp.py:332-337 | On any branch line `pre X.bagSize() != 0 post` or `pre X.bagSize() == 0 post`, where no other `.bag` appears and `pre` does not end in a word character, the expression becomes `!X->empty()` or `X->empty()` and `pre` and `post` are kept. |
| AtomicFunctions.StatementBagRewrite | generate_atomic_model_hpp.py:338-342 | On any line that is not a branch line, `pre X.bag(-1) post`, where no other `.bag` appears and `pre` does not end in a word character, the expression becomes `X->getBag().back()` and `pre` and `post` are kept. |
| AtomicFunctions.OutputFunction | generate_atomic_model_hpp.py:350-385 | The output function succeeds exactly when its condition tree compiles to text. It starts with the signature and ends with the closing brace, and in between holds each line of the tree's text after the message rewrite of `MessageLine`. |
| AtomicFunctions.AssignmentBecomesMessage | generate_atomic_model_hpp.py:374-380 | An assignment line `port = expr;` becomes `port->addMessage(expr);`. |
| AtomicFunctions.TimeAdvance | generate_atomic_model_hpp.py:388-408 | The time advance fails exactly when `ta` has no length, or has a single key and no string `otherwise` member. With any other key count its body is empty. |
| AtomicFunctions.TimeAdvanceReturns | generate_atomic_model_hpp.py:404-405 | A lone `otherwise: e` yields `return state.e;`. A lone other key fails with `KeyError('otherwise')`. |
| BagRewrite.WordEnd | generate_atomic_model_hpp.py:334 | The identifier the pattern captures is the longest run of word characters from its start. |
| BagRewrite.SubWithoutLiteral | generate_atomic_model_hpp.py:334-341 | A line without the rule's literal is left unchanged by the substitution. |
| BagRewrite.SubAround | generate_atomic_model_hpp.py:334-341 | A line with a single match is rewritten at that match only: the text before the identifier and after the literal is kept. |
| BagRewrite.SubSingle | generate_atomic_model_hpp.py:334-341 | In a line whose only `.bag` is the rule's literal after an identifier standing on its own, the substitution rewrites that identifier and keeps the text before and after. |
| BagRewrite.SubOtherRule | generate_atomic_model_hpp.py:334-337 | In such a line, the other bag-size rule matches nowhere and leaves the line unchanged. |
| AtomicModel.Members | generate_atomic_model_hpp.py:211-218 | The model's members are read in a fixed order. Reading succeeds exactly when all are present. |
| AtomicModel.FirstMissingMember | generate_atomic_model_hpp.py:211-218 | The first member missing in that order is the one the `KeyError` names. |
| AtomicModel.Class | generate_atomic_model_hpp.py:196-230 | The class opens with `class M : public Atomic<MState> {` and closes with `};`. It needs `s` and all six DEVS members. |
| AtomicModel.ClassReportsFirstMissingMember | generate_atomic_model_hpp.py:211-218 | A model lacking some of `x`, `y`, `delta_int`, `delta_ext`, `lambda`, `ta` is reported by the first one it lacks. |
| AtomicModel.AtomicBody | generate_atomic_model_hpp.py:36-41 | The header body begins with the iostream and atomic includes and the namespace. |
| AtomicModel.AtomicFile | generate_atomic_model_hpp.py:33-42 | The header opens with the model's include guard and ends with `#endif`. It exists exactly when its body can be generated. |
| AtomicModel.RecordFile | generate_atomic_model_hpp.py:18-20 | A record's header is written to `<first key>.hpp`. |
| AtomicModel.RecordFileNamedAfterModel | generate_atomic_model_hpp.py:18-33 | A record holding one model yields that model's header under that model's name. |
| AtomicModel.AtomicModels | generate_atomic_model_hpp.py:8-20 | One header per record, in record order. Generation succeeds exactly when every record's header does. |
| CoupledModel.Components | generate_coupled_model_hpp.py:49-57 | The components exist exactly when the model is an object with a `components` member. |
| CoupledModel.ComponentsUnchanged | generate_coupled_model_hpp.py:57 | The components are handed on exactly as the model holds them. |
| CoupledModel.IncludeLine | generate_coupled_model_hpp.py:71 | A component's include line is `#include "` and `.hpp"` around its name. |
| CoupledModel.IncludeLineRoundTrip | generate_coupled_model_hpp.py:71 | The component's name is read back from its include line, and only that line includes it. |
| CoupledModel.ComponentNames | generate_coupled_model_hpp.py:68-71 | The names included are what iterating the components yields, in order. Every one must be a string. |
| CoupledModel.ComponentNamesAreKeys | generate_coupled_model_hpp.py:70 | For a component mapping, the names included are its keys in declared order. |
| CoupledModel.IncludeComponentsLines | generate_coupled_model_hpp.py:60-73 | Read back line by line: exactly one include per component, in declared order, then a blank line. |
| CoupledModel.ComponentEntries | generate_coupled_model_hpp.py:94 | The components are read as type and id pairs in declared order. Every id must be a string. |
| CoupledModel.Coupling | generate_coupled_model_hpp.py:101 | A coupling becomes `addCoupling(from->port_from, to->port_to);`. It needs all four members, each a string. |
| CoupledModel.Couplings | generate_coupled_model_hpp.py:99-102 | One coupling statement per `ic` entry, in list order. |
| CoupledModel.CoupledStruct | generate_coupled_model_hpp.py:76-107 | The struct can be generated exactly when the components, the `ic` list and every coupling can be read. |
| CoupledModel.CoupledStructLines | generate_coupled_model_hpp.py:85-105 | Read back line by line: the struct head and the constructor head, both named after the model. Then one `addComponent` per component in declared order, a blank line, one `addCoupling` per coupling in list order, and the closing. |
| CoupledModel.CoupledFile | generate_coupled_model_hpp.py:22-39 | The header opens with the model's include guard and ends with `#endif`. It exists exactly when the includes and the struct can be generated. |
| CoupledModel.CoupledRecordFile | generate_coupled_model_hpp.py:16-18 | A record's header is written to `<first key>.hpp`. |
| CoupledModel.CoupledModels | generate_coupled_model_hpp.py:6-18 | One header per record, in record order. Generation succeeds exactly when every record's header does. |
| MainCpp.TopOfFileIncludesModel | generate_main_cpp.py:46-53 | The top of the file starts with the root coordinator and limits includes. The top model's include follows right after and names the top model. |
| MainCpp.InitializeModel | generate_main_cpp.py:56-63 | The statement is its fixed parts plus the top model's name three times, as type, as the type made, and as id. |
| MainCpp.InitializeModelInjective | generate_main_cpp.py:63 | Different top models are instantiated by different statements. |
| MainCpp.LoggerLine | generate_main_cpp.py:83-91 | A logger line starts with the indentation and ends with the `setLogger` call. |
| MainCpp.LoggerLineActive | generate_main_cpp.py:83-91 | A logger line calls the coordinator exactly when it is not commented out. |
| MainCpp.SetLoggerActivatesOne | generate_main_cpp.py:73-95 | Exactly one `setLogger` line is active for `STDOUTLogger` or `CSVLogger`, and it is that logger's. For any other type none is active. |
| MainCpp.MainLogsToStdout | generate_main_cpp.py:16-25 | The driver is generated with the STDOUT logger active and the CSV logger commented out. |
| MainCpp.RunSimulationOrder | generate_main_cpp.py:98-109 | Read back line by line: `start()`, `simulate(time)` and `stop()`, in this order, each followed by a blank line. |
| MainCpp.MainFile | generate_main_cpp.py:6-29 | The driver opens with the top of the file and ends with `return 0;` and the closing braces. It can be generated exactly when the time span is a string. |
| RepositoryBuilder.FileType | parser_reading_files.py:109-110 | The file type contains neither `_` nor `.`. |
| RepositoryBuilder.FileTypeOf | parser_reading_files.py:109-110 | The type is the part after the last `_` and before the next `.`. |
| RepositoryBuilder.FileTypeOfSuffix | parser_reading_files.py:109-110 | A file named `<anything>_<t>.json` has type `t`. |
| RepositoryBuilder.SortFile | parser_reading_files.py:111-127 | Atomic and coupled records are appended to their buckets. An experiment replaces the previous one. An init-state file stores its `init_states` member, and it fails when that member is missing. Any other type changes nothing. |
| RepositoryBuilder.SortJsonFiles | parser_reading_files.py:92-128 | Sorting fails exactly when an init-state file lacks `init_states`. Otherwise the atomic and coupled records appear in file order, and the experiment and initial states come from the last file of their type, or are `None`. |
| RepositoryBuilder.SortedCounts | parser_reading_files.py:112-115 | There is one atomic record per atomic file and one coupled record per coupled file. |
| RepositoryBuilder.UnknownTypeSkipped | parser_reading_files.py:126-127 | A file of an unrecognised type leaves every bucket as it was. |
| RepositoryBuilder.LaterExperimentWins | parser_reading_files.py:116-117 | A later experiment file overwrites an earlier one. |
| RepositoryBuilder.CheckCounts | parser_reading_files.py:20-39 | One pass over the entries finds the fileset valid exactly when some regular file matches each of the first two suffixes and exactly one matches each of the other two. |
| RepositoryBuilder.CheckFileCounts | parser_reading_files.py:10-45 | The fileset is valid exactly when it has at least one `_atomic.json`, at least one `_coupled.json`, exactly one `_experiment.json` and exactly one `_init_state.json` regular file. |
| RepositoryBuilder.AtomicFilesSorted | parser_reading_files.py:30-31 | A file counted as atomic is sorted as atomic. |
| RepositoryBuilder.CoupledFilesSorted | parser_reading_files.py:32-33 | A file counted as coupled is sorted as coupled. |
| RepositoryBuilder.ExperimentFilesSorted | parser_reading_files.py:34-35 | A file counted as an experiment is sorted as the experiment. |
| RepositoryBuilder.InitStateFilesSorted | parser_reading_files.py:36-37 | A file counted as initial states is sorted under type `state`. |
| ExperimentJson.Sanitize | generate_experiment_json_from_gui_data.py:9-14 | The sanitised text is no longer than the input and holds only letters, digits, `_`, `-` and `.`. |
| ExperimentJson.SanitizeChar | generate_experiment_json_from_gui_data.py:10-13 | An allowed character is kept, whitespace becomes `_`, and any other character is dropped. |
| ExperimentJson.SanitizeConcat | generate_experiment_json_from_gui_data.py:9-14 | Sanitising works character by character: the sanitised concatenation is the concatenation of the sanitised parts. |
| ExperimentJson.SanitizeFixed | generate_experiment_json_from_gui_data.py:9-14 | A text is left unchanged exactly when every character is allowed. |
| ExperimentJson.SafeFilename | generate_experiment_json_from_gui_data.py:6-15 | The file name is never empty and holds only allowed characters. |
| ExperimentJson.SafeFilenameIdempotent | generate_experiment_json_from_gui_data.py:6-15 | Sanitising a sanitised name changes nothing. |
| ExperimentJson.ExperimentFileName | generate_experiment_json_from_gui_data.py:93-94 | The saved name is the sanitised name followed by `_experiment.json`. |
| ExperimentJson.SavedExperimentIsRecognised | generate_experiment_json_from_gui_data.py:93-94 | A saved experiment is counted by the fileset check and sorted as the experiment. |
| ExperimentJson.PyStr | generate_experiment_json_from_gui_data.py:38-39 | `str` of a string is the string itself; of anything else it is the value's `repr`. |
| ExperimentJson.NonStringTextNotBlank | generate_experiment_json_from_gui_data.py:38-42 | A non-string port value is never blank once stripped. |
| ExperimentJson.NormalizeItem | generate_experiment_json_from_gui_data.py:31-44 | An item is accepted exactly when it is an object with both ports, neither blank once stripped. The result holds the two stripped ports. A rejection is a `ValueError` naming the item's index. |
| ExperimentJson.NormalizeCouplings | generate_experiment_json_from_gui_data.py:17-46 | `None` gives no couplings, and anything but a list is a `ValueError`. A list is accepted exactly when every item is: the result has the same length and order. Otherwise the error is the first bad item's. |
| ExperimentJson.AcceptedLists | generate_experiment_json_from_gui_data.py:31-42 | A list is accepted exactly when every item is an object with two non-blank ports. |
| ExperimentJson.FirstBadItemReported | generate_experiment_json_from_gui_data.py:31-42 | The error is the one for the first item that is not acceptable. |
| ExperimentJson.NormalizedAreClean | generate_experiment_json_from_gui_data.py:38-44 | Every coupling returned has both ports non-empty and free of surrounding whitespace. |
| ExperimentJson.CouplingRoundTrip | generate_experiment_json_from_gui_data.py:44 | A clean coupling, written as the object `{port_from, port_to}`, is accepted and read back as itself. |
| ExperimentJson.NormalizeRoundTrip | generate_experiment_json_from_gui_data.py:17-46 | Clean couplings written as a list normalise back to themselves. |
| ExperimentJson.NormalizeIdempotent | generate_experiment_json_from_gui_data.py:17-46 | Normalising the normaliser's output changes nothing. |
| ExperimentJson.GetOr | generate_experiment_json_from_gui_data.py:49-54 | A present member is returned, and a missing one is the default. |
| ExperimentJson.TextField | generate_experiment_json_from_gui_data.py:49-52 | A missing or falsy member is the empty text, and a string is stripped. Any other value fails for want of `strip`. |
| ExperimentJson.ExperimentCouplings | generate_experiment_json_from_gui_data.py:64-68 | `cpic` is normalised before `pocc`, each defaulting to an empty list. The form is rejected when both come out empty. |
| ExperimentJson.NoCouplingsRejected | generate_experiment_json_from_gui_data.py:67-68 | A form whose coupling lists are missing, empty or `null` is rejected with the "Add at least one coupling" error. |
| ExperimentJson.RecordModelUnderTest | generate_experiment_json_from_gui_data.py:70-75 | The driver generator reads the model under test back from the record, without a trailing `_coupled.json`. |
| ExperimentJson.RecordTimeSpan | generate_experiment_json_from_gui_data.py:83 | The driver generator reads the record's time span back as written. |
| ExperimentJson.RecordCpic | generate_experiment_json_from_gui_data.py:81 | The record's `cpic` list is read back as written. |
| ExperimentJson.RecordPocc | generate_experiment_json_from_gui_data.py:82 | The record's `pocc` list is read back as written. |
| ExperimentJson.BuildExperiment | generate_experiment_json_from_gui_data.py:48-84 | A record is built exactly when the four names can be read and the couplings are accepted. |
| ExperimentJson.BuildExperimentReadBack | generate_experiment_json_from_gui_data.py:48-84 | A built record yields the stripped model under test as the top model and the given time span. Its two coupling lists normalise back to the couplings the form gave. |
| ExperimentJson.CouplingsReadBack | generate_experiment_json_from_gui_data.py:64-65 | The couplings stored in a record normalise back to themselves. |

## Left out

- Writing files is not modelled; the generators return the text each would write. This covers the `open`/`write` of the atomic, coupled and driver generators and the `makedirs`/`json.dump` of `save_experiment`.
- Text written to a file before an exception interrupts it is not modelled. A failing generator is an `Err`.
- Reading directories and files is not modelled: `os.listdir`, `os.path.isfile`, `glob`, `os.remove` and `clean_output_directory`. The fileset check takes the listing as a sequence of entries, and the sorter takes the parsed files as a sequence of (name, value) pairs in reading order.
- `read_json_files` and JSON decoding are not modelled: they are library calls. Parsed values are inputs.
- The `print` calls of the fileset check and the sorter are not modelled: they are console output.
- The sorter's `definition`, `param` and `metadata` buckets are not modelled. The code never fills them.
- ExperimentJson.BuildExperiment: it takes the time span as already-parsed text. The `float()` parse, its error and the `ts <= 0` check are floating point and a library parse.
- ExperimentJson.Repr: `repr` of strings is modelled with `'` quotes and no escaping. Python's choice of `"` quotes for strings holding `'`, and its escapes, are left out. Numbers are integers only.
- `isalnum`, `isspace` and `upper` are modelled on ASCII, not Unicode.
- BagRewrite.MatchAt: the `\b` word boundary is judged with ASCII word characters. Python's `re` on text uses Unicode word characters, so a non-ASCII letter such as `é` right before an identifier prevents the match in Python but not in the model. The captured identifier `[a-zA-Z0-9_]*` is ASCII in the source too.
- Text.Lines: `splitlines(True)` is modelled as splitting after `\n` only. Python also splits at other line boundaries such as `\r` and `\x0b`.
- AtomicModel.Class: its contract states the class's opening, closing and the members it reads. The content of its six parts is stated by AtomicClass.PortDeclarationLines, AtomicClass.ConstructorLines and the AtomicFunctions lemmas rather than repeated for the whole class.
- AtomicModel.AtomicFile: its contract states the guard at both ends. The struct and printer inside are stated by AtomicState.ConstructorInitialisesEveryVariable and AtomicState.PrinterListsEveryVariable.
- CoupledModel.CoupledFile: its contract states the guard at both ends. The includes and struct are stated by CoupledModel.IncludeComponentsLines and CoupledModel.CoupledStructLines.
- MainCpp.MainFile: its contract states the opening and the end. The parts in between are stated by MainCpp.TopOfFileIncludesModel, MainCpp.SetLoggerActivatesOne and MainCpp.RunSimulationOrder.
- AtomicFunctions.InternalTransition: the text is stated in full only for state names without `)` or `;`. With such a name the signature itself could take part in a `(inf)` or ` inf;`, and the rewrite is then stated only by SimpleStatements.ReplaceInfRewritesEveryOccurrence.
- AtomicFunctions.BranchBagRewrite and AtomicFunctions.StatementBagRewrite are proved for lines holding one bag expression. Lines with several are rewritten by the same definition but have no lemma of their own.
- `generate_state_struct_with_parameters` is not modelled: it is an unimplemented stub, and the reuse flag that would select it is always false.
- `server.py` is not modelled: it is an HTTP server, which is network I/O.
- `DEVSMap_parser.py` is not modelled: it is the top-level script with hard-coded paths.
- `generate_top_couple_model_from_experiment_json.py` is not modelled: it is not valid Python, so it has no behaviour.

## Findings

| source | as written | input that shows it | evidently intended | confidence | as-written member | corrected member |
|---|---|---|---|---|---|---|
| helper.py:114 | A block whose value holds a nested condition calls `write_conditions(value, indent + 1)`. No such function is defined anywhere, so the call raises `NameError`. | `build_conditional_statements_helper({"c": {"d": {"x": "1"}}})` | Recurse into the helper itself at `indent + 1`: `build_conditional_statements_helper(value, indent + 1)`. The header comment says "Recursive function". | high; not executed | Helper.NestedBranchesNeedRecursion | Helper.RenderBalanced |

The rest of the model uses the corrected helper (`Helper.Nesting.Corrected`) in `Helper.BuildConditionals`.
`Helper.ShallowRenderAgrees` shows that the correction changes nothing on trees without nested conditions.
