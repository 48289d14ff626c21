# WaveEye preprocessing, modelled in Dafny

WaveEye is a waveform-analysis tool that prepares RTL designs and simulation dumps before a waveform
is analysed. This project models its preprocessing core and proves properties of that model:

- **RTL system analysis** (`Preprocessing/rtl/classify_system.py`). It strips comments, detects each
  file's module name, ports and internal signals, and finds submodule instantiations (inline and
  parameterised) with their `.port(signal)` bindings. It builds the system's direct connection list,
  flattens connections through one level of hierarchy, and reports instances whose submodule ports
  are left unconnected. Modules: `RtlExtract`, `RtlSystem`, `RtlConnectivity`.
- **Width check** (`Preprocessing/rtl/check_system.py`). It reads declared widths (numeric `[m:n]`,
  symbolic ranges, the default of one bit) and reports continuous assignments whose two sides have
  different numeric widths. Module: `WidthCheck`.
- **Signal classification** (`Preprocessing/rtl/classify_signals.py`). It reads module parameters
  and declared bit widths, then labels each signal (clock, reset, mux select, status flag, address,
  parameter and so on) from sensitivity lists, assignments and conditions. Modules: `SignalParams`,
  `SignalClassify`.
- **Mapping** (`Preprocessing/mapping/mapping.py` and `merge_map_signals.py`). It normalises
  hierarchical signal names, loads signal metadata, builds the connection map, matches waveform
  columns to metadata signals, and builds the mapped table that carries a clock row. It then merges
  several mapped tables into one. Modules: `MappingNames`, `MappingMetadata`, `MappingConnect`,
  `MappingMatch`, `MappingTable`, `MergeTables`.
- **VCD handling** (`Preprocessing/vcd/`). It chooses the timescale and resolution, samples every
  signal on a regular time grid with sample-and-hold, estimates how many clock cycles the first
  chunk analyses, and keeps the per-user upload log. Modules: `VcdConvert`, `ClockEstimation`,
  `FileManager`.

`Base`, `Text` and `Tables` hold shared definitions:

- option and result types;
- association lists, which model Python dictionaries where the model needs their key order;
- ASCII character classes;
- strip, split and join;
- sorted sets of strings;
- order-preserving deduplication.

Pure Python functions become Dafny functions. A Python function whose loop updates local lists or
dictionaries becomes a Dafny method. Each such method is proved equal to a specification function,
and the lemmas about that function state what the source promises. The upload log and the user
registry (`file_manager.py`) update their state in place, so they are classes.

### Behaviour worth knowing

- `normalize` is not idempotent. Removing one `dut.` prefix can expose another one.
  `MappingNames.NormalizeNotIdempotent` gives an input where a second pass changes the name.
- `find_connected_signal` (`MappingConnect.FindConnectedSignal`) returns the first connected name
  that matches a header under one of its four strategies. `build_table` stops there, even when that
  header's value is empty (`mapping.py:275-281`). `MappingTable.FillMeaning` states this.
- A file without a module declaration gets the name `unknown_module`
  (`RtlExtract.DetectModuleName`).
- The connection map is built from the `connections_direct` list alone; flattened connections do
  not contribute (`MappingConnect.BuildConnectionMap`).
- The port pattern's optional net-type group can take the keyword prefix of a name: `input regular;`
  declares the port `ular` (`RtlExtract.PortDeclaredNet` with an empty gap).
- `is_literal` accepts all-digit tokens and sized literals such as `8'hff`, and both forms are
  modelled (`WidthCheck.IsLiteral`). On an assignment right side the sized form never arises, because
  the captured right side is a word without `'`; `WidthCheck.RhsLiteralIsNumber` proves that there
  the test reduces to "all digits".

## Model

| member | source | states |
|---|---|---|
| RtlExtract.NoSlashUnchanged | Preprocessing/rtl/classify_system.py:5-8 | comment stripping leaves a text that has no `/` unchanged |
| RtlExtract.LineCommentRemoved | Preprocessing/rtl/classify_system.py:6 | a `//` comment is removed up to the line break, and the line break and the rest are kept |
| RtlExtract.BlockCommentRemoved | Preprocessing/rtl/classify_system.py:7 | a `/* ... */` comment is removed up to its first `*/` (non-greedy), even across line breaks |
| RtlExtract.PortNames | Preprocessing/rtl/classify_system.py:30-33 | every name found after `input`/`output`/`inout` (optional net type and range) is a word |
| RtlExtract.PortDeclared | Preprocessing/rtl/classify_system.py:30-33 | `direction blanks name` at the front yields `name`, and the search goes on right after it |
| RtlExtract.PortDeclaredNet | Preprocessing/rtl/classify_system.py:30-33 | `direction blanks nettype [blanks] name` yields `name`; with no blank after the keyword the name loses that prefix (`input regular` declares `ular`) |
| RtlExtract.PortDeclaredRange | Preprocessing/rtl/classify_system.py:30-33 | `direction blanks [range] [blanks] name` yields `name` and goes on after it |
| RtlExtract.PortDeclaredBus | Preprocessing/rtl/classify_system.py:30-33 | `input wire [7:0] name` yields `name` and goes on after it |
| RtlExtract.PortNamesSkipped | Preprocessing/rtl/classify_system.py:30-33 | text without `i` or `o` declares no port and leaves the following matches unchanged |
| RtlExtract.SignalNames | Preprocessing/rtl/classify_system.py:36-38 | every name found after a `wire`/`reg`/`logic`/`bit` keyword (optional range) is a word |
| RtlExtract.SignalDeclared | Preprocessing/rtl/classify_system.py:36-38 | `nettype blanks name` at the front yields `name`, and the search goes on after it |
| RtlExtract.SignalDeclaredRange | Preprocessing/rtl/classify_system.py:36-38 | `nettype [blanks] [range] [blanks] name` yields `name` and goes on after it |
| RtlExtract.SignalNamesAfterName | Preprocessing/rtl/classify_system.py:36 | after a whole name, the leading `\b` holds again at the next non-word character |
| RtlExtract.SignalNamesSkipped | Preprocessing/rtl/classify_system.py:36-38 | text without word characters declares no signal and leaves the following matches unchanged |
| RtlExtract.ModuleDeclName | Preprocessing/rtl/classify_system.py:13 | a match of `module <name>` at the start of the line yields a word |
| RtlExtract.ModuleDeclared | Preprocessing/rtl/classify_system.py:13 | `[blanks] module blanks name` followed by a non-word character yields `name` |
| RtlExtract.FirstModuleLine | Preprocessing/rtl/classify_system.py:11-15 | the index of the first line that opens a module, with no earlier line opening one |
| RtlExtract.DetectModuleName | Preprocessing/rtl/classify_system.py:10-16 | the name declared on the first comment-stripped, trimmed line that opens a module, or `unknown_module` when no line does |
| RtlExtract.ExtractPortPairs | Preprocessing/rtl/classify_system.py:51-52 | every extracted binding is a (port word, trimmed signal expression) pair |
| RtlExtract.BindingPair | Preprocessing/rtl/classify_system.py:52 | `.port(expr)` with a non-empty expression and no `)` inside yields `(port, strip(expr))` and resumes just after the `)` |
| RtlExtract.BindingScan | Preprocessing/rtl/classify_system.py:52 | the same match stated on positions: the binding ends at the first `)` after the `(` |
| RtlExtract.EmptyBindingSkipped | Preprocessing/rtl/classify_system.py:52 | an empty binding `.port()` yields no pair |
| RtlExtract.BindingsExtracted | Preprocessing/rtl/classify_system.py:51-52 | `.port(expr)` at the front gives `(port, strip(expr))` followed by the pairs of the rest |
| RtlExtract.BindingsSkipped | Preprocessing/rtl/classify_system.py:51-52 | text without `.` adds no binding and leaves the following pairs unchanged |
| RtlExtract.ToDict | Preprocessing/rtl/classify_system.py:65 | the dictionary built from the pairs has unique keys in first-occurrence order, and each key maps to its last value |
| RtlExtract.Put | Preprocessing/rtl/classify_system.py:65 | a dictionary store keeps keys unique, appends a new key at the end and changes only the stored key |
| RtlExtract.TokenizeSignalExpr | Preprocessing/rtl/classify_system.py:115-116 | every token is an identifier (a letter or `_`, then word characters) |
| RtlExtract.TokenizeIdentifier | Preprocessing/rtl/classify_system.py:115-116 | an identifier tokenizes to itself alone |
| RtlExtract.TokenizeSplit | Preprocessing/rtl/classify_system.py:115-116 | a non-word character splits an expression: its tokens are those before it followed by those after it |
| RtlExtract.InlineInstAt | Preprocessing/rtl/classify_system.py:59 | an inline instantiation match yields a submodule word and an instance identifier |
| RtlExtract.InlineInstance | Preprocessing/rtl/classify_system.py:59 | `sub inst (...` is recognised with submodule `sub` and instance `inst` |
| RtlExtract.InlineScan | Preprocessing/rtl/classify_system.py:59 | the same recognition stated on positions of a line |
| RtlExtract.InlineInstanceParams | Preprocessing/rtl/classify_system.py:59 | `sub #(params) inst (` with no `)` in the parameters is recognised with submodule `sub` and instance `inst` |
| RtlExtract.InlineParamsScan | Preprocessing/rtl/classify_system.py:59 | the same recognition stated on positions of a line |
| RtlExtract.ParamStartAt | Preprocessing/rtl/classify_system.py:70 | the start of a parameterised instantiation `name #(` yields the submodule word |
| RtlExtract.ParamStartFound | Preprocessing/rtl/classify_system.py:70 | `sub #(` at the start of a line yields `sub` |
| RtlExtract.InstNameSearch | Preprocessing/rtl/classify_system.py:76 | a found instance name is an identifier, and none is found only when no position matches `) name (` |
| RtlExtract.InstNameSearchLeftmost | Preprocessing/rtl/classify_system.py:76 | a found name is the one at the leftmost position that matches `) name (` |
| RtlExtract.PortBlockStart | Preprocessing/rtl/classify_system.py:63 | nothing is found exactly when `inst` followed by blanks and `(` occurs nowhere; otherwise the position just after the `(` of the leftmost such occurrence |
| RtlExtract.PortBlock | Preprocessing/rtl/classify_system.py:63-64 | the port block is a suffix of the accumulated block |
| RtlExtract.PortBlockOpener | Preprocessing/rtl/classify_system.py:63-64 | the port block is the whole block when `inst (` occurs nowhere, and otherwise the text after the `(` of its leftmost occurrence |
| RtlSystem.RtlLines | Preprocessing/rtl/classify_system.py:97-98 | the kept lines of a file are right-stripped and non-blank |
| RtlSystem.CloseIndex | Preprocessing/rtl/classify_system.py:44 | the first line at or after the start index that contains `);`, or the end |
| RtlSystem.AccumulateUntilClose | Preprocessing/rtl/classify_system.py:41-49 | the loop returns the index of the closing line and the space-joined comment-stripped lines from the start through the closing line |
| RtlSystem.AppendStripped | Preprocessing/rtl/classify_system.py:45 | one loop step keeps the block equal to the joined lines gathered so far |
| RtlSystem.CloseBlock | Preprocessing/rtl/classify_system.py:47-48 | the closing line is appended only when it exists |
| RtlSystem.HeaderLinesClosed | Preprocessing/rtl/classify_system.py:21-28 | the header runs from the first module line through the first line at or after it that contains `);`, so a one-line header such as `module m(input a);` ends on the module line itself |
| RtlSystem.HeaderLinesUnclosed | Preprocessing/rtl/classify_system.py:21-28 | without a closing line, the header runs to the end of the file, and it is empty without a module line |
| RtlSystem.CollectHeader | Preprocessing/rtl/classify_system.py:18-28 | the header-collecting loop yields exactly those header lines |
| RtlSystem.CollectSignals | Preprocessing/rtl/classify_system.py:34-38 | the signal loop yields the declared names of every line in order |
| RtlSystem.DetectPortsAndSignals | Preprocessing/rtl/classify_system.py:18-39 | ports and signals are sorted without duplicates, and contain exactly the port names of the joined header and the signal names of all lines |
| RtlSystem.BindingsIn | Preprocessing/rtl/classify_system.py:63-65 | an instance's connections have unique port keys |
| RtlSystem.Instantiate | Preprocessing/rtl/classify_system.py:62-67 | an instance keeps its submodule and name, and scanning resumes after the closing line |
| RtlSystem.InstantiateBlock | Preprocessing/rtl/classify_system.py:62-67 | the instance's connections are the bindings found after `name (` in the accumulated block, and scanning resumes one past the closing line |
| RtlSystem.InstanceAt | Preprocessing/rtl/classify_system.py:58-89 | a detected instance has a word submodule, an identifier name and unique port keys, and scanning moves forward |
| RtlSystem.InstancesFrom | Preprocessing/rtl/classify_system.py:54-91 | every instance found from a line onward is well formed, and there are no more of them than lines |
| RtlSystem.InstancesFromStep | Preprocessing/rtl/classify_system.py:60-68 | a line that yields an instance contributes it, and the scan continues where it resumes |
| RtlSystem.InstancesFromSkip | Preprocessing/rtl/classify_system.py:90 | a line that yields nothing is skipped |
| RtlSystem.InlineStep | Preprocessing/rtl/classify_system.py:59-68 | an inline match is tried first and instantiates at the same line |
| RtlSystem.ParamStep | Preprocessing/rtl/classify_system.py:70-89 | a parameterised start instantiates at the first line at or after it naming `) inst (`, which may be the start line itself |
| RtlSystem.SkipStep | Preprocessing/rtl/classify_system.py:70-90 | with no inline match, and with no parameter start or no instance line at or after it, the line yields nothing |
| RtlSystem.FindInstanceLine | Preprocessing/rtl/classify_system.py:73-81 | the search loop finds the first line from the start that names an instance, and reports none exactly when no such line exists |
| RtlSystem.InstanceStep | Preprocessing/rtl/classify_system.py:58-90 | one step of the instantiation loop finds an instance exactly when the line yields one, and resumes where the specification says |
| RtlSystem.DetectInstantiations | Preprocessing/rtl/classify_system.py:54-91 | the loop returns exactly the instance sequence that `InstancesFromStep`, `InstancesFromSkip` and the step lemmas describe |
| RtlSystem.ModuleInfoOf | Preprocessing/rtl/classify_system.py:100-101 | a module's ports and signals are sorted, duplicate-free, and hold exactly the detected names |
| RtlSystem.DetectModuleInfo | Preprocessing/rtl/classify_system.py:99-101 | the method computes that module record |
| RtlSystem.ModulesOfSystem | Preprocessing/rtl/classify_system.py:101 | the system's module table has exactly the detected module names of the files |
| RtlSystem.LastFileWins | Preprocessing/rtl/classify_system.py:101 | when several files declare the same module, the last one's record is kept |
| RtlSystem.InstanceConnectionsMembers | Preprocessing/rtl/classify_system.py:104-112 | an instance yields exactly one connection record per binding, carrying the parent, submodule, instance, port and signal |
| RtlSystem.ConnectionsOfMembers | Preprocessing/rtl/classify_system.py:104-112 | a file's connections are exactly the bindings of its instances |
| RtlSystem.ConnectionsOfSound | Preprocessing/rtl/classify_system.py:104-112 | every listed connection comes from a binding |
| RtlSystem.ConnectionsOfComplete | Preprocessing/rtl/classify_system.py:104-112 | every binding is listed |
| RtlSystem.ConnectionsOfSystem | Preprocessing/rtl/classify_system.py:93-113 | the system's connections are exactly the connections of the instances of some file |
| RtlSystem.AppendConnections | Preprocessing/rtl/classify_system.py:104-112 | the nested loop appends the file's connections in order |
| RtlSystem.ReadFile | Preprocessing/rtl/classify_system.py:96-103 | one file's module name, record and instances are those of its kept lines |
| RtlSystem.ModulesStep | Preprocessing/rtl/classify_system.py:101 | the module-table invariant survives one file |
| RtlSystem.ConnectionsStep | Preprocessing/rtl/classify_system.py:104-112 | the connection-list invariant survives one file |
| RtlSystem.AnalyzeSystem | Preprocessing/rtl/classify_system.py:93-113 | the loop over files returns exactly the system that `ModulesOfSystem`, `LastFileWins` and `ConnectionsOfSystem` describe |
| RtlConnectivity.Parents | Preprocessing/rtl/classify_system.py:120-122 | the parent keys are duplicate-free, and a parent is listed exactly when some connection has it |
| RtlConnectivity.GroupMembers | Preprocessing/rtl/classify_system.py:121-122 | a parent's group holds exactly that parent's connections |
| RtlConnectivity.Through | Preprocessing/rtl/classify_system.py:134-142 | a flattened record takes its from-fields and via-fields from the outer connection, and its to-fields and inner expression from the inner one |
| RtlConnectivity.GroupByParent | Preprocessing/rtl/classify_system.py:120-122 | the grouping loop yields the parents in first-seen order and each parent's connections in order |
| RtlConnectivity.FlattenInnerLoop | Preprocessing/rtl/classify_system.py:131-142 | the inner loop emits a record for each inner connection whose expression has the outer child port among its tokens |
| RtlConnectivity.FlattenOne | Preprocessing/rtl/classify_system.py:126-142 | a connection whose child is not a parent yields nothing, and otherwise its inner records |
| RtlConnectivity.FlattenGroup | Preprocessing/rtl/classify_system.py:125-142 | a parent's group yields the records of its connections in order |
| RtlConnectivity.FlattenConnections | Preprocessing/rtl/classify_system.py:118-143 | the loops return exactly the flattening (grouped by parent in first-seen order) that `FlattenMembers` and `FlattenMatchesPairs` describe |
| RtlConnectivity.FlattenMatchesPairs | Preprocessing/rtl/classify_system.py:118-143 | grouping by parent only reorders, so the result is a permutation of the plain pairwise flattening |
| RtlConnectivity.PartnersMembers | Preprocessing/rtl/classify_system.py:130-142 | the records for one connection are exactly its joins with the connections it reaches |
| RtlConnectivity.PairsFromMembers | Preprocessing/rtl/classify_system.py:124-142 | the pairwise flattening holds exactly the joins of pairs that reach each other |
| RtlConnectivity.FlattenMembers | Preprocessing/rtl/classify_system.py:118-143 | a record is produced exactly when one connection's child module is another's parent and the port is a token of the inner expression |
| RtlConnectivity.Unbound | Preprocessing/rtl/classify_system.py:158-160 | the expected ports that are not bound |
| RtlConnectivity.MissingPorts | Preprocessing/rtl/classify_system.py:158-160 | the missing ports are sorted, duplicate-free, and exactly the expected ports that are not bound |
| RtlConnectivity.UsesDomain | Preprocessing/rtl/classify_system.py:150-154 | an instance is recorded exactly when some connection names it |
| RtlConnectivity.UsesPorts | Preprocessing/rtl/classify_system.py:154 | an instance's recorded ports are exactly the child ports of its connections |
| RtlConnectivity.UsesFirst | Preprocessing/rtl/classify_system.py:153 | the submodule recorded for an instance is that of its first connection (`setdefault` keeps it) |
| RtlConnectivity.UsesPrefixSnoc | Preprocessing/rtl/classify_system.py:150-154 | each connection updates the instance table as one `setdefault`-and-add step |
| RtlConnectivity.CollectInstances | Preprocessing/rtl/classify_system.py:148-154 | the loop yields the instances in first-seen order with their recorded uses |
| RtlConnectivity.SetDefaultAdd | Preprocessing/rtl/classify_system.py:153-154 | one step creates the entry if needed and adds the port |
| RtlConnectivity.IssuesOfMembers | Preprocessing/rtl/classify_system.py:156-167 | an issue is reported exactly for a listed instance whose own check yields it |
| RtlConnectivity.IssueOfInstance | Preprocessing/rtl/classify_system.py:162-167 | an instance yields at most one issue, and it names that instance |
| RtlConnectivity.IssuesOfDistinct | Preprocessing/rtl/classify_system.py:156-167 | no instance is reported twice |
| RtlConnectivity.MissingIssue | Preprocessing/rtl/classify_system.py:145-168 | a reported issue names a connected instance and its first-seen submodule, and lists (sorted, non-empty) exactly the expected ports it does not bind |
| RtlConnectivity.MissingWhenUnbound | Preprocessing/rtl/classify_system.py:156-167 | an instance is reported exactly when some expected port of its submodule is unbound |
| RtlConnectivity.UnknownSubmoduleSilent | Preprocessing/rtl/classify_system.py:158 | a submodule that is not a detected module expects no ports, so it is never reported |
| RtlConnectivity.MissingDistinct | Preprocessing/rtl/classify_system.py:145-168 | the report names each instance at most once |
| RtlConnectivity.MissingOf | Preprocessing/rtl/classify_system.py:157-160 | one instance's missing ports are the sorted unbound expected ports |
| RtlConnectivity.DetectMissingConnections | Preprocessing/rtl/classify_system.py:145-168 | the loops return exactly the report that `MissingIssue`, `MissingWhenUnbound` and `MissingDistinct` describe |
| WidthCheck.DeclarationLineKeyword | Preprocessing/rtl/check_system.py:167 | a line is a declaration exactly when it opens with one of the seven keywords followed by a word boundary |
| WidthCheck.FindNumericRange | Preprocessing/rtl/check_system.py:171 | the leftmost `[digits : digits]` match, or none exactly when no position matches |
| WidthCheck.FindSymbolicRange | Preprocessing/rtl/check_system.py:177 | the leftmost `[name:0]` or `[name-1:0]` match, which yields a word, or none exactly when no position matches |
| WidthCheck.Span | Preprocessing/rtl/check_system.py:173-174 | the width `abs(msb - lsb) + 1` is at least one |
| WidthCheck.LineWidth | Preprocessing/rtl/check_system.py:168-179 | a numeric range wins, then a symbolic range, then the one-bit default |
| WidthCheck.Words | Preprocessing/rtl/check_system.py:182 | every name found on a line is a word |
| WidthCheck.WordsOfWord | Preprocessing/rtl/check_system.py:182 | a word standing alone is the only name found in it |
| WidthCheck.WordsNone | Preprocessing/rtl/check_system.py:182 | text without word characters holds no name |
| WidthCheck.WordsSplit | Preprocessing/rtl/check_system.py:182 | a non-word character splits a line: its names are those before it followed by those after it, so the names are the maximal word runs in order |
| WidthCheck.LineDeclsMembers | Preprocessing/rtl/check_system.py:182-185 | one line declares exactly its non-keyword words (when it is a declaration line), all with that line's width |
| WidthCheck.DeclaredWidth | Preprocessing/rtl/check_system.py:158-186 | a name is declared exactly when some declaration line names it, and its width is that of the last such line |
| WidthCheck.DeclaredWidthsWellFormed | Preprocessing/rtl/check_system.py:168-179 | every declared width is at least one bit or a symbolic word |
| WidthCheck.KeywordsNotDeclared | Preprocessing/rtl/check_system.py:184 | no declaration keyword is itself declared |
| WidthCheck.ExtractSignalDeclarations | Preprocessing/rtl/check_system.py:158-186 | the loop returns exactly the declared-width table |
| WidthCheck.Assignments | Preprocessing/rtl/check_system.py:214 | every assignment found has a word on its left and a right side made of word characters, `[`, `]` and `:` |
| WidthCheck.AssignmentFront | Preprocessing/rtl/check_system.py:214 | `lhs <= rhs` or `lhs = rhs` at the front, blanks allowed around the operator, is the first assignment found, and the search goes on after the right side |
| WidthCheck.AssignScan | Preprocessing/rtl/check_system.py:214 | the same match stated on positions: `<=` is tried before `=`, and both sides are the longest runs |
| WidthCheck.AssignmentsNone | Preprocessing/rtl/check_system.py:214 | text without `=` holds no assignment |
| WidthCheck.RhsLiteralIsNumber | Preprocessing/rtl/check_system.py:189-191 | such a right side is a literal exactly when it is all digits, because a sized literal needs a `'` that the assignment pattern never captures |
| WidthCheck.WidthPrecedence | Preprocessing/rtl/check_system.py:220-233 | the right side's width is a numeric range, then a symbolic range, then its declared width, then one bit; the left side's width is its declared width or one bit |
| WidthCheck.IssueForCases | Preprocessing/rtl/check_system.py:215-243 | an assignment is reported exactly when its right side is not skipped and both widths are numeric and differ; the report carries both names and both widths |
| WidthCheck.CheckAssignment | Preprocessing/rtl/check_system.py:215-247 | one loop iteration computes that report |
| WidthCheck.WidthIssueMembers | Preprocessing/rtl/check_system.py:204-249 | the report holds exactly the issues of the assignments found in the space-joined lines |
| WidthCheck.WidthIssueValid | Preprocessing/rtl/check_system.py:236-243 | every reported issue has two different widths, each at least one bit, and a right side that is not a literal, keyword or state name |
| WidthCheck.SymbolicNeverReported | Preprocessing/rtl/check_system.py:244-247 | an assignment with a symbolic width on either side is never reported |
| WidthCheck.SkippedNeverReported | Preprocessing/rtl/check_system.py:216-218 | an assignment from a literal, keyword or state name is never reported |
| WidthCheck.DetectWidthMismatches | Preprocessing/rtl/check_system.py:204-249 | the loop returns exactly the report, in assignment order, that `WidthIssueMembers` and `WidthIssueValid` describe |
| SignalParams.CleanNoSlash | Preprocessing/rtl/classify_signals.py:83 | comment removal leaves a block without `/` unchanged |
| SignalParams.PartParam | Preprocessing/rtl/classify_signals.py:86-89 | a part yields the word after `parameter`, or else a leading word followed by `=` or the end; either way a word |
| SignalParams.PartParamNamed | Preprocessing/rtl/classify_signals.py:86 | `parameter W ...` gives `W` |
| SignalParams.PartParamAssigned | Preprocessing/rtl/classify_signals.py:86-88 | `W = value` gives `W`, also when `W` itself starts with `parameter` |
| SignalParams.PartParamBare | Preprocessing/rtl/classify_signals.py:86-88 | a lone word `W` gives `W` (the `$` alternative) |
| SignalParams.InlineParams | Preprocessing/rtl/classify_signals.py:92 | every inline `#( parameter name` match yields a word |
| SignalParams.InlineParamFront | Preprocessing/rtl/classify_signals.py:92 | `#( parameter W` at the front yields `W`, and the search goes on after it |
| SignalParams.InlineParamsSkipped | Preprocessing/rtl/classify_signals.py:92 | text without `#` adds no inline parameter and leaves the following matches unchanged |
| SignalParams.LineParam | Preprocessing/rtl/classify_signals.py:96-100 | a line that starts with `parameter name` after comment removal yields a word |
| SignalParams.AddBlockParams | Preprocessing/rtl/classify_signals.py:82-90 | the loop over parameter blocks adds exactly the parameters of their comma-separated parts |
| SignalParams.ParametersAreWords | Preprocessing/rtl/classify_signals.py:76-102 | every detected parameter is a word |
| SignalParams.LineParameterDetected | Preprocessing/rtl/classify_signals.py:96-100 | a parameter declared on its own line is always detected |
| SignalParams.DetectModuleParameters | Preprocessing/rtl/classify_signals.py:76-102 | the loops return exactly the union of block, inline and per-line parameters |
| SignalParams.ClassifierModuleName | Preprocessing/rtl/classify_signals.py:104-110 | the name on the first trimmed line that starts with `module name`, with no earlier such line, or `unknown_module` |
| SignalParams.ModuleNamesAgree | Preprocessing/rtl/classify_signals.py:104-110 | on comment-free lines, the classifier's module name equals the system analyser's |
| SignalParams.DeclaredBits | Preprocessing/rtl/classify_signals.py:117-121 | a declaration's width is at least one bit |
| SignalParams.SignalBitsLast | Preprocessing/rtl/classify_signals.py:112-126 | a name has a width exactly when some declaration line names it, and that width is the last such line's `[m:n]` span, or one bit |
| SignalParams.ExtractSignalBits | Preprocessing/rtl/classify_signals.py:112-126 | the loop returns exactly that width table |
| SignalClassify.PredicatesIgnoreCase | Preprocessing/rtl/classify_signals.py:41-66 | every name predicate (state, clock, both resets, control, data, address, status flag) gives the same answer for a name and its lower-case form |
| SignalClassify.NotNamed | Preprocessing/rtl/classify_signals.py:35-54 | a literal or keyword is never an address, clock or reset name, so the earlier rules never catch it |
| SignalClassify.AddrLabels | Preprocessing/rtl/classify_signals.py:68-74 | nothing changes when either side is a parameter; otherwise an address-like right side becomes `ADDR_input`, an address-like left side becomes `ADDR_output` (the right side's label wins when both are the same name), and no other entry changes |
| SignalClassify.ClassifyAddrSignal | Preprocessing/rtl/classify_signals.py:68-74 | the in-place update yields exactly those labels |
| SignalClassify.SensitivityFrom | Preprocessing/rtl/classify_signals.py:142 | the leftmost `always @(...)` list, which holds no `)`, or none exactly when no position matches |
| SignalClassify.SensLabelOf | Preprocessing/rtl/classify_signals.py:146-155 | a sensitivity-list name is labelled parameter, clock or reset only, never a default label |
| SignalClassify.ClassifyAssignment | Preprocessing/rtl/classify_signals.py:157-191 | one assignment updates the labels exactly as the rule chain specifies |
| SignalClassify.ClassifyAssignments | Preprocessing/rtl/classify_signals.py:156-191 | the loop over a line's assignments applies them in order |
| SignalClassify.ConditionTokens | Preprocessing/rtl/classify_signals.py:194 | every token of an `if`/`case` line is a word or a sized literal |
| SignalClassify.ConditionTokensAreWords | Preprocessing/rtl/classify_signals.py:194 | on a line without a quote, the tokens are exactly the maximal word runs, in order (`WidthCheck.Words`) |
| SignalClassify.SizedLiteralToken | Preprocessing/rtl/classify_signals.py:194 | `8'hFF` is taken as one token, tried before the plain-word alternative |
| SignalClassify.SizedLiteralAt | Preprocessing/rtl/classify_signals.py:194 | a match is a sized literal ending at a word boundary |
| SignalClassify.LabelOfCases | Preprocessing/rtl/classify_signals.py:195-226 | a token gets its rule's label, is skipped, or gets `mux_input` or `control_input` only when it has no label yet |
| SignalClassify.ClassifyConditionTokens | Preprocessing/rtl/classify_signals.py:193-226 | the loop over the token set, in any visiting order, yields the old labels overlaid with each token's label, and adds the tokens wider than one bit to the multiplexer inputs |
| SignalClassify.ClassifyLine | Preprocessing/rtl/classify_signals.py:140-226 | one line applies its sensitivity list, then its assignments, then its condition tokens |
| SignalClassify.AnalyzeRtl | Preprocessing/rtl/classify_signals.py:128-234 | the analysis returns exactly the classification (parameters first, then every line in order) that `ClassificationJustified` and `ParametersStayParameters` describe |
| SignalClassify.SensitivitySound | Preprocessing/rtl/classify_signals.py:142-155 | a sensitivity list keeps every label justified |
| SignalClassify.AddrSound | Preprocessing/rtl/classify_signals.py:68-74 | the address rule keeps every label justified |
| SignalClassify.AssignSound | Preprocessing/rtl/classify_signals.py:157-191 | an assignment keeps every label justified |
| SignalClassify.ConditionSound | Preprocessing/rtl/classify_signals.py:193-226 | a condition line keeps every label justified, and every multiplexer input wider than one bit |
| SignalClassify.ConditionMuxWide | Preprocessing/rtl/classify_signals.py:219-221 | only tokens that reach the width rule, declared wider than one bit, join the multiplexer inputs |
| SignalClassify.LineStepSound | Preprocessing/rtl/classify_signals.py:140-226 | a line keeps the state sound: parameters stay `parameter`, and each label has its justification |
| SignalClassify.RunSound | Preprocessing/rtl/classify_signals.py:140-226 | any run of lines keeps the state sound |
| SignalClassify.ClassificationJustified | Preprocessing/rtl/classify_signals.py:128-234 | every final label is justified: clock, reset and status labels by the name lists, address labels by `addr`, FSM labels by `state` or the state list, `mux_output` by an earlier wide condition token, `mux_input`/`control_input` by the declared width |
| SignalClassify.ParametersStayParameters | Preprocessing/rtl/classify_signals.py:134-136 | every detected parameter ends labelled `parameter`, and only detected parameters are |
| SignalClassify.SensitivityKeeps | Preprocessing/rtl/classify_signals.py:142-155 | a sensitivity list never removes a label or overwrites one with a default label |
| SignalClassify.AssignKeeps | Preprocessing/rtl/classify_signals.py:157-191 | an assignment never removes a label, and writes `control_output` only when the name has no label yet |
| SignalClassify.ConditionKeeps | Preprocessing/rtl/classify_signals.py:222-226 | a condition writes `mux_input` or `control_input` only when the name has no label yet |
| SignalClassify.LineStepKeeps | Preprocessing/rtl/classify_signals.py:140-226 | a line keeps every label it does not override with a specific one, and never shrinks the multiplexer inputs |
| SignalClassify.LabelsPersist | Preprocessing/rtl/classify_signals.py:140-226 | a label present after some lines is still present at the end, and is not replaced by a default label |
| SignalClassify.StatusFlagStops | Preprocessing/rtl/classify_signals.py:165-167 | a status-flag left side is labelled `status_flag` and nothing else changes |
| SignalClassify.ConditionSkipsLiterals | Preprocessing/rtl/classify_signals.py:211-212 | a literal or keyword token that is not a parameter changes neither its label nor the multiplexer inputs |
| SignalClassify.MuxMemberBecomesMuxOutput | Preprocessing/rtl/classify_signals.py:184-185 | a left side already seen as a multiplexer input becomes `mux_output` |
| MappingNames.StripSegmentOf | Preprocessing/mapping/mapping.py:20-21 | a leading `seg.dut.` (or `seg.tb.`) with a dot-free first segment is removed |
| MappingNames.StripSegmentNoDot | Preprocessing/mapping/mapping.py:20-21 | a name without a dot is unchanged |
| MappingNames.StripTbKeeps | Preprocessing/mapping/mapping.py:21 | a name whose second segment is not `tb` keeps its first segment |
| MappingNames.StripTop | Preprocessing/mapping/mapping.py:22 | a leading `top.` is removed, and any other name is unchanged |
| MappingNames.RemoveBracketsOpen | Preprocessing/mapping/mapping.py:25 | a bracket group `[...]` on one line is removed up to its first `]` |
| MappingNames.RemoveBracketsGroup | Preprocessing/mapping/mapping.py:25 | the text before the first `[` is kept, and only the group is removed |
| MappingNames.Normalize | Preprocessing/mapping/mapping.py:10-27 | the normalised name has no upper-case letter and is no longer than the input |
| MappingNames.NormalizePlain | Preprocessing/mapping/mapping.py:10-27 | a name without dots or brackets is only lower-cased |
| MappingNames.NormalizeStripsDut | Preprocessing/mapping/mapping.py:15 | `soc_tb.dut.uart_busy` style names reduce to the signal |
| MappingNames.NormalizeKeepsInstance | Preprocessing/mapping/mapping.py:16 | `soc_tb.dut.u_uart.tx_busy` style names keep `instance.port` |
| MappingNames.NormalizeDropsIndex | Preprocessing/mapping/mapping.py:17 | `reg0[31:0]` style names lose the index |
| MappingNames.NormalizeFirstPass | Preprocessing/mapping/mapping.py:20 | only the first `.dut.` prefix is removed: `a.dut.b.dut.c` becomes `b.dut.c` |
| MappingNames.NormalizeNotIdempotent | Preprocessing/mapping/mapping.py:10-27 | normalising `a.dut.b.dut.c` twice differs from normalising it once |
| MappingNames.LastPart | Preprocessing/mapping/mapping.py:189 | the result is the lower-cased tail of the name that holds no dot and is the whole name or follows a dot: `split('.')[-1].lower()` |
| MappingNames.LastPartAfterDot | Preprocessing/mapping/mapping.py:189 | the component after the last dot, lower-cased, whatever precedes that dot |
| MappingNames.LastPartExample | Preprocessing/mapping/mapping.py:189 | `a.B.c_D` gives `c_d` |
| MappingNames.LastPartClean | Preprocessing/mapping/mapping.py:203-204 | the component with bracket groups removed, lower-cased; equal to `LastPart` for a name without `[` |
| MappingNames.LastPartCleanAfterDot | Preprocessing/mapping/mapping.py:203-204 | the brackets are removed from the text after the last dot only |
| MappingNames.EmptyValueMeaning | Preprocessing/mapping/mapping.py:222-231 | a value counts as missing exactly when it is blank or its stripped form is `-` or `?`; any other visible character makes it present |
| MappingNames.LetterIsAValue | Preprocessing/mapping/mapping.py:226-227 | a value holding a letter (such as `x` or `z`) is never missing |
| MappingNames.UnknownIsAValue | Preprocessing/mapping/mapping.py:226-227 | `x`, `z` and ` x ` are values |
| MappingNames.MarksAreMissing | Preprocessing/mapping/mapping.py:229-231 | empty, blank, `-`, `?` and the lone separator control `\x1f` (which `strip()` removes) are missing |
| MappingMetadata.FirstHeader | Preprocessing/mapping/mapping.py:45-46 | the first header whose lower-case form contains the word, or none exactly when no header does |
| MappingMetadata.RecordAllUnique | Preprocessing/mapping/mapping.py:48-54 | the recorded signal table has unique keys |
| MappingMetadata.RecordAllNamed | Preprocessing/mapping/mapping.py:51-54 | a signal is recorded exactly when some row names it |
| MappingMetadata.RecordAllLast | Preprocessing/mapping/mapping.py:51-54 | a recorded signal has the class of the last row naming it |
| MappingMetadata.RecordAllClocks | Preprocessing/mapping/mapping.py:55-56 | a signal is listed as a clock exactly when some row gives it the class `clock` (any case) |
| MappingMetadata.CsvPairs | Preprocessing/mapping/mapping.py:40-58 | loading succeeds exactly when a signal column and a class column exist and every row has both; the rows then give stripped (signal, class) pairs in order |
| MappingMetadata.LoadMetadataCsv | Preprocessing/mapping/mapping.py:40-58 | the loop over rows returns that result |
| MappingMetadata.ClockNames | Preprocessing/mapping/mapping.py:65 | the clock list holds exactly the signals whose class is `clock` (any case) |
| MappingMetadata.MetadataFromJson | Preprocessing/mapping/mapping.py:61-66 | a missing `signals` entry gives empty metadata; otherwise the table is `signals` itself, and every listed clock is a signal of class `clock` |
| MappingMetadata.ClockNamesFirst | Preprocessing/mapping/mapping.py:65 | every clock name is a key of the table, of class `clock` when the keys are unique |
| MappingMetadata.LoadMetadata | Preprocessing/mapping/mapping.py:30-37 | a `.csv` path (any case) loads the CSV, a `.json` path loads the JSON, and any other path is the error `Expected metadata as CSV or JSON` |
| MappingConnect.ParentNames | Preprocessing/mapping/mapping.py:104-108 | three name variants that include the parent signal itself |
| MappingConnect.ChildNames | Preprocessing/mapping/mapping.py:111-115 | three name variants that include the child port itself |
| MappingConnect.LinkAllHas | Preprocessing/mapping/mapping.py:118-121 | linking one connection relates every parent variant to every child variant, in both directions, and adds nothing else |
| MappingConnect.RawMapHas | Preprocessing/mapping/mapping.py:96-121 | before deduplication, `b` is listed under `a` exactly when some connection links their variants |
| MappingConnect.ConnectionMap | Preprocessing/mapping/mapping.py:123-125 | deduplication keeps the keys and leaves every list duplicate-free |
| MappingConnect.ConnectionMapMembers | Preprocessing/mapping/mapping.py:96-127 | `b` is connected to `a` exactly when some connection links a variant `a` with a variant `b`, and `a` is a key exactly when it is a variant of some connection |
| MappingConnect.ConnectionMapSymmetric | Preprocessing/mapping/mapping.py:117-121 | the map is bidirectional |
| MappingConnect.ConnectionMapVariants | Preprocessing/mapping/mapping.py:104-121 | every parent variant of a connection is connected to every child variant, both ways |
| MappingConnect.ConnectionMapEmpty | Preprocessing/mapping/mapping.py:90-91 | no connections give the empty map |
| MappingConnect.LinkParent | Preprocessing/mapping/mapping.py:119-121 | the inner loop links one parent variant to every child variant |
| MappingConnect.LinkConnection | Preprocessing/mapping/mapping.py:118-121 | the nested loops link all variants of one connection |
| MappingConnect.DedupValues | Preprocessing/mapping/mapping.py:124-125 | the loop replaces every list by its deduplicated form |
| MappingConnect.BuildConnectionMap | Preprocessing/mapping/mapping.py:78-127 | the method builds exactly the map that `ConnectionMapMembers` and `ConnectionMapSymmetric` describe |
| MappingConnect.FirstHit | Preprocessing/mapping/mapping.py:147-164 | one strategy's scan finds the first header it accepts, or none exactly when it accepts no header |
| MappingConnect.CandidateMatch | Preprocessing/mapping/mapping.py:141-164 | a match is a header together with its index |
| MappingConnect.CandidateMatchOrder | Preprocessing/mapping/mapping.py:141-164 | a match is the first header accepted by some strategy, and every earlier strategy (exact, normalised, last component, suffix) accepts no header; there is none exactly when no strategy accepts any header |
| MappingConnect.FirstCandidate | Preprocessing/mapping/mapping.py:140-165 | a match is a header with its index |
| MappingConnect.FirstCandidateOrder | Preprocessing/mapping/mapping.py:140-166 | the connected names are tried in order, and the first one with a match decides |
| MappingConnect.FirstCandidateSome | Preprocessing/mapping/mapping.py:140-165 | a result comes from a candidate after candidates that have no match |
| MappingConnect.FirstCandidateNone | Preprocessing/mapping/mapping.py:140-166 | there is no result exactly when no candidate matches |
| MappingConnect.FindConnectedSignal | Preprocessing/mapping/mapping.py:130-166 | an unconnected name finds nothing, and a result is a header with its index |
| MappingConnect.FindConnectedOrder | Preprocessing/mapping/mapping.py:136-166 | for a connected name, the connected names are tried in map order: the result comes from the first one that has a match, after names with none, and there is none exactly when no connected name matches |
| MappingMatch.FiledLast | Preprocessing/mapping/mapping.py:185-191 | a normalised key is filed exactly when some metadata signal files under it, and it names the last such signal |
| MappingMatch.MetaNormValues | Preprocessing/mapping/mapping.py:190-191 | every filed value is a metadata signal |
| MappingMatch.BuildMetaNorm | Preprocessing/mapping/mapping.py:185-191 | the loop builds exactly that table |
| MappingMatch.MatchKey | Preprocessing/mapping/mapping.py:196-217 | a chosen key is in the table |
| MappingMatch.FirstKey | Preprocessing/mapping/mapping.py:196-217 | the three strategies are tried in order: the full normalised name wins, and nothing matches exactly when no strategy's key is in the table |
| MappingMatch.TwoLevelSuffix | Preprocessing/mapping/mapping.py:210-216 | a dotted name has at least two parts, and the joined last two parts are a suffix of it |
| MappingMatch.SameNormalIsMapped | Preprocessing/mapping/mapping.py:197-200 | a column whose normalised name equals a metadata signal's normalised name is matched by the first strategy |
| MappingMatch.MatchOne | Preprocessing/mapping/mapping.py:196-217 | one iteration maps a column to the table entry of its matched key, or to nothing |
| MappingMatch.MatchedMembers | Preprocessing/mapping/mapping.py:193-219 | the mapping holds exactly the columns with a match, each mapped to its match |
| MappingMatch.MatchedAreMetadata | Preprocessing/mapping/mapping.py:174-219 | every mapped column is a waveform column, and it maps to a metadata signal |
| MappingMatch.SameNormalColumnMapped | Preprocessing/mapping/mapping.py:197-200 | a column with the same normalised name as a metadata signal is mapped |
| MappingMatch.MatchWaveformSignals | Preprocessing/mapping/mapping.py:174-219 | the loops return exactly the mapping that `MatchedMembers`, `MatchedAreMetadata` and `SameNormalColumnMapped` describe |
| MappingTable.FirstMappedFrom | Preprocessing/mapping/mapping.py:244-247 | the first mapped column, in waveform column order, whose metadata signal passes the test, or none exactly when no mapped column's signal does |
| MappingTable.FirstMappedFirst | Preprocessing/mapping/mapping.py:244-247 | the earliest qualifying column is the one found |
| MappingTable.ClockColumn | Preprocessing/mapping/mapping.py:243-247 | the clock is a listed clock signal that some mapped column maps to, or none exactly when no mapped column maps to a clock signal |
| MappingTable.FindClockColumn | Preprocessing/mapping/mapping.py:243-247 | the loop with `break` finds that clock |
| MappingTable.PlanClock | Preprocessing/mapping/mapping.py:243-247 | a chosen clock is a metadata signal and a listed clock |
| MappingTable.PlanClockEmpty | Preprocessing/mapping/mapping.py:243-247 | a clock named by the empty string is a metadata signal |
| MappingTable.ColumnFor | Preprocessing/mapping/mapping.py:268 | the first column mapped to the metadata signal, or none exactly when no column maps to it |
| MappingTable.TimeColumn | Preprocessing/mapping/mapping.py:253 | the first row key that starts with `time_`, or none exactly when no key does |
| MappingTable.FillMeaning | Preprocessing/mapping/mapping.py:271-286 | a present value or an empty connection map keeps the cell's own value; a changed cell was missing and takes the present value of the first connected header found; when that header is named, not empty and has a present value, it is taken |
| MappingTable.FillCell | Preprocessing/mapping/mapping.py:267-286 | a cell is its own column's value (empty when the signal is unmapped), filled from a connection when it is missing |
| MappingTable.ConnectFill | Preprocessing/mapping/mapping.py:273-284 | the connection fallback computes the filled value |
| MappingTable.CellsOfMeaning | Preprocessing/mapping/mapping.py:267-286 | every metadata cell of a row has that filled value |
| MappingTable.AssignMembers | Preprocessing/mapping/mapping.py:263-286 | the row gets every metadata signal except the clock, each with its cell value, and keeps its other entries |
| MappingTable.AssignCell | Preprocessing/mapping/mapping.py:264-286 | one iteration assigns one metadata signal, or skips the clock |
| MappingTable.AssignCells | Preprocessing/mapping/mapping.py:263-286 | the loop assigns all metadata signals but the clock |
| MappingTable.StartRow | Preprocessing/mapping/mapping.py:253-260 | a row starts with its time value and, when a clock is set, the clock column's value (empty when unmapped) |
| MappingTable.AssignedCells | Preprocessing/mapping/mapping.py:257-286 | a metadata cell holds its filled value, and the clock cell the clock value |
| MappingTable.AssignedFacts | Preprocessing/mapping/mapping.py:253-286 | a row's keys are the time column, the clock and the metadata signals, with the values above |
| MappingTable.BuildRow | Preprocessing/mapping/mapping.py:250-288 | one row is built as `RowOutFacts` describes, and fails when it has no time column |
| MappingTable.RowOutFacts | Preprocessing/mapping/mapping.py:250-288 | a row is built exactly when it has a time column, and then it has the keys and values above |
| MappingTable.BuildRows | Preprocessing/mapping/mapping.py:249-288 | the loop over the waveform builds every row, or fails at the first row without a time column |
| MappingTable.RowsMeaning | Preprocessing/mapping/mapping.py:249-288 | building fails exactly when some row has no time column; otherwise there is one output row per waveform row with the keys and values above |
| MappingTable.ClockKey | Preprocessing/mapping/mapping.py:258 | the clock takes part only when it is set and not the empty string (Python truthiness) |
| MappingTable.Keep | Preprocessing/mapping/mapping.py:296 | a name is kept exactly when it is not already in the column order, and a duplicate-free input stays duplicate-free |
| MappingTable.KeepSelects | Preprocessing/mapping/mapping.py:296 | the kept names are the input's entries at the increasing positions whose names are not excluded (`MergeTables.KeepIndices`), so they stay in input order |
| MappingTable.Ordered | Preprocessing/mapping/mapping.py:293-296 | the columns start with the time column and include every metadata signal |
| MappingTable.OrderedHead | Preprocessing/mapping/mapping.py:293-295 | the leading columns are the time column, then the clock when it is truthy |
| MappingTable.OrderedSplit | Preprocessing/mapping/mapping.py:293-296 | the columns are the leading columns followed by the kept metadata signals, so a truthy clock is the second column |
| MappingTable.OrderedRest | Preprocessing/mapping/mapping.py:296 | after the leading columns come exactly the metadata signals other than the time column and the truthy clock, in metadata order |
| MappingTable.OrderedMembers | Preprocessing/mapping/mapping.py:293-296 | a column is the time column, the truthy clock or a metadata signal, and every one of these is a column |
| MappingTable.OrderedNoDup | Preprocessing/mapping/mapping.py:293-296 | no column repeats when the metadata signals do not repeat and the clock is not the time column |
| MappingTable.BuildClassRow | Preprocessing/mapping/mapping.py:301-308 | one class per column: empty for the time column, `clock` for the clock, otherwise the signal's class or `other` |
| MappingTable.MakeTable | Preprocessing/mapping/mapping.py:290-314 | the frame is selected by the ordered columns (using the last row's time column) with the class row, or fails when a column is missing |
| MappingTable.TableFromErrors | Preprocessing/mapping/mapping.py:293-298 | selecting the columns fails exactly when the clock is the empty name and also a metadata signal, because that column was never written |
| MappingTable.TableErrors | Preprocessing/mapping/mapping.py:249-298 | a table fails exactly when some row has no time column, or the clock is the empty name and a metadata signal |
| MappingTable.PlanTableErrors | Preprocessing/mapping/mapping.py:249-298 | the same statement for the plan that `build_table` settles before reading rows |
| MappingTable.TableShape | Preprocessing/mapping/mapping.py:290-314 | a table has one data row per waveform row, each as wide as the header; the header is exactly `ordered` (`Ordered`, with the order its lemmas state) for a `time_` column, contains every metadata signal, and the class row gives each column `""` for the time column, `clock` for the clock, else its metadata class or `other` |
| MappingTable.TableCells | Preprocessing/mapping/mapping.py:263-314 | each metadata cell holds its filled value, and each clock cell its clock value |
| MappingTable.BuildTable | Preprocessing/mapping/mapping.py:234-314 | the method computes exactly the table or error that `BuildTableErrors`, `BuildTableShape` and `BuildTableCells` describe |
| MappingTable.BuildTableErrors | Preprocessing/mapping/mapping.py:234-298 | `build_table` fails exactly when the waveform is empty, some row has no time column, or the chosen clock is the empty name |
| MappingTable.BuildTableShape | Preprocessing/mapping/mapping.py:234-314 | a built table has the shape above for the metadata signals and the clock the plan chose: the ordered header and the class of every column |
| MappingTable.BuildTableCells | Preprocessing/mapping/mapping.py:234-314 | each cell of a built table is its signal's own waveform value (filled from a connection when missing), and the clock cell is the clock column's value |
| MergeTables.Pad | Preprocessing/mapping/merge_map_signals.py:14-17 | the padded row has exactly the requested length, keeps the row's cells that fit and fills the rest with empty cells |
| MergeTables.KeepIndices | Preprocessing/mapping/merge_map_signals.py:20 | the kept indices are increasing and are exactly the second header's columns whose names are not in the first header |
| MergeTables.Select | Preprocessing/mapping/merge_map_signals.py:22-23 | the selected cells are the cells at the kept indices, in order |
| MergeTables.RowOrBlank | Preprocessing/mapping/merge_map_signals.py:30-31 | a row padded to the header width, or a blank row past the end of the data |
| MergeTables.MergeTwoFails | Preprocessing/mapping/merge_map_signals.py:22 | merging fails (an index error) exactly when a kept column of the second table has no class cell |
| MergeTables.KeptNames | Preprocessing/mapping/merge_map_signals.py:20-23 | the merged names are exactly the names of either header |
| MergeTables.MergeTwoHeader | Preprocessing/mapping/merge_map_signals.py:20-23 | the merged header starts with the first header, holds exactly the names of both, and the class row grows with it |
| MergeTables.MergeTwoRows | Preprocessing/mapping/merge_map_signals.py:25-33 | there are as many rows as the longer table, each as wide as the merged header; the first table's cells are kept, and rows it lacks are blank in its columns |
| MergeTables.MergeTwoCell | Preprocessing/mapping/merge_map_signals.py:28-33 | each merged cell is the first table's cell under the same name, or the second table's cell under a new name, or empty where that row or cell is missing |
| MergeTables.MergeTwoKeepsNamesDistinct | Preprocessing/mapping/merge_map_signals.py:20-23 | two headers without duplicates merge into a header without duplicates |
| MergeTables.MergeData | Preprocessing/mapping/merge_map_signals.py:28-32 | the row loop builds exactly the rows that `MergeTwoRows` and `MergeTwoCell` describe |
| MergeTables.MergeRow | Preprocessing/mapping/merge_map_signals.py:30-32 | one merged row is the padded first row followed by the kept cells of the padded second row |
| MergeTables.MergeTwoTables | Preprocessing/mapping/merge_map_signals.py:19-34 | the method computes exactly the merge or error that `MergeTwoFails`, `MergeTwoHeader` and `MergeTwoCell` describe |
| MergeTables.MergeAll | Preprocessing/mapping/merge_map_signals.py:42-49 | no tables is an error; otherwise the tables are merged left to right into the first |
| MergeTables.FoldMergeShape | Preprocessing/mapping/merge_map_signals.py:42-49 | the final header starts with the first table's header and contains every name of every table, and every row is as wide as the header once at least one table has been merged in; a lone table's rows stay as read |
| VcdConvert.GetAutoResolution | Preprocessing/vcd/vcd_converter.py:6-20 | the resolution is a tenth of a known period above 10, and 1 otherwise (never below 1) |
| VcdConvert.ParseTimescale | Preprocessing/vcd/vcd_converter.py:23-51 | a timescale of exactly two fields with a number and a listed unit gives (number, unit); anything else gives (1.0, `ps`); the unit is always a listed one |
| VcdConvert.TimescaleExamples | Preprocessing/vcd/vcd_converter.py:27-29 | `1 ns` gives (1.0, `ns`) and `10 ps` gives (10.0, `ps`) |
| VcdConvert.TimescaleFallbacks | Preprocessing/vcd/vcd_converter.py:37-47 | an unknown unit and a single field both fall back to (1.0, `ps`) |
| VcdConvert.TimescaleUnitSeparator | Preprocessing/vcd/vcd_converter.py:37-47 | `split()` separates the value from the unit at `\x1f` too, so `1\x1fns` reads as (1.0, `ns`) |
| VcdConvert.SignalNames | Preprocessing/vcd/vcd_converter.py:81-84 | one name per signal, in dump order: its first reference, or `sig_<code>` |
| VcdConvert.TimeBounds | Preprocessing/vcd/vcd_converter.py:88-101 | no bounds exactly when no signal has a transition; otherwise the least first time and the greatest last time over the signals with transitions |
| VcdConvert.SampleStep | Preprocessing/vcd/vcd_converter.py:108 | the step is the resolution truncated to an integer, and at least 1 |
| VcdConvert.Timestamps | Preprocessing/vcd/vcd_converter.py:104-110 | the grid starts at the lower bound, rises by the step, stays within the bounds, reaches the last step before the upper bound, and is empty exactly when the bounds are reversed |
| VcdConvert.PrefixUpTo | Preprocessing/vcd/vcd_converter.py:120-121 | the transitions popped at a time are the longest prefix at or before it |
| VcdConvert.PopUpTo | Preprocessing/vcd/vcd_converter.py:119-121 | the `pop(0)` loop removes exactly that prefix and holds the last popped value, or the previous value when nothing is popped |
| VcdConvert.Sampled | Preprocessing/vcd/vcd_converter.py:113-122 | one sample per timestamp: the held value at that time |
| VcdConvert.SampleIsLastTransition | Preprocessing/vcd/vcd_converter.py:113-122 | for time-ordered transitions, the sample is `x` before the first transition, and otherwise the value of the last transition at or before the time |
| VcdConvert.StepState | Preprocessing/vcd/vcd_converter.py:117-122 | one sampling step keeps the remaining list, the held value and the samples in step with the specification |
| VcdConvert.TvByName | Preprocessing/vcd/vcd_converter.py:113 | the per-name transition table has exactly the signal names as keys |
| VcdConvert.TvByNameLast | Preprocessing/vcd/vcd_converter.py:113 | a name shared by several signals keeps the last signal's transitions |
| VcdConvert.RowInit | Preprocessing/vcd/vcd_converter.py:113-114 | sampling starts with every transition list intact, every value held at `x` and no samples |
| VcdConvert.RowStep | Preprocessing/vcd/vcd_converter.py:118-122 | sampling one name at one time keeps the row invariant |
| VcdConvert.RowOthers | Preprocessing/vcd/vcd_converter.py:118-122 | sampling one name leaves every other name's state unchanged |
| VcdConvert.RowDone | Preprocessing/vcd/vcd_converter.py:117-122 | after the last timestamp, every name's samples are its sampled sequence |
| VcdConvert.SampleName | Preprocessing/vcd/vcd_converter.py:119-122 | the inner step for one name keeps the invariant |
| VcdConvert.SampleRow | Preprocessing/vcd/vcd_converter.py:118-122 | one timestamp's pass over all names keeps the invariant |
| VcdConvert.SampleAndHold | Preprocessing/vcd/vcd_converter.py:112-122 | every name gets samples, and with distinct names each name's samples are the sample-and-hold of its transitions on the grid |
| VcdConvert.TimeColumn | Preprocessing/vcd/vcd_converter.py:127-146 | `time_<unit>` for any unit but `ps`; for `ps`, `time_ns` exactly when the resolution is at least 1000 and `time_ps` otherwise |
| VcdConvert.ConvertVcd | Preprocessing/vcd/vcd_converter.py:54-155 | there is no output exactly when no signal has a transition; otherwise the header is the time column and the signal names, the grid runs between the bounds with the resolution's step, and (for distinct names) each column is that signal sampled on the grid |
| ClockEstimation.DetermineChunkLimits | Preprocessing/vcd/clock_estimation.py:7-20 | files under 100 MB are unlimited; otherwise the cycle limit is 500 000, 1 000 000 or 2 000 000, and the time limit is that many periods |
| ClockEstimation.ChunkLimitsMonotone | Preprocessing/vcd/clock_estimation.py:10-17 | a larger file never gets a smaller cycle limit |
| ClockEstimation.ChunkLimitTiers | Preprocessing/vcd/clock_estimation.py:10-17 | the tier boundaries fall at 100, 1000 and 5000 MB |
| ClockEstimation.NormalizeRef | Preprocessing/vcd/clock_estimation.py:25 | each character is lower-cased, and `/` becomes `.` |
| ClockEstimation.FirstMatchingRef | Preprocessing/vcd/clock_estimation.py:29-32 | the first reference whose normalised form ends with the normalised clock name, or none exactly when no reference matches |
| ClockEstimation.FindMatchingSymbol | Preprocessing/vcd/clock_estimation.py:23-33 | the first signal, in dump order, that has references and a matching one, with that reference; none exactly when no signal has a match |
| ClockEstimation.BinaryTransitions | Preprocessing/vcd/clock_estimation.py:52 | exactly the transitions whose value is `0` or `1`, and no more of them than there are transitions |
| ClockEstimation.BinaryTransitionsAppend | Preprocessing/vcd/clock_estimation.py:52 | filtering a concatenation is filtering each part, so order and repeats are kept |
| ClockEstimation.BinaryTransitionsOne | Preprocessing/vcd/clock_estimation.py:52 | a single transition is kept exactly when its value is `0` or `1` |
| ClockEstimation.RisingEdges | Preprocessing/vcd/clock_estimation.py:62 | there are no more edges than transitions |
| ClockEstimation.RisingEdgesSnoc | Preprocessing/vcd/clock_estimation.py:62 | one more transition adds its time at the end of the edges exactly when a `0` directly precedes its `1`, so the edges come in transition order, one per rise |
| ClockEstimation.RisingEdgesExact | Preprocessing/vcd/clock_estimation.py:62 | a time is an edge exactly when a `0` is directly followed by a `1` at that time |
| ClockEstimation.Diffs | Preprocessing/vcd/clock_estimation.py:67 | the consecutive differences, one fewer than the times |
| ClockEstimation.SumOfDiffs | Preprocessing/vcd/clock_estimation.py:67 | the differences add up to the last time minus the first |
| ClockEstimation.MeanPeriodIsSpan | Preprocessing/vcd/clock_estimation.py:67 | the mean period is the span between the first and last edge divided by the number of gaps |
| ClockEstimation.EdgesUpTo | Preprocessing/vcd/clock_estimation.py:75 | exactly the edges at or before the time limit, and all edges when all fit |
| ClockEstimation.EdgesUpToAppend | Preprocessing/vcd/clock_estimation.py:75 | selecting from a concatenation is selecting from each part, so order and repeats are kept |
| ClockEstimation.EdgesUpToOne | Preprocessing/vcd/clock_estimation.py:75 | a single edge is kept exactly when it is at or before the limit |
| ClockEstimation.CountCycles | Preprocessing/vcd/clock_estimation.py:70-78 | full mode counts every edge and ends at the last one; limited mode counts exactly the selected edges and ends at the last of them (a time within the limit), or at 0 when none is selected; with every edge within the limit it counts them all |
| ClockEstimation.EstimateFirstChunkCycles | Preprocessing/vcd/clock_estimation.py:36-92 | an estimate exists exactly when the clock is found under a non-empty symbol and has at least three rising edges; it then carries the file size, the mean period, `full` mode exactly for files under 100 MB, and the cycle count of the chunk limits |
| FileManager.Label | Preprocessing/vcd/file_manager.py:21-32 | the label is non-empty and made of capital letters |
| FileManager.LabelDecodes | Preprocessing/vcd/file_manager.py:21-32 | reading the label as a bijective base-26 numeral gives the upload count plus one, so the labels run A..Z, AA.. |
| FileManager.LabelInjective | Preprocessing/vcd/file_manager.py:21-32 | different counts give different labels |
| FileManager.LabelExamples | Preprocessing/vcd/file_manager.py:21-32 | 0, 1, 25, 26, 27, 701 and 702 give A, B, Z, AA, AB, ZZ and AAA |
| FileManager.GetNextFileLabel | Preprocessing/vcd/file_manager.py:21-32 | the digit loop computes the label of the number of uploads |
| FileManager.SavedName | Preprocessing/vcd/file_manager.py:46 | the saved name is `user<id><label>.vcd` |
| FileManager.SavedNamesDistinct | Preprocessing/vcd/file_manager.py:45-46 | two uploads of one user never get the same saved name |
| FileManager.UploadLog.constructor | Preprocessing/vcd/file_manager.py:13-16 | a new log has no uploads |
| FileManager.UploadLog.SaveVcdFile | Preprocessing/vcd/file_manager.py:36-66 | at the limit of 100 uploads, the log is unchanged and the error names the user; otherwise the log gains one entry (number, original name, saved name, timestamp, no waveform JSON) and the saved name is returned; the log keeps at most 100 entries, numbered 1, 2, ... in order |
| FileManager.UploadLog.UpdateJsonPathInLog | Preprocessing/vcd/file_manager.py:70-81 | only the first entry with the saved name gets the JSON path, and the log is unchanged when no entry has that name |
| FileManager.UserRegistry.constructor | Preprocessing/vcd/file_manager.py:88-90 | a new registry starts at user 1 |
| FileManager.UserRegistry.GetOrCreateUser | Preprocessing/vcd/file_manager.py:84-101 | each call returns the next id and advances the counter by one |

## Left out

- File and console I/O are parameters, or are left out:
  - Reading RTL files, metadata CSV/JSON, waveform CSVs and VCD dumps. The texts, parsed rows, JSON tables and the VCD's signal list are passed in.
  - Writing the JSON and CSV outputs. The computed tables are returned instead.
  - All `print` calls, every `__main__` block, `argparse` handling, and the module-level driver at the end of `check_system.py` (lines 253-321).
  - `load_rtl_input` (directory listing and file reading) and `load_connectivity`.
  - The CSV reader's handling of the skipped first metadata line, and `load_csv` in the merge script.
- Regular expressions are modelled as hand-written scanners. `\w`, `\b` and `lower()` are read on ASCII letters, digits and `_`. `\s`, `strip()` and `split()` take every ASCII character Python counts as whitespace (`Text.IsSpace`), including the separators `\x1c` to `\x1f`. Non-ASCII word characters, non-ASCII whitespace such as U+00A0 and U+2028, and Unicode case folding are not modelled.
- Python's iteration order over a `set` is unspecified:
  - `list(set(...))` in `build_connection_map` is modelled as first-occurrence deduplication, which is one of the orders Python may produce.
  - `for sig in set(tokens)` in `analyze_rtl` is modelled as a visit in any order. Each token writes only its own entry, so the set of labels does not depend on the order.
- SignalClassify.AnalyzeRtl: returns a Dafny `map`, which has no key order. The order in which the classification dictionary gains its keys, and so the order of the JSON object and the CSV rows written from it (`classify_signals.py:195`, `231`, `266`, `273-274`), is not modelled; only which label each signal gets.
- RtlSystem.AnalyzeSystem: the module table is a Dafny `map`, which has no key order. The order in which `system["modules"]` gains its keys (`classify_system.py:101`), and so the order of the module summary and of the JSON `modules` object (`classify_system.py:181`, `212`), is not modelled; only which record each module name holds (`RtlSystem.ModulesOfSystem`, `RtlSystem.LastFileWins`).
- Floating point: real numbers stand in for Python floats and numpy arrays.
  - `float()` parsing is a parameter of `ParseTimescale`.
  - The file size in MB is a parameter of `EstimateFirstChunkCycles`.
  - `timestamps_real` (index times scale) and the ps-to-ns division of the time values are left out. Only the time column's name is modelled.
- `VcdConvert.SampleAndHold`: the sampled-values contract holds only for distinct signal names. With repeated names, the code appends several samples per timestamp to one shared list, and the model does not state that list's contents.
- `VcdConvert.ConvertVcd`: same restriction as `SampleAndHold`, for the same reason. It also returns the grid of integer time indices rather than scaled real times.
- Block comments: a `/*` without a closing `*/` is kept in the text, as the regular expression leaves it.
- `classify_addr_signal` updates its dictionary in place. The model returns the updated map, and `ClassifyAddrSignal` is the method that performs the update.
- `build_table`:
  - The `filled_signals` list is only used for reporting, so it is left out.
  - The CSV write is left out, and the table (class row, header, data) is returned.
  - A connectivity document is modelled as its `connections_direct` list. A missing document and an empty list both give an empty map.
- Waveform rows are association lists from `csv.DictReader`. Ragged rows (the `None` key and `None` values) are not modelled.
- `save_vcd_file`:
  - Folder creation (`ensure_user_folder`) and `shutil.copy2` are not modelled.
  - The timestamp is a parameter, because `datetime.now()` is a clock.
  - The method returns the saved file name, not the destination and log paths.
- `get_or_create_user`: the registry file is modelled as a counter field.
- The rest of the repository is not part of this model: the web application, command-line wrappers, clock detection and the analysis stages that consume these outputs.
