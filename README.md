# Gibbed.ProjectData in Dafny

A model of the project-metadata layer used by a suite of game-modding tools. It covers:

- **Projects.** A **project** is the structure loaded from a JSON definition file in a
  **base directory**. It holds a name, a hidden flag, dependency names, key/value settings, a
  lists directory and a chain-based install location.
- **Manager.** The **manager** keeps the table of loaded projects by name, and one **active**
  project. It remembers the active project in the marker file `current.txt`.
- **Install location resolution.** Each project's install directory is found by trying its
  install-location chains in order. Each chain is a sequence of registry, registry-view, path,
  combine and parent actions.
- **Hash lists.** A **hash list** is a table from a caller's hash of a string to that string.
- **List aggregation.** `LoadLists` reads every list file of each dependency's lists
  directory, then of the project's own. It skips comment and blank lines, trims and optionally
  normalises each kept line, and stores it under its hash. Two different strings with the same
  hash raise a collision.

The machine is a value, `Platform.Host`. It records which directories exist, the registry, the
files each directory enumeration returns and the marker files. It also carries the framework's
path functions (`Path.GetFullPath`, `Path.Combine`, `Path.GetDirectoryName`,
`Path.IsPathRooted`) as uninterpreted functions.

Exceptions are modelled as `Result` values. `Wrappers.Error` names their kind and the
parameter they report. A nullable string is `Option<string>`.

Code that works by folding over a definition is written as functions:

- install-location chains (`RunChain`, `Resolve`);
- the definition table (`BuildTable`, `LoadSpec`);
- list aggregation (`Consume`, `ConsumeLines`, `ConsumeFiles`, `ConsumeDependencies`,
  `Aggregate`).

The loops of the source are methods. Each method is proved equal to its fold:
`InstallLocation.GetChain`/`Get`, `Projects.ReadListFile`/`LoadListsFrom`/`LoadLists`,
`Managers.Manager.ReadTable`/`Load`.

Entities whose fields the source updates are classes:

- `HashLists.HashList`, whose dictionary the aggregator writes in place;
- `Managers.Manager`, whose `ActiveProject` setter changes the active project.

The properties are proved as lemmas over the folds:

- `ListProperties`: the table invariant, collision exactly when two lines collide, read order,
  contents and observer calls, and the line filter;
- `Managers`: what loading builds, and round trips through the marker file;
- `InstallLocation`: how chains compose and where a resolved chain ends;
- `Scenarios`: small concrete cases.

Some behaviours of the code are easy to miss; the model states them as the code has them:

- A requested project name that is not blank decides the active project on its own. When no
  project has that name, nothing is active, and the marker file is not consulted.
  (`Managers.PreferredNameWins`)
- A marker file that is blank once trimmed makes `Manager.Load` raise `ArgumentNullException`.
  It does not mean "no active project": the trimmed text is passed to `TryGetProject`, which
  rejects an empty name. (`Managers.BlankMarkerRaises`)
- An empty dependency name makes `LoadLists` raise, for the same reason.
  (`ListProperties.EmptyDependencyNameRaises`)
- A definition without a lists path makes `Project.Load` raise `ArgumentNullException`, from
  `Path.Combine` or `Path.GetFullPath`. (`Projects.Load`)
- Only the active project's direct dependencies are read; dependencies of dependencies are not
  followed. (`ListProperties.AggregateIgnoresTransitiveDependencies`)

## Model

| member | source | states |
|---|---|---|
| Wrappers.CollisionMessage | Project.cs:225-226 | the collision message is "hash collision ('", the new string, "' vs '", the stored string and "')", each part at its fixed offset |
| Text.TrimStartSpec | Project.cs:212 | TrimStart is the suffix starting at the first non-white character; the removed prefix is all white space; the result is empty iff the input is all white space |
| Text.TrimEndSpec | Project.cs:212 | TrimEnd is the prefix ending at the last non-white character; the removed suffix is all white space; empty iff all white space |
| Text.TrimSpec | Project.cs:212 | a trimmed line has no white space at either end, is no longer than the line, and is empty exactly when the line is all white space |
| Text.TrimIdempotent | Project.cs:212 | trimming a trimmed line changes nothing |
| Platform.ReadRegistry | InstallLocation.cs:70-110 | a key that does not exist reads as no key; a protected key reads as denied (the SecurityException the resolver catches); a value present under a readable key is returned as stored; a value name the key lacks reads as the caller's default, null when there is none |
| Platform.Matching | Project.cs:195 | the files the search returns are exactly those of the directory whose path matches the filter, never more than there are |
| InstallLocation.Replace | InstallLocation.cs:169-171 | every occurrence of one character is replaced by another, every other character kept, the length unchanged |
| InstallLocation.CleanPath | InstallLocation.cs:163-172 | both '/' and '\\' become the native separator, everything else unchanged; the result is clean |
| InstallLocation.CleanPathOfClean | InstallLocation.cs:163-172 | cleaning a path that is already clean leaves it unchanged, so cleaning is idempotent |
| InstallLocation.GetChain | InstallLocation.cs:50-161 | the action loop returns exactly the chain's outcome: resolved path, false (stopped) at the first failing action, or the exception |
| InstallLocation.Get | InstallLocation.cs:38-48 | the loop over install locations returns exactly the outcome of trying the chains in order from the parent path |
| InstallLocation.EmptyChainResolvesToStart | InstallLocation.cs:159-160 | a chain with no action resolves to its start path |
| InstallLocation.RunChainAppend | InstallLocation.cs:55-157 | running a+b is running b from where a ended when a resolved; otherwise a's stop or exception is the result |
| InstallLocation.UnknownActionRaisesOnlyWhenReached | InstallLocation.cs:152-155 | an action of an unknown type raises exactly when every action before it moved on |
| InstallLocation.ResolvedPath | InstallLocation.cs:59-150 | a resolved path is the start for an empty chain, an existing directory after path/combine/parent, after a registry action (Windows only) the cleaned form of the non-empty string the registry read gave for that action's key, value name and default; no resolved chain holds an unknown action |
| InstallLocation.ResolveAppend | InstallLocation.cs:40-47 | the chains of b are tried only when every chain of a stopped, each from the same parent path |
| InstallLocation.ResolveIsFirstDecisive | InstallLocation.cs:38-48 | the result is that of the first chain that does not stop; none when every chain stops |
| HashLists.HashList.constructor | HashList.cs:30-35 | a new hash list (and the Dummy instance) is empty: no key is contained, every lookup gives null |
| HashLists.HashList.Add | HashList.cs:37-40 | adding a new key stores the value under it; adding a present key raises and changes nothing |
| HashLists.HashList.Get | HashList.cs:47-58 | the indexer gives null exactly for a key not contained, otherwise the stored string |
| HashLists.HashList.GetStrings | HashList.cs:60-63 | one value per key, each key once, every key covered; the strings are exactly the stored ones |
| Projects.Find | Manager.cs:75-82 | a null or empty name raises ArgumentNull("name"); otherwise the project of that name, none when it is absent |
| Projects.Load | Project.cs:47-79 | Project.Load copies name, hidden flag, dependencies and settings from the definition and resolves the install path from the definition file's directory; an empty path raises ArgumentNull("path"), and a missing lists path raises an ArgumentNull |
| Projects.GetSetting | Project.cs:99-108 | raises exactly for a null or empty name; otherwise the stored value, or the default for a missing key |
| Projects.GetTypedSetting | Project.cs:110-133 | raises only for a null name; a missing key (the empty one included) gives the default; a stored value goes through the conversion |
| Projects.ReadListFile | Project.cs:197-236 | the read loop over one file leaves the table, the observer calls and the exception that the fold over its lines gives |
| Projects.LoadListsFrom | Project.cs:182-237 | a missing directory contributes nothing; otherwise the files are read in enumeration order up to the first collision |
| Projects.LoadLists | Project.cs:146-178 | a fresh table filled from each known dependency's directory, then the project's own; the observer calls are those of the fold; a collision or an empty dependency name raises |
| ListProperties.ConsumeSound | Project.cs:218-229 | storing a kept line keeps every stored string hashing to its key, and a raised collision names two different strings with one hash |
| ListProperties.ConsumeLinesSound | Project.cs:199-235 | the table invariant and the legitimacy of exceptions hold over a whole file |
| ListProperties.ConsumeFilesSound | Project.cs:195-236 | the invariant holds over every file of a directory |
| ListProperties.ConsumeDependenciesSound | Project.cs:154-167 | the invariant holds over the dependency loop, whose only other exception is ArgumentNull("name") for an empty name |
| ListProperties.AggregateSound | Project.cs:146-178 | after LoadLists every stored string hashes to its key, no two keys hold the same string, and any exception is an empty-name lookup or a genuine collision |
| ListProperties.ConsumeLinesAppend | Project.cs:199-235 | reading a+b is reading a, then reading b from the result |
| ListProperties.ConsumeFilesFlat | Project.cs:195-236 | reading a sequence of files is reading their lines one after the other |
| ListProperties.ConsumeDirectoryFlat | Project.cs:190-195 | reading a directory is reading the lines of its matching files |
| ListProperties.ConsumeDependenciesFlat | Project.cs:154-167 | with no empty name, the dependency loop reads the lines of the known dependencies' directories in declaration order |
| ListProperties.LinesOfAppend | Project.cs:154-175 | the lines of a+b are the lines of a and then those of b |
| ListProperties.AggregateFollowsScanOrder | Project.cs:146-178 | with no empty dependency name, LoadLists reads exactly the lines of the known dependencies' directories, in order, then the project's own |
| ListProperties.MissingDirectoryContributesNothing | Project.cs:190-193 | a lists directory that does not exist leaves the state unchanged |
| ListProperties.ConsumeDependenciesAppend | Project.cs:154-167 | the dependency loop over a+b is the loop over a, then over b |
| ListProperties.EmptyDependencyNameRaises | Project.cs:154-159 | at the first empty dependency name LoadLists raises ArgumentNull("name"), once the dependencies before it have been read without a collision |
| ListProperties.ConsumeDependenciesOneLevel | Project.cs:154-167 | the dependency loop depends only on which names are loaded and their lists directories |
| ListProperties.AggregateIgnoresTransitiveDependencies | Project.cs:154-167 | two manager tables agreeing on the names and lists directories give the same LoadLists result: dependencies of dependencies are not read |
| ListProperties.TableClashStep | Project.cs:218-229 | after a line that does not clash, a later line clashes with the new table exactly when it clashes with the old table or collides with that line |
| ListProperties.ClashAtShift | Project.cs:218-229 | when the first line is read without a clash, line j clashes against the old table exactly when line j-1 of the rest clashes against the new one |
| ListProperties.ClashesShift | Project.cs:218-229 | reading a first line without a clash leaves a table against which the rest of the lines clash exactly when all the lines clash against the old table |
| ListProperties.ConsumeLinesFailsIffClash | Project.cs:199-235 | reading lines into a table raises exactly when some kept line clashes with the table or with an earlier kept line |
| ListProperties.ConsumeLinesFromFreshFailsIffCollision | Project.cs:199-235 | from a fresh table, reading lines raises exactly when two kept lines give different strings with one hash |
| ListProperties.AggregateFailsIffCollision | Project.cs:146-237 | with no empty dependency name, LoadLists raises exactly when two lines of the directories it reads, in order, collide, and then it raises a hash collision |
| ListProperties.NoNameFailure | Project.cs:199-235 | reading lines raises nothing but a hash collision |
| ListProperties.TraceStep | Project.cs:229-234 | the observer calls of the first line followed by those of the rest are those of all the lines |
| ListProperties.ConsumeLinesTrace | Project.cs:199-235 | a read that raises nothing calls the observer once per kept line, in order, repeats included, and only when one is given |
| ListProperties.ConsumePreserves | Project.cs:222-229 | storing a line never changes an earlier binding |
| ListProperties.ConsumeLinesPreserves | Project.cs:199-235 | a read that raises nothing keeps every earlier binding |
| ListProperties.ConsumeBinds | Project.cs:218-229 | a kept line that raises nothing is stored under its hash |
| ListProperties.BoundGrows | Project.cs:222-229 | a binding of a line survives any extension of the table |
| ListProperties.AllBoundCons | Project.cs:199-235 | the first line is bound and the rest are bound, so all the lines are bound |
| ListProperties.ConsumeLinesBinds | Project.cs:199-235 | a read that raises nothing stores every kept line's string under its hash |
| ListProperties.ConsumeLinesKeys | Project.cs:199-235 | a read adds no key except the hashes of kept lines |
| ListProperties.AggregateContents | Project.cs:146-237 | a LoadLists that raises nothing holds every kept line under its hash and no other key, and its observer saw the kept lines in the order read |
| ListProperties.CommentTestPrecedesTrim | Project.cs:207-216 | the comment test is made before trimming: ";x" is skipped, while "  ;x" is kept as ";x" |
| ListProperties.TrimIndentedComment | Project.cs:212 | trimming "  ;x" gives ";x" |
| ListProperties.AdmitFilters | Project.cs:207-218 | a line is skipped exactly when it starts with ';' or is all white space; a kept line is trimmed, and normalised when a modifier is given |
| Managers.Manager.constructor | Manager.cs:39-42 | a new manager has the given base directory, an empty table and no active project |
| Managers.Manager.Load | Manager.cs:97-144 | Manager.Load returns a fresh manager whose base directory, table and active project are those of the load specification, with every project filed under its name; it raises what the specification raises |
| Managers.Manager.ReadTable | Manager.cs:114-121 | the loop over the definition files gives the table of the fold, raising on a file that fails to load or a repeated name; the table is filed by name |
| Managers.Manager.TryGetProject | Manager.cs:63-82 | TryGetProject and the indexer raise for a null or empty name; otherwise they give the project exactly when its name is in the table |
| Managers.Manager.Enumerate | Manager.cs:146-163 | enumeration yields exactly the loaded projects that are neither hidden nor without an install path, each once |
| Managers.Manager.SetActiveProject | Manager.cs:48-60 | the setter writes the project's name to the marker, or deletes the marker for null, raising when the base directory is missing; the active project changes only when that succeeded, nothing else changes |
| Managers.Manager.LoadLists | Manager.cs:176-188 | with no active project an empty table and no observer call; otherwise the active project's LoadLists with its dependencies looked up in this manager's table |
| Managers.Manager.GetSetting | Manager.cs:191-204 | a null name raises; with no active project the default; otherwise the project's GetSetting, so an empty name raises only when a project is active |
| Managers.Manager.GetTypedSetting | Manager.cs:206-220 | a null name raises; with no active project or a missing key the default; otherwise the converted setting |
| Managers.BuildTableSucceeds | Manager.cs:114-121 | loading the files succeeds exactly when every file loads, no name is already in the table, and no two files share a name |
| Managers.BuildTableKeeps | Manager.cs:116-120 | loading keeps every project already in the table and the table stays filed by name |
| Managers.BuildTableHolds | Manager.cs:116-120 | a loaded table holds every definition file's project under that file's name |
| Managers.BuildTableOnly | Manager.cs:116-120 | a loaded table holds no name except those it had and the definition files' names |
| Managers.TableContents | Manager.cs:112-121 | with a missing base directory the table is empty; otherwise it holds exactly one project per definition file, under its name |
| Managers.ActiveIsLoaded | Manager.cs:123-141 | a loaded manager's active project is the table's project of that name |
| Managers.MissingBaseDirectory | Manager.cs:112-141 | a base directory that does not exist gives an empty table and no active project, whatever name is requested |
| Managers.BlankRequestIsNoRequest | Manager.cs:104-130 | a requested name that is empty or all white space loads exactly as no request at all |
| Managers.MarkerDecides | Manager.cs:130-141 | with no name requested, no marker means no active project, and a marker that is not blank selects the project its trimmed text names, or none |
| Managers.PreferredNameWins | Manager.cs:104-129 | a requested name that is not blank decides the active project: the project of the trimmed name, or none; the marker is not read |
| Managers.BlankMarkerRaises | Manager.cs:130-139 | with no name requested, a marker that is all white space makes Load raise ArgumentNull("name") |
| Managers.RunChainIgnoresTextFiles | InstallLocation.cs:50-161 | the marker files do not take part in resolving a chain |
| Managers.ResolveIgnoresTextFiles | InstallLocation.cs:38-48 | the marker files do not take part in resolving an install path |
| Managers.BuildTableIgnoresTextFiles | Manager.cs:116-120 | the marker files do not take part in building the table |
| Managers.ActiveProjectRoundTrip | Manager.cs:48-60 | setting a loaded project with a trimmed non-empty name active, then loading with no name requested, makes that project active again over the same table |
| Managers.MarkerHolds | Manager.cs:57 | after the marker is written it reads back the written name |
| Managers.SelectMarked | Manager.cs:135-139 | a marker holding a loaded project's trimmed non-empty name selects that project |
| Managers.SameTable | Manager.cs:112-121 | rewriting the marker leaves the table Load builds unchanged |
| Managers.ClearedActiveProjectStaysCleared | Manager.cs:51-54 | clearing the active project deletes the marker, so loading again with no name requested finds none active |
| Managers.UnlistedStillReachable | Manager.cs:75-82 | a hidden project or one without an install path is left out of the enumeration but still found by its name |
| Scenarios.RepeatedLineHarmless | Project.cs:222-229 | reading the same kept line twice never raises and leaves the table as it was |
| Scenarios.PlainLineKept | Project.cs:207-218 | a non-comment line with no white space at either end is kept verbatim |
| Scenarios.TwoLinesCollide | Project.cs:222-227 | two different kept strings with the same hash raise a collision naming the later string first |
| Scenarios.CatBatCollide | Project.cs:195-227 | hashing by length, "cat" and "bat" read from two files raise a collision naming "bat" first and "cat" second |
| Scenarios.ThreeLines | Project.cs:199-235 | with the identity hash, reading x, x, y raises nothing and keeps exactly x and y |
| Scenarios.DlcLines | Project.cs:154-175 | a project with one dependency reads its dependency's lines before its own |
| Scenarios.GameDlcScenario | Project.cs:146-178 | a dependency and a project sharing one line and adding another give a table of exactly the two strings and no exception |

## Left out

- Deserialising the JSON definition (`LoadJson`, Project.cs:81-92) is not modelled. A definition file is given with the definition deserialisation yields, and the deserialiser's own exceptions are left out.
- A definition whose name is null is not modelled: names are strings. `Dictionary.Add` would reject a null name, and that case is left out.
- A dependency name that is null is not separated from the empty name. The model treats both as the empty string, which raises `ArgumentNull("name")` in both cases, as the source does.
- Only the exceptions named in `Wrappers.Error` are modelled. The remaining `Registry.GetValue` and `RegistryKey` exceptions (ArgumentException, IOException, UnauthorizedAccessException) are left out.
- The framework path functions are uninterpreted, so the exceptions of `Path.GetFullPath`, `Path.Combine` and `Path.GetDirectoryName` on malformed paths are not modelled. The one exception they raise for a null argument (a missing lists path) is modelled.
- `Path.GetDirectoryName` returning null is merged with it returning the empty string. As a result, a parent action from the empty path can still move (`directoryName("")` is uninterpreted), and a combine action from it never raises. In the source, the parent action would stop and `Path.Combine(null, ...)` would throw. The case cannot arise from a definition file, whose full path always has a directory.
- `string.StartsWith(";")` is culture-sensitive in .NET. It is modelled as an ordinal prefix test.
- `StreamReader.ReadLine` line splitting, byte order marks, encodings and UTF-8 writing of the marker file are not modelled. Each list file is given as the sequence of lines a reader returns.
- File sharing modes, stream disposal and thread safety are not modelled; the model is single-threaded.
- `Project.ToString` is not modelled.
- The `Manager.Load()` and `Manager.Load(currentProject)` overloads (Manager.cs:84-95) are left out. They derive the base directory from the running assembly's location.
- Projects.GetTypedSetting: `Enum.TryParse` and `Convert.ChangeType` are not modelled. The conversion is a caller-supplied function, and its failures are `ConversionFailed`.
- `HashList.Dummy` is a shared mutable static in the source. It is modelled as a fresh empty `HashList` on each call.
- The `Manager` back-reference of a project is not a field. Dependencies are looked up in the manager's table, which `Managers.Manager.LoadLists` passes to `Projects.LoadLists`. The two differ when the setter is given a project loaded by another manager: the source then looks its dependencies up in that other manager, the model in this one.
- Managers.Manager.SetActiveProject: of the marker file's write and delete failures, only a missing base directory is modelled. Other I/O failures are left out.
- The enumeration order of `Dictionary` is left open, in `HashLists.HashList.GetStrings` and `Managers.Manager.Enumerate`.
- The caller's `extra` callback is not run. The model records its calls, in order, as a trace of entries.
- `HashLists.HashList.Contains` is a predicate equal to its dictionary test. Its row is `HashLists.HashList.Get`, whose contract ties the indexer to it.
