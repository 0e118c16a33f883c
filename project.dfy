/** A loaded project: its settings and the aggregation of its hash lists. */
module Projects {
  import opened Wrappers
  import opened Text
  import opened Definitions
  import opened Platform
  import InstallLocation
  import opened HashLists

  /** A project as loaded from its definition file; it does not change afterwards. */
  datatype Project = Project(
    name: string,
    isHidden: bool,
    installPath: Option<string>,
    listsPath: string,
    dependencies: seq<string>,
    settings: map<string, string>)

  /** Looking a project up by name in a loaded table: a null or empty name raises, an unknown
      name gives None. */
  function Find(projects: map<string, Project>, name: Option<string>): (r: Result<Option<Project>>)
    ensures r.Err? <==> IsNullOrEmpty(name)
    ensures r.Err? ==> r.error == ArgumentNull("name")
    ensures r.Ok? ==> (r.value.Some? <==> name.value in projects)
    ensures r.Ok? && r.value.Some? ==> r.value.value == projects[name.value]
  {
    if IsNullOrEmpty(name) then Err(ArgumentNull("name"))
    else if name.value in projects then Ok(Some(projects[name.value]))
    else Ok(None)
  }

  // ----- loading a definition -----

  /** The lists directory: relative to the definition's directory when that directory is known
      and the location is not rooted, otherwise made absolute. A missing location makes
      Path.Combine or Path.GetFullPath raise. */
  function ListsPathOf(host: Host, parentPath: string, location: Option<string>): Result<string> {
    if parentPath != "" && !(location.Some? && host.isPathRooted(location.value)) then
      if location.None? then Err(ArgumentNull("path2")) else Ok(host.combine(parentPath, location.value))
    else
      if location.None? then Err(ArgumentNull("path")) else Ok(host.fullPath(location.value))
  }

  /** The project that Project.Load makes of a definition file. */
  function ProjectFrom(host: Host, file: DefinitionFile): Result<Project> {
    if file.path == "" then Err(ArgumentNull("path"))
    else
      var definition := file.definition;
      var parentPath := host.directoryName(host.fullPath(file.path));
      match ListsPathOf(host, parentPath, definition.listsPath)
      case Err(e) => Err(e)
      case Ok(listsPath) =>
        match InstallLocation.Resolve(host, parentPath, definition.installLocations)
        case Err(e) => Err(e)
        case Ok(installPath) =>
          Ok(Project(definition.name, definition.isHidden, installPath, listsPath,
                     definition.dependencies, definition.settings))
  }

  /** Project.Load: copies the definition's name, flag, dependencies and settings, and resolves
      the install path from the definition file's directory. */
  method Load(host: Host, file: DefinitionFile) returns (r: Result<Project>)
    ensures r == ProjectFrom(host, file)
    ensures file.path == "" ==> r == Err(ArgumentNull("path"))
    ensures file.path != "" && file.definition.listsPath.None? ==> r.Err? && r.error.ArgumentNull?
    ensures r.Ok? ==> && r.value.name == file.definition.name
                      && r.value.isHidden == file.definition.isHidden
                      && r.value.dependencies == file.definition.dependencies
                      && r.value.settings == file.definition.settings
    ensures r.Ok? ==> InstallLocation.Resolve(host, host.directoryName(host.fullPath(file.path)),
                                              file.definition.installLocations) == Ok(r.value.installPath)
  {
    if file.path == "" {
      return Err(ArgumentNull("path"));
    }
    var path := host.fullPath(file.path);
    var definition := file.definition;
    var parentPath := host.directoryName(path);
    var listsPath := ListsPathOf(host, parentPath, definition.listsPath);
    if listsPath.Err? {
      return Err(listsPath.error);
    }
    var installPath := InstallLocation.Get(host, parentPath, definition.installLocations);
    if installPath.Err? {
      return Err(installPath.error);
    }
    r := Ok(Project(definition.name, definition.isHidden, installPath.value, listsPath.value,
                    definition.dependencies, definition.settings));
  }

  // ----- settings -----

  /** GetSetting(name, defaultValue): the stored value, or the default for a missing key; a null
      or empty name raises. */
  function GetSetting(p: Project, name: Option<string>, defaultValue: string): (r: Result<string>)
    ensures r.Err? <==> IsNullOrEmpty(name)
    ensures r.Ok? && name.value in p.settings ==> r.value == p.settings[name.value]
    ensures r.Ok? && name.value !in p.settings ==> r.value == defaultValue
  {
    if IsNullOrEmpty(name) then Err(ArgumentNull("name"))
    else if name.value in p.settings then Ok(p.settings[name.value])
    else Ok(defaultValue)
  }

  /** GetSetting<T>(name, defaultValue): only a null name raises; a missing key, the empty one
      included, gives the default; a stored value goes through the conversion. */
  function GetTypedSetting<T>(p: Project, name: Option<string>, defaultValue: T, convert: string -> Result<T>)
    : (r: Result<T>)
    ensures name.None? ==> r == Err(ArgumentNull("name"))
    ensures name.Some? && name.value !in p.settings ==> r == Ok(defaultValue)
    ensures name.Some? && name.value in p.settings ==> r == convert(p.settings[name.value])
  {
    if name.None? then Err(ArgumentNull("name"))
    else if name.value !in p.settings then Ok(defaultValue)
    else convert(p.settings[name.value])
  }

  // ----- list aggregation -----

  /** One call of the observer: the hash, the source string, the trimmed line. */
  datatype Entry<K> = Entry(hash: K, source: string, line: string)

  /** The arguments of LoadLists: the file-name pattern, the hash function, the optional
      normaliser, and whether an observer is supplied (the model records its calls). */
  datatype Request<K> = Request(
    filter: string,
    hasher: string -> K,
    modifier: Option<string -> string>,
    extra: bool)

  /** The state of an aggregation: the table built so far, the observer calls made so far,
      and the exception that ended it, if any. */
  datatype Scan<K> = Scan(table: map<K, string>, trace: seq<Entry<K>>, failure: Option<Error>)

  function Fresh<K>(): Scan<K> {
    Scan(map[], [], None)
  }

  /** A line that is not filtered out: its trimmed text and the source string made of it. */
  datatype Accepted = Accepted(source: string, line: string)

  /** A line starting with ';' (before trimming) is a comment; a line that is empty once trimmed
      is skipped; any other line is trimmed and, when a modifier is given, normalised. */
  function Admit(modifier: Option<string -> string>, raw: string): Option<Accepted> {
    if StartsWith(raw, ";") then None
    else
      var line := Trim(raw);
      if |line| <= 0 then None
      else Some(Accepted(if modifier.None? then line else modifier.value(line), line))
  }

  /** One line read into a state that has not failed. */
  function Consume<K(==)>(q: Request<K>, s: Scan<K>, raw: string): Scan<K> {
    match Admit(q.modifier, raw)
    case None => s
    case Some(a) =>
      var hash := q.hasher(a.source);
      if hash in s.table && s.table[hash] != a.source then
        s.(failure := Some(HashCollision(a.source, s.table[hash])))
      else
        s.(table := s.table[hash := a.source],
           trace := if q.extra then s.trace + [Entry(hash, a.source, a.line)] else s.trace)
  }

  /** The lines of one file, in order, up to the first failure. */
  function ConsumeLines<K(==)>(q: Request<K>, s: Scan<K>, lines: seq<string>): Scan<K>
    decreases |lines|
  {
    if s.failure.Some? || lines == [] then s else ConsumeLines(q, Consume(q, s, lines[0]), lines[1..])
  }

  /** The files of one directory scan, in enumeration order, up to the first failure. */
  function ConsumeFiles<K(==)>(q: Request<K>, s: Scan<K>, files: seq<ListFile>): Scan<K>
    decreases |files|
  {
    if s.failure.Some? || files == [] then s else ConsumeFiles(q, ConsumeLines(q, s, files[0].lines), files[1..])
  }

  /** One lists directory; a directory that does not exist contributes nothing. */
  function ConsumeDirectory<K(==)>(host: Host, q: Request<K>, s: Scan<K>, directory: string): Scan<K> {
    if directory !in host.directories then s else ConsumeFiles(q, s, GetFiles(host, directory, q.filter))
  }

  /** The declared dependencies, in order: an empty name raises (the lookup rejects it), an
      unknown name is skipped, a known one has its own lists directory read. */
  function ConsumeDependencies<K(==)>(host: Host, registry: map<string, Project>, q: Request<K>,
                                      s: Scan<K>, names: seq<string>): Scan<K>
    decreases |names|
  {
    if s.failure.Some? || names == [] then s
    else if names[0] == "" then s.(failure := Some(ArgumentNull("name")))
    else if names[0] !in registry then ConsumeDependencies(host, registry, q, s, names[1..])
    else ConsumeDependencies(host, registry, q, ConsumeDirectory(host, q, s, registry[names[0]].listsPath), names[1..])
  }

  /** LoadLists from a fresh table: the dependencies' directories, then the project's own. */
  function Aggregate<K(==)>(host: Host, registry: map<string, Project>, p: Project, q: Request<K>): Scan<K> {
    ConsumeDirectory(host, q, ConsumeDependencies(host, registry, q, Fresh(), p.dependencies), p.listsPath)
  }

  /** Reading the line at j is consuming it and then the rest. */
  lemma ConsumeLinesAt<K>(q: Request<K>, s: Scan<K>, lines: seq<string>, j: nat)
    requires s.failure.None? && j < |lines|
    ensures ConsumeLines(q, s, lines[j..]) == ConsumeLines(q, Consume(q, s, lines[j]), lines[j + 1..])
  {
    assert lines[j..][0] == lines[j] && lines[j..][1..] == lines[j + 1..];
  }

  /** The read loop over one list file (the body of the using block in LoadListsFrom). */
  method ReadListFile<K(==)>(q: Request<K>, list: HashList<K>, trace0: seq<Entry<K>>, lines: seq<string>)
    returns (trace: seq<Entry<K>>, failure: Option<Error>)
    modifies list
    ensures Scan(list.lookup, trace, failure) == ConsumeLines(q, Scan(old(list.lookup), trace0, None), lines)
  {
    trace := trace0;
    ghost var target := ConsumeLines(q, Scan(list.lookup, trace, None), lines);
    var j := 0;
    // reading line j; the reader returns null once j reaches the end
    while j < |lines|
      invariant 0 <= j <= |lines|
      invariant ConsumeLines(q, Scan(list.lookup, trace, None), lines[j..]) == target
    {
      ConsumeLinesAt(q, Scan(list.lookup, trace, None), lines, j);
      var line := lines[j];
      j := j + 1;
      if StartsWith(line, ";") {
        continue;
      }
      line := Trim(line);
      if |line| <= 0 {
        continue;
      }
      var source := if q.modifier.None? then line else q.modifier.value(line);
      var hash := q.hasher(source);
      if hash in list.lookup && list.lookup[hash] != source {
        return trace, Some(HashCollision(source, list.lookup[hash]));
      }
      list.lookup := list.lookup[hash := source];
      if q.extra {
        trace := trace + [Entry(hash, source, line)];
      }
    }
    failure := None;
  }

  /** LoadListsFrom: reads every matching file under a directory into the table, recording
      each observer call after the table update; stops at the first collision, leaving the
      table as it was before the offending line. */
  method LoadListsFrom<K(==)>(host: Host, basePath: string, q: Request<K>, list: HashList<K>,
                              trace0: seq<Entry<K>>)
    returns (trace: seq<Entry<K>>, failure: Option<Error>)
    modifies list
    ensures Scan(list.lookup, trace, failure)
            == ConsumeDirectory(host, q, Scan(old(list.lookup), trace0, None), basePath)
  {
    trace := trace0;
    if basePath !in host.directories {
      return trace, None;
    }
    var files := GetFiles(host, basePath, q.filter);
    ghost var target := ConsumeFiles(q, Scan(list.lookup, trace, None), files);
    for i := 0 to |files|
      invariant ConsumeFiles(q, Scan(list.lookup, trace, None), files[i..]) == target
    {
      assert files[i..][0] == files[i] && files[i..][1..] == files[i + 1..];
      trace, failure := ReadListFile(q, list, trace, files[i].lines);
      if failure.Some? {
        return trace, failure;
      }
    }
    failure := None;
  }

  /** Project.LoadLists: a fresh table filled from each known dependency's lists directory, in
      declaration order, then from the project's own; dependencies are not followed further. */
  method LoadLists<K(==)>(host: Host, registry: map<string, Project>, p: Project, q: Request<K>)
    returns (r: Result<HashList<K>>, trace: seq<Entry<K>>)
    ensures var s := Aggregate(host, registry, p, q);
            && trace == s.trace
            && (s.failure.None? ==> r.Ok? && fresh(r.value) && r.value.lookup == s.table)
            && (s.failure.Some? ==> r == Err(s.failure.value))
  {
    var list := new HashList<K>();
    trace := [];
    ghost var target := Aggregate(host, registry, p, q);
    for i := 0 to |p.dependencies|
      invariant fresh(list)
      invariant ConsumeDirectory(host, q, ConsumeDependencies(host, registry, q, Scan(list.lookup, trace, None),
                                                              p.dependencies[i..]), p.listsPath) == target
    {
      assert p.dependencies[i..][0] == p.dependencies[i] && p.dependencies[i..][1..] == p.dependencies[i + 1..];
      var dependency := Find(registry, Some(p.dependencies[i]));
      if dependency.Err? {
        return Err(dependency.error), trace;
      }
      if dependency.value.None? {
        continue;
      }
      var failure;
      trace, failure := LoadListsFrom(host, dependency.value.value.listsPath, q, list, trace);
      if failure.Some? {
        return Err(failure.value), trace;
      }
    }
    var failure;
    trace, failure := LoadListsFrom(host, p.listsPath, q, list, trace);
    if failure.Some? {
      return Err(failure.value), trace;
    }
    r := Ok(list);
  }
}
