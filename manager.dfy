/** The project manager: the table of every project defined in a base directory, the active
    project, remembered in the marker file current.txt, and the calls that delegate to it. */
module Managers {
  import opened Wrappers
  import opened Text
  import opened Platform
  import opened Projects
  import InstallLocation
  import Definitions
  import HashLists

  /** The name of the marker file in the base directory that remembers the active project. */
  const MarkerName: string := "current.txt"

  /** Every project is filed under its own name. */
  ghost predicate KeyedByName(projects: map<string, Project>) {
    forall n :: n in projects ==> projects[n].name == n
  }

  /** A project the enumeration of the manager yields: neither hidden nor without an install path. */
  predicate Listed(p: Project) {
    !p.isHidden && p.installPath.Some?
  }

  // ----- the specification of Load -----

  /** Loading the definition files one after the other into a table: the first failure to
      load a file raises, and so does a name that is already in the table. */
  function BuildTable(host: Host, files: seq<DefinitionFile>, table: map<string, Project>)
    : Result<map<string, Project>>
    decreases |files|
  {
    if files == [] then Ok(table)
    else match ProjectFrom(host, files[0])
      case Err(e) => Err(e)
      case Ok(p) => if p.name in table then Err(DuplicateKey) else BuildTable(host, files[1..], table[p.name := p])
  }

  /** The requested project name, trimmed when it is neither null nor empty. */
  function PreferredName(currentProject: Option<string>): Option<string> {
    if IsNullOrEmpty(currentProject) then currentProject else Some(Trim(currentProject.value))
  }

  /** The content of the marker file, when the base directory and the file exist. */
  function MarkerText(host: Host, basePath: string): Option<string> {
    var markerPath := host.combine(basePath, MarkerName);
    if basePath in host.directories && markerPath in host.textFiles then Some(host.textFiles[markerPath]) else None
  }

  /** The active project after loading: the preferred name's project when a name is given,
      otherwise the project the trimmed marker names, when there is a marker. */
  function SelectActive(projects: map<string, Project>, preferred: Option<string>, marker: Option<string>)
    : Result<Option<Project>>
  {
    if !IsNullOrEmpty(preferred) then Find(projects, preferred)
    else if marker.Some? then Find(projects, Some(Trim(marker.value)))
    else Ok(None)
  }

  /** The table Load builds: empty when the base directory does not exist. */
  function TableOf(host: Host, basePath: string): Result<map<string, Project>> {
    if basePath in host.directories then BuildTable(host, GetDefinitionFiles(host, basePath), map[]) else Ok(map[])
  }

  /** The state of a manager: its base directory, its table and its active project. */
  datatype State = State(basePath: string, projects: map<string, Project>, active: Option<Project>)

  /** Manager.Load(basePath, currentProject). */
  function LoadSpec(host: Host, basePath: Option<string>, currentProject: Option<string>): Result<State> {
    if IsNullOrEmpty(basePath) then Err(ArgumentNull("basePath"))
    else
      var base := basePath.value;
      match TableOf(host, base)
      case Err(e) => Err(e)
      case Ok(projects) =>
        match SelectActive(projects, PreferredName(currentProject), MarkerText(host, base))
        case Err(e) => Err(e)
        case Ok(active) => Ok(State(base, projects, active))
  }

  /** The host after the active project is set: the marker holds the project's name, or is
      deleted when no project is given; both raise when the base directory does not exist. */
  function MarkerWritten(host: Host, basePath: string, value: Option<Project>): Result<Host> {
    var markerPath := host.combine(basePath, MarkerName);
    if basePath !in host.directories then Err(DirectoryNotFound(basePath))
    else if value.None? then Ok(host.(textFiles := host.textFiles - {markerPath}))
    else Ok(host.(textFiles := host.textFiles[markerPath := value.value.name]))
  }

  class Manager {
    var basePath: string
    var projects: map<string, Project>
    var active: Option<Project>

    ghost predicate Valid()
      reads this
    {
      KeyedByName(projects)
    }

    function Snapshot(): State
      reads this
    {
      State(basePath, projects, active)
    }

    /** A manager over a base directory, with no project and none active. */
    constructor (basePath: string)
      ensures this.basePath == basePath && projects == map[] && active == None
    {
      this.basePath := basePath;
      projects := map[];
      active := None;
    }

    /** Manager.Load(basePath, currentProject). */
    static method Load(host: Host, basePath: Option<string>, currentProject: Option<string>) returns (r: Result<Manager>)
      ensures r.Ok? ==> fresh(r.value) && r.value.Valid() && LoadSpec(host, basePath, currentProject) == Ok(r.value.Snapshot())
      ensures r.Err? ==> LoadSpec(host, basePath, currentProject) == Err(r.error)
    {
      if IsNullOrEmpty(basePath) {
        return Err(ArgumentNull("basePath"));
      }
      var current := currentProject;
      if !IsNullOrEmpty(current) {
        current := Some(Trim(current.value));
      }
      var base := basePath.value;
      var manager := new Manager(base);
      var basePathExists := base in host.directories;
      if basePathExists {
        var table := ReadTable(host, GetDefinitionFiles(host, base));
        if table.Err? {
          return Err(table.error);
        }
        manager.projects := table.value;
      }
      assert TableOf(host, base) == Ok(manager.projects);
      assert current == PreferredName(currentProject);
      LoadSpecAt(host, base, currentProject, manager.projects);
      if !IsNullOrEmpty(current) {
        var found := manager.TryGetProject(current);
        if found.value.Some? {
          manager.active := found.value;
        }
      } else if basePathExists {
        var markerPath := host.combine(base, MarkerName);
        if markerPath in host.textFiles {
          var found := manager.TryGetProject(Some(Trim(host.textFiles[markerPath])));
          if found.Err? {
            return Err(found.error);
          }
          if found.value.Some? {
            manager.active := found.value;
          }
        }
      }
      r := Ok(manager);
    }

    /** The loop of Load over the definition files: each is loaded and added under its name;
        a file that fails to load, or a name already added, raises. */
    static method ReadTable(host: Host, files: seq<DefinitionFile>) returns (r: Result<map<string, Project>>)
      ensures r == BuildTable(host, files, map[])
      ensures r.Ok? ==> KeyedByName(r.value)
    {
      var projects := map[];
      for i := 0 to |files|
        invariant BuildTable(host, files[i..], projects) == BuildTable(host, files, map[])
        invariant KeyedByName(projects)
      {
        assert files[i..][0] == files[i] && files[i..][1..] == files[i + 1..];
        var project := Projects.Load(host, files[i]);
        if project.Err? {
          return Err(project.error);
        }
        if project.value.name in projects {
          return Err(DuplicateKey);
        }
        projects := projects[project.value.name := project.value];
      }
      r := Ok(projects);
    }

    /** TryGetProject and the indexer: raises for a null or empty name; None (false, or null)
        for a name that is not in the table. */
    function TryGetProject(name: Option<string>): (r: Result<Option<Project>>)
      reads this
      ensures r.Err? <==> IsNullOrEmpty(name)
      ensures r.Err? ==> r.error == ArgumentNull("name")
      ensures r.Ok? ==> (r.value.Some? <==> name.value in projects)
      ensures r.Ok? && r.value.Some? ==> r.value.value == projects[name.value]
    {
      Find(projects, name)
    }

    /** The enumeration: the projects that are neither hidden nor without an install path,
        each once; the order of the dictionary is left open. */
    method Enumerate() returns (visible: seq<Project>)
      requires Valid()
      ensures forall p :: p in visible <==> p in projects.Values && Listed(p)
      ensures forall i, j :: 0 <= i < j < |visible| ==> visible[i] != visible[j]
    {
      var rest := projects.Keys;
      visible := [];
      while rest != {}
        invariant rest <= projects.Keys
        invariant forall p :: p in visible ==> p in projects.Values && Listed(p) && p.name !in rest
        invariant forall n :: n in projects && n !in rest && Listed(projects[n]) ==> projects[n] in visible
        invariant forall i, j :: 0 <= i < j < |visible| ==> visible[i] != visible[j]
        decreases |rest|
      {
        var n :| n in rest;
        if Listed(projects[n]) {
          visible := visible + [projects[n]];
        }
        rest := rest - {n};
      }
    }

    /** The ActiveProject setter: rewrites or deletes the marker file, then records the project. */
    method SetActiveProject(host: Host, value: Option<Project>) returns (r: Result<Host>)
      modifies this
      ensures r == MarkerWritten(host, old(basePath), value)
      ensures basePath == old(basePath) && projects == old(projects)
      ensures active == if r.Ok? then value else old(active)
    {
      var markerPath := host.combine(basePath, MarkerName);
      if basePath !in host.directories {
        return Err(DirectoryNotFound(basePath));
      }
      if value.None? {
        r := Ok(host.(textFiles := host.textFiles - {markerPath}));
      } else {
        r := Ok(host.(textFiles := host.textFiles[markerPath := value.value.name]));
      }
      active := value;
    }

    /** LoadLists of the manager: an empty table when no project is active, otherwise the
        active project's lists, its dependencies looked up in this manager's table. */
    method LoadLists<K(==)>(host: Host, q: Request<K>) returns (r: Result<HashLists.HashList<K>>, trace: seq<Entry<K>>)
      ensures active.None? ==> r.Ok? && fresh(r.value) && r.value.lookup == map[] && trace == []
      ensures active.Some? ==>
                var s := Aggregate(host, projects, active.value, q);
                && trace == s.trace
                && (s.failure.None? ==> r.Ok? && fresh(r.value) && r.value.lookup == s.table)
                && (s.failure.Some? ==> r == Err(s.failure.value))
    {
      if active.None? {
        var dummy := new HashLists.HashList<K>();
        return Ok(dummy), [];
      }
      r, trace := Projects.LoadLists(host, projects, active.value, q);
    }

    /** GetSetting of the manager: a null name raises; with no active project the default is
        returned (even for an empty name, which the project itself rejects). */
    function GetSetting(name: Option<string>, defaultValue: string): (r: Result<string>)
      reads this
      ensures r.Err? <==> name.None? || (active.Some? && name.value == "")
      ensures r.Err? ==> r.error == ArgumentNull("name")
      ensures r.Ok? && active.Some? && name.value in active.value.settings ==> r.value == active.value.settings[name.value]
      ensures r.Ok? && (active.None? || name.value !in active.value.settings) ==> r.value == defaultValue
    {
      if name.None? then Err(ArgumentNull("name"))
      else if active.None? then Ok(defaultValue)
      else Projects.GetSetting(active.value, name, defaultValue)
    }

    /** The typed GetSetting of the manager: a null name raises; with no active project, or a
        missing setting, the default is returned; otherwise the setting's text is converted. */
    function GetTypedSetting<T>(name: Option<string>, defaultValue: T, convert: string -> Result<T>): (r: Result<T>)
      reads this
      ensures name.None? ==> r == Err(ArgumentNull("name"))
      ensures name.Some? && (active.None? || name.value !in active.value.settings) ==> r == Ok(defaultValue)
      ensures name.Some? && active.Some? && name.value in active.value.settings
              ==> r == convert(active.value.settings[name.value])
    {
      if name.None? then Err(ArgumentNull("name"))
      else if active.None? then Ok(defaultValue)
      else Projects.GetTypedSetting(active.value, name, defaultValue, convert)
    }
  }

  // ----- properties of loading -----

  /** Loading succeeds exactly when every definition file loads and no name repeats (or is
      already in the table). */
  lemma {:induction false} BuildTableSucceeds(host: Host, files: seq<DefinitionFile>, table: map<string, Project>)
    ensures BuildTable(host, files, table).Ok? <==>
              && (forall i :: 0 <= i < |files| ==> ProjectFrom(host, files[i]).Ok? && files[i].definition.name !in table)
              && (forall i, j :: 0 <= i < j < |files| ==> files[i].definition.name != files[j].definition.name)
    decreases |files|
  {
    if files != [] {
      var r0 := ProjectFrom(host, files[0]);
      if r0.Ok? && r0.value.name !in table {
        var p := r0.value;
        var rest := files[1..];
        BuildTableSucceeds(host, rest, table[p.name := p]);
        assert p.name == files[0].definition.name;
        forall i | 0 <= i < |rest| ensures rest[i] == files[i + 1] { }
      }
    }
  }

  /** A table, extended by loading, stays filed by name and keeps what it held. */
  lemma {:induction false} BuildTableKeeps(host: Host, files: seq<DefinitionFile>, table: map<string, Project>)
    requires KeyedByName(table)
    ensures var r := BuildTable(host, files, table);
            r.Ok? ==> KeyedByName(r.value) && (forall n :: n in table ==> n in r.value && r.value[n] == table[n])
    decreases |files|
  {
    var r := BuildTable(host, files, table);
    if files != [] && r.Ok? {
      var p := ProjectFrom(host, files[0]).value;
      BuildTableKeeps(host, files[1..], table[p.name := p]);
    }
  }

  /** A table that loads holds every definition file's project under its name. */
  lemma {:induction false} BuildTableHolds(host: Host, files: seq<DefinitionFile>, table: map<string, Project>)
    requires KeyedByName(table)
    ensures var r := BuildTable(host, files, table);
            r.Ok? ==> forall i :: 0 <= i < |files| ==>
                        files[i].definition.name in r.value && Ok(r.value[files[i].definition.name]) == ProjectFrom(host, files[i])
    decreases |files|
  {
    var r := BuildTable(host, files, table);
    if files != [] && r.Ok? {
      var p := ProjectFrom(host, files[0]).value;
      var rest := files[1..];
      BuildTableHolds(host, rest, table[p.name := p]);
      BuildTableKeeps(host, rest, table[p.name := p]);
      forall i | 0 < i < |files|
        ensures files[i].definition.name in r.value && Ok(r.value[files[i].definition.name]) == ProjectFrom(host, files[i])
      {
        assert files[i] == rest[i - 1];
      }
    }
  }

  /** A table that loads holds nothing but what it held and the definition files' projects. */
  lemma {:induction false} BuildTableOnly(host: Host, files: seq<DefinitionFile>, table: map<string, Project>)
    ensures var r := BuildTable(host, files, table);
            r.Ok? ==> forall n :: n in r.value ==> n in table || exists i :: 0 <= i < |files| && files[i].definition.name == n
    decreases |files|
  {
    var r := BuildTable(host, files, table);
    if files != [] && r.Ok? {
      var p := ProjectFrom(host, files[0]).value;
      var rest := files[1..];
      var table' := table[p.name := p];
      BuildTableOnly(host, rest, table');
      forall n | n in r.value ensures n in table || exists i :: 0 <= i < |files| && files[i].definition.name == n {
        if n !in table' {
          var i :| 0 <= i < |rest| && rest[i].definition.name == n;
          assert files[i + 1] == rest[i];
        } else if n !in table {
          assert files[0].definition.name == n;
        }
      }
    }
  }

  /** The table Load builds holds one project per definition file, filed under its name, and
      nothing else. */
  lemma TableContents(host: Host, basePath: string)
    ensures var r := TableOf(host, basePath);
            var files := GetDefinitionFiles(host, basePath);
            r.Ok? ==>
              && KeyedByName(r.value)
              && (basePath !in host.directories ==> r.value == map[])
              && (basePath in host.directories ==>
                    && (forall i :: 0 <= i < |files| ==> files[i].definition.name in r.value
                                                         && Ok(r.value[files[i].definition.name]) == ProjectFrom(host, files[i]))
                    && (forall n :: n in r.value ==> exists i :: 0 <= i < |files| && files[i].definition.name == n))
  {
    var files := GetDefinitionFiles(host, basePath);
    BuildTableKeeps(host, files, map[]);
    BuildTableHolds(host, files, map[]);
    BuildTableOnly(host, files, map[]);
  }

  /** A loaded manager's active project, when there is one, is the table's project of that name. */
  lemma ActiveIsLoaded(host: Host, basePath: Option<string>, currentProject: Option<string>)
    ensures var r := LoadSpec(host, basePath, currentProject);
            r.Ok? && r.value.active.Some? ==>
              var p := r.value.active.value;
              p.name in r.value.projects && r.value.projects[p.name] == p
  {
    var r := LoadSpec(host, basePath, currentProject);
    if r.Ok? && r.value.active.Some? {
      BuildTableKeeps(host, GetDefinitionFiles(host, basePath.value), map[]);
    }
  }

  /** A base directory that does not exist gives an empty manager with no active project. */
  lemma MissingBaseDirectory(host: Host, basePath: string, currentProject: Option<string>)
    requires basePath != "" && basePath !in host.directories
    ensures LoadSpec(host, Some(basePath), currentProject) == Ok(State(basePath, map[], None))
  {
  }

  /** A requested name that is not blank decides the active project, whatever the marker says:
      its project when there is one, none otherwise. */
  lemma PreferredNameWins(host: Host, basePath: string, currentProject: string, projects: map<string, Project>)
    requires !AllWhiteSpace(currentProject)
    requires basePath != ""
    requires LoadSpec(host, Some(basePath), Some(currentProject)).Ok?
    ensures var s := LoadSpec(host, Some(basePath), Some(currentProject)).value;
            var name := Trim(currentProject);
            s.active == if name in s.projects then Some(s.projects[name]) else None
  {
    assert currentProject != "";
    TrimSpec(currentProject);
  }

  /** A marker file that is blank once trimmed makes Load raise when no name is requested:
      the trimmed text is looked up, and an empty name is rejected. */
  lemma BlankMarkerRaises(host: Host, basePath: string, currentProject: Option<string>)
    requires basePath != "" && IsNullOrEmpty(PreferredName(currentProject))
    requires MarkerText(host, basePath).Some? && AllWhiteSpace(MarkerText(host, basePath).value)
    requires BuildTable(host, GetDefinitionFiles(host, basePath), map[]).Ok?
    ensures LoadSpec(host, Some(basePath), currentProject) == Err(ArgumentNull("name"))
  {
    TrimSpec(MarkerText(host, basePath).value);
  }

  /** A requested name that is null, empty or all white space counts as no request: the
      marker decides, as if no name had been given. */
  lemma BlankRequestIsNoRequest(host: Host, basePath: Option<string>, currentProject: string)
    requires AllWhiteSpace(currentProject)
    ensures LoadSpec(host, basePath, Some(currentProject)) == LoadSpec(host, basePath, None)
  {
    if currentProject != "" {
      TrimSpec(currentProject);
    }
  }

  /** With no name requested, the marker decides: no marker, no active project; a marker that
      is not blank selects the project its trimmed text names, or none. */
  lemma MarkerDecides(host: Host, basePath: string, currentProject: Option<string>)
    requires basePath != "" && IsNullOrEmpty(PreferredName(currentProject))
    requires LoadSpec(host, Some(basePath), currentProject).Ok?
    ensures var s := LoadSpec(host, Some(basePath), currentProject).value;
            var marker := MarkerText(host, basePath);
            && (marker.None? ==> s.active == None)
            && (marker.Some? && !AllWhiteSpace(marker.value) ==>
                  var name := Trim(marker.value);
                  s.active == if name in s.projects then Some(s.projects[name]) else None)
  {
    var marker := MarkerText(host, basePath);
    if marker.Some? {
      TrimSpec(marker.value);
    }
  }

  // ----- the marker file does not take part in loading the table -----

  lemma {:induction false} RunChainIgnoresTextFiles(host: Host, t: map<string, string>, current: string,
                                                    chain: Definitions.Chain)
    ensures InstallLocation.RunChain(host.(textFiles := t), current, chain)
            == InstallLocation.RunChain(host, current, chain)
    decreases |chain|
  {
    if chain != [] {
      var step := InstallLocation.StepOf(host, current, chain[0]);
      assert InstallLocation.StepOf(host.(textFiles := t), current, chain[0]) == step;
      if step.Moved? {
        RunChainIgnoresTextFiles(host, t, step.path, chain[1..]);
      }
    }
  }

  lemma {:induction false} ResolveIgnoresTextFiles(host: Host, t: map<string, string>, parentPath: string,
                                                   chains: seq<Definitions.Chain>)
    ensures InstallLocation.Resolve(host.(textFiles := t), parentPath, chains)
            == InstallLocation.Resolve(host, parentPath, chains)
    decreases |chains|
  {
    if chains != [] {
      RunChainIgnoresTextFiles(host, t, parentPath, chains[0]);
      ResolveIgnoresTextFiles(host, t, parentPath, chains[1..]);
    }
  }

  lemma {:induction false} BuildTableIgnoresTextFiles(host: Host, t: map<string, string>,
                                                      files: seq<DefinitionFile>, table: map<string, Project>)
    ensures BuildTable(host.(textFiles := t), files, table) == BuildTable(host, files, table)
    decreases |files|
  {
    if files != [] {
      var f := files[0];
      ResolveIgnoresTextFiles(host, t, host.directoryName(host.fullPath(f.path)), f.definition.installLocations);
      assert ProjectFrom(host.(textFiles := t), f) == ProjectFrom(host, f);
      if ProjectFrom(host, f).Ok? {
        BuildTableIgnoresTextFiles(host, t, files[1..], table[ProjectFrom(host, f).value.name := ProjectFrom(host, f).value]);
      }
    }
  }

  /** Setting a project active and loading again, with no name requested, makes it active
      again: the marker holds its name, and being trimmed, non-empty and in the table, the
      name finds it. */
  lemma ActiveProjectRoundTrip(host: Host, basePath: string, p: Project)
    requires basePath != "" && basePath in host.directories
    requires TableOf(host, basePath).Ok?
    requires var projects := TableOf(host, basePath).value;
             p.name in projects && projects[p.name] == p
    requires p.name != "" && Trim(p.name) == p.name
    ensures var written := MarkerWritten(host, basePath, Some(p));
            && written.Ok?
            && LoadSpec(written.value, Some(basePath), None)
               == Ok(State(basePath, TableOf(host, basePath).value, Some(p)))
  {
    var markerPath := host.combine(basePath, MarkerName);
    var written := host.(textFiles := host.textFiles[markerPath := p.name]);
    var projects := TableOf(host, basePath).value;
    assert MarkerWritten(host, basePath, Some(p)) == Ok(written);
    SameTable(host, written, basePath);
    MarkerHolds(host, basePath, p.name);
    SelectMarked(projects, p);
    LoadedWithMarker(written, basePath, projects, Some(p));
  }

  /** Loading with no name requested, once the table and the marker's choice are known. */
  lemma LoadedWithMarker(host: Host, basePath: string, projects: map<string, Project>, active: Option<Project>)
    requires basePath != "" && TableOf(host, basePath) == Ok(projects)
    requires SelectActive(projects, None, MarkerText(host, basePath)) == Ok(active)
    ensures LoadSpec(host, Some(basePath), None) == Ok(State(basePath, projects, active))
  {
    LoadSpecAt(host, basePath, None, projects);
  }

  /** LoadSpec of a non-empty base directory whose table loads. */
  lemma LoadSpecAt(host: Host, basePath: string, currentProject: Option<string>, projects: map<string, Project>)
    requires basePath != "" && TableOf(host, basePath) == Ok(projects)
    ensures LoadSpec(host, Some(basePath), currentProject)
            == match SelectActive(projects, PreferredName(currentProject), MarkerText(host, basePath))
               case Err(e) => Err(e)
               case Ok(active) => Ok(State(basePath, projects, active))
  {
  }

  lemma MarkerHolds(host: Host, basePath: string, name: string)
    requires basePath in host.directories
    ensures var markerPath := host.combine(basePath, MarkerName);
            MarkerText(host.(textFiles := host.textFiles[markerPath := name]), basePath) == Some(name)
  {
  }

  lemma SelectMarked(projects: map<string, Project>, p: Project)
    requires p.name in projects && projects[p.name] == p
    requires p.name != "" && Trim(p.name) == p.name
    ensures SelectActive(projects, None, Some(p.name)) == Ok(Some(p))
  {
  }

  /** Rewriting the marker leaves the table that loading builds as it was. */
  lemma SameTable(host: Host, written: Host, basePath: string)
    requires written == host.(textFiles := written.textFiles)
    ensures TableOf(written, basePath) == TableOf(host, basePath)
  {
    BuildTableIgnoresTextFiles(host, written.textFiles, GetDefinitionFiles(host, basePath), map[]);
  }

  /** Clearing the active project deletes the marker: loading again, with no name requested,
      finds no active project. */
  lemma ClearedActiveProjectStaysCleared(host: Host, basePath: string)
    requires basePath != "" && basePath in host.directories
    requires TableOf(host, basePath).Ok?
    ensures var written := MarkerWritten(host, basePath, None);
            && written.Ok?
            && LoadSpec(written.value, Some(basePath), None)
               == Ok(State(basePath, TableOf(host, basePath).value, None))
  {
    var written := MarkerWritten(host, basePath, None).value;
    SameTable(host, written, basePath);
    assert MarkerText(written, basePath) == None;
    LoadedWithMarker(written, basePath, TableOf(host, basePath).value, None);
  }

  /** The enumeration leaves out hidden projects and those without an install path, but
      every project stays reachable by its name. */
  lemma UnlistedStillReachable(projects: map<string, Project>, p: Project)
    requires KeyedByName(projects) && p in projects.Values && p.name != ""
    ensures Find(projects, Some(p.name)) == Ok(Some(p))
  {
  }
}
