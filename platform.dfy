/** The machine the library runs on, as data: which directories exist, what the registry holds,
    which files a directory enumeration returns, and the path functions of the framework, which
    are left uninterpreted. */
module Platform {
  import opened Wrappers
  import opened Definitions

  /** A registry value: a string, or a value of another kind (a number, binary data, ...). */
  datatype RegData = RegString(text: string) | RegOther

  /** How a registry key is addressed: by its full name (Registry.GetValue), or by hive, view
      and subkey name (RegistryKey.OpenBaseKey followed by OpenSubKey). */
  datatype RegistryKeyId =
    | ByName(keyName: string)
    | ByView(hive: string, view: string, subKeyName: string)

  /** An existing registry key: readable with these values, or protected (reading it raises a
      SecurityException). A key absent from the registry map does not exist. */
  datatype RegistryKey = Readable(values: map<string, RegData>) | Denied

  /** A list file: where it is, and the lines a reader returns from it, in order. */
  datatype ListFile = ListFile(path: string, lines: seq<string>)

  /** A project definition file and what deserialising it yields. */
  datatype DefinitionFile = DefinitionFile(path: string, definition: ProjectDefinition)

  datatype Host = Host(
    /** OperatingSystem.IsWindows(). */
    isWindows: bool,
    /** The directories for which Directory.Exists holds. */
    directories: set<string>,
    registry: map<RegistryKeyId, RegistryKey>,
    /** For a directory, every file under it (recursively), in the order the enumeration returns them. */
    listFiles: map<string, seq<ListFile>>,
    /** For a directory, the "*.json" files directly inside it, in enumeration order. */
    definitionFiles: map<string, seq<DefinitionFile>>,
    /** Text files by full path, with their contents. */
    textFiles: map<string, string>,
    /** Whether a file path matches a search pattern. */
    matches: (string, string) -> bool,
    /** Path.DirectorySeparatorChar. */
    separator: char,
    /** Path.GetFullPath. */
    fullPath: string -> string,
    /** Path.Combine. */
    combine: (string, string) -> string,
    /** Path.GetDirectoryName, with "" standing for both a null and an empty result. */
    directoryName: string -> string,
    /** Path.IsPathRooted. */
    isPathRooted: string -> bool)

  /** What a registry read yields: the key does not exist, reading it is denied, or the value
      (None where the framework returns null). */
  datatype RegistryAnswer = NoKey | AccessDenied | Value(data: Option<RegData>)

  /** Reading a named value of a key; a value that the key lacks reads as the caller's default. */
  function ReadRegistry(host: Host, id: RegistryKeyId, valueName: string, defaultValue: Option<string>)
    : (r: RegistryAnswer)
    ensures id !in host.registry ==> r == NoKey
    ensures id in host.registry && host.registry[id].Denied? ==> r == AccessDenied
    ensures id in host.registry && host.registry[id].Readable? && valueName in host.registry[id].values
            ==> r == Value(Some(host.registry[id].values[valueName]))
    ensures id in host.registry && host.registry[id].Readable? && valueName !in host.registry[id].values
            ==> r == Value(if defaultValue.Some? then Some(RegString(defaultValue.value)) else None)
  {
    if id !in host.registry then NoKey
    else match host.registry[id]
      case Denied => AccessDenied
      case Readable(values) =>
        if valueName in values then Value(Some(values[valueName]))
        else Value(if defaultValue.Some? then Some(RegString(defaultValue.value)) else None)
  }

  /** The files of a sequence whose path matches the pattern, in their order. */
  function Matching(files: seq<ListFile>, pattern: string, matches: (string, string) -> bool)
    : (r: seq<ListFile>)
    ensures |r| <= |files|
    ensures forall f :: f in r ==> f in files && matches(pattern, f.path)
    ensures forall f :: f in files && matches(pattern, f.path) ==> f in r
  {
    if files == [] then []
    else (if matches(pattern, files[0].path) then [files[0]] else []) + Matching(files[1..], pattern, matches)
  }

  /** Directory.GetFiles(directory, pattern, SearchOption.AllDirectories). */
  function GetFiles(host: Host, directory: string, pattern: string): seq<ListFile> {
    if directory in host.listFiles then Matching(host.listFiles[directory], pattern, host.matches) else []
  }

  /** Directory.GetFiles(directory, "*.json", SearchOption.TopDirectoryOnly), deserialised. */
  function GetDefinitionFiles(host: Host, directory: string): seq<DefinitionFile> {
    if directory in host.definitionFiles then host.definitionFiles[directory] else []
  }
}
