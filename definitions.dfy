/** The parsed contents of a project definition file: plain data with no behaviour. */
module Definitions {
  import opened Wrappers

  /** One step of an install-location chain. The definition's "type" string selects the case:
      "registry", "registryview", "path", "combine" and "parent" (compared exactly, as a C# switch
      compares); any other type string is Unknown. */
  datatype Action =
    | Registry(keyName: string, valueName: string, defaultValue: Option<string>)
    | RegistryView(hive: string, view: string, subKeyName: string, valueName: string,
                   defaultValue: Option<string>)
    | Path(value: Option<string>)
    | Combine(value: Option<string>)
    | Parent
    | Unknown(kind: string)

  /** One install location: its actions, run in order. */
  type Chain = seq<Action>

  /** A deserialised project definition file. */
  datatype ProjectDefinition = ProjectDefinition(
    name: string,
    listsPath: Option<string>,
    isHidden: bool,
    dependencies: seq<string>,
    settings: map<string, string>,
    installLocations: seq<Chain>)
}
