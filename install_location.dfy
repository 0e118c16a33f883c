/** Resolving a project's install directory from its install-location chains. */
module InstallLocation {
  import opened Wrappers
  import opened Text
  import opened Definitions
  import opened Platform

  /** string.Replace(from, to) for single characters. */
  function Replace(s: string, from: char, to: char): (r: string)
    ensures |r| == |s|
    ensures forall i :: 0 <= i < |s| ==> r[i] == if s[i] == from then to else s[i]
  {
    if s == [] then [] else [if s[0] == from then to else s[0]] + Replace(s[1..], from, to)
  }

  /** A path in which every separator is the native one. */
  ghost predicate IsClean(separator: char, path: string) {
    forall i :: 0 <= i < |path| && (path[i] == '/' || path[i] == '\\') ==> path[i] == separator
  }

  /** Rewrites both '/' and '\' to the native separator, one replacement after the other. */
  function CleanPath(separator: char, value: string): (r: string)
    ensures |r| == |value|
    ensures forall i :: 0 <= i < |value| ==>
              r[i] == if value[i] == '/' || value[i] == '\\' then separator else value[i]
    ensures IsClean(separator, r)
  {
    Replace(Replace(value, '/', separator), '\\', separator)
  }

  /** Cleaning a clean path changes nothing; in particular cleaning is idempotent. */
  lemma CleanPathOfClean(separator: char, path: string)
    requires IsClean(separator, path)
    ensures CleanPath(separator, path) == path
  {
    var r := CleanPath(separator, path);
    forall i | 0 <= i < |path| ensures r[i] == path[i] {
      if path[i] == '/' || path[i] == '\\' {
        assert path[i] == separator;
      }
    }
  }

  /** What one action does to the current path. */
  datatype StepResult = Moved(path: string) | Stopped | Faulted(error: Error)

  /** A registry read, as the registry actions treat it: no key, denied access, a null or empty
      value all stop the chain; a value that is not a string cannot be cast. */
  function RegistryStep(separator: char, answer: RegistryAnswer): StepResult {
    match answer
    case NoKey => Stopped
    case AccessDenied => Stopped
    case Value(None) => Stopped
    case Value(Some(RegOther)) => Faulted(InvalidCast)
    case Value(Some(RegString(text))) => if text == "" then Stopped else Moved(CleanPath(separator, text))
  }

  function StepOf(host: Host, current: string, action: Action): StepResult {
    match action
    case Registry(keyName, valueName, defaultValue) =>
      if !host.isWindows then Stopped
      else RegistryStep(host.separator, ReadRegistry(host, ByName(keyName), valueName, defaultValue))
    case RegistryView(hive, view, subKeyName, valueName, defaultValue) =>
      if !host.isWindows then Stopped
      else RegistryStep(host.separator,
                        ReadRegistry(host, ByView(hive, view, subKeyName), valueName, defaultValue))
    case Path(value) =>
      if value.None? then Faulted(ArgumentNull("value"))
      else
        var next := host.fullPath(CleanPath(host.separator, value.value));
        if next in host.directories then Moved(next) else Stopped
    case Combine(value) =>
      if value.None? then Faulted(ArgumentNull("value"))
      else
        var next := host.combine(current, CleanPath(host.separator, value.value));
        if next in host.directories then Moved(next) else Stopped
    case Parent =>
      var next := host.directoryName(current);
      if next == "" || next !in host.directories then Stopped else Moved(next)
    case Unknown(_) => Faulted(UnhandledActionType)
  }

  /** The outcome of one chain from a start path: Ok(Some(path)) when every action moved,
      Ok(None) when one stopped it, Err when one raised. */
  function RunChain(host: Host, current: string, chain: Chain): Result<Option<string>>
    decreases |chain|
  {
    if chain == [] then Ok(Some(current))
    else match StepOf(host, current, chain[0])
      case Moved(next) => RunChain(host, next, chain[1..])
      case Stopped => Ok(None)
      case Faulted(e) => Err(e)
  }

  /** The outcome of trying the chains in order, each from the same parent path. */
  function Resolve(host: Host, parentPath: string, chains: seq<Chain>): Result<Option<string>>
    decreases |chains|
  {
    if chains == [] then Ok(None)
    else
      var r := RunChain(host, parentPath, chains[0]);
      if r == Ok(None) then Resolve(host, parentPath, chains[1..]) else r
  }

  /** InstallLocation.Get(initialPath, installLocation, out path): Ok(Some(path)) for true,
      Ok(None) for false (path null), Err for an exception. */
  method GetChain(host: Host, initialPath: string, chain: Chain) returns (r: Result<Option<string>>)
    ensures r == RunChain(host, initialPath, chain)
  {
    var currentPath := initialPath;
    for i := 0 to |chain|
      invariant RunChain(host, currentPath, chain[i..]) == RunChain(host, initialPath, chain)
    {
      var action := chain[i];
      assert chain[i..][1..] == chain[i + 1..];
      if action.Registry? || action.RegistryView? {
        if !host.isWindows {
          return Ok(None);
        }
        var key := if action.Registry? then ByName(action.keyName)
                   else ByView(action.hive, action.view, action.subKeyName);
        var answer := ReadRegistry(host, key, action.valueName, action.defaultValue);
        if answer.NoKey? || answer.AccessDenied? {
          return Ok(None);
        }
        if answer.data == Some(RegOther) {
          return Err(InvalidCast);
        }
        var value := if answer.data.Some? then Some(answer.data.value.text) else None;
        if IsNullOrEmpty(value) {
          return Ok(None);
        }
        currentPath := CleanPath(host.separator, value.value);
      } else if action.Path? {
        if action.value.None? {
          return Err(ArgumentNull("value"));
        }
        var newPath := host.fullPath(CleanPath(host.separator, action.value.value));
        if newPath !in host.directories {
          return Ok(None);
        }
        currentPath := newPath;
      } else if action.Combine? {
        if action.value.None? {
          return Err(ArgumentNull("value"));
        }
        var combinedPath := host.combine(currentPath, CleanPath(host.separator, action.value.value));
        if combinedPath !in host.directories {
          return Ok(None);
        }
        currentPath := combinedPath;
      } else if action.Parent? {
        var parentPath := host.directoryName(currentPath);
        if parentPath == "" || parentPath !in host.directories {
          return Ok(None);
        }
        currentPath := parentPath;
      } else {
        return Err(UnhandledActionType);
      }
    }
    r := Ok(Some(currentPath));
  }

  /** InstallLocation.Get(parentPath, installLocations): the path of the first chain that
      resolves, None when none does. */
  method Get(host: Host, parentPath: string, chains: seq<Chain>) returns (r: Result<Option<string>>)
    ensures r == Resolve(host, parentPath, chains)
  {
    for i := 0 to |chains|
      invariant Resolve(host, parentPath, chains[i..]) == Resolve(host, parentPath, chains)
    {
      assert chains[i..][1..] == chains[i + 1..];
      var installPath := GetChain(host, parentPath, chains[i]);
      if installPath != Ok(None) {
        return installPath;
      }
    }
    r := Ok(None);
  }

  // ----- properties of a single chain -----

  /** A chain without actions resolves to its start path. */
  lemma EmptyChainResolvesToStart(host: Host, start: string)
    ensures RunChain(host, start, []) == Ok(Some(start))
  {
  }

  /** Running a + b is running a, then running b from where a ended, provided a resolved;
      whatever stopped or failed a decides the whole chain. */
  lemma {:induction false} RunChainAppend(host: Host, current: string, a: Chain, b: Chain)
    ensures var ra := RunChain(host, current, a);
            RunChain(host, current, a + b) == if ra.Ok? && ra.value.Some? then RunChain(host, ra.value.value, b) else ra
    decreases |a|
  {
    if a == [] {
      assert a + b == b;
    } else {
      assert (a + b)[0] == a[0];
      assert (a + b)[1..] == a[1..] + b;
      match StepOf(host, current, a[0])
      case Moved(next) => RunChainAppend(host, next, a[1..], b);
      case Stopped =>
      case Faulted(_) =>
    }
  }

  /** An action of an unknown type raises exactly when it is reached: when every action before it
      moved on. An earlier action that stops the chain, or raises, hides it. */
  lemma UnknownActionRaisesOnlyWhenReached(host: Host, current: string, before: Chain, kind: string, after: Chain)
    ensures var rb := RunChain(host, current, before);
            RunChain(host, current, before + [Unknown(kind)] + after)
              == if rb.Ok? && rb.value.Some? then Err(UnhandledActionType) else rb
  {
    assert before + [Unknown(kind)] + after == before + ([Unknown(kind)] + after);
    RunChainAppend(host, current, before, [Unknown(kind)] + after);
  }

  /** The key a registry action reads. */
  function KeyOf(action: Action): RegistryKeyId
    requires action.Registry? || action.RegistryView?
  {
    if action.Registry? then ByName(action.keyName) else ByView(action.hive, action.view, action.subKeyName)
  }

  /** A registry action moved to path: the registry holds a non-empty string for it (or the
      action's default stands in), and path is that string cleaned. */
  ghost predicate RegistryMovedTo(host: Host, action: Action, path: string)
    requires action.Registry? || action.RegistryView?
  {
    exists text :: ReadRegistry(host, KeyOf(action), action.valueName, action.defaultValue) == Value(Some(RegString(text)))
                   && text != "" && path == CleanPath(host.separator, text)
  }

  /** Where a resolved chain ends: at the start path when it has no action; otherwise its
      last action decides. A path, combine or parent action only moves to an existing
      directory; a registry action moves to the cleaned registry string, with no existence
      check. No resolved chain contains an action of an unknown type. */
  lemma {:induction false} ResolvedPath(host: Host, start: string, chain: Chain, path: string)
    requires RunChain(host, start, chain) == Ok(Some(path))
    ensures chain == [] ==> path == start
    ensures chain != [] && (chain[|chain| - 1].Path? || chain[|chain| - 1].Combine? || chain[|chain| - 1].Parent?)
            ==> path in host.directories
    ensures chain != [] && (chain[|chain| - 1].Registry? || chain[|chain| - 1].RegistryView?)
            ==> host.isWindows && path != "" && IsClean(host.separator, path)
                && RegistryMovedTo(host, chain[|chain| - 1], path)
    ensures forall i :: 0 <= i < |chain| ==> !chain[i].Unknown?
    decreases |chain|
  {
    if chain != [] {
      match StepOf(host, start, chain[0])
      case Moved(next) =>
        ResolvedPath(host, next, chain[1..], path);
        if |chain| == 1 {
          assert chain[1..] == [];
          var a := chain[0];
          if a.Registry? || a.RegistryView? {
            var answer := ReadRegistry(host, KeyOf(a), a.valueName, a.defaultValue);
            assert RegistryStep(host.separator, answer) == Moved(next);
            var text := answer.data.value.text;
            assert answer == Value(Some(RegString(text))) && text != "" && path == CleanPath(host.separator, text);
          }
        } else {
          assert chain[|chain| - 1] == chain[1..][|chain[1..]| - 1];
        }
        forall i | 0 <= i < |chain| ensures !chain[i].Unknown? {
          if i > 0 {
            assert chain[i] == chain[1..][i - 1];
          }
        }
    }
  }

  // ----- properties of the chain list -----

  /** Trying a + b: the chains of b are tried only when every chain of a stopped, and then
      from the same parent path, as if a had not been there. */
  lemma {:induction false} ResolveAppend(host: Host, parentPath: string, a: seq<Chain>, b: seq<Chain>)
    ensures Resolve(host, parentPath, a + b)
              == if Resolve(host, parentPath, a) == Ok(None) then Resolve(host, parentPath, b)
                 else Resolve(host, parentPath, a)
    decreases |a|
  {
    if a == [] {
      assert a + b == b;
    } else {
      assert (a + b)[0] == a[0];
      assert (a + b)[1..] == a[1..] + b;
      ResolveAppend(host, parentPath, a[1..], b);
    }
  }

  /** The result is that of the first chain that does not stop, each chain being run from
      the parent path; when every chain stops there is no install path. */
  lemma {:induction false} ResolveIsFirstDecisive(host: Host, parentPath: string, chains: seq<Chain>)
    ensures (forall j :: 0 <= j < |chains| ==> RunChain(host, parentPath, chains[j]) == Ok(None))
            ==> Resolve(host, parentPath, chains) == Ok(None)
    ensures forall i :: (0 <= i < |chains| && RunChain(host, parentPath, chains[i]) != Ok(None)
                         && (forall j :: 0 <= j < i ==> RunChain(host, parentPath, chains[j]) == Ok(None)))
                        ==> Resolve(host, parentPath, chains) == RunChain(host, parentPath, chains[i])
    decreases |chains|
  {
    if chains != [] {
      ResolveIsFirstDecisive(host, parentPath, chains[1..]);
      if RunChain(host, parentPath, chains[0]) == Ok(None) {
        forall i | 0 < i < |chains| && RunChain(host, parentPath, chains[i]) != Ok(None)
                   && (forall j :: 0 <= j < i ==> RunChain(host, parentPath, chains[j]) == Ok(None))
          ensures Resolve(host, parentPath, chains) == RunChain(host, parentPath, chains[i])
        {
          assert chains[1..][i - 1] == chains[i];
          forall j | 0 <= j < i - 1 ensures RunChain(host, parentPath, chains[1..][j]) == Ok(None) {
            assert chains[1..][j] == chains[j + 1];
          }
        }
        if forall j :: 0 <= j < |chains| ==> RunChain(host, parentPath, chains[j]) == Ok(None) {
          forall j | 0 <= j < |chains| - 1 ensures RunChain(host, parentPath, chains[1..][j]) == Ok(None) {
            assert chains[1..][j] == chains[j + 1];
          }
        }
      }
    }
  }
}
