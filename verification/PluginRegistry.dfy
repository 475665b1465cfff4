/**
 Plugin lookup and loading (src/qhw_policy.c, src/qhw_estimator.c). A registry is a map from plugin name to
 kind; what a load from a directory finds is an input.
 */
module PluginRegistry {
  import opened CheckedMath

  /** Loading a shared object fails before registration, or yields a descriptor with a name of its own. */
  datatype LoadOutcome<+T> = LoadFails(error: Error) | Loads(name: string, kind: T)

  datatype Plugin<+T> = Plugin(name: string, kind: T)

  /**
   The registry after a search, what was found (possibly nothing, when a loaded descriptor turned out to be
   registered already under another name), and the name this search registered.
   */
  datatype Search<T> = Search(registry: map<string, T>, found: Result<Option<Plugin<T>>>, loaded: Option<string>)

  function Lookup<T>(registry: map<string, T>, name: string): Option<Plugin<T>> {
    if name in registry then Some(Plugin(name, registry[name])) else None
  }

  function TryPaths<T>(
    registry: map<string, T>, name: string, paths: seq<string>, load: (string, string) -> LoadOutcome<T>, last: Error)
    : (s: Search<T>)
    ensures s.found.Failure? ==> s.registry == registry && s.loaded.None?
    ensures s.loaded.None? ==> s.registry == registry
    ensures s.loaded.Some? ==>
              s.loaded.value !in registry
              && s.loaded.value in s.registry && s.registry - {s.loaded.value} == registry
  {
    if |paths| == 0 then Search(registry, Failure(last), None)
    else
      match load(paths[0], name)
      case LoadFails(e) => TryPaths(registry, name, paths[1..], load, e)
      case Loads(own, kind) =>
        if own in registry then Search(registry, Success(Lookup(registry, name)), None)
        else Search(registry[own := kind], Success(Some(Plugin(own, kind))), Some(own))
  }

  /** A registered plugin, else the first that loads from the extra paths, else from the context's own. */
  function FindOrLoad<T>(
    registry: map<string, T>, name: string, extra: seq<string>, own: seq<string>,
    load: (string, string) -> LoadOutcome<T>)
    : (s: Search<T>)
    ensures s.found.Failure? ==> s.registry == registry && s.loaded.None?
    ensures s.loaded.None? ==> s.registry == registry
    ensures s.loaded.Some? ==>
              s.loaded.value !in registry
              && s.loaded.value in s.registry && s.registry - {s.loaded.value} == registry
  {
    if name in registry then Search(registry, Success(Lookup(registry, name)), None)
    else
      var s := TryPaths(registry, name, extra, load, NotFound);
      if s.found.Success? then s else TryPaths(registry, name, own, load, NotFound)
  }

  /** Some of the directories yields a plugin of that own name and kind when asked for the name. */
  ghost predicate LoadsFrom<T>(
    load: (string, string) -> LoadOutcome<T>, paths: seq<string>, name: string, own: string, kind: T)
  {
    exists i :: 0 <= i < |paths| && load(paths[i], name) == Loads(own, kind)
  }

  lemma {:induction false} TryPathsLoads<T>(
    registry: map<string, T>, name: string, paths: seq<string>, load: (string, string) -> LoadOutcome<T>, last: Error)
    ensures var s := TryPaths(registry, name, paths, load, last);
            && (s.loaded.Some? ==> LoadsFrom(load, paths, name, s.loaded.value, s.registry[s.loaded.value]))
            && (s.found.Success? && s.found.value.Some? && name !in registry ==>
                  s.loaded == Some(s.found.value.value.name)
                  && s.registry[s.loaded.value] == s.found.value.value.kind)
  {
    if |paths| != 0 {
      match load(paths[0], name)
      case LoadFails(e) =>
        TryPathsLoads(registry, name, paths[1..], load, e);
        var s := TryPaths(registry, name, paths[1..], load, e);
        if s.loaded.Some? {
          var i :|
            0 <= i < |paths[1..]| && load(paths[1..][i], name) == Loads(s.loaded.value, s.registry[s.loaded.value]);
          assert load(paths[i + 1], name) == Loads(s.loaded.value, s.registry[s.loaded.value]);
        }
      case Loads(own, kind) =>
    }
  }

  /** What a search registers comes from one of the paths, and what it finds was registered before or just now. */
  lemma FindOrLoadFinds<T>(
    registry: map<string, T>, name: string, extra: seq<string>, own: seq<string>,
    load: (string, string) -> LoadOutcome<T>)
    ensures var s := FindOrLoad(registry, name, extra, own, load);
            && (s.loaded.Some? ==> LoadsFrom(load, extra + own, name, s.loaded.value, s.registry[s.loaded.value]))
            && (s.found.Success? && s.found.value.Some? ==>
                  var p := s.found.value.value;
                  && p.name in s.registry && s.registry[p.name] == p.kind
                  && (if name in registry then p.name == name else LoadsFrom(load, extra + own, name, p.name, p.kind)))
  {
    if name !in registry {
      TryPathsLoads(registry, name, extra, load, NotFound);
      TryPathsLoads(registry, name, own, load, NotFound);
      var s, t := TryPaths(registry, name, extra, load, NotFound), TryPaths(registry, name, own, load, NotFound);
      if s.loaded.Some? {
        var i :| 0 <= i < |extra| && load(extra[i], name) == Loads(s.loaded.value, s.registry[s.loaded.value]);
        assert (extra + own)[i] == extra[i];
      }
      if t.loaded.Some? {
        var i :| 0 <= i < |own| && load(own[i], name) == Loads(t.loaded.value, t.registry[t.loaded.value]);
        assert (extra + own)[|extra| + i] == own[i];
      }
    }
  }

  /** The loop over the directories: the first that loads or is registered already ends it, failures go on. */
  method TryPathsInOrder<T(==)>(
    registry: map<string, T>, name: string, paths: seq<string>, load: (string, string) -> LoadOutcome<T>)
    returns (s: Search<T>)
    ensures s == TryPaths(registry, name, paths, load, NotFound)
  {
    var last := NotFound;
    for i := 0 to |paths|
      invariant TryPaths(registry, name, paths[i..], load, last) == TryPaths(registry, name, paths, load, NotFound)
    {
      assert paths[i..][1..] == paths[i + 1..];
      match load(paths[i], name)
      case LoadFails(e) => last := e;
      case Loads(own, kind) =>
        if own in registry {
          return Search(registry, Success(Lookup(registry, name)), None);
        }
        return Search(registry[own := kind], Success(Some(Plugin(own, kind))), Some(own));
    }
    return Search(registry, Failure(last), None);
  }

  method FindOrLoadPlugin<T(==)>(
    registry: map<string, T>, name: string, extra: seq<string>, own: seq<string>,
    load: (string, string) -> LoadOutcome<T>)
    returns (s: Search<T>)
    ensures s == FindOrLoad(registry, name, extra, own, load)
  {
    if name in registry {
      return Search(registry, Success(Lookup(registry, name)), None);
    }
    s := TryPathsInOrder(registry, name, extra, load);
    if s.found.Failure? {
      s := TryPathsInOrder(registry, name, own, load);
    }
  }
}
