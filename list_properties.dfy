/** What list aggregation guarantees: every stored string hashes to its key, a collision is
    raised exactly when two kept lines give different strings with one hash, the observer sees
    every kept line, and directories are read in dependency order. */
module ListProperties {
  import opened Wrappers
  import opened Text
  import opened Platform
  import opened Projects

  // ----- the table invariant -----

  /** Every stored string hashes to its key. */
  ghost predicate WellHashed<K>(hasher: string -> K, table: map<K, string>) {
    forall k :: k in table ==> hasher(table[k]) == k
  }

  /** The exceptions aggregation raises: the lookup of an empty dependency name, or a collision
      between two different strings with the same hash. */
  ghost predicate Legitimate<K>(hasher: string -> K, e: Error) {
    || e == ArgumentNull("name")
    || (e.HashCollision? && e.source != e.otherSource && hasher(e.source) == hasher(e.otherSource))
  }

  ghost predicate Sound<K>(hasher: string -> K, s: Scan<K>) {
    WellHashed(hasher, s.table) && (s.failure.Some? ==> Legitimate(hasher, s.failure.value))
  }

  lemma ConsumeSound<K>(q: Request<K>, s: Scan<K>, raw: string)
    requires s.failure.None? && Sound(q.hasher, s)
    ensures Sound(q.hasher, Consume(q, s, raw))
  {
  }

  lemma {:induction false} ConsumeLinesSound<K>(q: Request<K>, s: Scan<K>, lines: seq<string>)
    requires Sound(q.hasher, s)
    ensures Sound(q.hasher, ConsumeLines(q, s, lines))
    decreases |lines|
  {
    if s.failure.None? && lines != [] {
      ConsumeSound(q, s, lines[0]);
      ConsumeLinesSound(q, Consume(q, s, lines[0]), lines[1..]);
    }
  }

  lemma {:induction false} ConsumeFilesSound<K>(q: Request<K>, s: Scan<K>, files: seq<ListFile>)
    requires Sound(q.hasher, s)
    ensures Sound(q.hasher, ConsumeFiles(q, s, files))
    decreases |files|
  {
    if s.failure.None? && files != [] {
      ConsumeLinesSound(q, s, files[0].lines);
      ConsumeFilesSound(q, ConsumeLines(q, s, files[0].lines), files[1..]);
    }
  }

  lemma {:induction false} ConsumeDependenciesSound<K>(host: Host, registry: map<string, Project>, q: Request<K>,
                                                       s: Scan<K>, names: seq<string>)
    requires Sound(q.hasher, s)
    ensures Sound(q.hasher, ConsumeDependencies(host, registry, q, s, names))
    decreases |names|
  {
    if s.failure.None? && names != [] && names[0] != "" {
      var s1 := if names[0] in registry then ConsumeDirectory(host, q, s, registry[names[0]].listsPath) else s;
      if names[0] in registry && registry[names[0]].listsPath in host.directories {
        ConsumeFilesSound(q, s, GetFiles(host, registry[names[0]].listsPath, q.filter));
      }
      ConsumeDependenciesSound(host, registry, q, s1, names[1..]);
    }
  }

  /** From the fresh table, whatever LoadLists returns or raises: every stored string hashes
      to its key, so no two keys hold the same string, and a collision names two different
      strings with one hash. */
  lemma AggregateSound<K>(host: Host, registry: map<string, Project>, p: Project, q: Request<K>)
    ensures var s := Aggregate(host, registry, p, q);
            && (forall k :: k in s.table ==> q.hasher(s.table[k]) == k)
            && (forall k1, k2 :: k1 in s.table && k2 in s.table && k1 != k2 ==> s.table[k1] != s.table[k2])
            && (s.failure.Some? ==> Legitimate(q.hasher, s.failure.value))
  {
    var s := ConsumeDependencies(host, registry, q, Fresh(), p.dependencies);
    ConsumeDependenciesSound(host, registry, q, Fresh(), p.dependencies);
    if p.listsPath in host.directories {
      ConsumeFilesSound(q, s, GetFiles(host, p.listsPath, q.filter));
    }
  }

  // ----- the order in which lines are read -----

  /** The lines of a sequence of files, one file after the other. */
  function FileLines(files: seq<ListFile>): seq<string> {
    if files == [] then [] else files[0].lines + FileLines(files[1..])
  }

  /** The lines read from one lists directory: none when it does not exist. */
  function DirectoryLines(host: Host, filter: string, directory: string): seq<string> {
    if directory !in host.directories then [] else FileLines(GetFiles(host, directory, filter))
  }

  /** The lines read from a sequence of directories, in order. */
  function LinesOf(host: Host, filter: string, directories: seq<string>): seq<string> {
    if directories == [] then []
    else DirectoryLines(host, filter, directories[0]) + LinesOf(host, filter, directories[1..])
  }

  /** The lists directories of the dependencies that name a loaded project, in declaration order. */
  function DependencyDirectories(registry: map<string, Project>, names: seq<string>): seq<string> {
    if names == [] then []
    else (if names[0] in registry then [registry[names[0]].listsPath] else [])
         + DependencyDirectories(registry, names[1..])
  }

  /** The directories LoadLists reads: each known dependency's own directory, in declaration
      order, then the project's directory, last. */
  function ScanOrder(registry: map<string, Project>, p: Project): seq<string> {
    DependencyDirectories(registry, p.dependencies) + [p.listsPath]
  }

  lemma {:induction false} ConsumeLinesAppend<K>(q: Request<K>, s: Scan<K>, a: seq<string>, b: seq<string>)
    ensures ConsumeLines(q, s, a + b) == ConsumeLines(q, ConsumeLines(q, s, a), b)
    decreases |a|
  {
    if a == [] {
      assert a + b == b;
    } else if s.failure.Some? {
      assert ConsumeLines(q, s, b) == s;
    } else {
      assert (a + b)[0] == a[0] && (a + b)[1..] == a[1..] + b;
      ConsumeLinesAppend(q, Consume(q, s, a[0]), a[1..], b);
    }
  }

  lemma {:induction false} ConsumeFilesFlat<K>(q: Request<K>, s: Scan<K>, files: seq<ListFile>)
    ensures ConsumeFiles(q, s, files) == ConsumeLines(q, s, FileLines(files))
    decreases |files|
  {
    if files != [] {
      ConsumeLinesAppend(q, s, files[0].lines, FileLines(files[1..]));
      if s.failure.None? {
        ConsumeFilesFlat(q, ConsumeLines(q, s, files[0].lines), files[1..]);
      }
    }
  }

  lemma ConsumeDirectoryFlat<K>(host: Host, q: Request<K>, s: Scan<K>, directory: string)
    ensures ConsumeDirectory(host, q, s, directory) == ConsumeLines(q, s, DirectoryLines(host, q.filter, directory))
  {
    if directory in host.directories {
      ConsumeFilesFlat(q, s, GetFiles(host, directory, q.filter));
    }
  }

  lemma {:induction false} ConsumeDependenciesFlat<K>(host: Host, registry: map<string, Project>, q: Request<K>,
                                                      s: Scan<K>, names: seq<string>)
    requires forall i :: 0 <= i < |names| ==> names[i] != ""
    ensures ConsumeDependencies(host, registry, q, s, names)
            == ConsumeLines(q, s, LinesOf(host, q.filter, DependencyDirectories(registry, names)))
    decreases |names|
  {
    if names == [] {
    } else if s.failure.Some? {
    } else {
      var dirs := if names[0] in registry then [registry[names[0]].listsPath] else [];
      var restDirs := DependencyDirectories(registry, names[1..]);
      LinesOfAppend(host, q.filter, dirs, restDirs);
      ConsumeLinesAppend(q, s, LinesOf(host, q.filter, dirs), LinesOf(host, q.filter, restDirs));
      if names[0] in registry {
        ConsumeDirectoryFlat(host, q, s, registry[names[0]].listsPath);
        assert dirs[1..] == [];
        assert LinesOf(host, q.filter, dirs) == DirectoryLines(host, q.filter, registry[names[0]].listsPath);
      }
      var s1 := ConsumeLines(q, s, LinesOf(host, q.filter, dirs));
      ConsumeDependenciesFlat(host, registry, q, s1, names[1..]);
    }
  }

  lemma {:induction false} LinesOfAppend(host: Host, filter: string, a: seq<string>, b: seq<string>)
    ensures LinesOf(host, filter, a + b) == LinesOf(host, filter, a) + LinesOf(host, filter, b)
    decreases |a|
  {
    if a == [] {
      assert a + b == b;
    } else {
      assert (a + b)[0] == a[0] && (a + b)[1..] == a[1..] + b;
      LinesOfAppend(host, filter, a[1..], b);
    }
  }

  /** When no dependency name is empty, LoadLists reads exactly the lines of the directories
      of ScanOrder, in that order, into a fresh table. */
  lemma AggregateFollowsScanOrder<K>(host: Host, registry: map<string, Project>, p: Project, q: Request<K>)
    requires forall i :: 0 <= i < |p.dependencies| ==> p.dependencies[i] != ""
    ensures Aggregate(host, registry, p, q) == ConsumeLines(q, Fresh(), LinesOf(host, q.filter, ScanOrder(registry, p)))
  {
    var deps := DependencyDirectories(registry, p.dependencies);
    ConsumeDependenciesFlat(host, registry, q, Fresh(), p.dependencies);
    var s := ConsumeDependencies(host, registry, q, Fresh(), p.dependencies);
    ConsumeDirectoryFlat(host, q, s, p.listsPath);
    LinesOfAppend(host, q.filter, deps, [p.listsPath]);
    assert [p.listsPath][1..] == [];
    assert LinesOf(host, q.filter, [p.listsPath]) == DirectoryLines(host, q.filter, p.listsPath);
    ConsumeLinesAppend(q, Fresh(), LinesOf(host, q.filter, deps), DirectoryLines(host, q.filter, p.listsPath));
  }

  /** A lists directory that does not exist contributes nothing. */
  lemma MissingDirectoryContributesNothing<K>(host: Host, q: Request<K>, s: Scan<K>, directory: string)
    requires directory !in host.directories
    ensures ConsumeDirectory(host, q, s, directory) == s
  {
  }

  lemma {:induction false} ConsumeDependenciesAppend<K>(host: Host, registry: map<string, Project>, q: Request<K>,
                                                        s: Scan<K>, a: seq<string>, b: seq<string>)
    ensures ConsumeDependencies(host, registry, q, s, a + b)
            == ConsumeDependencies(host, registry, q, ConsumeDependencies(host, registry, q, s, a), b)
    decreases |a|
  {
    if a == [] {
      assert a + b == b;
    } else if s.failure.Some? {
      assert ConsumeDependencies(host, registry, q, s, b) == s;
    } else {
      assert (a + b)[0] == a[0] && (a + b)[1..] == a[1..] + b;
      if a[0] == "" {
        var f := s.(failure := Some(ArgumentNull("name")));
        assert ConsumeDependencies(host, registry, q, f, b) == f;
      } else {
        var s1 := if a[0] in registry then ConsumeDirectory(host, q, s, registry[a[0]].listsPath) else s;
        ConsumeDependenciesAppend(host, registry, q, s1, a[1..], b);
      }
    }
  }

  /** The first empty dependency name raises, once the dependencies before it have been read;
      the project's own directory is then not read. */
  lemma EmptyDependencyNameRaises<K>(host: Host, registry: map<string, Project>, p: Project, q: Request<K>, i: nat)
    requires i < |p.dependencies| && p.dependencies[i] == ""
    ensures var s := ConsumeDependencies(host, registry, q, Fresh(), p.dependencies[..i]);
            Aggregate(host, registry, p, q) == if s.failure.Some? then s else s.(failure := Some(ArgumentNull("name")))
  {
    var deps := p.dependencies;
    assert deps == deps[..i] + deps[i..];
    ConsumeDependenciesAppend(host, registry, q, Fresh(), deps[..i], deps[i..]);
    var s := ConsumeDependencies(host, registry, q, Fresh(), deps[..i]);
    assert deps[i..][0] == "";
    var t := ConsumeDependencies(host, registry, q, s, deps[i..]);
    assert t.failure.Some?;
    assert ConsumeFiles(q, t, GetFiles(host, p.listsPath, q.filter)) == t;
  }

  /** Only the lists directories of the loaded projects matter, not their own dependencies:
      aggregation is one level deep. */
  lemma {:induction false} ConsumeDependenciesOneLevel<K>(host: Host, registry: map<string, Project>,
                                                          other: map<string, Project>, q: Request<K>,
                                                          s: Scan<K>, names: seq<string>)
    requires forall n :: n in registry <==> n in other
    requires forall n :: n in registry ==> registry[n].listsPath == other[n].listsPath
    ensures ConsumeDependencies(host, registry, q, s, names) == ConsumeDependencies(host, other, q, s, names)
    decreases |names|
  {
    if s.failure.None? && names != [] && names[0] != "" {
      var s1 := if names[0] in registry then ConsumeDirectory(host, q, s, registry[names[0]].listsPath) else s;
      ConsumeDependenciesOneLevel(host, registry, other, q, s1, names[1..]);
    }
  }

  lemma AggregateIgnoresTransitiveDependencies<K>(host: Host, registry: map<string, Project>,
                                                  other: map<string, Project>, p: Project, q: Request<K>)
    requires forall n :: n in registry <==> n in other
    requires forall n :: n in registry ==> registry[n].listsPath == other[n].listsPath
    ensures Aggregate(host, registry, p, q) == Aggregate(host, other, p, q)
  {
    ConsumeDependenciesOneLevel(host, registry, other, q, Fresh(), p.dependencies);
  }

  // ----- when a collision is raised -----

  /** Two kept lines, the earlier and the later, whose source strings differ but hash alike. */
  ghost predicate Collide<K>(q: Request<K>, earlier: string, later: string) {
    var a := Admit(q.modifier, earlier);
    var b := Admit(q.modifier, later);
    a.Some? && b.Some? && q.hasher(a.value.source) == q.hasher(b.value.source) && a.value.source != b.value.source
  }

  /** A kept line whose hash the table already holds for a different string. */
  ghost predicate ClashesWithTable<K>(q: Request<K>, table: map<K, string>, raw: string) {
    var b := Admit(q.modifier, raw);
    b.Some? && q.hasher(b.value.source) in table && table[q.hasher(b.value.source)] != b.value.source
  }

  ghost predicate ClashAt<K>(q: Request<K>, table: map<K, string>, lines: seq<string>, j: int)
    requires 0 <= j < |lines|
  {
    ClashesWithTable(q, table, lines[j]) || exists i :: 0 <= i < j && Collide(q, lines[i], lines[j])
  }

  ghost predicate Clashes<K>(q: Request<K>, table: map<K, string>, lines: seq<string>) {
    exists j :: 0 <= j < |lines| && ClashAt(q, table, lines, j)
  }

  /** Some two lines, in reading order, collide. */
  ghost predicate HasCollision<K>(q: Request<K>, lines: seq<string>) {
    exists i, j :: 0 <= i < j < |lines| && Collide(q, lines[i], lines[j])
  }

  /** After a first line that does not clash with the table, a later line clashes with the
      new table exactly when it clashed with the old one or collides with that first line. */
  lemma TableClashStep<K>(q: Request<K>, s: Scan<K>, first: string, raw: string)
    requires s.failure.None? && !ClashesWithTable(q, s.table, first)
    ensures ClashesWithTable(q, Consume(q, s, first).table, raw)
            <==> (ClashesWithTable(q, s.table, raw) || Collide(q, first, raw))
  {
  }

  lemma ClashAtShift<K>(q: Request<K>, s: Scan<K>, lines: seq<string>, j: int)
    requires s.failure.None? && 1 <= j < |lines| && !ClashesWithTable(q, s.table, lines[0])
    ensures ClashAt(q, Consume(q, s, lines[0]).table, lines[1..], j - 1) <==> ClashAt(q, s.table, lines, j)
  {
    var rest := lines[1..];
    var t1 := Consume(q, s, lines[0]).table;
    assert rest[j - 1] == lines[j];
    TableClashStep(q, s, lines[0], lines[j]);
    if exists i :: 0 <= i < j - 1 && Collide(q, rest[i], rest[j - 1]) {
      var i :| 0 <= i < j - 1 && Collide(q, rest[i], rest[j - 1]);
      assert rest[i] == lines[i + 1];
    }
    if exists i :: 0 <= i < j && Collide(q, lines[i], lines[j]) {
      var i :| 0 <= i < j && Collide(q, lines[i], lines[j]);
      if i > 0 {
        assert rest[i - 1] == lines[i];
      }
    }
  }

  /** Reading the first line without a clash leaves a table against which the remaining
      lines clash exactly when they clashed, as a whole, against the old one. */
  lemma ClashesShift<K>(q: Request<K>, s: Scan<K>, lines: seq<string>)
    requires s.failure.None? && lines != [] && !ClashesWithTable(q, s.table, lines[0])
    ensures Clashes(q, Consume(q, s, lines[0]).table, lines[1..]) <==> Clashes(q, s.table, lines)
  {
    var t1 := Consume(q, s, lines[0]).table;
    if Clashes(q, t1, lines[1..]) {
      var j' :| 0 <= j' < |lines[1..]| && ClashAt(q, t1, lines[1..], j');
      ClashAtShift(q, s, lines, j' + 1);
    }
    if Clashes(q, s.table, lines) {
      var j :| 0 <= j < |lines| && ClashAt(q, s.table, lines, j);
      assert j != 0;
      ClashAtShift(q, s, lines, j);
    }
  }

  /** Reading lines into a table raises exactly when some kept line clashes with the table or
      with an earlier kept line. */
  lemma {:induction false} ConsumeLinesFailsIffClash<K>(q: Request<K>, s: Scan<K>, lines: seq<string>)
    requires s.failure.None?
    ensures ConsumeLines(q, s, lines).failure.Some? <==> Clashes(q, s.table, lines)
    decreases |lines|
  {
    if lines != [] {
      var s1 := Consume(q, s, lines[0]);
      if ClashesWithTable(q, s.table, lines[0]) {
        assert s1.failure.Some?;
        assert ConsumeLines(q, s1, lines[1..]) == s1;
        assert ClashAt(q, s.table, lines, 0);
      } else {
        assert s1.failure.None?;
        ConsumeLinesFailsIffClash(q, s1, lines[1..]);
        ClashesShift(q, s, lines);
      }
    }
  }

  /** From the fresh table, reading lines raises exactly when two of them collide. */
  lemma ConsumeLinesFromFreshFailsIffCollision<K>(q: Request<K>, lines: seq<string>)
    ensures ConsumeLines(q, Fresh(), lines).failure.Some? <==> HasCollision(q, lines)
  {
    ConsumeLinesFailsIffClash(q, Fresh(), lines);
    if HasCollision(q, lines) {
      var i, j :| 0 <= i < j < |lines| && Collide(q, lines[i], lines[j]);
      assert ClashAt(q, map[], lines, j);
    }
    if Clashes(q, map[], lines) {
      var j :| 0 <= j < |lines| && ClashAt(q, map[], lines, j);
      assert !ClashesWithTable(q, map[], lines[j]);
    }
  }

  /** LoadLists raises a hash collision exactly when two lines of the directories it reads,
      in ScanOrder, give different source strings with the same hash. */
  lemma AggregateFailsIffCollision<K>(host: Host, registry: map<string, Project>, p: Project, q: Request<K>)
    requires forall i :: 0 <= i < |p.dependencies| ==> p.dependencies[i] != ""
    ensures var s := Aggregate(host, registry, p, q);
            (s.failure.Some? <==> HasCollision(q, LinesOf(host, q.filter, ScanOrder(registry, p))))
            && (s.failure.Some? ==> s.failure.value.HashCollision?)
  {
    AggregateFollowsScanOrder(host, registry, p, q);
    ConsumeLinesFromFreshFailsIffCollision(q, LinesOf(host, q.filter, ScanOrder(registry, p)));
    AggregateSound(host, registry, p, q);
    var s := Aggregate(host, registry, p, q);
    if s.failure.Some? && s.failure.value == ArgumentNull("name") {
      NoNameFailure(q, Fresh(), LinesOf(host, q.filter, ScanOrder(registry, p)));
    }
  }

  /** Reading lines never raises anything but a collision. */
  lemma {:induction false} NoNameFailure<K>(q: Request<K>, s: Scan<K>, lines: seq<string>)
    requires s.failure.None?
    ensures var r := ConsumeLines(q, s, lines); r.failure.Some? ==> r.failure.value.HashCollision?
    decreases |lines|
  {
    if lines != [] {
      var s1 := Consume(q, s, lines[0]);
      if s1.failure.None? {
        NoNameFailure(q, s1, lines[1..]);
      }
    }
  }

  // ----- what a successful read leaves -----

  /** The observer calls for the kept lines, in order: hash, source string, trimmed line. */
  function Entries<K>(q: Request<K>, lines: seq<string>): seq<Entry<K>> {
    if lines == [] then []
    else
      (match Admit(q.modifier, lines[0])
       case None => []
       case Some(a) => [Entry(q.hasher(a.source), a.source, a.line)])
      + Entries(q, lines[1..])
  }

  /** What the observer sees of some lines: their entries when one is given, nothing otherwise. */
  function Observed<K>(q: Request<K>, lines: seq<string>): seq<Entry<K>> {
    if q.extra then Entries(q, lines) else []
  }

  /** Consuming the first line and observing the rest is observing all the lines. */
  lemma TraceStep<K>(q: Request<K>, s: Scan<K>, lines: seq<string>)
    requires lines != []
    ensures var s1 := Consume(q, s, lines[0]);
            s1.failure.None? ==> s1.trace + Observed(q, lines[1..]) == s.trace + Observed(q, lines)
  {
    var s1 := Consume(q, s, lines[0]);
    assert [lines[0]][1..] == [];
    if q.extra && s1.failure.None? {
      var head, tail := Entries(q, [lines[0]]), Entries(q, lines[1..]);
      assert Entries(q, [lines[0]][1..]) == [];
      match Admit(q.modifier, lines[0]) {
        case None =>
          assert head == [];
          assert Entries(q, lines) == tail;
        case Some(a) =>
          var e := Entry(q.hasher(a.source), a.source, a.line);
          assert head == [e] + [];
          assert Entries(q, lines) == [e] + tail;
      }
      assert s1.trace == s.trace + head;
      assert (s.trace + head) + tail == s.trace + (head + tail);
      assert Entries(q, lines) == head + tail;
    }
  }

  /** A read that raises nothing calls the observer once per kept line, in order, duplicates
      included. */
  lemma {:induction false} ConsumeLinesTrace<K>(q: Request<K>, s: Scan<K>, lines: seq<string>)
    requires s.failure.None?
    ensures var r := ConsumeLines(q, s, lines);
            r.failure.None? ==> r.trace == s.trace + Observed(q, lines)
    decreases |lines|
  {
    if lines != [] {
      var s1 := Consume(q, s, lines[0]);
      if s1.failure.None? {
        ConsumeLinesTrace(q, s1, lines[1..]);
        TraceStep(q, s, lines);
      }
    }
  }

  /** t' holds every binding of t. */
  ghost predicate Extends<K>(t: map<K, string>, t': map<K, string>) {
    forall k :: k in t ==> k in t' && t'[k] == t[k]
  }

  lemma ConsumePreserves<K>(q: Request<K>, s: Scan<K>, raw: string)
    ensures Consume(q, s, raw).failure.None? ==> Extends(s.table, Consume(q, s, raw).table)
  {
  }

  /** A read that raises nothing keeps every earlier binding. */
  lemma {:induction false} ConsumeLinesPreserves<K>(q: Request<K>, s: Scan<K>, lines: seq<string>)
    requires s.failure.None?
    ensures var r := ConsumeLines(q, s, lines);
            r.failure.None? ==> Extends(s.table, r.table)
    decreases |lines|
  {
    var r := ConsumeLines(q, s, lines);
    if lines != [] && r.failure.None? {
      var s1 := Consume(q, s, lines[0]);
      if s1.failure.None? {
        ConsumePreserves(q, s, lines[0]);
        ConsumeLinesPreserves(q, s1, lines[1..]);
      }
    }
  }

  /** The line, if kept, is stored under its hash. */
  ghost predicate Bound<K>(q: Request<K>, table: map<K, string>, raw: string) {
    Admit(q.modifier, raw).Some? ==>
      var src := Admit(q.modifier, raw).value.source;
      q.hasher(src) in table && table[q.hasher(src)] == src
  }

  lemma ConsumeBinds<K>(q: Request<K>, s: Scan<K>, raw: string)
    ensures Consume(q, s, raw).failure.None? ==> Bound(q, Consume(q, s, raw).table, raw)
  {
  }

  lemma BoundGrows<K>(q: Request<K>, t: map<K, string>, t': map<K, string>, raw: string)
    requires Bound(q, t, raw) && Extends(t, t')
    ensures Bound(q, t', raw)
  {
  }

  lemma AllBoundCons<K>(q: Request<K>, t: map<K, string>, lines: seq<string>)
    requires lines != [] && Bound(q, t, lines[0])
    requires forall i :: 0 <= i < |lines[1..]| ==> Bound(q, t, lines[1..][i])
    ensures forall i :: 0 <= i < |lines| ==> Bound(q, t, lines[i])
  {
    forall i | 0 < i < |lines| ensures Bound(q, t, lines[i]) {
      assert lines[i] == lines[1..][i - 1];
    }
  }

  /** A read that raises nothing binds every kept line's hash to its source string. */
  lemma {:induction false} ConsumeLinesBinds<K>(q: Request<K>, s: Scan<K>, lines: seq<string>)
    requires s.failure.None?
    ensures var r := ConsumeLines(q, s, lines);
            r.failure.None? ==> forall i :: 0 <= i < |lines| ==> Bound(q, r.table, lines[i])
    decreases |lines|
  {
    if lines != [] {
      var r := ConsumeLines(q, s, lines);
      var s1 := Consume(q, s, lines[0]);
      var rest := lines[1..];
      if s1.failure.None? {
        ConsumeBinds(q, s, lines[0]);
        ConsumeLinesBinds(q, s1, rest);
        ConsumeLinesPreserves(q, s1, rest);
        if r.failure.None? {
          BoundGrows(q, s1.table, r.table, lines[0]);
          AllBoundCons(q, r.table, lines);
        }
      }
    }
  }

  /** The hash of some kept line among lines. */
  ghost predicate KeptHash<K>(q: Request<K>, lines: seq<string>, k: K) {
    exists i :: 0 <= i < |lines| && Admit(q.modifier, lines[i]).Some? &&
                q.hasher(Admit(q.modifier, lines[i]).value.source) == k
  }

  /** A read adds no key but the hashes of kept lines. */
  lemma {:induction false} ConsumeLinesKeys<K>(q: Request<K>, s: Scan<K>, lines: seq<string>)
    requires s.failure.None?
    ensures var r := ConsumeLines(q, s, lines);
            forall k :: k in r.table ==> (k in s.table || KeptHash(q, lines, k))
    decreases |lines|
  {
    var r := ConsumeLines(q, s, lines);
    if lines != [] {
      var s1 := Consume(q, s, lines[0]);
      var rest := lines[1..];
      if s1.failure.Some? {
        assert ConsumeLines(q, s1, rest) == s1;
      } else {
        ConsumeLinesKeys(q, s1, rest);
      }
      forall k | k in r.table ensures k in s.table || KeptHash(q, lines, k) {
        if k !in s1.table {
          var i' :| 0 <= i' < |rest| && Admit(q.modifier, rest[i']).Some? &&
                    q.hasher(Admit(q.modifier, rest[i']).value.source) == k;
          assert rest[i'] == lines[i' + 1];
        } else if k !in s.table {
          assert Admit(q.modifier, lines[0]).Some? && q.hasher(Admit(q.modifier, lines[0]).value.source) == k;
        }
      }
    }
  }

  /** A LoadLists that raises nothing returns a table holding exactly the kept lines of the
      directories it read (each under its hash) and has called the observer once per kept
      line, in ScanOrder. */
  lemma AggregateContents<K>(host: Host, registry: map<string, Project>, p: Project, q: Request<K>)
    requires forall i :: 0 <= i < |p.dependencies| ==> p.dependencies[i] != ""
    ensures var s := Aggregate(host, registry, p, q);
            var lines := LinesOf(host, q.filter, ScanOrder(registry, p));
            s.failure.None? ==>
              && s.trace == Observed(q, lines)
              && (forall i :: 0 <= i < |lines| ==> Bound(q, s.table, lines[i]))
              && (forall k :: k in s.table ==> KeptHash(q, lines, k))
  {
    var lines := LinesOf(host, q.filter, ScanOrder(registry, p));
    AggregateFollowsScanOrder(host, registry, p, q);
    ConsumeLinesTrace(q, Fresh(), lines);
    ConsumeLinesPreserves(q, Fresh(), lines);
    ConsumeLinesBinds(q, Fresh(), lines);
    ConsumeLinesKeys(q, Fresh(), lines);
  }

  // ----- the line filter -----

  /** A comment is recognised before trimming: an indented ';' line is kept, trimmed. */
  lemma CommentTestPrecedesTrim()
    ensures Admit(None, ";x") == None
    ensures Admit(None, "  ;x") == Some(Accepted(";x", ";x"))
  {
    assert StartsWith(";x", ";");
    assert "  ;x"[..1] == " ";
    TrimIndentedComment();
  }

  lemma TrimIndentedComment()
    ensures Trim("  ;x") == ";x"
  {
    var comment := ";x";
    assert !IsWhiteSpace(comment[0]);
    assert !IsWhiteSpace(comment[1]);
    assert TrimStart(comment) == comment;
    assert TrimEnd(comment) == comment;
    var one := " " + comment;
    assert one[0] == ' ' && one[1..] == comment;
    assert TrimStart(one) == comment;
    var two := " " + one;
    assert two[0] == ' ' && two[1..] == one;
    assert TrimStart(two) == comment;
    assert two == "  ;x";
  }

  /** Comment lines and lines that are blank once trimmed are never kept, whatever the
      modifier; any other line is kept with its trimmed text, normalised when a modifier is
      given. */
  lemma AdmitFilters(modifier: Option<string -> string>, raw: string)
    ensures Admit(modifier, raw).None? <==> (StartsWith(raw, ";") || AllWhiteSpace(raw))
    ensures Admit(modifier, raw).Some? ==>
              && Admit(modifier, raw).value.line == Trim(raw)
              && Admit(modifier, raw).value.source
                 == (if modifier.None? then Trim(raw) else modifier.value(Trim(raw)))
  {
    TrimSpec(raw);
  }
}
