/** Aggregation on small concrete inputs: a line read twice, two lines whose hashes collide,
    and a project that depends on another. */
module Scenarios {
  import opened Wrappers
  import opened Text
  import opened Platform
  import opened Projects
  import ListProperties

  /** Reading the same kept line again never raises and leaves the table as it was; only the
      observer is called again. */
  lemma RepeatedLineHarmless<K>(q: Request<K>, s: Scan<K>, raw: string)
    requires s.failure.None?
    ensures var once := Consume(q, s, raw);
            var twice := Consume(q, once, raw);
            once.failure.None? ==> twice.failure.None? && twice.table == once.table
  {
    var a := Admit(q.modifier, raw);
    if a.Some? {
      var once := Consume(q, s, raw);
      assert q.hasher(a.value.source) in once.table;
    }
  }

  /** A line with no white space at either end that is not a comment is kept as it is. */
  lemma PlainLineKept(w: string)
    requires w != [] && !IsWhiteSpace(w[0]) && !IsWhiteSpace(w[|w| - 1]) && w[0] != ';'
    ensures Admit(None, w) == Some(Accepted(w, w))
  {
    assert w[..1] != ";" by {
      assert w[..1][0] == w[0];
    }
    assert TrimStart(w) == w;
    assert TrimEnd(w) == w;
  }

  /** Two kept lines whose strings differ but hash alike: reading them raises a collision
      that names the later string first. */
  lemma TwoLinesCollide<K>(q: Request<K>, x: string, y: string)
    requires Admit(q.modifier, x).Some? && Admit(q.modifier, y).Some?
    requires var a := Admit(q.modifier, x).value.source;
             var b := Admit(q.modifier, y).value.source;
             a != b && q.hasher(a) == q.hasher(b)
    ensures ConsumeLines(q, Fresh(), [x, y]).failure
            == Some(HashCollision(Admit(q.modifier, y).value.source, Admit(q.modifier, x).value.source))
  {
    var a := Admit(q.modifier, x).value.source;
    var s1 := Consume(q, Fresh(), x);
    assert s1.failure.None? && q.hasher(a) in s1.table && s1.table[q.hasher(a)] == a;
    var s2 := Consume(q, s1, y);
    assert s2.failure == Some(HashCollision(Admit(q.modifier, y).value.source, a));
    assert [x, y][1..] == [y] && [y][1..] == [];
    assert ConsumeLines(q, Fresh(), [x, y]) == ConsumeLines(q, s1, [y]);
    assert ConsumeLines(q, s1, [y]) == ConsumeLines(q, s2, []);
  }

  /** Hashing by length modulo ten, "cat" and "bat" from two files collide, and the
      exception names the later string first. */
  lemma CatBatCollide(cat: string, bat: string)
    requires cat == "cat" && bat == "bat"
    ensures var q := Request("*.txt", (s: string) => |s| % 10, None, false);
            ConsumeFiles(q, Fresh(), [ListFile("a.txt", [cat]), ListFile("b.txt", [bat])]).failure
            == Some(HashCollision(bat, cat))
  {
    var q := Request("*.txt", (s: string) => |s| % 10, None, false);
    PlainLineKept(cat);
    PlainLineKept(bat);
    var files := [ListFile("a.txt", [cat]), ListFile("b.txt", [bat])];
    TwoLinesCollide(q, cat, bat);
    ListProperties.ConsumeFilesFlat(q, Fresh(), files);
    assert files[1..][1..] == [];
    assert ListProperties.FileLines(files[1..]) == [bat];
    assert ListProperties.FileLines(files) == [cat] + [bat];
    assert [cat] + [bat] == [cat, bat];
  }

  /** A project with a dependency: the dependency's line and the project's identical line
      give one entry, and the project's own new line a second; nothing raises. */
  lemma GameDlcScenario(host: Host, filter: string, identity: string -> string, base: Project, dlc: Project,
                        tex: string, extra: string)
    requires forall s :: identity(s) == s
    requires base.name == "game-base" && base.listsPath == "lists/base"
    requires dlc.name == "game-dlc" && dlc.listsPath == "lists/dlc" && dlc.dependencies == [base.name]
    requires tex == "Assets/tex.bin" && extra == "Assets/extra.bin"
    requires base.listsPath in host.directories && dlc.listsPath in host.directories
    requires GetFiles(host, base.listsPath, filter) == [ListFile("foo.txt", [tex])]
    requires GetFiles(host, dlc.listsPath, filter) == [ListFile("bar.txt", [tex, extra])]
    ensures var q := Request(filter, identity, None, false);
            var s := Aggregate(host, map[base.name := base, dlc.name := dlc], dlc, q);
            && s.failure.None?
            && s.table.Keys == {tex, extra}
            && s.table[tex] == tex && s.table[extra] == extra
  {
    var q := Request(filter, identity, None, false);
    var registry := map[base.name := base, dlc.name := dlc];
    PlainLineKept(tex);
    PlainLineKept(extra);
    DlcLines(host, filter, registry, base, dlc, tex, extra);
    ListProperties.AggregateFollowsScanOrder(host, registry, dlc, q);
    ThreeLines(q, tex, extra);
  }

  /** Reading x, x, y with the identity hash keeps exactly x and y. */
  lemma ThreeLines(q: Request<string>, x: string, y: string)
    requires q.modifier.None? && Admit(None, x) == Some(Accepted(x, x)) && Admit(None, y) == Some(Accepted(y, y))
    requires q.hasher(x) == x && q.hasher(y) == y && x != y
    ensures var s := ConsumeLines(q, Fresh(), [x, x, y]);
            s.failure.None? && s.table.Keys == {x, y} && s.table[x] == x && s.table[y] == y
  {
    var s1 := Consume(q, Fresh(), x);
    assert s1.failure.None? && s1.table.Keys == {x} && s1.table[x] == x;
    var s2 := Consume(q, s1, x);
    assert s2.failure.None? && s2.table.Keys == {x} && s2.table[x] == x;
    var s3 := Consume(q, s2, y);
    assert s3.failure.None? && s3.table.Keys == {x, y} && s3.table[x] == x && s3.table[y] == y;
    assert [x, x, y][1..] == [x, y] && [x, y][1..] == [y] && [y][1..] == [];
    assert ConsumeLines(q, Fresh(), [x, x, y]) == ConsumeLines(q, s1, [x, y]);
    assert ConsumeLines(q, s1, [x, y]) == ConsumeLines(q, s2, [y]);
    assert ConsumeLines(q, s2, [y]) == ConsumeLines(q, s3, []);
  }

  /** The lines the dependent project reads: its dependency's, then its own. */
  lemma DlcLines(host: Host, filter: string, registry: map<string, Project>, base: Project, dlc: Project,
                 tex: string, extra: string)
    requires registry == map[base.name := base, dlc.name := dlc] && base.name != dlc.name
    requires dlc.dependencies == [base.name]
    requires base.listsPath in host.directories && dlc.listsPath in host.directories
    requires GetFiles(host, base.listsPath, filter) == [ListFile("foo.txt", [tex])]
    requires GetFiles(host, dlc.listsPath, filter) == [ListFile("bar.txt", [tex, extra])]
    ensures ListProperties.LinesOf(host, filter, ListProperties.ScanOrder(registry, dlc)) == [tex, tex, extra]
  {
    var order := ListProperties.ScanOrder(registry, dlc);
    assert dlc.dependencies[1..] == [];
    assert ListProperties.DependencyDirectories(registry, dlc.dependencies) == [base.listsPath];
    assert order == [base.listsPath, dlc.listsPath];
    var baseFiles := GetFiles(host, base.listsPath, filter);
    var dlcFiles := GetFiles(host, dlc.listsPath, filter);
    assert baseFiles[1..] == [] && dlcFiles[1..] == [];
    assert ListProperties.FileLines(baseFiles) == [tex] + [];
    assert ListProperties.FileLines(dlcFiles) == [tex, extra] + [];
    assert ListProperties.DirectoryLines(host, filter, base.listsPath) == [tex];
    assert ListProperties.DirectoryLines(host, filter, dlc.listsPath) == [tex, extra];
    assert order[1..] == [dlc.listsPath] && order[1..][1..] == [];
    assert ListProperties.LinesOf(host, filter, order[1..]) == [tex, extra] + [];
    assert ListProperties.LinesOf(host, filter, order) == [tex] + [tex, extra];
  }
}
