/**
 Reading what was written into `tinox.toml`: what the written tables say, what is read from the
 old lines that are kept, and exactly which manifests come back.
 */
module ManifestLaws {
  import opened Wrappers
  import opened Packages
  import opened TomlLines
  import opened Manifests

  // ---- Manifests that a file can hold ----

  predicate PlainOptional(v: Option<string>) { v.Some? ==> v.value != "" && PlainValue(v.value) }

  predicate PlainDependency(d: Dependency) {
    && PlainValue(d.coord.group) && PlainValue(d.coord.artifact) && PlainValue(d.coord.version)
    && PlainOptional(d.url) && PlainOptional(d.repository) && PlainOptional(d.sha256)
  }

  predicate PlainRepository(r: Repository) { PlainValue(r.id) && PlainValue(r.url) }

  predicate PlainPackage(p: Package) { PlainValue(p.name) && PlainValue(p.version) && PlainValue(p.description) }

  /** No value has a newline or an outer quote, and no optional value is empty. */
  predicate Plain(m: Manifest) {
    && (m.package.Some? ==> PlainPackage(m.package.value))
    && (forall i :: 0 <= i < |m.dependencies| ==> PlainDependency(m.dependencies[i]))
    && (forall i :: 0 <= i < |m.repositories| ==> PlainRepository(m.repositories[i]))
  }

  // ---- What the written tables say ----

  predicate PlainPairs(ps: seq<(Key, string)>) {
    forall i :: 0 <= i < |ps| ==> ps[i].0 != Unknown && PlainValue(ps[i].1)
  }

  function SaidPairs(ps: seq<(Key, string)>): seq<Line> {
    if ps == [] then [] else SaidPairs(ps[..|ps| - 1]) + [Pair(ps[|ps| - 1].0, ps[|ps| - 1].1)]
  }

  lemma {:induction false} SaidOne(a: string)
    ensures Said([a]) == [Classify(a)]
  {
    assert [a][..0] == [];
  }

  lemma {:induction false} SaidCons(a: string, ls: seq<string>)
    ensures Said([a] + ls) == [Classify(a)] + Said(ls)
  {
    SaidOne(a);
    SaidAppend([a], ls);
  }

  lemma {:induction false} PairsSay(ps: seq<(Key, string)>)
    requires PlainPairs(ps)
    ensures Said(LinesOf(ps)) == SaidPairs(ps)
    decreases |ps|
  {
    if ps != [] {
      var n := |ps| - 1;
      PairsSay(ps[..n]);
      ClassifyLine(ps[n].0, ps[n].1);
      SaidOne(Line1(ps[n].0, ps[n].1));
      SaidAppend(LinesOf(ps[..n]), [Line1(ps[n].0, ps[n].1)]);
    }
  }

  function SaidRepository(r: Repository): seq<Line> { [Header(InRepository)] + SaidPairs(RepositoryPairs(r)) }

  function SaidDependency(d: Dependency): seq<Line> { [Header(InDependency)] + SaidPairs(DependencyPairs(d)) }

  function SaidKeys(p: Package): seq<Line> { SaidPairs(PackagePairs(p)) }

  lemma {:induction false} KeysSay(p: Package)
    requires PlainPackage(p)
    ensures Said(PackageKeys(p)) == SaidKeys(p)
  {
    PairsSay(PackagePairs(p));
  }

  lemma {:induction false} BlockSays(header: string, section: Section, ps: seq<(Key, string)>)
    requires Classify(header) == Header(section) && PlainPairs(ps)
    ensures Said([header] + LinesOf(ps)) == [Header(section)] + SaidPairs(ps)
  {
    PairsSay(ps);
    SaidCons(header, LinesOf(ps));
  }

  lemma {:induction false} DependencyPairsPlain(d: Dependency)
    requires PlainDependency(d)
    ensures PlainPairs(DependencyPairs(d))
  {
  }

  // ---- Reading the tables back ----

  lemma {:induction false} ReadCons(r: Reader, a: Line, ls: seq<Line>)
    ensures ReadAll(r, [a] + ls) == ReadAll(Read(r, a), ls)
  {
    ReadAppend(r, [a], ls);
    ReadOne(r, [], a);
    assert [] + [a] == [a];
  }

  /** Pairs in a dependency table. */
  function SetAll(d: Dependency, ps: seq<(Key, string)>): Dependency {
    if ps == [] then d else SetDependency(SetAll(d, ps[..|ps| - 1]), ps[|ps| - 1].0, ps[|ps| - 1].1)
  }

  lemma {:induction false} ReadPairs(r: Reader, ps: seq<(Key, string)>)
    requires r.section == InDependency && r.dep.Some?
    ensures ReadAll(r, SaidPairs(ps)) == r.(dep := Some(SetAll(r.dep.value, ps)))
    decreases |ps|
  {
    if ps != [] {
      var n := |ps| - 1;
      ReadPairs(r, ps[..n]);
      ReadOne(r, SaidPairs(ps[..n]), Pair(ps[n].0, ps[n].1));
    }
  }

  lemma {:induction false} SetAppend(d: Dependency, xs: seq<(Key, string)>, ys: seq<(Key, string)>)
    ensures SetAll(d, xs + ys) == SetAll(SetAll(d, xs), ys)
    decreases |ys|
  {
    if ys == [] {
      assert xs + ys == xs;
    } else {
      assert (xs + ys)[..|xs + ys| - 1] == xs + ys[..|ys| - 1];
      SetAppend(d, xs, ys[..|ys| - 1]);
    }
  }

  lemma {:induction false} SetOne(d: Dependency, k: Key, v: string)
    ensures SetAll(d, [(k, v)]) == SetDependency(d, k, v)
  {
    assert [(k, v)][..0] == [];
  }

  function SetOptional(d: Dependency, k: Key, v: Option<string>): Dependency {
    if v.None? then d else SetDependency(d, k, v.value)
  }

  lemma {:induction false} SetOptionalIs(d: Dependency, k: Key, v: Option<string>)
    ensures SetAll(d, Optional(k, v)) == SetOptional(d, k, v)
  {
    if v.Some? {
      SetOne(d, k, v.value);
    }
  }

  lemma {:induction false} SetCoord(c: Coord)
    ensures SetAll(EMPTY_DEPENDENCY, [(Group, c.group), (ArtifactId, c.artifact), (Version, c.version)]) == Dependency(c, None, None, None)
  {
    var x, y, z := (Group, c.group), (ArtifactId, c.artifact), (Version, c.version);
    SetOne(EMPTY_DEPENDENCY, x.0, x.1);
    SetAppend(EMPTY_DEPENDENCY, [x], [y]);
    SetAppend(EMPTY_DEPENDENCY, [x, y], [z]);
    SetOne(SetAll(EMPTY_DEPENDENCY, [x]), y.0, y.1);
    SetOne(SetAll(EMPTY_DEPENDENCY, [x, y]), z.0, z.1);
    assert [x] + [y] == [x, y] && [x, y] + [z] == [x, y, z];
  }

  lemma {:induction false} SetThree(d: Dependency, x: seq<(Key, string)>, y: seq<(Key, string)>, z: seq<(Key, string)>)
    ensures SetAll(d, x + (y + z)) == SetAll(SetAll(SetAll(d, x), y), z)
  {
    SetAppend(d, x, y + z);
    SetAppend(SetAll(d, x), y, z);
  }

  lemma {:induction false} SetOptionals(d: Dependency)
    requires PlainDependency(d)
    ensures var d1 := SetOptional(Dependency(d.coord, None, None, None), Url, d.url);
            SetOptional(SetOptional(d1, InRepo, d.repository), Sha256, d.sha256) == d
  {
  }

  /** The pairs of a table make up the dependency they were taken from. */
  lemma {:induction false} SetDependencyPairs(d: Dependency)
    requires PlainDependency(d)
    ensures SetAll(EMPTY_DEPENDENCY, DependencyPairs(d)) == d
  {
    var d0 := Dependency(d.coord, None, None, None);
    var d1 := SetOptional(d0, Url, d.url);
    var d2 := SetOptional(d1, InRepo, d.repository);
    SetAppend(EMPTY_DEPENDENCY, [(Group, d.coord.group), (ArtifactId, d.coord.artifact), (Version, d.coord.version)],
              Optional(Url, d.url) + (Optional(InRepo, d.repository) + Optional(Sha256, d.sha256)));
    SetCoord(d.coord);
    SetThree(d0, Optional(Url, d.url), Optional(InRepo, d.repository), Optional(Sha256, d.sha256));
    SetOptionalIs(d0, Url, d.url);
    SetOptionalIs(d1, InRepo, d.repository);
    SetOptionalIs(d2, Sha256, d.sha256);
    SetOptionals(d);
  }

  lemma {:induction false} ReadDependency(r: Reader, d: Dependency)
    requires PlainDependency(d)
    ensures Finish(ReadAll(r, SaidDependency(d))) == Finish(r).(dependencies := Finish(r).dependencies + [d])
  {
    ReadCons(r, Header(InDependency), SaidPairs(DependencyPairs(d)));
    ReadPairs(Open(r, InDependency), DependencyPairs(d));
    SetDependencyPairs(d);
  }

  lemma {:induction false} SaidPairsTwo(x: (Key, string), y: (Key, string))
    ensures SaidPairs([x, y]) == [Pair(x.0, x.1), Pair(y.0, y.1)]
  {
    assert [x, y][..1] == [x] && [x][..0] == [];
    assert SaidPairs([x]) == SaidPairs([x][..0]) + [Pair(x.0, x.1)];
  }

  lemma {:induction false} ReadRepository(r: Reader, x: Repository)
    ensures Finish(ReadAll(r, SaidRepository(x))) == Finish(r).(repositories := Finish(r).repositories + [x])
  {
    var r0 := Open(r, InRepository);
    ReadCons(r, Header(InRepository), SaidPairs(RepositoryPairs(x)));
    SaidPairsTwo((Id, x.id), (Url, x.url));
    ReadTwo(r0, Pair(Id, x.id), Pair(Url, x.url));
  }

  lemma {:induction false} ReadTwo(r: Reader, a: Line, b: Line)
    ensures ReadAll(r, [a, b]) == Read(Read(r, a), b)
  {
    ReadOne(r, [a], b);
    ReadOne(r, [], a);
    assert [a] + [b] == [a, b] && [] + [a] == [a];
  }

  lemma {:induction false} SaidKeysAre(p: Package)
    ensures SaidKeys(p) == [Pair(Name, p.name), Pair(Version, p.version)] + [Pair(Description, p.description)]
  {
    var ps := PackagePairs(p);
    assert ps[..2] == [(Name, p.name), (Version, p.version)];
    SaidPairsTwo((Name, p.name), (Version, p.version));
  }

  lemma {:induction false} ReadPackage(r: Reader, p: Package)
    ensures ReadAll(r, [Header(InPackage)] + SaidKeys(p)) == Open(r, InPackage).(package := p)
  {
    var r0 := Open(r, InPackage);
    ReadCons(r, Header(InPackage), SaidKeys(p));
    SaidKeysAre(p);
    ReadOne(r0, [Pair(Name, p.name), Pair(Version, p.version)], Pair(Description, p.description));
    ReadTwo(r0, Pair(Name, p.name), Pair(Version, p.version));
  }

  function SaidRepositories(rs: seq<Repository>): seq<Line> {
    if rs == [] then [] else SaidRepositories(rs[..|rs| - 1]) + ([Noise] + SaidRepository(rs[|rs| - 1]))
  }

  function SaidDependencies(ds: seq<Dependency>): seq<Line> {
    if ds == [] then [] else SaidDependencies(ds[..|ds| - 1]) + ([Noise] + SaidDependency(ds[|ds| - 1]))
  }

  lemma {:induction false} TableSays(before: seq<string>, header: string, section: Section, ps: seq<(Key, string)>)
    requires Classify(header) == Header(section) && PlainPairs(ps)
    ensures Said(before + ([""] + ([header] + LinesOf(ps)))) == Said(before) + ([Noise] + ([Header(section)] + SaidPairs(ps)))
  {
    SaidAppend(before, [""] + ([header] + LinesOf(ps)));
    SaidCons("", [header] + LinesOf(ps));
    ClassifyHeaders();
    BlockSays(header, section, ps);
  }

  lemma {:induction false} RepositoriesSay(rs: seq<Repository>)
    requires forall i :: 0 <= i < |rs| ==> PlainRepository(rs[i])
    ensures Said(RepositoryTables(rs)) == SaidRepositories(rs)
    decreases |rs|
  {
    if rs != [] {
      var n := |rs| - 1;
      RepositoriesSay(rs[..n]);
      ClassifyHeaders();
      TableSays(RepositoryTables(rs[..n]), REPOSITORY_HEADER, InRepository, RepositoryPairs(rs[n]));
    }
  }

  lemma {:induction false} DependenciesSay(ds: seq<Dependency>)
    requires forall i :: 0 <= i < |ds| ==> PlainDependency(ds[i])
    ensures Said(DependencyTables(ds)) == SaidDependencies(ds)
    decreases |ds|
  {
    if ds != [] {
      var n := |ds| - 1;
      DependenciesSay(ds[..n]);
      ClassifyHeaders();
      DependencyPairsPlain(ds[n]);
      TableSays(DependencyTables(ds[..n]), DEPENDENCY_HEADER, InDependency, DependencyPairs(ds[n]));
    }
  }

  lemma {:induction false} ReadTable(r: Reader, before: seq<Line>, block: seq<Line>)
    ensures ReadAll(r, before + ([Noise] + block)) == ReadAll(ReadAll(r, before), block)
  {
    ReadAppend(r, before, [Noise] + block);
    ReadCons(ReadAll(r, before), Noise, block);
  }

  function WithDependencies(m: Manifest, ds: seq<Dependency>): Manifest { m.(dependencies := m.dependencies + ds) }

  lemma {:induction false} WithMore(m: Manifest, ds: seq<Dependency>, d: Dependency)
    ensures WithDependencies(WithDependencies(m, ds), [d]) == WithDependencies(m, ds + [d])
  {
    assert m.dependencies + ds + [d] == m.dependencies + (ds + [d]);
  }

  lemma {:induction false} ReadOneMore(r: Reader, before: seq<Line>, d: Dependency)
    requires PlainDependency(d)
    ensures Finish(ReadAll(r, before + ([Noise] + SaidDependency(d)))) == WithDependencies(Finish(ReadAll(r, before)), [d])
  {
    ReadTable(r, before, SaidDependency(d));
    ReadDependency(ReadAll(r, before), d);
  }

  function WithRepositories(m: Manifest, rs: seq<Repository>): Manifest { m.(repositories := m.repositories + rs) }

  lemma {:induction false} WithMoreRepositories(m: Manifest, rs: seq<Repository>, r: Repository)
    ensures WithRepositories(WithRepositories(m, rs), [r]) == WithRepositories(m, rs + [r])
  {
    assert m.repositories + rs + [r] == m.repositories + (rs + [r]);
  }

  lemma {:induction false} ReadOneMoreRepository(r: Reader, before: seq<Line>, x: Repository)
    ensures Finish(ReadAll(r, before + ([Noise] + SaidRepository(x)))) == WithRepositories(Finish(ReadAll(r, before)), [x])
  {
    ReadTable(r, before, SaidRepository(x));
    ReadRepository(ReadAll(r, before), x);
  }

  lemma {:induction false} ReadRepositories(r: Reader, rs: seq<Repository>)
    ensures Finish(ReadAll(r, SaidRepositories(rs))) == WithRepositories(Finish(r), rs)
    decreases |rs|
  {
    if rs == [] {
      assert Finish(r).repositories + rs == Finish(r).repositories;
    } else {
      var n := |rs| - 1;
      ReadRepositories(r, rs[..n]);
      ReadOneMoreRepository(r, SaidRepositories(rs[..n]), rs[n]);
      WithMoreRepositories(Finish(r), rs[..n], rs[n]);
      assert rs == rs[..n] + [rs[n]];
    }
  }

  lemma {:induction false} ReadDependencies(r: Reader, ds: seq<Dependency>)
    requires forall i :: 0 <= i < |ds| ==> PlainDependency(ds[i])
    ensures Finish(ReadAll(r, SaidDependencies(ds))) == WithDependencies(Finish(r), ds)
    decreases |ds|
  {
    if ds == [] {
      assert Finish(r).dependencies + ds == Finish(r).dependencies;
    } else {
      var n := |ds| - 1;
      ReadDependencies(r, ds[..n]);
      ReadOneMore(r, SaidDependencies(ds[..n]), ds[n]);
      WithMore(Finish(r), ds[..n], ds[n]);
      assert ds == ds[..n] + [ds[n]];
    }
  }

  // ---- What is kept of the old text ----

  /** Reading what the writer, now in `section`, has put out so far. */
  ghost predicate Follows(section: Section, saw: bool, r: Reader, m: Manifest) {
    && r.deps == [] && r.dep.None? && r.repos == [] && r.repo.None?
    && r.havePackage == saw && (saw && m.package.Some? ==> r.package == m.package.value)
    && !Table(r.section) && (!Table(section) ==> r.section == section)
  }

  /** What the emitted lines say. */
  function SaidEmits(section: Section, line: Line, m: Manifest): seq<Line> {
    match line
    case Header(next) =>
      if Table(next) then []
      else if next == InPackage && m.package.Some? then [line] + SaidKeys(m.package.value) else [line]
    case Pair(k, _) => if Table(section) || (section == InPackage && Owned(k)) then [] else [line]
    case Noise => if Table(section) then [] else [line]
  }

  lemma {:induction false} EmitsSay(section: Section, raw: string, m: Manifest)
    requires Plain(m)
    ensures Said(Emits(section, raw, Classify(raw), m)) == SaidEmits(section, Classify(raw), m)
  {
    SaidOne(raw);
    if m.package.Some? {
      KeysSay(m.package.value);
      SaidCons(raw, PackageKeys(m.package.value));
    }
    assert [raw] + [] == [raw];
  }

  lemma {:induction false} FollowsOne(section: Section, saw: bool, r: Reader, line: Line, m: Manifest)
    requires Follows(section, saw, r, m) && !(line == Header(InPackage) && m.package.Some?)
    requires line.Header? ==> !Table(line.section)
    requires !line.Header? ==> !Table(section) && !(section == InPackage && line.Pair? && Owned(line.key))
    ensures Follows(After(section, line), saw || line == Header(InPackage), Read(r, line), m)
  {
  }

  lemma {:induction false} FollowsStep(section: Section, saw: bool, r: Reader, line: Line, m: Manifest)
    requires Follows(section, saw, r, m)
    ensures Follows(After(section, line), saw || line == Header(InPackage), ReadAll(r, SaidEmits(section, line, m)), m)
  {
    if line == Header(InPackage) && m.package.Some? {
      ReadPackage(r, m.package.value);
    } else if SaidEmits(section, line, m) != [] {
      FollowsOne(section, saw, r, line, m);
      ReadOne(r, [], line);
      assert [] + [line] == [line];
    }
  }

  lemma {:induction false} RewriteFollows(ls: seq<string>, m: Manifest)
    requires Plain(m)
    ensures var w := Rewrite(ls, m); Follows(w.section, w.sawPackage, ReadAll(Init(), Said(w.out)), m)
    decreases |ls|
  {
    if ls != [] {
      var n := |ls| - 1;
      var w, raw := Rewrite(ls[..n], m), ls[n];
      var line := Classify(raw);
      RewriteFollows(ls[..n], m);
      SaidAppend(w.out, Emits(w.section, raw, line, m));
      EmitsSay(w.section, raw, m);
      ReadAppend(Init(), Said(w.out), SaidEmits(w.section, line, m));
      FollowsStep(w.section, w.sawPackage, ReadAll(Init(), Said(w.out)), line, m);
    }
  }

  /** A last empty line says nothing. */
  lemma {:induction false} ReadBody(r: Reader, out: seq<string>)
    ensures ReadAll(r, Said(Body(out))) == ReadAll(r, Said(out))
  {
    if Body(out) != out {
      ClassifyHeaders();
      ReadOne(r, Said(Body(out)), Noise);
    }
  }

  /** `saw_package_header`: some line of the old text is the package header. */
  predicate HasPackageHeader(ls: seq<string>) { Header(InPackage) in Said(ls) }

  lemma {:induction false} SawPackageIff(ls: seq<string>, m: Manifest)
    ensures Rewrite(ls, m).sawPackage <==> HasPackageHeader(ls)
    decreases |ls|
  {
    if ls != [] {
      SawPackageIff(ls[..|ls| - 1], m);
    }
  }

  lemma {:induction false} ReadPackageBlock(r: Reader, body: seq<string>, p: Package)
    requires PlainPackage(p)
    ensures ReadAll(r, Said(body + ([PACKAGE_HEADER] + PackageKeys(p)))) == Open(ReadAll(r, Said(body)), InPackage).(package := p)
  {
    SaidAppend(body, [PACKAGE_HEADER] + PackageKeys(p));
    SaidCons(PACKAGE_HEADER, PackageKeys(p));
    KeysSay(p);
    ClassifyHeaders();
    ReadAppend(r, Said(body), [Header(InPackage)] + SaidKeys(p));
    ReadPackage(ReadAll(r, Said(body)), p);
  }

  lemma {:induction false} FollowsFinish(section: Section, saw: bool, r: Reader, m: Manifest)
    requires Follows(section, saw, r, m)
    ensures Finish(r).dependencies == [] && Finish(r).repositories == []
    ensures Finish(r).package == m.package <==> (if saw then m.package.Some? else m.package.None?)
    ensures m.package.Some? ==> Finish(Open(r, InPackage).(package := m.package.value)) == Manifest(m.package, [], [])
  {
  }

  lemma {:induction false} ReadTop(ls: seq<string>, m: Manifest)
    requires Plain(m)
    ensures var f := Finish(ReadAll(Init(), Said(Top(ls, m))));
            f.dependencies == [] && f.repositories == [] && (f.package == m.package <==> (HasPackageHeader(ls) ==> m.package.Some?))
  {
    var w := Rewrite(ls, m);
    var body := Body(w.out);
    RewriteFollows(ls, m);
    SawPackageIff(ls, m);
    ReadBody(Init(), w.out);
    FollowsFinish(w.section, w.sawPackage, ReadAll(Init(), Said(body)), m);
    if !w.sawPackage && m.package.Some? {
      ReadPackageBlock(Init(), body, m.package.value);
    } else {
      assert body + [] == body;
    }
  }

  lemma {:induction false} TablesSay(m: Manifest)
    requires Plain(m)
    ensures Said(Tables(m)) == SaidRepositories(m.repositories) + SaidDependencies(m.dependencies)
  {
    SaidAppend(RepositoryTables(m.repositories), DependencyTables(m.dependencies));
    RepositoriesSay(m.repositories);
    DependenciesSay(m.dependencies);
  }

  lemma {:induction false} ReadTables(r: Reader, rs: seq<Repository>, ds: seq<Dependency>)
    requires Finish(r).dependencies == [] && Finish(r).repositories == []
    requires forall i :: 0 <= i < |ds| ==> PlainDependency(ds[i])
    ensures Finish(ReadAll(r, SaidRepositories(rs) + SaidDependencies(ds))) == Manifest(Finish(r).package, ds, rs)
  {
    ReadAppend(r, SaidRepositories(rs), SaidDependencies(ds));
    ReadRepositories(r, rs);
    ReadDependencies(ReadAll(r, SaidRepositories(rs)), ds);
    assert [] + rs == rs && [] + ds == ds;
  }

  /** Reading the rewritten lines gives the manifest exactly when a package that has a header is given. */
  lemma {:induction false} ParseRewritten(ls: seq<string>, m: Manifest)
    requires Plain(m)
    ensures Parse(Rewritten(ls, m)) == m <==> (HasPackageHeader(ls) ==> m.package.Some?)
  {
    ReadTop(ls, m);
    SaidAppend(Top(ls, m), Tables(m));
    TablesSay(m);
    ReadAppend(Init(), Said(Top(ls, m)), SaidRepositories(m.repositories) + SaidDependencies(m.dependencies));
    ReadTables(ReadAll(Init(), Said(Top(ls, m))), m.repositories, m.dependencies);
  }

  // ---- The same on texts ----

  predicate FlatPairs(ps: seq<(Key, string)>) { forall i :: 0 <= i < |ps| ==> ps[i].0 != Unknown && OneLine(ps[i].1) }

  /** No value has a newline. */
  predicate Flat(m: Manifest) {
    && (m.package.Some? ==> FlatPairs(PackagePairs(m.package.value)))
    && (forall i :: 0 <= i < |m.dependencies| ==> FlatPairs(DependencyPairs(m.dependencies[i])))
    && (forall i :: 0 <= i < |m.repositories| ==> FlatPairs(RepositoryPairs(m.repositories[i])))
  }

  lemma {:induction false} PlainIsFlat(m: Manifest)
    requires Plain(m)
    ensures Flat(m)
  {
    forall i | 0 <= i < |m.dependencies| ensures FlatPairs(DependencyPairs(m.dependencies[i])) {
      DependencyPairsPlain(m.dependencies[i]);
    }
  }

  /** Without newlines, and if so wanted without a carriage return at the end of a line. */
  predicate AllFit(ls: seq<string>, noCr: bool) {
    forall i :: 0 <= i < |ls| ==> OneLine(ls[i]) && (noCr ==> StripCr(ls[i]) == ls[i])
  }

  lemma {:induction false} PairsFit(ps: seq<(Key, string)>, noCr: bool)
    requires FlatPairs(ps)
    ensures AllFit(LinesOf(ps), noCr)
    decreases |ps|
  {
    if ps != [] {
      PairsFit(ps[..|ps| - 1], noCr);
      LineFits(ps[|ps| - 1].0, ps[|ps| - 1].1);
    }
  }

  lemma {:induction false} AppendFit(xs: seq<string>, ys: seq<string>, noCr: bool)
    requires AllFit(xs, noCr) && AllFit(ys, noCr)
    ensures AllFit(xs + ys, noCr)
  {
  }

  lemma {:induction false} TableFit(before: seq<string>, header: string, ps: seq<(Key, string)>, noCr: bool)
    requires AllFit(before, noCr) && AllFit([header], noCr) && FlatPairs(ps)
    ensures AllFit(before + ([""] + ([header] + LinesOf(ps))), noCr)
  {
    PairsFit(ps, noCr);
    AppendFit([header], LinesOf(ps), noCr);
    AppendFit([""], [header] + LinesOf(ps), noCr);
    AppendFit(before, [""] + ([header] + LinesOf(ps)), noCr);
  }

  lemma {:induction false} RepositoriesFit(rs: seq<Repository>, noCr: bool)
    requires forall i :: 0 <= i < |rs| ==> FlatPairs(RepositoryPairs(rs[i]))
    ensures AllFit(RepositoryTables(rs), noCr)
    decreases |rs|
  {
    if rs != [] {
      var n := |rs| - 1;
      RepositoriesFit(rs[..n], noCr);
      TableFit(RepositoryTables(rs[..n]), REPOSITORY_HEADER, RepositoryPairs(rs[n]), noCr);
    }
  }

  lemma {:induction false} DependenciesFit(ds: seq<Dependency>, noCr: bool)
    requires forall i :: 0 <= i < |ds| ==> FlatPairs(DependencyPairs(ds[i]))
    ensures AllFit(DependencyTables(ds), noCr)
    decreases |ds|
  {
    if ds != [] {
      var n := |ds| - 1;
      DependenciesFit(ds[..n], noCr);
      TableFit(DependencyTables(ds[..n]), DEPENDENCY_HEADER, DependencyPairs(ds[n]), noCr);
    }
  }

  lemma {:induction false} RewriteFit(ls: seq<string>, m: Manifest, noCr: bool)
    requires Flat(m) && AllFit(ls, noCr)
    ensures AllFit(Rewrite(ls, m).out, noCr)
    decreases |ls|
  {
    if ls != [] {
      RewriteFit(ls[..|ls| - 1], m, noCr);
      if m.package.Some? {
        PairsFit(PackagePairs(m.package.value), noCr);
      }
    }
  }

  lemma {:induction false} RewrittenFit(ls: seq<string>, m: Manifest, noCr: bool)
    requires Flat(m) && AllFit(ls, noCr)
    ensures AllFit(Rewritten(ls, m), noCr)
  {
    RewriteFit(ls, m, noCr);
    var body := Body(Rewrite(ls, m).out);
    assert AllFit(body, noCr);
    if m.package.Some? {
      PairsFit(PackagePairs(m.package.value), noCr);
      AppendFit([PACKAGE_HEADER], PackageKeys(m.package.value), noCr);
      AppendFit(body, [PACKAGE_HEADER] + PackageKeys(m.package.value), noCr);
    }
    RepositoriesFit(m.repositories, noCr);
    DependenciesFit(m.dependencies, noCr);
    AppendFit(RepositoryTables(m.repositories), DependencyTables(m.dependencies), noCr);
    AppendFit(Top(ls, m), Tables(m), noCr);
  }

  lemma {:induction false} LinesWritten(text: string, m: Manifest)
    requires Flat(m)
    ensures Lines(WriteText(text, m)) == StripCrs(Rewritten(Lines(text), m))
  {
    LinesAreOneLine(text, []);
    RewrittenFit(Lines(text), m, false);
    LinesOfTerminated(Rewritten(Lines(text), m));
  }

  // ---- What can be read at all ----

  predicate Unquoted(v: string) { v != [] ==> v[0] != '"' && v[|v| - 1] != '"' }

  lemma {:induction false} QuoteStartIs(s: string)
    ensures var r := QuoteStart(s); (r != [] ==> r[0] != '"') && (OneLine(s) ==> OneLine(r))
  {
    if s != [] && s[0] == '"' {
      QuoteStartIs(s[1..]);
    }
  }

  lemma {:induction false} QuoteEndIs(s: string)
    requires s != [] ==> s[0] != '"'
    ensures Unquoted(QuoteEnd(s)) && (OneLine(s) ==> OneLine(QuoteEnd(s)))
  {
    if s != [] && s[|s| - 1] == '"' {
      QuoteEndIs(s[..|s| - 1]);
    }
  }

  lemma {:induction false} TrimOneLine(s: string)
    requires OneLine(s)
    ensures OneLine(Trim(s))
  {
    TrimStartOneLine(s);
    TrimEndOneLine(TrimStart(s));
  }

  lemma {:induction false} TrimStartOneLine(s: string)
    requires OneLine(s)
    ensures OneLine(TrimStart(s))
  {
    if s != [] && White(s[0]) {
      TrimStartOneLine(s[1..]);
    }
  }

  lemma {:induction false} TrimEndOneLine(s: string)
    requires OneLine(s)
    ensures OneLine(TrimEnd(s))
  {
    if s != [] && White(s[|s| - 1]) {
      TrimEndOneLine(s[..|s| - 1]);
    }
  }

  lemma {:induction false} SplitOneLine(line: string, key: string)
    requires OneLine(line) && SplitAt(line, key).Some?
    ensures OneLine(SplitAt(line, key).value.1)
    decreases |line|
  {
    if line[0] != '=' {
      SplitOneLine(line[1..], key + [line[0]]);
    }
  }

  /** Every value that is read has no newline and no quote at either end. */
  lemma {:induction false} ClassifyPlain(raw: string)
    requires OneLine(raw) && Classify(raw).Pair?
    ensures PlainValue(Classify(raw).value)
  {
    TrimOneLine(raw);
    var line := Trim(raw);
    SplitOneLine(line, []);
    var v := SplitAt(line, []).value.1;
    TrimOneLine(v);
    QuoteStartIs(Trim(v));
    QuoteEndIs(QuoteStart(Trim(v)));
  }

  /** A reader that has met only such values. */
  ghost predicate PlainReader(r: Reader) {
    && PlainPackage(r.package) && (r.dep.Some? ==> PlainDependency(r.dep.value)) && (r.repo.Some? ==> PlainRepository(r.repo.value))
    && (forall i :: 0 <= i < |r.deps| ==> PlainDependency(r.deps[i]))
    && (forall i :: 0 <= i < |r.repos| ==> PlainRepository(r.repos[i]))
  }

  lemma {:induction false} OpenPlain(r: Reader, section: Section)
    requires PlainReader(r)
    ensures PlainReader(Open(r, section))
  {
  }

  lemma {:induction false} SetPlain(d: Dependency, k: Key, v: string)
    requires PlainDependency(d) && PlainValue(v)
    ensures PlainDependency(SetDependency(d, k, v))
  {
  }

  /** The lists of a reader stay as they are while a table is filled in. */
  lemma {:induction false} ReadPairPlain(r: Reader, k: Key, v: string)
    requires PlainReader(r) && PlainValue(v)
    ensures PlainReader(Read(r, Pair(k, v)))
  {
    var r' := Read(r, Pair(k, v));
    assert r'.deps == r.deps && r'.repos == r.repos;
    if r.section == InDependency && r.dep.Some? {
      SetPlain(r.dep.value, k, v);
    } else if r.section == InRepository && r.repo.Some? {
      assert PlainRepository(SetRepository(r.repo.value, k, v));
    } else if r.section == InPackage {
      assert PlainPackage(SetPackage(r.package, k, v));
    }
  }

  lemma {:induction false} ReadPlain(r: Reader, line: Line)
    requires PlainReader(r) && (line.Pair? ==> PlainValue(line.value))
    ensures PlainReader(Read(r, line))
  {
    match line
    case Header(section) => OpenPlain(r, section);
    case Noise =>
    case Pair(k, v) => ReadPairPlain(r, k, v);
  }

  lemma {:induction false} ReadAllPlain(r: Reader, ls: seq<string>)
    requires PlainReader(r) && AllFit(ls, false)
    ensures PlainReader(ReadAll(r, Said(ls)))
    decreases |ls|
  {
    if ls != [] {
      var n := |ls| - 1;
      ReadAllPlain(r, ls[..n]);
      ReadOne(r, Said(ls[..n]), Classify(ls[n]));
      if Classify(ls[n]).Pair? {
        ClassifyPlain(ls[n]);
      }
      ReadPlain(ReadAll(r, Said(ls[..n])), Classify(ls[n]));
    }
  }

  /** Whatever the text, the manifest read from it is plain. */
  lemma {:induction false} ParsedIsPlain(text: string)
    ensures Plain(Parse(Lines(text)))
  {
    LinesAreOneLine(text, []);
    ReadAllPlain(Init(), Lines(text));
  }

  /**
   Reading what was written over any old text gives the manifest back exactly when all its
   values are plain, and a package is given or the old text has no package header.
   */
  lemma {:induction false} RoundTripIff(text: string, m: Manifest)
    ensures Parse(Lines(WriteText(text, m))) == m <==> Plain(m) && (HasPackageHeader(Lines(text)) ==> m.package.Some?)
  {
    if Plain(m) {
      PlainIsFlat(m);
      LinesWritten(text, m);
      SaidStripped(Rewritten(Lines(text), m));
      ParseRewritten(Lines(text), m);
    } else {
      ParsedIsPlain(WriteText(text, m));
    }
  }

  /** It can go wrong: an outer quote in a value is taken for one of the quotes around it. */
  lemma {:induction false} OuterQuoteLost(text: string, m: Manifest)
    requires m == Manifest(Some(Package("\"tinox", "1", "")), [], [])
    ensures Parse(Lines(WriteText(text, m))) != m
  {
    assert !PlainValue(m.package.value.name);
    RoundTripIff(text, m);
  }

  /** A text without a newline is one line. */
  lemma {:induction false} HeaderLine(text: string, line: string)
    requires OneLine(text) && text != []
    ensures LinesFrom(text, line) == [line + text]
    decreases |text|
  {
    if |text| == 1 {
      assert text[1..] == [] && text == [text[0]];
    } else {
      HeaderLine(text[1..], line + [text[0]]);
      assert line + [text[0]] + text[1..] == line + text;
    }
  }

  lemma {:induction false} OneHeader(text: string)
    requires OneLine(text) && text != [] && Classify(text) == Header(InPackage)
    ensures HasPackageHeader(Lines(text))
  {
    HeaderLine(text, []);
    assert [] + text == text;
    SaidOne(text);
  }

  /** And a package header of the old text stays when the manifest has no package. */
  lemma {:induction false} HeaderStays(text: string, m: Manifest)
    requires text == PACKAGE_HEADER && m == Manifest(None, [], [])
    ensures Parse(Lines(WriteText(text, m))) != m
  {
    ClassifyHeaders();
    OneHeader(text);
    RoundTripIff(text, m);
  }
}
