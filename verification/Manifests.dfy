/**
 Reading `tinox.toml` and rewriting it: the reader is a fold over lines, the writer keeps the
 lines it does not own, puts fresh package keys behind the package header and appends every
 table anew.
 */
module Manifests {
  import opened Wrappers
  import opened Packages
  import opened TomlLines

  // ---- What a line says ----

  datatype Section = Start | InPackage | InDependency | InRepository | Elsewhere

  datatype Key = Name | Version | Description | Group | ArtifactId | Url | InRepo | Sha256 | Id | Unknown

  function KeyText(k: Key): string {
    match k
    case Name => "name"
    case Version => "version"
    case Description => "description"
    case Group => "group"
    case ArtifactId => "artifactId"
    case Url => "url"
    case InRepo => "repository"
    case Sha256 => "sha256"
    case Id => "id"
    case Unknown => "?"
  }

  function KeyOf(s: string): Key {
    if s == "name" then Name
    else if s == "version" then Version
    else if s == "description" then Description
    else if s == "group" then Group
    else if s == "artifactId" then ArtifactId
    else if s == "url" then Url
    else if s == "repository" then InRepo
    else if s == "sha256" then Sha256
    else if s == "id" then Id
    else Unknown
  }

  /** `manifest_section_for` */
  function SectionOf(line: string): Section {
    if line == "[[dependencies]]" then InDependency
    else if line == "[[repositories]]" then InRepository
    else if line == "[package]" then InPackage
    else Elsewhere
  }

  datatype Line = Header(section: Section) | Pair(key: Key, value: string) | Noise

  function Classify(raw: string): Line {
    var line := Trim(raw);
    if line != [] && line[0] == '[' then Header(SectionOf(line))
    else
      var kv := Setting(line);
      if kv.None? then Noise else Pair(KeyOf(kv.value.0), kv.value.1)
  }

  function Line1(k: Key, v: string): string { Format(KeyText(k), v) }

  lemma {:induction false} KeyTextPlain(k: Key)
    ensures PlainKey(KeyText(k)) && OneLine(KeyText(k)) && (k != Unknown ==> KeyOf(KeyText(k)) == k)
  {
  }

  lemma {:induction false} ClassifyLine(k: Key, v: string)
    requires k != Unknown && PlainValue(v)
    ensures Classify(Line1(k, v)) == Pair(k, v)
  {
    KeyTextPlain(k);
    FormatRead(KeyText(k), v);
  }

  lemma {:induction false} ClassifyKey(k: Key, v: string)
    requires k != Unknown
    ensures Classify(Line1(k, v)).Pair? && Classify(Line1(k, v)).key == k
  {
    KeyTextPlain(k);
    FormatKeyRead(KeyText(k), v);
  }

  lemma {:induction false} LineFits(k: Key, v: string)
    requires OneLine(v)
    ensures OneLine(Line1(k, v)) && StripCr(Line1(k, v)) == Line1(k, v)
  {
    KeyTextPlain(k);
    FormatOneLine(KeyText(k), v);
  }

  const PACKAGE_HEADER := "[package]"
  const DEPENDENCY_HEADER := "[[dependencies]]"
  const REPOSITORY_HEADER := "[[repositories]]"

  lemma {:induction false} ClassifyHeaders()
    ensures Classify(PACKAGE_HEADER) == Header(InPackage) && Classify(DEPENDENCY_HEADER) == Header(InDependency)
    ensures Classify(REPOSITORY_HEADER) == Header(InRepository) && Classify("") == Noise
  {
    TrimTight(PACKAGE_HEADER);
    TrimTight(DEPENDENCY_HEADER);
    TrimTight(REPOSITORY_HEADER);
  }

  lemma {:induction false} ClassifyCr(raw: string)
    ensures Classify(StripCr(raw)) == Classify(raw)
  {
    TrimCr(raw);
  }

  // ---- The reader ----

  /** The tables being read are `Some` while their section lasts. */
  datatype Reader = Reader(section: Section, package: Package, havePackage: bool,
                           deps: seq<Dependency>, dep: Option<Dependency>, repos: seq<Repository>, repo: Option<Repository>)

  const EMPTY_DEPENDENCY := Dependency(Coord("", "", ""), None, None, None)

  function Init(): Reader { Reader(Start, Package("", "", ""), false, [], None, [], None) }

  function AsSeq<T>(x: Option<T>): seq<T> { if x.None? then [] else [x.value] }

  /** The manifest read so far, the open table included. */
  function Finish(r: Reader): Manifest {
    Manifest(if r.havePackage then Some(r.package) else None, r.deps + AsSeq(r.dep), r.repos + AsSeq(r.repo))
  }

  function Open(r: Reader, section: Section): Reader {
    Reader(section, r.package, r.havePackage || section == InPackage,
           r.deps + AsSeq(r.dep), if section == InDependency then Some(EMPTY_DEPENDENCY) else None,
           r.repos + AsSeq(r.repo), if section == InRepository then Some(Repository("", "")) else None)
  }

  function SetPackage(p: Package, k: Key, v: string): Package {
    match k
    case Name => p.(name := v)
    case Version => p.(version := v)
    case Description => p.(description := v)
    case _ => p
  }

  function SetDependency(d: Dependency, k: Key, v: string): Dependency {
    match k
    case Group => d.(coord := d.coord.(group := v))
    case ArtifactId => d.(coord := d.coord.(artifact := v))
    case Version => d.(coord := d.coord.(version := v))
    case Url => if v == "" then d else d.(url := Some(v))
    case InRepo => if v == "" then d else d.(repository := Some(v))
    case Sha256 => if v == "" then d else d.(sha256 := Some(v))
    case _ => d
  }

  function SetRepository(r: Repository, k: Key, v: string): Repository {
    match k
    case Id => r.(id := v)
    case Url => r.(url := v)
    case _ => r
  }

  function Read(r: Reader, line: Line): Reader {
    match line
    case Header(section) => Open(r, section)
    case Noise => r
    case Pair(k, v) =>
      match r.section
      case InPackage => r.(package := SetPackage(r.package, k, v))
      case InDependency => if r.dep.None? then r else r.(dep := Some(SetDependency(r.dep.value, k, v)))
      case InRepository => if r.repo.None? then r else r.(repo := Some(SetRepository(r.repo.value, k, v)))
      case _ => r
  }

  function ReadAll(r: Reader, ls: seq<Line>): Reader {
    if ls == [] then r else Read(ReadAll(r, ls[..|ls| - 1]), ls[|ls| - 1])
  }

  function Said(ls: seq<string>): (r: seq<Line>)
    ensures |r| == |ls|
  {
    if ls == [] then [] else Said(ls[..|ls| - 1]) + [Classify(ls[|ls| - 1])]
  }

  /** `parse_manifest` */
  function Parse(ls: seq<string>): Manifest { Finish(ReadAll(Init(), Said(ls))) }

  method ParseManifest(content: string) returns (m: Manifest)
    ensures m == Parse(Lines(content))
  {
    var ls, r := Lines(content), Init();
    for i := 0 to |ls|
      invariant r == ReadAll(Init(), Said(ls[..i]))
    {
      assert ls[..i + 1][..i] == ls[..i];
      ReadOne(Init(), Said(ls[..i]), Classify(ls[i]));
      r := Read(r, Classify(ls[i]));
    }
    assert ls[..|ls|] == ls;
    m := Finish(r);
  }

  lemma {:induction false} ReadOne(r: Reader, xs: seq<Line>, line: Line)
    ensures ReadAll(r, xs + [line]) == Read(ReadAll(r, xs), line)
  {
    assert (xs + [line])[..|xs|] == xs;
  }

  lemma {:induction false} ReadAppend(r: Reader, xs: seq<Line>, ys: seq<Line>)
    ensures ReadAll(r, xs + ys) == ReadAll(ReadAll(r, xs), ys)
    decreases |ys|
  {
    if ys == [] {
      assert xs + ys == xs;
    } else {
      var n := |ys| - 1;
      assert xs + ys == xs + ys[..n] + [ys[n]];
      ReadOne(r, xs + ys[..n], ys[n]);
      ReadAppend(r, xs, ys[..n]);
    }
  }

  lemma {:induction false} SaidAppend(xs: seq<string>, ys: seq<string>)
    ensures Said(xs + ys) == Said(xs) + Said(ys)
    decreases |ys|
  {
    if ys == [] {
      assert xs + ys == xs && Said(xs) + [] == Said(xs);
    } else {
      var n := |ys| - 1;
      assert (xs + ys)[..|xs + ys| - 1] == xs + ys[..n];
      SaidAppend(xs, ys[..n]);
      assert Said(xs) + (Said(ys[..n]) + [Classify(ys[n])]) == Said(xs) + Said(ys[..n]) + [Classify(ys[n])];
    }
  }

  lemma {:induction false} SaidAt(ls: seq<string>, i: nat)
    requires i < |ls|
    ensures Said(ls)[i] == Classify(ls[i])
    decreases |ls|
  {
    if i < |ls| - 1 {
      SaidAt(ls[..|ls| - 1], i);
    }
  }

  lemma {:induction false} SaidStripped(ls: seq<string>)
    ensures Said(StripCrs(ls)) == Said(ls)
    decreases |ls|
  {
    if ls != [] {
      var n := |ls| - 1;
      assert StripCrs(ls)[..n] == StripCrs(ls[..n]);
      SaidStripped(ls[..n]);
      ClassifyCr(ls[n]);
    }
  }

  // ---- The writer ----

  /** One `key = "value"` line for each pair. */
  function LinesOf(ps: seq<(Key, string)>): seq<string> {
    if ps == [] then [] else LinesOf(ps[..|ps| - 1]) + [Line1(ps[|ps| - 1].0, ps[|ps| - 1].1)]
  }

  function PackagePairs(p: Package): seq<(Key, string)> {
    [(Name, p.name), (Version, p.version), (Description, p.description)]
  }

  function Optional(k: Key, v: Option<string>): seq<(Key, string)> { if v.None? then [] else [(k, v.value)] }

  function DependencyPairs(d: Dependency): seq<(Key, string)> {
    [(Group, d.coord.group), (ArtifactId, d.coord.artifact), (Version, d.coord.version)]
    + (Optional(Url, d.url) + (Optional(InRepo, d.repository) + Optional(Sha256, d.sha256)))
  }

  function RepositoryPairs(r: Repository): seq<(Key, string)> { [(Id, r.id), (Url, r.url)] }

  function PackageKeys(p: Package): seq<string> { LinesOf(PackagePairs(p)) }

  function DependencyLines(d: Dependency): seq<string> { [DEPENDENCY_HEADER] + LinesOf(DependencyPairs(d)) }

  function RepositoryLines(r: Repository): seq<string> { [REPOSITORY_HEADER] + LinesOf(RepositoryPairs(r)) }

  /** Tables, each behind a blank line. */
  function DependencyTables(ds: seq<Dependency>): seq<string> {
    if ds == [] then [] else DependencyTables(ds[..|ds| - 1]) + ([""] + DependencyLines(ds[|ds| - 1]))
  }

  function RepositoryTables(rs: seq<Repository>): seq<string> {
    if rs == [] then [] else RepositoryTables(rs[..|rs| - 1]) + ([""] + RepositoryLines(rs[|rs| - 1]))
  }

  datatype Writer = Writer(section: Section, out: seq<string>, sawPackage: bool)

  predicate Owned(k: Key) { k == Name || k == Version || k == Description }

  predicate Table(section: Section) { section == InDependency || section == InRepository }

  function FreshKeys(m: Manifest, section: Section): seq<string> {
    if section == InPackage && m.package.Some? then PackageKeys(m.package.value) else []
  }

  /** What the writer puts out for a line of the old text, which says `line`. */
  function Emits(section: Section, raw: string, line: Line, m: Manifest): seq<string> {
    match line
    case Header(next) => if Table(next) then [] else [raw] + FreshKeys(m, next)
    case Pair(k, _) => if Table(section) || (section == InPackage && Owned(k)) then [] else [raw]
    case Noise => if Table(section) then [] else [raw]
  }

  function After(section: Section, line: Line): Section {
    match line
    case Header(next) => next
    case _ => section
  }

  function WriteLine(w: Writer, raw: string, line: Line, m: Manifest): Writer {
    Writer(After(w.section, line), w.out + Emits(w.section, raw, line, m), w.sawPackage || line == Header(InPackage))
  }

  /** The writer's loop over the old lines. */
  function RewriteFrom(w: Writer, ls: seq<string>, m: Manifest): Writer {
    if ls == [] then w
    else WriteLine(RewriteFrom(w, ls[..|ls| - 1], m), ls[|ls| - 1], Classify(ls[|ls| - 1]), m)
  }

  function Rewrite(ls: seq<string>, m: Manifest): Writer { RewriteFrom(Writer(Start, [], false), ls, m) }

  /** Joining with newlines and ending with one loses a last empty line. */
  function Body(out: seq<string>): seq<string> {
    if out != [] && out[|out| - 1] == "" then out[..|out| - 1] else out
  }

  /** The lines up to the tables. */
  function Top(ls: seq<string>, m: Manifest): seq<string> {
    var w := Rewrite(ls, m);
    Body(w.out) + if !w.sawPackage && m.package.Some? then [PACKAGE_HEADER] + PackageKeys(m.package.value) else []
  }

  function Tables(m: Manifest): seq<string> { RepositoryTables(m.repositories) + DependencyTables(m.dependencies) }

  function Rewritten(ls: seq<string>, m: Manifest): seq<string> { Top(ls, m) + Tables(m) }

  /** `write_manifest`: the text it writes over an old one. */
  function WriteText(text: string, m: Manifest): string { Terminated(Rewritten(Lines(text), m)) }
}
