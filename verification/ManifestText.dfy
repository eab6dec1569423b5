/**
 The text of a manifest, spelled out: which header opens which section, how a line with
 white space around everything is read, and what the tables look like that are written.
 */
module ManifestText {
  import opened Wrappers
  import opened Packages
  import opened TomlLines
  import opened Manifests
  import opened ManifestSurvivors

  // ---- White space ----

  /** Unicode white space, by code points. */
  predicate Gap(u: string) {
    forall i :: 0 <= i < |u| ==> GapChar(u[i])
  }

  predicate GapChar(c: char) {
    var n := c as int;
    || n == 0x9 || n == 0xA || n == 0xB || n == 0xC || n == 0xD || n == 0x20 || n == 0x85 || n == 0xA0 || n == 0x1680
    || 0x2000 <= n <= 0x200A || n == 0x2028 || n == 0x2029 || n == 0x202F || n == 0x205F || n == 0x3000
  }

  /** Empty, or with other characters at both ends. */
  predicate Core(t: string) { t != [] ==> !GapChar(t[0]) && !GapChar(t[|t| - 1]) }

  lemma {:induction false} StartTrimmed(u: string, t: string)
    requires Gap(u)
    ensures TrimStart(u + t) == TrimStart(t)
    decreases |u|
  {
    if u == [] {
      assert u + t == t;
    } else {
      assert (u + t)[1..] == u[1..] + t && (u + t)[0] == u[0];
      StartTrimmed(u[1..], t);
    }
  }

  lemma {:induction false} EndTrimmed(t: string, w: string)
    requires Gap(w)
    ensures TrimEnd(t + w) == TrimEnd(t)
    decreases |w|
  {
    if w == [] {
      assert t + w == t;
    } else {
      var n := |w| - 1;
      assert (t + w)[..|t + w| - 1] == t + w[..n] && (t + w)[|t + w| - 1] == w[n];
      EndTrimmed(t, w[..n]);
    }
  }

  lemma {:induction false} Trimmed(u: string, t: string, w: string)
    requires Gap(u) && Core(t) && Gap(w)
    ensures Trim(u + t + w) == t
  {
    assert u + t + w == u + (t + w);
    StartTrimmed(u, t + w);
    if t == [] {
      assert t + w == w && w + [] == w;
      StartTrimmed(w, []);
    } else {
      assert (t + w)[0] == t[0];
      EndTrimmed(t, w);
    }
  }

  // ---- What a line says ----

  /** A line with a bracket in front, whatever stands around it: three headers are known. */
  lemma {:induction false} HeaderRead(u: string, t: string, w: string)
    requires Gap(u) && Core(t) && Gap(w) && t != [] && t[0] == '['
    ensures Classify(u + t + w) == Header(if t == "[[dependencies]]" then InDependency
                                          else if t == "[[repositories]]" then InRepository
                                          else if t == "[package]" then InPackage else Elsewhere)
  {
    Trimmed(u, t, w);
  }

  /** The keys, as words. */
  predicate Named(word: string, k: Key) {
    match k
    case Name => word == "name"
    case Version => word == "version"
    case Description => word == "description"
    case Group => word == "group"
    case ArtifactId => word == "artifactId"
    case Url => word == "url"
    case InRepo => word == "repository"
    case Sha256 => word == "sha256"
    case Id => word == "id"
    case Unknown =>
      && word != "name" && word != "version" && word != "description" && word != "group" && word != "artifactId"
      && word != "url" && word != "repository" && word != "sha256" && word != "id"
  }

  lemma {:induction false} NamedIff(word: string, k: Key)
    ensures KeyOf(word) == k <==> Named(word, k)
  {
  }

  predicate Quotes(a: string) { forall i :: 0 <= i < |a| ==> a[i] == '"' }

  lemma {:induction false} QuotesStart(a: string, v: string)
    requires Quotes(a)
    ensures QuoteStart(a + v) == QuoteStart(v)
    decreases |a|
  {
    if a == [] {
      assert a + v == v;
    } else {
      assert (a + v)[1..] == a[1..] + v && (a + v)[0] == a[0];
      QuotesStart(a[1..], v);
    }
  }

  lemma {:induction false} QuotesEnd(v: string, b: string)
    requires Quotes(b)
    ensures QuoteEnd(v + b) == QuoteEnd(v)
    decreases |b|
  {
    if b == [] {
      assert v + b == v;
    } else {
      var n := |b| - 1;
      assert (v + b)[..|v + b| - 1] == v + b[..n] && (v + b)[|v + b| - 1] == b[n];
      QuotesEnd(v, b[..n]);
    }
  }

  lemma {:induction false} Unquoted(a: string, v: string, b: string)
    requires Quotes(a) && Quotes(b) && (v != [] ==> v[0] != '"' && v[|v| - 1] != '"')
    ensures Unquote(a + v + b) == v
  {
    assert a + v + b == a + (v + b);
    QuotesStart(a, v + b);
    if v == [] {
      assert v + b == b && b + [] == b;
      QuotesStart(b, []);
    } else {
      assert (v + b)[0] == v[0];
      QuotesEnd(v, b);
    }
  }

  lemma {:induction false} SettingOf(key: string, g: string, h: string, q: string)
    requires Core(key) && '=' !in key && Gap(g) && Gap(h) && Core(q)
    ensures Setting(key + g + (['='] + (h + q))) == Some((key, Unquote(q)))
  {
    GapPlain(g);
    SplitFirst(key + g, [], h + q);
    assert [] + (key + g) == key + g;
    Trimmed([], key, g);
    assert [] + key + g == key + g;
    Trimmed(h, q, []);
    assert h + q + [] == h + q;
  }

  lemma {:induction false} GapPlain(g: string)
    requires Gap(g)
    ensures '=' !in g
  {
    forall i | 0 <= i < |g| ensures g[i] != '=' {
      assert GapChar(g[i]);
    }
  }

  lemma {:induction false} CoreSetting(key: string, g: string, h: string, q: string, t: string)
    requires key != [] && Core(key) && Core(q) && (q == [] ==> h == []) && t == key + g + (['='] + (h + q))
    ensures Core(t) && t[0] == key[0]
  {
    assert t[0] == key[0];
    assert t[|t| - 1] == if q == [] then '=' else q[|q| - 1];
  }

  /**
   A setting: a word, an equals sign and a value, with white space around each of them and any
   number of quotes around the value. White space behind an empty value is that behind the line.
   */
  lemma {:induction false} SettingRead(u: string, key: string, g: string, h: string, a: string, v: string, b: string, w: string, k: Key)
    requires Gap(u) && Gap(g) && Gap(h) && Gap(w) && Quotes(a) && Quotes(b) && (a + v + b == [] ==> h == [])
    requires key != [] && key[0] != '[' && '=' !in key && Core(key) && Named(key, k)
    requires Core(a + v + b) && (v != [] ==> v[0] != '"' && v[|v| - 1] != '"')
    ensures Classify(u + (key + g + (['='] + (h + (a + v + b)))) + w) == Pair(k, v)
  {
    var q := a + v + b;
    var t := key + g + (['='] + (h + q));
    SettingOf(key, g, h, q);
    Unquoted(a, v, b);
    NamedIff(key, k);
    CoreSetting(key, g, h, q, t);
    Trimmed(u, t, w);
  }

  lemma {:induction false} NoSplit(line: string, key: string)
    requires '=' !in line
    ensures SplitAt(line, key).None?
    decreases |line|
  {
    if line != [] {
      NoSplit(line[1..], key + [line[0]]);
    }
  }

  /** Any other line says nothing: blank lines, comments without an equals sign. */
  lemma {:induction false} NoiseRead(u: string, t: string, w: string)
    requires Gap(u) && Core(t) && Gap(w) && (t != [] ==> t[0] != '[') && '=' !in t
    ensures Classify(u + t + w) == Noise
  {
    Trimmed(u, t, w);
    NoSplit(t, []);
  }

  // ---- What is written ----

  lemma {:induction false} OneTerminated(l: string)
    ensures Terminated([l]) == l + "\n"
  {
    assert [l][1..] == [];
    assert l + ['\n'] + [] == l + ['\n'];
  }

  lemma {:induction false} LinesOfAppend(ps: seq<(Key, string)>, qs: seq<(Key, string)>)
    ensures LinesOf(ps + qs) == LinesOf(ps) + LinesOf(qs)
    decreases |qs|
  {
    if qs == [] {
      assert ps + qs == ps && LinesOf(ps) + [] == LinesOf(ps);
    } else {
      var n := |qs| - 1;
      assert (ps + qs)[..|ps + qs| - 1] == ps + qs[..n];
      LinesOfAppend(ps, qs[..n]);
      assert LinesOf(ps) + (LinesOf(qs[..n]) + [Line1(qs[n].0, qs[n].1)]) == LinesOf(ps) + LinesOf(qs[..n]) + [Line1(qs[n].0, qs[n].1)];
    }
  }

  /** The text of some settings. */
  function Settings(ps: seq<(Key, string)>): string { Terminated(LinesOf(ps)) }

  lemma {:induction false} SettingsAppend(ps: seq<(Key, string)>, qs: seq<(Key, string)>)
    ensures Settings(ps + qs) == Settings(ps) + Settings(qs)
  {
    LinesOfAppend(ps, qs);
    TerminatedAppend(LinesOf(ps), LinesOf(qs));
  }

  function Entry(word: string, v: string): string { word + " = \"" + v + "\"\n" }

  lemma {:induction false} OneSetting(k: Key, v: string, word: string)
    requires k != Unknown && Named(word, k)
    ensures Settings([(k, v)]) == Entry(word, v)
  {
    var ps := [(k, v)];
    assert ps[..0] == [];
    assert LinesOf(ps) == [Line1(k, v)];
    assert KeyText(k) == word;
    OneTerminated(Line1(k, v));
    EntryIs(k, v, word);
  }

  lemma {:induction false} EntryIs(k: Key, v: string, word: string)
    requires KeyText(k) == word
    ensures Line1(k, v) + "\n" == Entry(word, v)
  {
  }

  lemma {:induction false} SettingsFirst(k: Key, v: string, ps: seq<(Key, string)>, word: string)
    requires k != Unknown && Named(word, k)
    ensures Settings([(k, v)] + ps) == Entry(word, v) + Settings(ps)
  {
    SettingsAppend([(k, v)], ps);
    OneSetting(k, v, word);
  }

  function PackageText(p: Package): string {
    Entry("name", p.name) + (Entry("version", p.version) + Entry("description", p.description))
  }

  lemma {:induction false} SettingsThree(x: (Key, string), y: (Key, string), z: (Key, string), more: seq<(Key, string)>,
                                         a: string, b: string, c: string)
    requires x.0 != Unknown && y.0 != Unknown && z.0 != Unknown && Named(a, x.0) && Named(b, y.0) && Named(c, z.0)
    ensures Settings([x, y, z] + more) == Entry(a, x.1) + (Entry(b, y.1) + (Entry(c, z.1) + Settings(more)))
  {
    var zs := [z] + more;
    var ys := [y] + zs;
    assert [x, y, z] + more == [x] + ys;
    SettingsFirst(z.0, z.1, more, c);
    SettingsFirst(y.0, y.1, zs, b);
    SettingsFirst(x.0, x.1, ys, a);
  }

  lemma {:induction false} PackageWritten(p: Package)
    ensures Terminated(PackageKeys(p)) == PackageText(p)
  {
    SettingsThree((Name, p.name), (Version, p.version), (Description, p.description), [], "name", "version", "description");
    assert PackagePairs(p) + [] == PackagePairs(p);
    assert Settings([]) == "" && Entry("description", p.description) + "" == Entry("description", p.description);
  }

  function RepositoryText(r: Repository): string {
    "[[repositories]]\n" + (Entry("id", r.id) + Entry("url", r.url))
  }

  lemma {:induction false} HeaderFirst(header: string, ls: seq<string>)
    ensures Terminated([header] + ls) == header + "\n" + Terminated(ls)
  {
    TerminatedAppend([header], ls);
    OneTerminated(header);
  }

  lemma {:induction false} RepositoryWritten(r: Repository)
    ensures Terminated(RepositoryLines(r)) == RepositoryText(r)
  {
    var u := [(Url, r.url)];
    HeaderFirst("[[repositories]]", LinesOf(RepositoryPairs(r)));
    SettingsFirst(Id, r.id, u, "id");
    OneSetting(Url, r.url, "url");
    assert RepositoryPairs(r) == [(Id, r.id)] + u;
    assert "[[repositories]]" + "\n" == "[[repositories]]\n";
  }

  function OptionText(word: string, v: Option<string>): string {
    if v.None? then "" else Entry(word, v.value)
  }

  function DependencyText(d: Dependency): string {
    "[[dependencies]]\n"
    + (Entry("group", d.coord.group)
    + (Entry("artifactId", d.coord.artifact)
    + (Entry("version", d.coord.version)
    + (OptionText("url", d.url) + (OptionText("repository", d.repository) + OptionText("sha256", d.sha256))))))
  }

  lemma {:induction false} OptionWritten(k: Key, v: Option<string>, word: string)
    requires k != Unknown && Named(word, k)
    ensures Settings(Optional(k, v)) == OptionText(word, v)
  {
    if v.Some? {
      OneSetting(k, v.value, word);
    }
  }

  lemma {:induction false} OptionsWritten(d: Dependency)
    ensures Settings(Optional(Url, d.url) + (Optional(InRepo, d.repository) + Optional(Sha256, d.sha256)))
         == OptionText("url", d.url) + (OptionText("repository", d.repository) + OptionText("sha256", d.sha256))
  {
    SettingsAppend(Optional(Url, d.url), Optional(InRepo, d.repository) + Optional(Sha256, d.sha256));
    SettingsAppend(Optional(InRepo, d.repository), Optional(Sha256, d.sha256));
    OptionWritten(Url, d.url, "url");
    OptionWritten(InRepo, d.repository, "repository");
    OptionWritten(Sha256, d.sha256, "sha256");
  }

  lemma {:induction false} CoordWritten(c: Coord, more: seq<(Key, string)>)
    ensures Settings([(Group, c.group), (ArtifactId, c.artifact), (Version, c.version)] + more)
         == Entry("group", c.group) + (Entry("artifactId", c.artifact) + (Entry("version", c.version) + Settings(more)))
  {
    SettingsThree((Group, c.group), (ArtifactId, c.artifact), (Version, c.version), more, "group", "artifactId", "version");
  }

  lemma {:induction false} DependencyWritten(d: Dependency)
    ensures Terminated(DependencyLines(d)) == DependencyText(d)
  {
    HeaderFirst("[[dependencies]]", LinesOf(DependencyPairs(d)));
    CoordWritten(d.coord, Optional(Url, d.url) + (Optional(InRepo, d.repository) + Optional(Sha256, d.sha256)));
    OptionsWritten(d);
    assert "[[dependencies]]" + "\n" == "[[dependencies]]\n";
  }

  /** Tables one after the other, an empty line before each. */
  function RepositoriesText(rs: seq<Repository>): string {
    if rs == [] then "" else RepositoriesText(rs[..|rs| - 1]) + ("\n" + RepositoryText(rs[|rs| - 1]))
  }

  function DependenciesText(ds: seq<Dependency>): string {
    if ds == [] then "" else DependenciesText(ds[..|ds| - 1]) + ("\n" + DependencyText(ds[|ds| - 1]))
  }

  lemma {:induction false} BlankFirst(ls: seq<string>)
    ensures Terminated([""] + ls) == "\n" + Terminated(ls)
  {
    HeaderFirst("", ls);
    assert "" + "\n" == "\n";
  }

  lemma {:induction false} RepositoriesWritten(rs: seq<Repository>)
    ensures Terminated(RepositoryTables(rs)) == RepositoriesText(rs)
    decreases |rs|
  {
    if rs != [] {
      var n := |rs| - 1;
      RepositoriesWritten(rs[..n]);
      TerminatedAppend(RepositoryTables(rs[..n]), [""] + RepositoryLines(rs[n]));
      BlankFirst(RepositoryLines(rs[n]));
      RepositoryWritten(rs[n]);
    }
  }

  lemma {:induction false} DependenciesWritten(ds: seq<Dependency>)
    ensures Terminated(DependencyTables(ds)) == DependenciesText(ds)
    decreases |ds|
  {
    if ds != [] {
      var n := |ds| - 1;
      DependenciesWritten(ds[..n]);
      TerminatedAppend(DependencyTables(ds[..n]), [""] + DependencyLines(ds[n]));
      BlankFirst(DependencyLines(ds[n]));
      DependencyWritten(ds[n]);
    }
  }

  /** Whatever the old text was, what is kept of it is followed by the tables, repositories first. */
  lemma {:induction false} TablesWritten(text: string, m: Manifest)
    ensures WriteText(text, m) == Terminated(Top(Lines(text), m)) + (RepositoriesText(m.repositories) + DependenciesText(m.dependencies))
  {
    TerminatedAppend(Top(Lines(text), m), Tables(m));
    TerminatedAppend(RepositoryTables(m.repositories), DependencyTables(m.dependencies));
    RepositoriesWritten(m.repositories);
    DependenciesWritten(m.dependencies);
  }

  /** A manifest written where there was none. */
  lemma {:induction false} FreshText(m: Manifest)
    ensures WriteText("", m) ==
            (if m.package.Some? then "[package]\n" + PackageText(m.package.value) else "")
            + (RepositoriesText(m.repositories) + DependenciesText(m.dependencies))
  {
    TablesWritten("", m);
    assert Lines("") == [];
    if m.package.Some? {
      HeaderFirst("[package]", PackageKeys(m.package.value));
      PackageWritten(m.package.value);
      assert [] + ([PACKAGE_HEADER] + PackageKeys(m.package.value)) == [PACKAGE_HEADER] + PackageKeys(m.package.value);
      assert "[package]" + "\n" == "[package]\n";
    }
  }

  // ---- What is kept ----

  predicate Bracketed(t: string) { t != [] && t[0] == '[' }

  /** The last line at or before `i` with a bracket in front, without the white space around it. */
  function LastHeader(ls: seq<string>, i: nat): string
    requires i < |ls|
  {
    if Bracketed(Trim(ls[i])) then Trim(ls[i]) else if i == 0 then "" else LastHeader(ls, i - 1)
  }

  lemma {:induction false} SectionIs(ls: seq<string>, i: nat)
    requires i < |ls|
    ensures var h, section := LastHeader(ls, i), SectionAt(Said(ls), i);
            && (section == InDependency <==> h == "[[dependencies]]")
            && (section == InRepository <==> h == "[[repositories]]")
            && (section == InPackage <==> h == "[package]")
  {
    SaidAt(ls, i);
    if !Bracketed(Trim(ls[i])) && i > 0 {
      SectionIs(ls, i - 1);
    }
  }

  /** The first word of a setting, if the line is one. */
  function WordBefore(l: string): Option<string> {
    var kv := Setting(Trim(l));
    if Bracketed(Trim(l)) || kv.None? then None else Some(kv.value.0)
  }

  /** A line is kept unless the header above it is that of a table, or it is one of three keys below the package header. */
  lemma {:induction false} KeptIff(ls: seq<string>, i: nat)
    requires i < |ls|
    ensures Survives(ls, i) <==>
            && LastHeader(ls, i) != "[[dependencies]]" && LastHeader(ls, i) != "[[repositories]]"
            && !(LastHeader(ls, i) == "[package]"
                 && (WordBefore(ls[i]) == Some("name") || WordBefore(ls[i]) == Some("version") || WordBefore(ls[i]) == Some("description")))
  {
    SaidAt(ls, i);
    SectionIs(ls, i);
    if WordBefore(ls[i]).Some? {
      var word := WordBefore(ls[i]).value;
      NamedIff(word, Name);
      NamedIff(word, Version);
      NamedIff(word, Description);
    }
  }
}
