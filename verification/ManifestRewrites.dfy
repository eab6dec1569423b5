/**
 Rewriting the lines of `tinox.toml` more than once: what a second rewrite keeps, when it
 changes nothing, and the writer as it runs.
 */
module ManifestRewrites {
  import opened Wrappers
  import opened Packages
  import opened TomlLines
  import opened Manifests
  import opened ManifestLaws
  import opened ManifestSurvivors
  import Strings

  lemma {:induction false} RewriteAppend(w: Writer, xs: seq<string>, ys: seq<string>, m: Manifest)
    ensures RewriteFrom(w, xs + ys, m) == RewriteFrom(RewriteFrom(w, xs, m), ys, m)
    decreases |ys|
  {
    if ys == [] {
      assert xs + ys == xs;
    } else {
      assert (xs + ys)[..|xs + ys| - 1] == xs + ys[..|ys| - 1];
      RewriteAppend(w, xs, ys[..|ys| - 1], m);
    }
  }

  lemma {:induction false} RewriteOne(w: Writer, raw: string, m: Manifest)
    ensures RewriteFrom(w, [raw], m) == WriteLine(w, raw, Classify(raw), m)
  {
    assert [raw][..0] == [];
  }

  lemma {:induction false} RewriteKey(w: Writer, raw: string, m: Manifest)
    requires w.section == InPackage && Classify(raw).Pair? && Owned(Classify(raw).key)
    ensures RewriteFrom(w, [raw], m) == w
  {
    RewriteOne(w, raw, m);
    assert w.out + [] == w.out;
  }

  /** Package keys behind a package header are dropped. */
  lemma {:induction false} RewriteKeys(w: Writer, ps: seq<(Key, string)>, m: Manifest)
    requires w.section == InPackage && FlatPairs(ps) && forall i :: 0 <= i < |ps| ==> Owned(ps[i].0)
    ensures RewriteFrom(w, LinesOf(ps), m) == w
    decreases |ps|
  {
    if ps != [] {
      var n := |ps| - 1;
      var raw := Line1(ps[n].0, ps[n].1);
      RewriteKeys(w, ps[..n], m);
      RewriteAppend(w, LinesOf(ps[..n]), [raw], m);
      ClassifyKey(ps[n].0, ps[n].1);
      RewriteKey(w, raw, m);
    }
  }

  lemma {:induction false} RewriteFresh(w: Writer, next: Section, m: Manifest, m2: Manifest)
    requires Flat(m) && w.section == next
    ensures RewriteFrom(w, FreshKeys(m, next), m2) == w
  {
    if next == InPackage && m.package.Some? {
      RewriteKeys(w, PackagePairs(m.package.value), m2);
    }
  }

  /** A kept header with its fresh keys is rewritten to itself with the keys of the second manifest. */
  lemma {:induction false} RewriteHeader(w: Writer, raw: string, next: Section, m: Manifest, m2: Manifest)
    requires Flat(m) && Classify(raw) == Header(next) && !Table(next)
    ensures RewriteFrom(w, [raw] + FreshKeys(m, next), m2) == WriteLine(w, raw, Header(next), m2)
  {
    RewriteAppend(w, [raw], FreshKeys(m, next), m2);
    RewriteOne(w, raw, m2);
    RewriteFresh(WriteLine(w, raw, Header(next), m2), next, m, m2);
  }

  /** `v` has rewritten what `w` put out, just as `u` rewrites the text that `w` was given. */
  ghost predicate Retraces(w: Writer, v: Writer, u: Writer) {
    && v.out == u.out && v.sawPackage == u.sawPackage == w.sawPackage && u.section == w.section
    && !Table(v.section) && (!Table(w.section) ==> v.section == w.section)
  }

  lemma {:induction false} RetraceStep(w: Writer, v: Writer, u: Writer, raw: string, m: Manifest, m2: Manifest)
    requires Flat(m) && Retraces(w, v, u)
    ensures var line := Classify(raw);
            Retraces(WriteLine(w, raw, line, m), RewriteFrom(v, Emits(w.section, raw, line, m), m2), WriteLine(u, raw, line, m2))
  {
    var line := Classify(raw);
    if line.Header? && !Table(line.section) {
      RewriteHeader(v, raw, line.section, m, m2);
    } else {
      RewriteOne(v, raw, m2);
      assert u.out + [] == u.out;
    }
  }

  /** Rewriting twice keeps of the old lines what the second rewrite alone would keep. */
  lemma {:induction false} Retrace(ls: seq<string>, m: Manifest, m2: Manifest)
    requires Flat(m)
    ensures Retraces(Rewrite(ls, m), Rewrite(Rewrite(ls, m).out, m2), Rewrite(ls, m2))
    decreases |ls|
  {
    if ls != [] {
      var n := |ls| - 1;
      var w, raw := Rewrite(ls[..n], m), ls[n];
      Retrace(ls[..n], m, m2);
      RewriteAppend(Writer(Start, [], false), w.out, Emits(w.section, raw, Classify(raw), m), m2);
      RetraceStep(w, Rewrite(w.out, m2), Rewrite(ls[..n], m2), raw, m, m2);
    }
  }

  // ---- The line that is lost at the end ----

  lemma {:induction false} EmitsBlank(section: Section, raw: string, m: Manifest, m2: Manifest)
    ensures var e, e2 := Emits(section, raw, Classify(raw), m), Emits(section, raw, Classify(raw), m2);
            (e == [] <==> e2 == []) && (EndsBlank(e) <==> EndsBlank(e2))
  {
    var line := Classify(raw);
    if line.Header? {
      KeysNotBlank(m, raw, line.section);
      KeysNotBlank(m2, raw, line.section);
    }
  }

  lemma {:induction false} BlankStep(a: seq<string>, b: seq<string>, e: seq<string>, e2: seq<string>)
    requires (EndsBlank(a) <==> EndsBlank(b)) && (e == [] <==> e2 == []) && (EndsBlank(e) <==> EndsBlank(e2))
    ensures EndsBlank(a + e) <==> EndsBlank(b + e2)
  {
    if e == [] {
      assert a + e == a && b + e2 == b;
    }
  }

  lemma {:induction false} RewriteBlank(ls: seq<string>, m: Manifest, m2: Manifest)
    ensures EndsBlank(Rewrite(ls, m).out) <==> EndsBlank(Rewrite(ls, m2).out)
    ensures Rewrite(ls, m).section == Rewrite(ls, m2).section
    decreases |ls|
  {
    if ls != [] {
      var n := |ls| - 1;
      var w, w2, line := Rewrite(ls[..n], m), Rewrite(ls[..n], m2), Classify(ls[n]);
      RewriteBlank(ls[..n], m, m2);
      EmitsBlank(w.section, ls[n], m, m2);
      BlankStep(w.out, w2.out, Emits(w.section, ls[n], line, m), Emits(w.section, ls[n], line, m2));
    }
  }

  lemma {:induction false} RetraceBody(ls: seq<string>, m: Manifest, m2: Manifest)
    requires Flat(m)
    ensures var v := Rewrite(Body(Rewrite(ls, m).out), m2);
            v.out == Body(Rewrite(ls, m2).out) && v.sawPackage == Rewrite(ls, m).sawPackage && !Table(v.section)
  {
    var out := Rewrite(ls, m).out;
    Retrace(ls, m, m2);
    RewriteBlank(ls, m, m2);
    if EndsBlank(out) {
      assert out == Body(out) + [""];
      ClassifyHeaders();
      RewriteAppend(Writer(Start, [], false), Body(out), [""], m2);
      RewriteOne(Rewrite(Body(out), m2), "", m2);
    }
  }

  // ---- Tables are dropped ----

  /** Lines that keep the writer inside tables. */
  predicate OnlyTables(ls: seq<Line>) { forall i :: 0 <= i < |ls| && ls[i].Header? ==> Table(ls[i].section) }

  lemma {:induction false} DropTables(w: Writer, ls: seq<string>, m: Manifest)
    requires Table(w.section) && OnlyTables(Said(ls))
    ensures var v := RewriteFrom(w, ls, m); Table(v.section) && v.out == w.out && v.sawPackage == w.sawPackage
    decreases |ls|
  {
    if ls != [] {
      var n := |ls| - 1;
      assert Said(ls)[n] == Classify(ls[n]);
      assert Said(ls)[..n] == Said(ls[..n]);
      DropTables(w, ls[..n], m);
      assert w.out + [] == w.out;
    }
  }

  /** A blank line, a table header and more of the kind: of these only the blank line stays. */
  lemma {:induction false} DropBlock(w: Writer, header: string, rest: seq<string>, m: Manifest)
    requires !Table(w.section) && Classify(header).Header? && Table(Classify(header).section) && OnlyTables(Said(rest))
    ensures var v := RewriteFrom(w, [""] + ([header] + rest), m); v.out == w.out + [""] && v.sawPackage == w.sawPackage
  {
    ClassifyHeaders();
    RewriteAppend(w, [""], [header] + rest, m);
    RewriteOne(w, "", m);
    var w1 := RewriteFrom(w, [""], m);
    RewriteAppend(w1, [header], rest, m);
    RewriteOne(w1, header, m);
    var w2 := RewriteFrom(w1, [header], m);
    assert w1.out + [] == w1.out;
    DropTables(w2, rest, m);
  }

  lemma {:induction false} OnlyTablesAppend(xs: seq<string>, ys: seq<string>)
    requires OnlyTables(Said(xs)) && OnlyTables(Said(ys))
    ensures OnlyTables(Said(xs + ys))
  {
    SaidAppend(xs, ys);
  }

  lemma {:induction false} OnlyTablesOne(l: string)
    requires Classify(l).Header? ==> Table(Classify(l).section)
    ensures OnlyTables(Said([l]))
  {
    SaidOne(l);
  }

  lemma {:induction false} PairsOnlyTables(ps: seq<(Key, string)>)
    requires FlatPairs(ps)
    ensures OnlyTables(Said(LinesOf(ps)))
    decreases |ps|
  {
    if ps != [] {
      var n := |ps| - 1;
      PairsOnlyTables(ps[..n]);
      ClassifyKey(ps[n].0, ps[n].1);
      OnlyTablesOne(Line1(ps[n].0, ps[n].1));
      OnlyTablesAppend(LinesOf(ps[..n]), [Line1(ps[n].0, ps[n].1)]);
    }
  }

  lemma {:induction false} BlockOnlyTables(before: seq<string>, header: string, ps: seq<(Key, string)>)
    requires OnlyTables(Said(before)) && FlatPairs(ps) && Classify(header).Header? && Table(Classify(header).section)
    ensures OnlyTables(Said(before + ([""] + ([header] + LinesOf(ps)))))
  {
    ClassifyHeaders();
    PairsOnlyTables(ps);
    OnlyTablesOne(header);
    OnlyTablesOne("");
    OnlyTablesAppend([header], LinesOf(ps));
    OnlyTablesAppend([""], [header] + LinesOf(ps));
    OnlyTablesAppend(before, [""] + ([header] + LinesOf(ps)));
  }

  lemma {:induction false} RepositoriesOnlyTables(rs: seq<Repository>)
    requires forall i :: 0 <= i < |rs| ==> FlatPairs(RepositoryPairs(rs[i]))
    ensures OnlyTables(Said(RepositoryTables(rs)))
    decreases |rs|
  {
    if rs != [] {
      var n := |rs| - 1;
      RepositoriesOnlyTables(rs[..n]);
      ClassifyHeaders();
      BlockOnlyTables(RepositoryTables(rs[..n]), REPOSITORY_HEADER, RepositoryPairs(rs[n]));
    }
  }

  lemma {:induction false} DependenciesOnlyTables(ds: seq<Dependency>)
    requires forall i :: 0 <= i < |ds| ==> FlatPairs(DependencyPairs(ds[i]))
    ensures OnlyTables(Said(DependencyTables(ds)))
    decreases |ds|
  {
    if ds != [] {
      var n := |ds| - 1;
      DependenciesOnlyTables(ds[..n]);
      ClassifyHeaders();
      BlockOnlyTables(DependencyTables(ds[..n]), DEPENDENCY_HEADER, DependencyPairs(ds[n]));
    }
  }

  predicate HasTables(m: Manifest) { m.repositories != [] || m.dependencies != [] }

  lemma {:induction false} FirstRepository(rs: seq<Repository>)
    requires rs != []
    ensures RepositoryTables(rs)[0] == "" && |RepositoryTables(rs)| > 1 && RepositoryTables(rs)[1] == REPOSITORY_HEADER
    decreases |rs|
  {
    var n := |rs| - 1;
    if n > 0 {
      FirstRepository(rs[..n]);
    } else {
      assert rs[..n] == [];
    }
  }

  lemma {:induction false} FirstDependency(ds: seq<Dependency>)
    requires ds != []
    ensures DependencyTables(ds)[0] == "" && |DependencyTables(ds)| > 1 && DependencyTables(ds)[1] == DEPENDENCY_HEADER
    decreases |ds|
  {
    var n := |ds| - 1;
    if n > 0 {
      FirstDependency(ds[..n]);
    } else {
      assert ds[..n] == [];
    }
  }

  /** Tables begin with a blank line and a table header. */
  lemma {:induction false} FirstTable(m: Manifest)
    requires HasTables(m)
    ensures |Tables(m)| > 1 && Tables(m)[0] == "" && (Tables(m)[1] == REPOSITORY_HEADER || Tables(m)[1] == DEPENDENCY_HEADER)
  {
    if m.repositories != [] {
      FirstRepository(m.repositories);
    } else {
      FirstDependency(m.dependencies);
    }
  }

  lemma {:induction false} TablesOnlyTables(m: Manifest)
    requires Flat(m)
    ensures OnlyTables(Said(Tables(m)))
  {
    RepositoriesOnlyTables(m.repositories);
    DependenciesOnlyTables(m.dependencies);
    OnlyTablesAppend(RepositoryTables(m.repositories), DependencyTables(m.dependencies));
  }

  lemma {:induction false} OnlyTablesTail(ls: seq<string>, n: nat)
    requires OnlyTables(Said(ls)) && n <= |ls|
    ensures OnlyTables(Said(ls[n..]))
  {
    assert ls == ls[..n] + ls[n..];
    SaidAppend(ls[..n], ls[n..]);
    var tail := Said(ls[n..]);
    forall i | 0 <= i < |tail| && tail[i].Header? ensures Table(tail[i].section) {
      assert Said(ls)[n + i] == tail[i];
    }
  }

  lemma {:induction false} OnlyTablesAt(ls: seq<string>, n: nat)
    requires OnlyTables(Said(ls)) && n < |ls| && Classify(ls[n]).Header?
    ensures Table(Classify(ls[n]).section)
  {
    assert ls == ls[..n] + ([ls[n]] + ls[n + 1..]);
    SaidAppend(ls[..n], [ls[n]] + ls[n + 1..]);
    SaidCons(ls[n], ls[n + 1..]);
    assert Said(ls)[n] == Classify(ls[n]);
  }

  lemma {:induction false} DropAll(w: Writer, ls: seq<string>, m: Manifest)
    requires !Table(w.section) && |ls| > 1 && ls[0] == "" && OnlyTables(Said(ls)) && Classify(ls[1]).Header?
    ensures var v := RewriteFrom(w, ls, m); v.out == w.out + [""] && v.sawPackage == w.sawPackage
  {
    OnlyTablesAt(ls, 1);
    OnlyTablesTail(ls, 2);
    DropBlock(w, ls[1], ls[2..], m);
    assert [""] + ([ls[1]] + ls[2..]) == ls;
  }

  /** Of all tables a rewrite keeps the blank line in front of them. */
  lemma {:induction false} RewriteTables(w: Writer, m: Manifest, m2: Manifest)
    requires Flat(m) && !Table(w.section)
    ensures var v := RewriteFrom(w, Tables(m), m2);
            v.out == w.out + (if HasTables(m) then [""] else []) && v.sawPackage == w.sawPackage
  {
    if HasTables(m) {
      FirstTable(m);
      TablesOnlyTables(m);
      ClassifyHeaders();
      DropAll(w, Tables(m), m2);
    } else {
      assert Tables(m) == [] && w.out + [] == w.out;
    }
  }

  // ---- The laws ----

  /** A second rewrite, with any manifest, of what the first one wrote. */
  lemma {:induction false} RewriteRewritten(ls: seq<string>, m: Manifest, m2: Manifest)
    requires Flat(m)
    ensures var v := Rewrite(Rewritten(ls, m), m2);
            && v.out == Body(Rewrite(ls, m2).out) + (if Adds(ls, m) then [PACKAGE_HEADER] + FreshKeys(m2, InPackage) else [])
                        + (if HasTables(m) then [""] else [])
            && (v.sawPackage <==> HasPackageHeader(ls) || m.package.Some?)
  {
    var start, body := Writer(Start, [], false), Body(Rewrite(ls, m).out);
    RetraceBody(ls, m, m2);
    SawPackageIff(ls, m);
    var v := Rewrite(body, m2);
    RewriteAppend(start, Top(ls, m), Tables(m), m2);
    if Adds(ls, m) {
      ClassifyHeaders();
      RewriteAppend(start, body, [PACKAGE_HEADER] + FreshKeys(m, InPackage), m2);
      RewriteHeader(v, PACKAGE_HEADER, InPackage, m, m2);
    } else {
      assert body + [] == body && v.out + [] == v.out;
    }
    RewriteTables(Rewrite(Top(ls, m), m2), m, m2);
  }

  lemma {:induction false} BodyBlank(top: seq<string>, tables: bool)
    ensures Body(top + if tables then [""] else []) == if tables then top else Body(top)
    ensures Body(top) == top <==> !EndsBlank(top)
  {
    if tables {
      assert (top + [""])[..|top|] == top;
    } else {
      assert top + [] == top;
    }
  }

  lemma {:induction false} TopAgain(ls: seq<string>, m: Manifest)
    requires Flat(m)
    ensures Top(Rewritten(ls, m), m) == if HasTables(m) then Top(ls, m) else Body(Top(ls, m))
  {
    var v := Rewrite(Rewritten(ls, m), m);
    RewriteRewritten(ls, m, m);
    SawPackageIff(ls, m);
    assert v.out == Top(ls, m) + if HasTables(m) then [""] else [];
    BodyBlank(Top(ls, m), HasTables(m));
    assert Body(v.out) + [] == Body(v.out);
  }

  /**
   Rewriting with the same manifest again changes nothing exactly when a table is written, or a
   package block is added, or the surviving lines of the old text do not end in two empty ones.
   */
  lemma {:induction false} RewriteAgainIff(ls: seq<string>, m: Manifest)
    requires Flat(m)
    ensures Rewritten(Rewritten(ls, m), m) == Rewritten(ls, m)
       <==> HasTables(m) || Adds(ls, m) || !EndsTwiceBlank(Survivors(ls, |ls|))
  {
    TopAgain(ls, m);
    BodyBlank(Top(ls, m), false);
    TopBlankIff(ls, m);
    if !HasTables(m) {
      NoTables(m);
      assert Top(ls, m) + [] == Top(ls, m) && Body(Top(ls, m)) + [] == Body(Top(ls, m));
    }
  }

  lemma {:induction false} NoTables(m: Manifest)
    requires !HasTables(m)
    ensures Tables(m) == []
  {
  }

  // ---- The writer as it runs ----

  lemma {:induction false} JoinedLines(out: seq<string>)
    requires out != []
    ensures Strings.Join(out, ['\n']) + ['\n'] == Terminated(out)
    decreases |out|
  {
    if |out| == 1 {
      assert out[1..] == [] && Terminated(out[1..]) == [];
      assert out[0] + ['\n'] + [] == out[0] + ['\n'];
    } else {
      var rest := Strings.Join(out[1..], ['\n']);
      JoinedLines(out[1..]);
      assert out[0] + (['\n'] + rest) + ['\n'] == out[0] + ['\n'] + (rest + ['\n']);
    }
  }

  /** No line of the output ends with a newline. */
  predicate NoNewlineLast(out: seq<string>) {
    out != [] ==> var l := out[|out| - 1]; l == "" || l[|l| - 1] != '\n'
  }

  lemma {:induction false} EmitsNoNewline(section: Section, raw: string, m: Manifest)
    requires OneLine(raw)
    ensures NoNewlineLast(Emits(section, raw, Classify(raw), m))
  {
    if m.package.Some? {
      var ps := PackagePairs(m.package.value);
      var l := Line1(ps[2].0, ps[2].1);
      assert LinesOf(ps)[|LinesOf(ps)| - 1] == l;
      assert l[|l| - 1] == '"';
    }
  }

  lemma {:induction false} RewriteNoNewline(ls: seq<string>, m: Manifest)
    requires forall i :: 0 <= i < |ls| ==> OneLine(ls[i])
    ensures NoNewlineLast(Rewrite(ls, m).out)
    decreases |ls|
  {
    if ls != [] {
      var n := |ls| - 1;
      var w := Rewrite(ls[..n], m);
      RewriteNoNewline(ls[..n], m);
      EmitsNoNewline(w.section, ls[n], m);
      assert Emits(w.section, ls[n], Classify(ls[n]), m) == [] ==> w.out + [] == w.out;
    }
  }

  lemma {:induction false} JoinEnds(out: seq<string>)
    requires out != [] && NoNewlineLast(out)
    ensures var s := Strings.Join(out, ['\n']);
            (s == [] || s[|s| - 1] == '\n' <==> EndsBlank(out)) && (EndsBlank(out) ==> s == Terminated(Body(out)))
    decreases |out|
  {
    if |out| > 1 {
      JoinEnds(out[1..]);
      if EndsBlank(out) {
        assert Body(out)[0] == out[0] && Body(out)[1..] == Body(out[1..]);
      }
    }
  }

  /** Joins the kept lines and ends the text with a newline unless it has one. */
  method JoinBody(out: seq<string>) returns (content: string)
    requires NoNewlineLast(out)
    ensures content == Terminated(Body(out))
  {
    content := Strings.Join(out, ['\n']);
    if out != [] {
      JoinEnds(out);
      JoinedLines(out);
    }
    if content != [] && content[|content| - 1] != '\n' {
      content := content + ['\n'];
    }
  }

  /** A table behind what is written, with the blank line that follows it for the moment. */
  lemma {:induction false} OneMoreTable(base: string, before: seq<string>, block: seq<string>)
    ensures base + Terminated(before) + ['\n'] + Terminated(block) + ['\n'] == base + Terminated(before + ([""] + block)) + ['\n']
  {
    TerminatedAppend(before, [""] + block);
    assert ([""] + block)[1..] == block;
    assert [] + ['\n'] + Terminated(block) == ['\n'] + Terminated(block);
  }

  method AddRepositories(base: string, rs: seq<Repository>) returns (content: string)
    ensures content == base + Terminated(RepositoryTables(rs))
  {
    content := base;
    if rs == [] { return; }
    content := content + ['\n'];
    for i := 0 to |rs|
      invariant content == base + Terminated(RepositoryTables(rs[..i])) + ['\n']
    {
      assert rs[..i + 1][..i] == rs[..i];
      OneMoreTable(base, RepositoryTables(rs[..i]), RepositoryLines(rs[i]));
      content := content + Terminated(RepositoryLines(rs[i])) + ['\n'];
    }
    assert rs[..|rs|] == rs;
    content := content[..|content| - 1];
  }

  method AddDependencies(base: string, ds: seq<Dependency>) returns (content: string)
    ensures content == base + Terminated(DependencyTables(ds))
  {
    content := base;
    if ds == [] { return; }
    content := content + ['\n'];
    for i := 0 to |ds|
      invariant content == base + Terminated(DependencyTables(ds[..i])) + ['\n']
    {
      assert ds[..i + 1][..i] == ds[..i];
      OneMoreTable(base, DependencyTables(ds[..i]), DependencyLines(ds[i]));
      content := content + Terminated(DependencyLines(ds[i])) + ['\n'];
    }
    assert ds[..|ds|] == ds;
    content := content[..|content| - 1];
  }

  /** The loop of `write_manifest` over the old lines. */
  method RewriteLines(ls: seq<string>, m: Manifest) returns (w: Writer)
    ensures w == Rewrite(ls, m)
  {
    w := Writer(Start, [], false);
    for i := 0 to |ls|
      invariant w == RewriteFrom(Writer(Start, [], false), ls[..i], m)
    {
      assert ls[..i + 1][..i] == ls[..i];
      w := WriteLine(w, ls[i], Classify(ls[i]), m);
    }
    assert ls[..|ls|] == ls;
  }

  /** `write_manifest` */
  method WriteManifest(text: string, m: Manifest) returns (content: string)
    ensures content == WriteText(text, m)
  {
    var ls := Lines(text);
    var w := RewriteLines(ls, m);
    LinesAreOneLine(text, []);
    RewriteNoNewline(ls, m);
    content := JoinBody(w.out);
    if !w.sawPackage && m.package.Some? {
      var block := [PACKAGE_HEADER] + PackageKeys(m.package.value);
      TerminatedAppend(Body(w.out), block);
      content := content + Terminated(block);
    } else {
      assert Body(w.out) + [] == Body(w.out);
    }
    assert content == Terminated(Top(ls, m));
    content := AddRepositories(content, m.repositories);
    content := AddDependencies(content, m.dependencies);
    WrittenParts(ls, m);
  }

  lemma {:induction false} WrittenParts(ls: seq<string>, m: Manifest)
    ensures Terminated(Rewritten(ls, m)) ==
            Terminated(Top(ls, m)) + Terminated(RepositoryTables(m.repositories)) + Terminated(DependencyTables(m.dependencies))
  {
    TerminatedParts(Top(ls, m), RepositoryTables(m.repositories), DependencyTables(m.dependencies));
  }

  lemma {:induction false} TerminatedParts(xs: seq<string>, ys: seq<string>, zs: seq<string>)
    ensures Terminated(xs + (ys + zs)) == Terminated(xs) + Terminated(ys) + Terminated(zs)
  {
    TerminatedAppend(xs, ys + zs);
    TerminatedAppend(ys, zs);
    assert Terminated(xs) + (Terminated(ys) + Terminated(zs)) == Terminated(xs) + Terminated(ys) + Terminated(zs);
  }
}
