/**
 Writing the same manifest into a text twice: what survives of a text that was written, and
 when the second write changes nothing.
 */
module ManifestReruns {
  import opened Wrappers
  import opened Packages
  import opened TomlLines
  import opened Manifests
  import opened ManifestLaws
  import opened ManifestSurvivors
  import opened ManifestRewrites

  /** Of what was written the old lines survive again, with the header and the blank line that came with it. */
  lemma {:induction false} SurvivorsAgain(ls: seq<string>, m: Manifest)
    requires Flat(m)
    ensures var out := Rewritten(ls, m);
            Survivors(out, |out|) ==
            Body(Survivors(ls, |ls|)) + (if Adds(ls, m) then [PACKAGE_HEADER] else []) + (if HasTables(m) then [""] else [])
  {
    var none := Manifest(None, [], []);
    RewriteRewritten(ls, m, none);
    KeepOnly(ls, none);
    KeepOnly(Rewritten(ls, m), none);
    assert [PACKAGE_HEADER] + FreshKeys(none, InPackage) == [PACKAGE_HEADER];
  }

  /** Without a package to write, the survivors are all that a rewrite puts out. */
  lemma {:induction false} KeepOnly(ls: seq<string>, m: Manifest)
    requires m.package.None?
    ensures Rewrite(ls, m).out == Survivors(ls, |ls|)
  {
    assert ls[..|ls|] == ls;
    RewriteSurvivors(ls, |ls|, m);
    NoKeys(Survivors(ls, |ls|), m);
  }

  // ---- Without carriage returns ----

  /** No line ends with a carriage return. */
  predicate NoCr(ls: seq<string>) { forall i :: 0 <= i < |ls| ==> StripCr(ls[i]) == ls[i] }

  lemma {:induction false} WithKeyFits(l: string, m: Manifest)
    requires Flat(m) && AllFit([l], true)
    ensures AllFit(WithKey(l, m), true)
  {
    if m.package.Some? {
      PairsFit(PackagePairs(m.package.value), true);
      AppendFit([l], PackageKeys(m.package.value), true);
    }
  }

  lemma {:induction false} WithKeysFit(kept: seq<string>, m: Manifest)
    requires Flat(m) && AllFit(kept, true)
    ensures AllFit(WithKeys(kept, m), true)
    decreases |kept|
  {
    if kept != [] {
      var n := |kept| - 1;
      WithKeysFit(kept[..n], m);
      WithKeyFits(kept[n], m);
      AppendFit(WithKeys(kept[..n], m), WithKey(kept[n], m), true);
    }
  }

  lemma {:induction false} SurvivorsOneLine(ls: seq<string>, n: nat)
    requires n <= |ls| && AllFit(ls, false)
    ensures AllFit(Survivors(ls, n), false)
  {
    if n > 0 {
      SurvivorsOneLine(ls, n - 1);
    }
  }

  lemma {:induction false} AddedFit(ls: seq<string>, m: Manifest)
    requires Flat(m)
    ensures AllFit(AddedPackage(ls, m) + Tables(m), true)
  {
    if m.package.Some? {
      PairsFit(PackagePairs(m.package.value), true);
      AppendFit([PACKAGE_HEADER], PackageKeys(m.package.value), true);
    }
    RepositoriesFit(m.repositories, true);
    DependenciesFit(m.dependencies, true);
    AppendFit(RepositoryTables(m.repositories), DependencyTables(m.dependencies), true);
    AppendFit(AddedPackage(ls, m), Tables(m), true);
  }

  lemma {:induction false} WrittenFit(ls: seq<string>, m: Manifest)
    requires Flat(m) && AllFit(ls, false) && NoCr(Survivors(ls, |ls|))
    ensures AllFit(Rewritten(ls, m), true)
  {
    var kept := Survivors(ls, |ls|);
    SurvivorsOneLine(ls, |ls|);
    BodyFit(kept);
    WithKeysFit(Body(kept), m);
    AddedFit(ls, m);
    TopIs(ls, m);
    ThreeFit(WithKeys(Body(kept), m), AddedPackage(ls, m), Tables(m));
  }

  lemma {:induction false} ThreeFit(xs: seq<string>, ys: seq<string>, zs: seq<string>)
    requires AllFit(xs, true) && AllFit(ys + zs, true)
    ensures AllFit(xs + ys + zs, true)
  {
    AppendFit(xs, ys + zs, true);
    assert xs + (ys + zs) == xs + ys + zs;
  }

  lemma {:induction false} BodyFit(kept: seq<string>)
    requires AllFit(kept, false) && NoCr(kept)
    ensures AllFit(Body(kept), true)
  {
  }

  lemma {:induction false} TerminatedSame(xs: seq<string>, ys: seq<string>)
    requires AllFit(xs, true) && AllFit(ys, true)
    ensures Terminated(xs) == Terminated(ys) <==> xs == ys
  {
    LinesOfTerminated(xs);
    LinesOfTerminated(ys);
    assert StripCrs(xs) == xs && StripCrs(ys) == ys;
  }

  lemma {:induction false} SameAgainIff(ls: seq<string>, m: Manifest)
    requires Flat(m) && AllFit(ls, false) && NoCr(Survivors(ls, |ls|))
    ensures var out := Rewritten(ls, m);
            Terminated(Rewritten(StripCrs(out), m)) == Terminated(out)
            <==> HasTables(m) || Adds(ls, m) || !EndsTwiceBlank(Survivors(ls, |ls|))
  {
    var out := Rewritten(ls, m);
    WrittenFit(ls, m);
    assert StripCrs(out) == out;
    RewrittenFit(out, m, true);
    TerminatedSame(Rewritten(out, m), out);
    RewriteAgainIff(ls, m);
  }

  // ---- With carriage returns ----

  /** The same lines are chosen of both. */
  lemma {:induction false} StripStep(a: seq<string>, a': seq<string>, b: seq<string>, b': seq<string>, l: string, chosen: bool)
    requires b == StripCrs(a)
    requires a' == if chosen then a + [l] else a
    requires b' == if chosen then b + [StripCr(l)] else b
    ensures b' == StripCrs(a')
  {
  }

  lemma {:induction false} SurvivorStripped(ls: seq<string>, r: seq<string>, i: nat, chosen: bool)
    requires i < |ls| && r == StripCrs(ls) && (chosen <==> Survives(ls, i)) && Survivors(r, i) == StripCrs(Survivors(ls, i))
    ensures Survivors(r, i + 1) == StripCrs(Survivors(ls, i + 1))
  {
    SaidStripped(ls);
    NextSurvivor(ls, i, ls[i], chosen);
    NextSurvivor(r, i, StripCr(ls[i]), chosen);
    StripStep(Survivors(ls, i), Survivors(ls, i + 1), Survivors(r, i), Survivors(r, i + 1), ls[i], chosen);
  }

  lemma {:induction false} SurvivorsStripped(ls: seq<string>, r: seq<string>, n: nat)
    requires n <= |ls| && r == StripCrs(ls)
    ensures Survivors(r, n) == StripCrs(Survivors(ls, n))
  {
    if n > 0 {
      var i := n - 1;
      SurvivorsStripped(ls, r, i);
      SurvivorStripped(ls, r, i, Survives(ls, i));
    }
  }

  function Size(ls: seq<string>): nat { |Terminated(ls)| }

  lemma {:induction false} SizeAppend(xs: seq<string>, ys: seq<string>)
    ensures Size(xs + ys) == Size(xs) + Size(ys)
  {
    TerminatedAppend(xs, ys);
  }

  lemma {:induction false} SizeBody(ls: seq<string>)
    ensures Size(Body(ls)) <= Size(ls)
  {
    if Body(ls) != ls {
      SizeAppend(Body(ls), [""]);
      assert ls == Body(ls) + [""];
    }
  }

  lemma {:induction false} WithKeyStripped(l: string, m: Manifest)
    ensures Size(WithKey(StripCr(l), m)) <= Size(WithKey(l, m))
    ensures StripCr(l) != l ==> Size(WithKey(StripCr(l), m)) < Size(WithKey(l, m))
  {
    var keys := if Classify(l) == Header(InPackage) then FreshKeys(m, InPackage) else [];
    ClassifyCr(l);
    SizeAppend([l], keys);
    SizeAppend([StripCr(l)], keys);
    assert [l][1..] == [] && [StripCr(l)][1..] == [];
  }

  /** Each carriage return that is lost makes the text shorter. */
  lemma {:induction false} WithKeysStripped(kept: seq<string>, m: Manifest)
    ensures Size(WithKeys(StripCrs(kept), m)) <= Size(WithKeys(kept, m))
    ensures !NoCr(kept) ==> Size(WithKeys(StripCrs(kept), m)) < Size(WithKeys(kept, m))
    decreases |kept|
  {
    if kept != [] {
      var n := |kept| - 1;
      WithKeysStripped(kept[..n], m);
      WithKeyStripped(kept[n], m);
      SizeLast(kept, kept[..n], kept[n], m);
      StripLast(kept);
      SizeLast(StripCrs(kept), StripCrs(kept[..n]), StripCr(kept[n]), m);
    }
  }

  lemma {:induction false} StripLast(kept: seq<string>)
    requires kept != []
    ensures var n := |kept| - 1; StripCrs(kept) == StripCrs(kept[..n]) + [StripCr(kept[n])]
    ensures NoCr(kept) <==> NoCr(kept[..|kept| - 1]) && StripCr(kept[|kept| - 1]) == kept[|kept| - 1]
  {
  }

  lemma {:induction false} SizeLast(kept: seq<string>, before: seq<string>, l: string, m: Manifest)
    requires kept == before + [l]
    ensures Size(WithKeys(kept, m)) == Size(WithKeys(before, m)) + Size(WithKey(l, m))
  {
    WithKeysOne(before, l, m);
    SizeAppend(WithKeys(before, m), WithKey(l, m));
  }

  lemma {:induction false} BodyCr(kept: seq<string>)
    requires !NoCr(kept)
    ensures !NoCr(Body(kept))
  {
    var i :| 0 <= i < |kept| && StripCr(kept[i]) != kept[i];
    assert Body(kept)[i] == kept[i];
  }

  lemma {:induction false} StripBody(kept: seq<string>)
    requires EndsBlank(kept)
    ensures Body(StripCrs(kept)) == StripCrs(Body(kept))
  {
    assert EndsBlank(StripCrs(kept));
  }

  lemma {:induction false} BodyStripped(kept: seq<string>, m: Manifest)
    requires !NoCr(kept)
    ensures Size(WithKeys(Body(StripCrs(kept)), m)) < Size(WithKeys(Body(kept), m))
  {
    if EndsBlank(kept) {
      StripBody(kept);
      BodyCr(kept);
      WithKeysStripped(Body(kept), m);
    } else {
      WithKeysStripped(kept, m);
      WithKeysBlank(StripCrs(kept), m);
      SizeBody(WithKeys(StripCrs(kept), m));
    }
  }

  lemma {:induction false} CrAgain(ls: seq<string>, m: Manifest)
    requires Flat(m) && !NoCr(Survivors(ls, |ls|))
    ensures var out := Rewritten(ls, m); !NoCr(Survivors(out, |out|))
  {
    var kept := Survivors(ls, |ls|);
    SurvivorsAgain(ls, m);
    BodyCr(kept);
    CrAppend(Body(kept), if Adds(ls, m) then [PACKAGE_HEADER] else []);
    CrAppend(Body(kept) + (if Adds(ls, m) then [PACKAGE_HEADER] else []), if HasTables(m) then [""] else []);
  }

  lemma {:induction false} CrAppend(xs: seq<string>, ys: seq<string>)
    requires !NoCr(xs)
    ensures !NoCr(xs + ys)
  {
    var i :| 0 <= i < |xs| && StripCr(xs[i]) != xs[i];
    assert (xs + ys)[i] == xs[i];
  }

  /** The lines of a rewrite, by what survives and what is added. */
  lemma {:induction false} SizeRewritten(ls: seq<string>, m: Manifest)
    ensures Size(Rewritten(ls, m)) ==
            Size(WithKeys(Body(Survivors(ls, |ls|)), m)) + Size(AddedPackage(ls, m)) + Size(Tables(m))
  {
    TopIs(ls, m);
    SizeAppend(WithKeys(Body(Survivors(ls, |ls|)), m), AddedPackage(ls, m));
    SizeAppend(Top(ls, m), Tables(m));
  }

  lemma {:induction false} SizeAgain(ls: seq<string>, m: Manifest)
    requires Flat(m)
    ensures Size(Rewritten(Rewritten(ls, m), m)) <= Size(Rewritten(ls, m))
  {
    TopAgain(ls, m);
    SizeBody(Top(ls, m));
    SizeAppend(Top(ls, m), Tables(m));
    SizeAppend(Body(Top(ls, m)), Tables(m));
  }

  lemma {:induction false} Shorter(ls: seq<string>, m: Manifest)
    requires Flat(m) && !NoCr(Survivors(ls, |ls|))
    ensures Size(Rewritten(StripCrs(Rewritten(ls, m)), m)) < Size(Rewritten(ls, m))
  {
    var out := Rewritten(ls, m);
    var read := StripCrs(out);
    CrAgain(ls, m);
    SurvivorsStripped(out, read, |out|);
    BodyStripped(Survivors(out, |out|), m);
    SizeRewritten(read, m);
    SizeRewritten(out, m);
    SaidStripped(out);
    SizeAgain(ls, m);
  }

  // ---- The law ----

  /**
   Writing the same manifest again changes nothing exactly when no surviving line of the old
   text ends with a carriage return, and a table is written, or a package block is added, or the
   surviving lines do not end in two empty ones.
   */
  lemma {:induction false} WriteAgainIff(text: string, m: Manifest)
    requires Flat(m)
    ensures var ls := Lines(text);
            WriteText(WriteText(text, m), m) == WriteText(text, m) <==>
            NoCr(Survivors(ls, |ls|)) && (HasTables(m) || Adds(ls, m) || !EndsTwiceBlank(Survivors(ls, |ls|)))
  {
    var ls := Lines(text);
    LinesAreOneLine(text, []);
    LinesWritten(text, m);
    if NoCr(Survivors(ls, |ls|)) {
      SameAgainIff(ls, m);
    } else {
      Shorter(ls, m);
    }
  }

  /** It can go wrong: of two empty lines one is lost each time. */
  lemma {:induction false} BlankLinesShrink(text: string, m: Manifest)
    requires text == "\n\n" && m == Manifest(None, [], [])
    ensures WriteText(WriteText(text, m), m) != WriteText(text, m)
  {
    TwoBlankLines(text);
    WriteAgainIff(text, m);
  }

  lemma {:induction false} TwoBlankLines(text: string)
    requires text == "\n\n"
    ensures var ls := Lines(text); EndsTwiceBlank(Survivors(ls, |ls|))
  {
    var ls := ["", ""];
    assert ls[1..][1..] == [] && ls[1..] == [""];
    assert Terminated(ls[1..]) == ['\n'];
    assert Terminated(ls) == text;
    LinesOfTerminated(ls);
    assert StripCrs(ls) == ls;
    BlanksSurvive(ls);
  }

  lemma {:induction false} BlanksSurvive(ls: seq<string>)
    requires ls == ["", ""]
    ensures EndsTwiceBlank(Survivors(ls, 2))
  {
    ClassifyHeaders();
    SaidAt(ls, 0);
    SaidAt(ls, 1);
    assert SectionAt(Said(ls), 0) == Start && SectionAt(Said(ls), 1) == Start;
    NextSurvivor(ls, 0, "", true);
    NextSurvivor(ls, 1, "", true);
  }

  // ---- A value with a newline ----

  lemma {:induction false} PackageKeysAre(p: Package)
    ensures PackageKeys(p) == [Line1(Name, p.name)] + [Line1(Version, p.version), Line1(Description, p.description)]
  {
    var x, y, z := (Name, p.name), (Version, p.version), (Description, p.description);
    assert [x, y, z][..2] == [x, y] && [x, y][..1] == [x];
    assert LinesOf([x]) == LinesOf([x][..0]) + [Line1(x.0, x.1)];
    assert LinesOf([x, y]) == LinesOf([x, y][..1]) + [Line1(y.0, y.1)];
  }

  /** A line with a newline in it is two lines of the text. */
  lemma {:induction false} CutLine(before: seq<string>, x: string, y: string, more: seq<string>)
    ensures Terminated(before + ([x + ['\n'] + y] + more)) == Terminated(before + ([x, y] + more))
  {
    TerminatedAppend(before, [x + ['\n'] + y] + more);
    TerminatedAppend(before, [x, y] + more);
    assert ([x + ['\n'] + y] + more)[1..] == more;
    assert ([x, y] + more)[1..] == [y] + more && ([y] + more)[1..] == more;
    assert x + ['\n'] + y + ['\n'] + Terminated(more) == x + ['\n'] + (y + ['\n'] + Terminated(more));
  }

  /** Half a setting is still the key's, and a quote by itself is nothing. */
  lemma {:induction false} ClassifyHalves()
    ensures Classify("name = \"").Pair? && Classify("name = \"").key == Name && Classify("\"") == Noise
  {
    KeyTextPlain(Name);
    KeyRead("name", "\"", "name = \"");
    TrimTight("\"");
    assert "\""[1..] == [];
  }

  predicate KeyLine(l: string) { Classify(l).Pair? && Owned(Classify(l).key) }

  /** Behind a package header at the start everything up to the next header is in that section. */
  lemma {:induction false} PackageSection(said: seq<Line>, n: nat)
    requires n < |said| && said[0] == Header(InPackage) && forall i :: 0 < i <= n ==> !said[i].Header?
    ensures SectionAt(said, n) == InPackage
  {
    if n > 0 {
      PackageSection(said, n - 1);
    }
  }

  lemma {:induction false} FirstAndThird(ls: seq<string>)
    requires |ls| == 5 && Survives(ls, 0) && !Survives(ls, 1) && Survives(ls, 2) && !Survives(ls, 3) && !Survives(ls, 4)
    ensures Survivors(ls, 5) == [ls[0]] + [ls[2]]
  {
    NextSurvivor(ls, 0, ls[0], true);
    NextSurvivor(ls, 1, ls[1], false);
    NextSurvivor(ls, 2, ls[2], true);
    NextSurvivor(ls, 3, ls[3], false);
    NextSurvivor(ls, 4, ls[4], false);
  }

  lemma {:induction false} SaidFive(ls: seq<string>)
    requires |ls| == 5
    ensures Said(ls) == [Classify(ls[0]), Classify(ls[1]), Classify(ls[2]), Classify(ls[3]), Classify(ls[4])]
  {
    SaidAt(ls, 0);
    SaidAt(ls, 1);
    SaidAt(ls, 2);
    SaidAt(ls, 3);
    SaidAt(ls, 4);
  }

  lemma {:induction false} PackageStays(said: seq<Line>, i: nat)
    requires i < |said| && said[0] == Header(InPackage) && forall j :: 0 < j < |said| ==> !said[j].Header?
    ensures Stays(said, i) <==> !(said[i].Pair? && Owned(said[i].key))
  {
    PackageSection(said, i);
  }

  /** A package section with the second half of a name in it: the header and that half survive. */
  lemma {:induction false} HalfSurvives(ls: seq<string>)
    requires |ls| == 5 && Classify(ls[0]) == Header(InPackage) && Classify(ls[2]) == Noise
    requires KeyLine(ls[1]) && KeyLine(ls[3]) && KeyLine(ls[4])
    ensures Survivors(ls, 5) == [ls[0]] + [ls[2]] && HasPackageHeader(ls)
  {
    var said := Said(ls);
    SaidFive(ls);
    PackageStays(said, 0);
    PackageStays(said, 1);
    PackageStays(said, 2);
    PackageStays(said, 3);
    PackageStays(said, 4);
    FirstAndThird(ls);
  }

  lemma {:induction false} WrittenOnce(m: Manifest)
    requires m.package.Some? && !HasTables(m)
    ensures WriteText("", m) == Terminated([PACKAGE_HEADER] + PackageKeys(m.package.value))
  {
    SurvivorsStay("", m);
    NoTables(m);
    var block := [PACKAGE_HEADER] + PackageKeys(m.package.value);
    assert [] + block + [] == block;
  }

  lemma {:induction false} WithKeysTwo(header: string, more: string, m: Manifest)
    requires Classify(header) == Header(InPackage) && Classify(more) == Noise && m.package.Some?
    ensures WithKeys([header] + [more], m) == [header] + PackageKeys(m.package.value) + [more]
  {
    WithKeysOne([], header, m);
    WithKeysOne([header], more, m);
    assert [] + [header] == [header] && [more] + [] == [more];
    assert [] + ([header] + PackageKeys(m.package.value)) == [header] + PackageKeys(m.package.value);
  }

  lemma {:induction false} TerminatedLast(block: seq<string>, l: string)
    ensures Terminated(block + [l] + [] + []) == Terminated(block) + (l + ['\n'])
  {
    TerminatedAppend(block, [l]);
    assert block + [l] + [] + [] == block + [l] && [l][1..] == [];
  }

  /** A kept package header and one more line. */
  lemma {:induction false} TwoKept(text: string, ls: seq<string>, header: string, more: string, m: Manifest)
    requires Lines(text) == ls && Survivors(ls, |ls|) == [header] + [more] && HasPackageHeader(ls)
    requires Classify(header) == Header(InPackage) && Classify(more) == Noise && more != "" && m.package.Some? && !HasTables(m)
    ensures WriteText(text, m) == Terminated([header] + PackageKeys(m.package.value)) + (more + ['\n'])
  {
    SurvivorsStay(text, m);
    NoTables(m);
    WithKeysTwo(header, more, m);
    TerminatedLast([header] + PackageKeys(m.package.value), more);
  }

  /** A text of four lines, the second of which has a newline in it, is read as five. */
  lemma {:induction false} ReadCut(text: string, ls: seq<string>)
    requires |ls| == 5 && AllFit(ls, true)
    requires text == Terminated([ls[0]] + ([ls[1] + ['\n'] + ls[2]] + [ls[3], ls[4]]))
    ensures Lines(text) == ls
  {
    CutLine([ls[0]], ls[1], ls[2], [ls[3], ls[4]]);
    assert ls == [ls[0]] + ([ls[1], ls[2]] + [ls[3], ls[4]]);
    LinesOfTerminated(ls);
    assert StripCrs(ls) == ls;
  }

  /** The lines read of a package whose name is a newline. */
  function Halves(): (ls: seq<string>)
    ensures |ls| == 5
  {
    [PACKAGE_HEADER, "name = \"", "\"", Line1(Version, ""), Line1(Description, "")]
  }

  lemma {:induction false} HalvesRead(m: Manifest)
    requires m == Manifest(Some(Package("\n", "", "")), [], [])
    ensures Lines(WriteText("", m)) == Halves()
  {
    HalvesWritten(m);
    HalvesFit();
    ReadCut(WriteText("", m), Halves());
  }

  lemma {:induction false} HalvesFit()
    ensures AllFit(Halves(), true)
  {
    LineFits(Version, "");
    LineFits(Description, "");
  }

  lemma {:induction false} HalvesWritten(m: Manifest)
    requires m == Manifest(Some(Package("\n", "", "")), [], [])
    ensures var ls := Halves();
            WriteText("", m) == Terminated([ls[0]] + ([ls[1] + ['\n'] + ls[2]] + [ls[3], ls[4]]))
  {
    PackageKeysAre(m.package.value);
    WrittenOnce(m);
    HalvesJoin();
  }

  lemma {:induction false} HalvesJoin()
    ensures Line1(Name, "\n") == Halves()[1] + ['\n'] + Halves()[2]
  {
  }

  lemma {:induction false} HalvesSay()
    ensures var ls := Halves();
            && Classify(ls[0]) == Header(InPackage) && Classify(ls[2]) == Noise
            && KeyLine(ls[1]) && KeyLine(ls[3]) && KeyLine(ls[4])
  {
    ClassifyHeaders();
    ClassifyHalves();
    ClassifyKey(Version, "");
    ClassifyKey(Description, "");
  }

  /** It can go wrong: the second half of a name with a newline is left behind each time. */
  lemma {:induction false} NewlineGrows(m: Manifest)
    requires m == Manifest(Some(Package("\n", "", "")), [], [])
    ensures var once := WriteText("", m); WriteText(once, m) == once + "\"\n"
  {
    HalvesRead(m);
    HalvesSay();
    WrittenOnce(m);
    HalfLeft(WriteText("", m), Halves(), m);
    assert Halves()[2] + ['\n'] == "\"\n";
  }

  lemma {:induction false} HalfLeft(text: string, ls: seq<string>, m: Manifest)
    requires Lines(text) == ls && |ls| == 5 && Classify(ls[0]) == Header(InPackage) && Classify(ls[2]) == Noise && ls[2] != ""
    requires KeyLine(ls[1]) && KeyLine(ls[3]) && KeyLine(ls[4]) && m.package.Some? && !HasTables(m)
    ensures WriteText(text, m) == Terminated([ls[0]] + PackageKeys(m.package.value)) + (ls[2] + ['\n'])
  {
    HalfSurvives(ls);
    TwoKept(text, ls, ls[0], ls[2], m);
  }
}
