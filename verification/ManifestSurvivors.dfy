/**
 Which lines of an old `tinox.toml` survive a rewrite, said by their place in the old text and
 without the writer: those outside dependency and repository tables other than the package's
 name, version and description.
 */
module ManifestSurvivors {
  import opened Wrappers
  import opened Packages
  import opened TomlLines
  import opened Manifests
  import opened ManifestLaws

  /** The section of the last header at or before line `i`. */
  function SectionAt(said: seq<Line>, i: nat): Section
    requires i < |said|
  {
    if said[i].Header? then said[i].section else if i == 0 then Start else SectionAt(said, i - 1)
  }

  /** Outside the tables, and not one of the package's three keys. */
  predicate Stays(said: seq<Line>, i: nat)
    requires i < |said|
  {
    var section := SectionAt(said, i);
    !Table(section) && !(section == InPackage && said[i].Pair? && Owned(said[i].key))
  }

  predicate Survives(ls: seq<string>, i: nat)
    requires i < |ls|
  {
    Stays(Said(ls), i)
  }

  /** The surviving ones of the first `n` lines, in order. */
  function Survivors(ls: seq<string>, n: nat): seq<string>
    requires n <= |ls|
  {
    if n == 0 then [] else Survivors(ls, n - 1) + if Survives(ls, n - 1) then [ls[n - 1]] else []
  }

  lemma {:induction false} NextSurvivor(ls: seq<string>, i: nat, l: string, chosen: bool)
    requires i < |ls| && l == ls[i] && (chosen <==> Survives(ls, i))
    ensures Survivors(ls, i + 1) == if chosen then Survivors(ls, i) + [l] else Survivors(ls, i)
  {
    assert Survivors(ls, i) + [] == Survivors(ls, i);
  }

  /** A kept line, and the package's three keys if it is a package header. */
  function WithKey(l: string, m: Manifest): (r: seq<string>)
    ensures r != [] && r[0] == l
  {
    [l] + if Classify(l) == Header(InPackage) then FreshKeys(m, InPackage) else []
  }

  function WithKeys(kept: seq<string>, m: Manifest): seq<string> {
    if kept == [] then [] else WithKeys(kept[..|kept| - 1], m) + WithKey(kept[|kept| - 1], m)
  }

  lemma {:induction false} WithKeysOne(kept: seq<string>, l: string, m: Manifest)
    ensures WithKeys(kept + [l], m) == WithKeys(kept, m) + WithKey(l, m)
  {
    assert (kept + [l])[..|kept|] == kept;
  }

  // ---- The writer keeps them ----

  lemma {:induction false} EmitsIff(ls: seq<string>, n: nat, section: Section, m: Manifest)
    requires n < |ls| && section == if n == 0 then Start else SectionAt(Said(ls), n - 1)
    ensures var line := Classify(ls[n]);
            && After(section, line) == SectionAt(Said(ls), n)
            && Emits(section, ls[n], line, m) ==
               if Survives(ls, n) then WithKey(ls[n], m) else []
  {
    SaidAt(ls, n);
    assert [ls[n]] + [] == [ls[n]];
  }

  lemma {:induction false} RewriteSurvivors(ls: seq<string>, n: nat, m: Manifest)
    requires n <= |ls|
    ensures var w := Rewrite(ls[..n], m);
            && w.out == WithKeys(Survivors(ls, n), m)
            && w.section == if n == 0 then Start else SectionAt(Said(ls), n - 1)
    decreases n
  {
    if n > 0 {
      RewriteSurvivors(ls, n - 1, m);
      assert ls[..n][..n - 1] == ls[..n - 1];
      var w := Rewrite(ls[..n - 1], m);
      EmitsIff(ls, n - 1, w.section, m);
      if Survives(ls, n - 1) {
        WithKeysOne(Survivors(ls, n - 1), ls[n - 1], m);
      } else {
        assert w.out + [] == w.out && Survivors(ls, n - 1) + [] == Survivors(ls, n - 1);
      }
    }
  }

  // ---- The line that is lost at the end ----

  predicate EndsBlank(out: seq<string>) { out != [] && out[|out| - 1] == "" }

  lemma {:induction false} KeysNotBlank(m: Manifest, raw: string, next: Section)
    requires Classify(raw) == Header(next)
    ensures !EndsBlank([raw] + FreshKeys(m, next))
  {
    ClassifyHeaders();
    if next == InPackage && m.package.Some? {
      var ps := PackagePairs(m.package.value);
      assert LinesOf(ps)[|LinesOf(ps)| - 1] == Line1(ps[2].0, ps[2].1);
    }
  }

  lemma {:induction false} WithKeysBlank(kept: seq<string>, m: Manifest)
    ensures EndsBlank(WithKeys(kept, m)) <==> EndsBlank(kept)
    ensures Body(WithKeys(kept, m)) == WithKeys(Body(kept), m)
  {
    if kept != [] {
      var n := |kept| - 1;
      var l := kept[n];
      ClassifyHeaders();
      if Classify(l) == Header(InPackage) {
        KeysNotBlank(m, l, InPackage);
      } else {
        assert WithKeys(kept, m) == WithKeys(kept[..n], m) + [l];
      }
    }
  }

  predicate Adds(ls: seq<string>, m: Manifest) { !HasPackageHeader(ls) && m.package.Some? }

  function AddedPackage(ls: seq<string>, m: Manifest): seq<string> {
    if Adds(ls, m) then [PACKAGE_HEADER] + PackageKeys(m.package.value) else []
  }

  lemma {:induction false} TopIs(ls: seq<string>, m: Manifest)
    ensures Top(ls, m) == WithKeys(Body(Survivors(ls, |ls|)), m) + AddedPackage(ls, m)
  {
    assert ls[..|ls|] == ls;
    RewriteSurvivors(ls, |ls|, m);
    SawPackageIff(ls, m);
    WithKeysBlank(Survivors(ls, |ls|), m);
  }

  /**
   What a rewrite writes, for every old text and every manifest: the surviving lines in order,
   less one empty line at their end, with fresh keys behind each package header; a package
   block if there was no header; and the tables.
   */
  lemma {:induction false} SurvivorsStay(text: string, m: Manifest)
    ensures var ls := Lines(text);
            WriteText(text, m) == Terminated(WithKeys(Body(Survivors(ls, |ls|)), m) + AddedPackage(ls, m) + Tables(m))
  {
    TopIs(Lines(text), m);
  }

  /** These are also the lines read from it, less a carriage return at the end of one. */
  lemma {:induction false} SurvivorsRead(text: string, m: Manifest)
    requires Flat(m)
    ensures var ls := Lines(text);
            Lines(WriteText(text, m)) ==
            StripCrs(WithKeys(Body(Survivors(ls, |ls|)), m) + AddedPackage(ls, m) + Tables(m))
  {
    LinesWritten(text, m);
    TopIs(Lines(text), m);
  }

  lemma {:induction false} PrefixMore(xs: seq<string>, ys: seq<string>, zs: seq<string>)
    requires xs <= ys
    ensures xs <= ys + zs
  {
  }

  lemma {:induction false} WithKeysPrefix(kept: seq<string>, m: Manifest, i: nat)
    requires i <= |kept|
    ensures WithKeys(kept[..i], m) <= WithKeys(kept, m)
    decreases |kept|
  {
    if i < |kept| {
      var n := |kept| - 1;
      WithKeysPrefix(kept[..n], m, i);
      assert kept[..n][..i] == kept[..i];
      PrefixMore(WithKeys(kept[..i], m), WithKeys(kept[..n], m), WithKey(kept[n], m));
    } else {
      assert kept[..i] == kept;
    }
  }

  lemma {:induction false} StandsBehind(before: seq<string>, more: seq<string>, whole: seq<string>)
    requires more != [] && before + more <= whole
    ensures |before| < |whole| && whole[|before|] == more[0]
  {
    assert (before + more)[|before|] == more[0];
  }

  /** Each kept line stands behind what is written for the ones before it. */
  lemma {:induction false} KeptStands(kept: seq<string>, m: Manifest, i: nat)
    requires i < |kept|
    ensures var p := |WithKeys(kept[..i], m)|; p < |WithKeys(kept, m)| && WithKeys(kept, m)[p] == kept[i]
  {
    WithKeysPrefix(kept, m, i + 1);
    assert kept[..i + 1] == kept[..i] + [kept[i]];
    WithKeysOne(kept[..i], kept[i], m);
    StandsBehind(WithKeys(kept[..i], m), WithKey(kept[i], m), WithKeys(kept, m));
  }

  /** Without a package to write, they are all that is written before the tables. */
  lemma {:induction false} NoKeys(kept: seq<string>, m: Manifest)
    requires m.package.None?
    ensures WithKeys(kept, m) == kept
    decreases |kept|
  {
    if kept != [] {
      var n := |kept| - 1;
      NoKeys(kept[..n], m);
      assert kept == kept[..n] + [kept[n]] && [kept[n]] + [] == [kept[n]];
    }
  }

  /** The last two lines are empty. */
  predicate EndsTwiceBlank(kept: seq<string>) { |kept| >= 2 && kept[|kept| - 1] == kept[|kept| - 2] == "" }

  lemma {:induction false} TopBlankIff(ls: seq<string>, m: Manifest)
    ensures EndsBlank(Top(ls, m)) <==> !Adds(ls, m) && EndsTwiceBlank(Survivors(ls, |ls|))
  {
    var kept := Survivors(ls, |ls|);
    TopIs(ls, m);
    if Adds(ls, m) {
      ClassifyHeaders();
      KeysNotBlank(m, PACKAGE_HEADER, InPackage);
      assert !EndsBlank(AddedPackage(ls, m)) && AddedPackage(ls, m) != [];
    } else {
      WithKeysBlank(Body(kept), m);
      assert WithKeys(Body(kept), m) + [] == WithKeys(Body(kept), m);
    }
  }
}
