/**
 Which lines of an old `tinox.toml` a rewrite keeps byte for byte. The text is cut at its
 newlines and nothing else is taken off, so a carriage return in front of a newline counts.
 */
module ManifestBytes {
  import opened CText
  import opened Wrappers
  import opened Packages
  import opened TomlLines
  import opened Manifests
  import opened ManifestLaws
  import opened ManifestSurvivors
  import opened ManifestRewrites

  // ---- The lines as they stand in the text ----

  /** The characters up to a newline or the end of the text, and whether there is a newline. */
  datatype RawLine = RawLine(chars: string, ended: bool)

  function Raw(text: string): seq<RawLine> { RawFrom(text, []) }

  function RawFrom(text: string, line: string): seq<RawLine>
    decreases |text|
  {
    if text == [] then (if line == [] then [] else [RawLine(line, false)])
    else if text[0] == '\n' then [RawLine(line, true)] + RawFrom(text[1..], [])
    else RawFrom(text[1..], line + [text[0]])
  }

  function RawText(rs: seq<RawLine>): string {
    if rs == [] then [] else rs[0].chars + (if rs[0].ended then ['\n'] else []) + RawText(rs[1..])
  }

  /** Put together again they are the text, every byte of it. */
  lemma {:induction false} RawWhole(text: string, line: string)
    ensures RawText(RawFrom(text, line)) == line + text
    decreases |text|
  {
    var rs := RawFrom(text, line);
    if text == [] {
      if line != [] {
        assert rs[1..] == [];
      }
    } else if text[0] == '\n' {
      RawWhole(text[1..], []);
      assert rs[1..] == RawFrom(text[1..], []);
      assert [] + text[1..] == text[1..];
      assert line + ['\n'] + text[1..] == line + text;
    } else {
      RawWhole(text[1..], line + [text[0]]);
      assert line + [text[0]] + text[1..] == line + text;
    }
  }

  /** What the line splitter makes of a raw line. */
  function AsLine(r: RawLine): string { if r.ended then StripCr(r.chars) else r.chars }

  lemma {:induction false} RawLines(text: string, line: string)
    ensures var ls, rs := LinesFrom(text, line), RawFrom(text, line);
            |ls| == |rs| && forall i :: 0 <= i < |rs| ==> ls[i] == AsLine(rs[i])
    decreases |text|
  {
    if text != [] {
      RawLines(text[1..], if text[0] == '\n' then [] else line + [text[0]]);
    }
  }

  /** A carriage return in front of the newline. */
  predicate CrLf(r: RawLine) { r.ended && r.chars != [] && r.chars[|r.chars| - 1] == '\r' }

  // ---- Where a surviving line stands ----

  /** How many lines before line `i` survive. */
  function Rank(ls: seq<string>, i: nat): nat
    requires i <= |ls|
  {
    |Survivors(ls, i)|
  }

  lemma {:induction false} SurvivorsGrow(ls: seq<string>, i: nat, n: nat)
    requires i <= n <= |ls|
    ensures Survivors(ls, i) <= Survivors(ls, n)
    decreases n
  {
    if i < n {
      SurvivorsGrow(ls, i, n - 1);
      NextSurvivor(ls, n - 1, ls[n - 1], Survives(ls, n - 1));
      PrefixMore(Survivors(ls, i), Survivors(ls, n - 1), [ls[n - 1]]);
    }
  }

  lemma {:induction false} PrefixAt(before: seq<string>, l: string, whole: seq<string>)
    requires before + [l] <= whole
    ensures |before| < |whole| && whole[..|before|] == before && whole[|before|] == l
  {
    assert (before + [l])[|before|] == l;
    assert (before + [l])[..|before|] == before;
  }

  lemma {:induction false} SurvivorAt(ls: seq<string>, i: nat, n: nat)
    requires i < n <= |ls| && Survives(ls, i)
    ensures var kept := Survivors(ls, n);
            Rank(ls, i) < |kept| && kept[..Rank(ls, i)] == Survivors(ls, i) && kept[Rank(ls, i)] == ls[i]
  {
    NextSurvivor(ls, i, ls[i], true);
    SurvivorsGrow(ls, i + 1, n);
    PrefixAt(Survivors(ls, i), ls[i], Survivors(ls, n));
  }

  /** Line `i` is an empty one behind which nothing survives. */
  predicate LastBlank(ls: seq<string>, i: nat)
    requires i < |ls|
  {
    ls[i] == "" && Rank(ls, i) + 1 == Rank(ls, |ls|)
  }

  /** Everything written for the survivors before line `i`: the line's place in the new text. */
  function PlaceAt(ls: seq<string>, i: nat, m: Manifest): nat
    requires i <= |ls|
  {
    |Terminated(WithKeys(Survivors(ls, i), m))|
  }

  /** Raw line `i` stands at its place in the new text, byte for byte, with a newline behind it. */
  predicate Stands(text: string, m: Manifest, i: nat)
    requires i < |Lines(text)| == |Raw(text)|
  {
    Occurs(WriteText(text, m), PlaceAt(Lines(text), i, m), Raw(text)[i].chars + ['\n'])
  }

  /** What is written behind the survivors. */
  function Behind(ls: seq<string>, m: Manifest): seq<string> { AddedPackage(ls, m) + Tables(m) }

  lemma {:induction false} WrittenAs(text: string, m: Manifest)
    ensures var ls := Lines(text);
            WriteText(text, m) == Terminated(WithKeys(Body(Survivors(ls, |ls|)), m)) + Terminated(Behind(ls, m))
  {
    var ls := Lines(text);
    SurvivorsStay(text, m);
    TerminatedThree(WithKeys(Body(Survivors(ls, |ls|)), m), AddedPackage(ls, m), Tables(m));
  }

  lemma {:induction false} TerminatedThree(xs: seq<string>, ys: seq<string>, zs: seq<string>)
    ensures Terminated(xs + ys + zs) == Terminated(xs) + Terminated(ys + zs)
  {
    TerminatedAppend(xs, ys + zs);
    assert xs + (ys + zs) == xs + ys + zs;
  }

  /** A kept line and what is behind it, in the text written for all kept lines. */
  lemma {:induction false} KeptText(kept: seq<string>, m: Manifest, j: nat)
    requires j < |kept|
    ensures Occurs(Terminated(WithKeys(kept, m)), |Terminated(WithKeys(kept[..j], m))|, kept[j] + ['\n'])
  {
    var before, line, out := WithKeys(kept[..j], m), WithKey(kept[j], m), WithKeys(kept, m);
    WithKeysPrefix(kept, m, j + 1);
    assert kept[..j + 1] == kept[..j] + [kept[j]];
    WithKeysOne(kept[..j], kept[j], m);
    assert before + line <= out;
    var rest := out[|before + line|..];
    assert out == before + (line + rest);
    LineFirst(before, line + rest);
  }

  lemma {:induction false} LineFirst(before: seq<string>, lines: seq<string>)
    requires lines != []
    ensures Occurs(Terminated(before + lines), |Terminated(before)|, lines[0] + ['\n'])
  {
    TerminatedAppend(before, lines);
    var whole := lines[0] + ['\n'] + Terminated(lines[1..]);
    assert Terminated(lines) == whole;
    OccursItself(Terminated(before), lines[0] + ['\n'], Terminated(lines[1..]));
  }

  lemma {:induction false} OccursItself(a: string, b: string, c: string)
    ensures Occurs(a + (b + c), |a|, b)
  {
  }

  lemma {:induction false} OccursLonger(s: string, more: string, p: nat, t: string)
    requires Occurs(s, p, t)
    ensures Occurs(s + more, p, t)
  {
  }

  lemma {:induction false} OccursBehind(s: string, more: string, t: string)
    ensures Occurs(s + more, |s|, t) <==> Occurs(more, 0, t)
  {
    if Occurs(s + more, |s|, t) {
      forall k | 0 <= k < |t| ensures more[0 + k] == t[k] {
        assert (s + more)[|s| + k] == more[k];
      }
    }
    if Occurs(more, 0, t) {
      forall k | 0 <= k < |t| ensures (s + more)[|s| + k] == t[k] {
        assert more[0 + k] == t[k];
      }
    }
  }

  /** Of two lines that begin alike the one that ends first stands where both should. */
  lemma {:induction false} NotBoth(s: string, p: nat, line: string)
    requires Occurs(s, p, line + ['\n'])
    ensures !Occurs(s, p, line + ['\r'] + ['\n'])
  {
    var t, u := line + ['\n'], line + ['\r'] + ['\n'];
    var n: nat := |line|;
    assert t[n] == '\n' && u[n] == '\r';
    OccursAt(s, p, t, n);
    if Occurs(s, p, u) {
      OccursAt(s, p, u, n);
      assert false;
    }
  }

  /** A table comes next behind the survivors. */
  predicate TableNext(ls: seq<string>, m: Manifest) { !Adds(ls, m) && HasTables(m) }

  lemma {:induction false} FirstBehind(ls: seq<string>, m: Manifest)
    ensures var lines := Behind(ls, m);
            if Adds(ls, m) then lines != [] && lines[0] == PACKAGE_HEADER
            else if HasTables(m) then lines != [] && lines[0] == ""
            else lines == []
  {
    if !Adds(ls, m) {
      assert Behind(ls, m) == Tables(m);
      if HasTables(m) {
        FirstTable(m);
      } else {
        NoTables(m);
      }
    }
  }

  /** What is written there begins with a newline exactly if it begins with a table. */
  lemma {:induction false} BehindFirst(ls: seq<string>, m: Manifest)
    ensures Occurs(Terminated(Behind(ls, m)), 0, "\n") <==> TableNext(ls, m)
    ensures !Occurs(Terminated(Behind(ls, m)), 0, "\r\n")
  {
    FirstBehind(ls, m);
    FirstChar(Behind(ls, m));
  }

  lemma {:induction false} FirstChar(lines: seq<string>)
    requires lines != [] ==> lines[0] == PACKAGE_HEADER || lines[0] == ""
    ensures Occurs(Terminated(lines), 0, "\n") <==> lines != [] && lines[0] == ""
    ensures !Occurs(Terminated(lines), 0, "\r\n")
  {
    var s, lf, crLf := Terminated(lines), "\n", "\r\n";
    assert lf[0] == '\n' && crLf[0] == '\r';
    if lines != [] {
      assert s[0 + 0] == if lines[0] == "" then '\n' else '[';
    }
  }

  // ---- Exactly which lines stand ----

  lemma {:induction false} BodyAt(kept: seq<string>, j: nat)
    requires j < |kept| && (kept[j] == "" ==> j + 1 != |kept|)
    ensures j < |Body(kept)| && Body(kept)[..j] == kept[..j] && Body(kept)[j] == kept[j]
  {
  }

  /** As the lines are read, without a carriage return in front of a newline. */
  lemma {:induction false} LineStands(text: string, m: Manifest, i: nat)
    requires i < |Lines(text)| && Survives(Lines(text), i) && !LastBlank(Lines(text), i)
    ensures Occurs(WriteText(text, m), PlaceAt(Lines(text), i, m), Lines(text)[i] + ['\n'])
  {
    var ls := Lines(text);
    var kept, j := Survivors(ls, |ls|), Rank(ls, i);
    SurvivorAt(ls, i, |ls|);
    BodyAt(kept, j);
    KeptText(Body(kept), m, j);
    WrittenAs(text, m);
    OccursLonger(Terminated(WithKeys(Body(kept), m)), Terminated(Behind(ls, m)), PlaceAt(ls, i, m), ls[i] + ['\n']);
  }

  /** The place of a last empty line is that of what is written behind the survivors. */
  lemma {:induction false} LastBlankStands(text: string, m: Manifest, i: nat, t: string)
    requires i < |Lines(text)| && Survives(Lines(text), i) && LastBlank(Lines(text), i)
    ensures Occurs(WriteText(text, m), PlaceAt(Lines(text), i, m), t) <==> Occurs(Terminated(Behind(Lines(text), m)), 0, t)
  {
    var ls := Lines(text);
    var kept := Survivors(ls, |ls|);
    SurvivorAt(ls, i, |ls|);
    assert Body(kept) == kept[..Rank(ls, i)] == Survivors(ls, i);
    WrittenAs(text, m);
    OccursBehind(Terminated(WithKeys(Body(kept), m)), Terminated(Behind(ls, m)), t);
  }

  /**
   For every old text and every manifest, a surviving line stands byte for byte at its place in
   the new text exactly when it does not end in a carriage return and a newline, and is not an
   empty line behind which nothing survives; that one is lost unless a table comes next.
   */
  lemma {:induction false} StandsIff(text: string, m: Manifest, i: nat)
    requires i < |Lines(text)| && Survives(Lines(text), i)
    ensures |Raw(text)| == |Lines(text)|
    ensures Stands(text, m, i) <==>
            !CrLf(Raw(text)[i]) && (LastBlank(Lines(text), i) ==> TableNext(Lines(text), m))
  {
    RawAs(text, i);
    if LastBlank(Lines(text), i) {
      LastBlankIff(text, m, i, CrLf(Raw(text)[i]), Raw(text)[i].chars + ['\n']);
    } else {
      LineStands(text, m, i);
      NotBoth(WriteText(text, m), PlaceAt(Lines(text), i, m), Lines(text)[i]);
    }
  }

  /** A raw line is the line as it is read, and the carriage return if there was one. */
  lemma {:induction false} RawAs(text: string, i: nat)
    requires i < |Lines(text)|
    ensures |Raw(text)| == |Lines(text)|
    ensures Raw(text)[i].chars == if CrLf(Raw(text)[i]) then Lines(text)[i] + ['\r'] else Lines(text)[i]
  {
    RawLines(text, []);
    assert Lines(text)[i] == AsLine(Raw(text)[i]);
  }

  lemma {:induction false} LastBlankIff(text: string, m: Manifest, i: nat, cr: bool, t: string)
    requires i < |Lines(text)| && Survives(Lines(text), i) && LastBlank(Lines(text), i)
    requires t == if cr then "\r\n" else "\n"
    ensures Occurs(WriteText(text, m), PlaceAt(Lines(text), i, m), t) <==> !cr && TableNext(Lines(text), m)
  {
    LastBlankStands(text, m, i, t);
    BehindFirst(Lines(text), m);
  }

  ghost predicate AllStand(text: string, m: Manifest)
    requires |Lines(text)| == |Raw(text)|
  {
    forall i :: 0 <= i < |Lines(text)| && Survives(Lines(text), i) ==> Stands(text, m, i)
  }

  ghost predicate SurvivingCrLf(text: string)
    requires |Lines(text)| == |Raw(text)|
  {
    exists i :: 0 <= i < |Lines(text)| && Survives(Lines(text), i) && CrLf(Raw(text)[i])
  }

  /** The last of the survivors is some line of the old text. */
  lemma {:induction false} LastSurvivor(ls: seq<string>, n: nat) returns (i: nat)
    requires n <= |ls| && Survivors(ls, n) != []
    ensures i < n && Survives(ls, i) && Rank(ls, i) + 1 == Rank(ls, n)
    decreases n
  {
    var chosen := Survives(ls, n - 1);
    NextSurvivor(ls, n - 1, ls[n - 1], chosen);
    i := n - 1;
    if !chosen {
      i := LastSurvivor(ls, n - 1);
    }
  }

  /**
   So all of them do, as the writer's documentation promises, exactly when no surviving line ends
   in a carriage return and a newline, and the last one is not empty or a table comes next.
   */
  lemma {:induction false} AllStandIff(text: string, m: Manifest)
    ensures |Raw(text)| == |Lines(text)|
    ensures var ls := Lines(text);
            AllStand(text, m) <==>
            !SurvivingCrLf(text) && (EndsBlank(Survivors(ls, |ls|)) ==> TableNext(ls, m))
  {
    var ls := Lines(text);
    RawLines(text, []);
    if AllStand(text, m) {
      NoneLost(text, m);
    }
    if !SurvivingCrLf(text) && (EndsBlank(Survivors(ls, |ls|)) ==> TableNext(ls, m)) {
      forall i | 0 <= i < |ls| && Survives(ls, i) ensures Stands(text, m, i) {
        Spared(text, m, i);
      }
    }
  }

  lemma {:induction false} Spared(text: string, m: Manifest, i: nat)
    requires |Raw(text)| == |Lines(text)| && !SurvivingCrLf(text)
    requires EndsBlank(Survivors(Lines(text), |Lines(text)|)) ==> TableNext(Lines(text), m)
    requires i < |Lines(text)| && Survives(Lines(text), i)
    ensures Stands(text, m, i)
  {
    if LastBlank(Lines(text), i) {
      LastBlankEnds(Lines(text), i);
    }
    assert !CrLf(Raw(text)[i]);
    StandsIff(text, m, i);
  }

  lemma {:induction false} LastBlankEnds(ls: seq<string>, i: nat)
    requires i < |ls| && Survives(ls, i) && LastBlank(ls, i)
    ensures EndsBlank(Survivors(ls, |ls|))
  {
    SurvivorAt(ls, i, |ls|);
  }

  lemma {:induction false} NoneLost(text: string, m: Manifest)
    requires |Raw(text)| == |Lines(text)| && AllStand(text, m)
    ensures var ls := Lines(text);
            !SurvivingCrLf(text) && (EndsBlank(Survivors(ls, |ls|)) ==> TableNext(ls, m))
  {
    var ls := Lines(text);
    if SurvivingCrLf(text) {
      var i :| 0 <= i < |ls| && Survives(ls, i) && CrLf(Raw(text)[i]);
      StandsIff(text, m, i);
    }
    if EndsBlank(Survivors(ls, |ls|)) {
      var i := LastSurvivor(ls, |ls|);
      SurvivorAt(ls, i, |ls|);
      StandsIff(text, m, i);
    }
  }

  lemma {:induction false} RawEnded(more: string, line: string)
    requires OneLine(more)
    ensures RawFrom(more + ['\n'], line) == [RawLine(line + more, true)]
    decreases |more|
  {
    var text := more + ['\n'];
    if more == [] {
      assert text[1..] == [] && line + more == line;
    } else {
      assert text[1..] == more[1..] + ['\n'];
      RawEnded(more[1..], line + [more[0]]);
      assert line + [more[0]] + more[1..] == line + more;
    }
  }

  /** One line of no meaning, as it is kept. */
  lemma {:induction false} OneKept(line: string, m: Manifest)
    requires OneLine(line) && StripCr(line) != line && Classify(StripCr(line)) == Noise && StripCr(line) != ""
    requires m == Manifest(None, [], [])
    ensures var text := line + ['\n'];
            Raw(text) == [RawLine(line, true)] && Lines(text) == [StripCr(line)] && Survives(Lines(text), 0)
            && WriteText(text, m) == StripCr(line) + ['\n']
  {
    RawEnded(line, []);
    assert [] + line == line;
    RawLines(line + ['\n'], []);
    OneWritten(line + ['\n'], StripCr(line), m);
  }

  lemma {:induction false} OneWritten(text: string, l: string, m: Manifest)
    requires Lines(text) == [l] && l != "" && Classify(l) == Noise && m == Manifest(None, [], [])
    ensures Survives([l], 0) && WriteText(text, m) == l + ['\n']
  {
    var ls := [l];
    SaidAt(ls, 0);
    assert SectionAt(Said(ls), 0) == Start;
    NextSurvivor(ls, 0, l, true);
    NoKeys(ls, m);
    NoTables(m);
    SurvivorsStay(text, m);
    assert ls + [] + [] == ls && ls[1..] == [];
  }

  /** It can go wrong: the line ends of a text from Windows are changed. */
  lemma {:induction false} CrLfLost(text: string, m: Manifest)
    requires text == "a\r\n" && m == Manifest(None, [], [])
    ensures |Raw(text)| == |Lines(text)| && !AllStand(text, m) && WriteText(text, m) == "a\n"
  {
    var line := "a\r";
    assert text == line + ['\n'] && StripCr(line) == "a";
    assert "a"[1..] == [];
    TrimTight("a");
    OneKept(line, m);
    StandsIff(text, m, 0);
  }
}
