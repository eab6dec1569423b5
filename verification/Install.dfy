/**
 Installing a manifest's dependencies and everything they declare in turn, with the checksums
 that `tinox.lock` pins. The file system is a finite map from install directories to the
 manifests in them; what a download gives is an arbitrary function, so nothing is assumed of
 the network. The pair of counters that the source returns and adds up is kept in the state.
 */
module Install {
  import opened Wrappers
  import opened Packages

  datatype Entry = Entry(coord: Coord, url: string, sha256: string)

  /** What is behind a url: its checksum, the manifest it holds if readable, and whether it unpacks. */
  datatype Artifact = Artifact(sha256: string, manifest: Option<Manifest>, unpacks: bool)

  datatype World = World(fetch: (Coord, string) -> Option<Artifact>, update: bool)

  /** Project-local for a dependency with a url, in the shared cache otherwise. */
  datatype Dir = Local(coord: Coord) | Shared(place: Place)

  datatype State = State(lock: seq<Entry>, dirs: map<Dir, Option<Manifest>>, visited: set<Coord>,
                         changed: bool, ok: nat, fail: nat)

  // ---- Urls and directories ----

  const DEFAULT_REPOSITORY_URL := "https://central.tinox-lang.de"

  function TrimSlashes(s: string): string {
    if s != [] && s[|s| - 1] == '/' then TrimSlashes(s[..|s| - 1]) else s
  }

  function FindRepository(rs: seq<Repository>, id: string): Option<string> {
    if rs == [] then None else if rs[0].id == id then Some(rs[0].url) else FindRepository(rs[1..], id)
  }

  /** `effective_download_url`; `None` is an error. */
  function EffectiveUrl(d: Dependency, owner: Manifest): Option<string> {
    if d.url.Some? then (if d.repository.Some? then None else d.url)
    else
      var base := if d.repository.None? then Some(DEFAULT_REPOSITORY_URL)
                  else FindRepository(owner.repositories, d.repository.value);
      if base.None? then None
      else Some(TrimSlashes(base.value) + "/api/v1/" + d.coord.group + "/" + d.coord.artifact + "/" + d.coord.version)
  }

  /** `resolved_install_dir`; `None` when a path segment is refused. */
  function DirOf(d: Dependency): Option<Dir> {
    if d.url.Some? then (if SegmentsOk(d.coord) then Some(Local(d.coord)) else None)
    else if PathOk(d) then Some(Shared(PlaceOf(d))) else None
  }

  // ---- The lock ----

  /** The entries for a coordinate. */
  function Only(lock: seq<Entry>, c: Coord): seq<Entry> {
    if lock == [] then []
    else (if lock[0].coord == c then [lock[0]] else []) + Only(lock[1..], c)
  }

  /** `lock_entry_for`: the first of them. */
  function Pin(lock: seq<Entry>, c: Coord): Option<Entry> {
    if lock == [] then None else if lock[0].coord == c then Some(lock[0]) else Pin(lock[1..], c)
  }

  function Others(lock: seq<Entry>, c: Coord): seq<Entry> {
    if lock == [] then []
    else (if lock[0].coord == c then [] else [lock[0]]) + Others(lock[1..], c)
  }

  function Upsert(lock: seq<Entry>, e: Entry): seq<Entry> { Others(lock, e.coord) + [e] }

  function LowerChar(c: char): char { if 'A' <= c <= 'Z' then c - 'A' + 'a' else c }

  /** `eq_ignore_ascii_case` */
  predicate SameHash(a: string, b: string) {
    |a| == |b| && forall i :: 0 <= i < |a| ==> LowerChar(a[i]) == LowerChar(b[i])
  }

  /** The two characters are the same ASCII letter in different cases. */
  predicate OtherCase(a: char, b: char) {
    ('A' <= a <= 'Z' && b as int == a as int + 32) || ('A' <= b <= 'Z' && a as int == b as int + 32)
  }

  /** The same characters but for the case of ASCII letters. */
  predicate Matches(h: string, actual: string) {
    |h| == |actual| && forall i :: 0 <= i < |h| ==> h[i] == actual[i] || OtherCase(h[i], actual[i])
  }

  /** Checksums agree exactly when they are the same but for the case of ASCII letters. */
  lemma {:induction false} SameHashIff(a: string, b: string)
    ensures SameHash(a, b) <==> Matches(a, b)
  {
    if |a| == |b| {
      forall i | 0 <= i < |a| ensures LowerChar(a[i]) == LowerChar(b[i]) <==> a[i] == b[i] || OtherCase(a[i], b[i]) {
        LowerIff(a[i], b[i]);
      }
    }
  }

  lemma {:induction false} LowerIff(a: char, b: char)
    ensures LowerChar(a) == LowerChar(b) <==> a == b || OtherCase(a, b)
  {
  }

  /** `expected_checksum`: the dependency's own, or without `--update` the pin for the same url. */
  function Expected(d: Dependency, url: string, lock: seq<Entry>, update: bool): Option<string> {
    if d.sha256.Some? then d.sha256
    else if update then None
    else
      var pin := Pin(lock, d.coord);
      if pin.Some? && pin.value.url == url then Some(pin.value.sha256) else None
  }

  /** `verify_checksum` */
  predicate Verified(d: Dependency, url: string, lock: seq<Entry>, update: bool, actual: string) {
    var expected := Expected(d, url, lock, update);
    expected.Some? ==> SameHash(expected.value, actual)
  }

  // ---- A run ----

  /** One dependency: the new state, and the manifest to go on with if there is one. */
  function Step(w: World, d: Dependency, owner: Manifest, s: State): (State, Option<Manifest>) {
    var t := s.(visited := s.visited + {d.coord});
    var url, dir := EffectiveUrl(d, owner), DirOf(d);
    if url.None? || dir.None? then (t.(fail := t.fail + 1), None)
    else if dir.value in s.dirs then (t.(ok := t.ok + 1), s.dirs[dir.value])
    else Download(w, d, url.value, dir.value, t)
  }

  function Download(w: World, d: Dependency, url: string, dir: Dir, t: State): (State, Option<Manifest>) {
    var got := w.fetch(d.coord, url);
    if got.None? || !Verified(d, url, t.lock, w.update, got.value.sha256) || !got.value.unpacks then
      (t.(fail := t.fail + 1), None)
    else
      (t.(lock := Upsert(t.lock, Entry(d.coord, url, got.value.sha256)), dirs := t.dirs[dir := got.value.manifest],
          changed := true, ok := t.ok + 1), got.value.manifest)
  }

  ghost predicate Bounds(all: set<Coord>, ds: seq<Dependency>) { forall d :: d in ds ==> d.coord in all }

  ghost predicate BoundsManifest(all: set<Coord>, m: Option<Manifest>) { m.Some? ==> Bounds(all, m.value.dependencies) }

  /** All manifests on disk and behind urls declare coordinates of one finite set. */
  ghost predicate Finite(all: set<Coord>, w: World, dirs: map<Dir, Option<Manifest>>) {
    && (forall k :: k in dirs ==> BoundsManifest(all, dirs[k]))
    && (forall c, u :: w.fetch(c, u).Some? ==> BoundsManifest(all, w.fetch(c, u).value.manifest))
  }

  lemma {:induction false} StepFinite(w: World, all: set<Coord>, d: Dependency, owner: Manifest, s: State)
    requires Finite(all, w, s.dirs)
    ensures var (t, m) := Step(w, d, owner, s);
            Finite(all, w, t.dirs) && BoundsManifest(all, m) && t.visited == s.visited + {d.coord}
  {
  }

  ghost function Run(w: World, all: set<Coord>, ds: seq<Dependency>, owner: Manifest, s: State): (r: State)
    requires Bounds(all, ds) && Finite(all, w, s.dirs)
    ensures s.visited <= r.visited && Finite(all, w, r.dirs)
    decreases all - s.visited, |ds|
  {
    if ds == [] then s
    else if ds[0].coord in s.visited then Run(w, all, ds[1..], owner, s)
    else
      var (t, m) := Step(w, ds[0], owner, s);
      StepFinite(w, all, ds[0], owner, s);
      var below := if m.Some? then Run(w, all, m.value.dependencies, m.value, t) else t;
      Run(w, all, ds[1..], owner, below)
  }

  // ---- The lock over a run ----

  lemma {:induction false} OnlyAppend(xs: seq<Entry>, ys: seq<Entry>, c: Coord)
    ensures Only(xs + ys, c) == Only(xs, c) + Only(ys, c)
  {
    if xs == [] {
      assert xs + ys == ys;
    } else {
      assert (xs + ys)[1..] == xs[1..] + ys;
      OnlyAppend(xs[1..], ys, c);
    }
  }

  lemma {:induction false} OnlyOthers(lock: seq<Entry>, gone: Coord, c: Coord)
    ensures Only(Others(lock, gone), c) == if c == gone then [] else Only(lock, c)
  {
    if lock != [] {
      OnlyOthers(lock[1..], gone, c);
      OnlyAppend(if lock[0].coord == gone then [] else [lock[0]], Others(lock[1..], gone), c);
    }
  }

  /** After `upsert_lock_entry` the coordinate has exactly the new entry; others keep theirs, in order. */
  lemma {:induction false} OnlyUpsert(lock: seq<Entry>, e: Entry, c: Coord)
    ensures Only(Upsert(lock, e), c) == if c == e.coord then [e] else Only(lock, c)
  {
    OnlyOthers(lock, e.coord, c);
    OnlyAppend(Others(lock, e.coord), [e], c);
    assert [e][1..] == [];
  }

  lemma {:induction false} PinIsFirst(lock: seq<Entry>, c: Coord)
    ensures Pin(lock, c) == if Only(lock, c) == [] then None else Some(Only(lock, c)[0])
  {
    if lock != [] {
      PinIsFirst(lock[1..], c);
    }
  }

  /** The dependencies a run steps through, each the first one met with its coordinate. */
  ghost function Met(w: World, all: set<Coord>, ds: seq<Dependency>, owner: Manifest, s: State): set<Dependency>
    requires Bounds(all, ds) && Finite(all, w, s.dirs)
    decreases all - s.visited, |ds|
  {
    if ds == [] then {}
    else if ds[0].coord in s.visited then Met(w, all, ds[1..], owner, s)
    else
      var (t, m) := Step(w, ds[0], owner, s);
      StepFinite(w, all, ds[0], owner, s);
      var below := if m.Some? then Run(w, all, m.value.dependencies, m.value, t) else t;
      var inside := if m.Some? then Met(w, all, m.value.dependencies, m.value, t) else {};
      {ds[0]} + inside + Met(w, all, ds[1..], owner, below)
  }

  /** The one entry for `c` records a download for `d` whose checksum was verified against `lock`. */
  ghost predicate NewPin(w: World, lock: seq<Entry>, after: seq<Entry>, c: Coord, d: Dependency, url: string) {
    && d.coord == c && w.fetch(c, url).Some?
    && Only(after, c) == [Entry(c, url, w.fetch(c, url).value.sha256)]
    && Verified(d, url, lock, w.update, w.fetch(c, url).value.sha256)
  }

  ghost predicate Pinned(met: set<Dependency>, w: World, lock: seq<Entry>, after: seq<Entry>, c: Coord) {
    exists d, url :: d in met && NewPin(w, lock, after, c, d, url)
  }

  ghost predicate KeptOrPinned(met: set<Dependency>, w: World, lock: seq<Entry>, after: seq<Entry>, c: Coord) {
    Only(after, c) == Only(lock, c) || Pinned(met, w, lock, after, c)
  }

  /** Only what `lock` says about `c` matters to a pin of `c`. */
  lemma {:induction false} PinnedSame(met: set<Dependency>, w: World, lock: seq<Entry>, lock': seq<Entry>,
                                      after: seq<Entry>, after': seq<Entry>, c: Coord)
    requires KeptOrPinned(met, w, lock, after, c) && Only(lock, c) == Only(lock', c) && Only(after, c) == Only(after', c)
    ensures KeptOrPinned(met, w, lock', after', c)
  {
    PinIsFirst(lock, c);
    PinIsFirst(lock', c);
    if Pinned(met, w, lock, after, c) {
      var d, url :| d in met && NewPin(w, lock, after, c, d, url);
      assert NewPin(w, lock', after', c, d, url);
    }
  }

  lemma {:induction false} PinnedMore(met: set<Dependency>, more: set<Dependency>, w: World, lock: seq<Entry>, after: seq<Entry>, c: Coord)
    requires met <= more && KeptOrPinned(met, w, lock, after, c)
    ensures KeptOrPinned(more, w, lock, after, c)
  {
    if Pinned(met, w, lock, after, c) {
      var d, url :| d in met && NewPin(w, lock, after, c, d, url);
      assert d in more && NewPin(w, lock, after, c, d, url);
    }
  }

  lemma {:induction false} StepLock(w: World, d: Dependency, owner: Manifest, s: State, c: Coord)
    requires d.coord !in s.visited
    ensures LockStep({d}, w, s, Step(w, d, owner, s).0, c)
  {
    var t := Step(w, d, owner, s).0;
    if t.lock != s.lock {
      var url := EffectiveUrl(d, owner).value;
      OnlyUpsert(s.lock, Entry(d.coord, url, w.fetch(d.coord, url).value.sha256), c);
      if c == d.coord {
        assert NewPin(w, s.lock, t.lock, c, d, url);
      }
    }
  }

  /** What a run does to the entries of `c`. */
  ghost predicate LockStep(met: set<Dependency>, w: World, s: State, r: State, c: Coord) {
    && KeptOrPinned(met, w, s.lock, r.lock, c)
    && (c in s.visited || c !in r.visited ==> Only(r.lock, c) == Only(s.lock, c))
    && s.visited <= r.visited
  }

  lemma {:induction false} LockSteps(met: set<Dependency>, met': set<Dependency>, w: World, s: State, t: State, r: State, c: Coord)
    requires LockStep(met, w, s, t, c) && LockStep(met', w, t, r, c)
    ensures LockStep(met + met', w, s, r, c)
  {
    if c in t.visited {
      PinnedSame(met, w, s.lock, s.lock, t.lock, r.lock, c);
      PinnedMore(met, met + met', w, s.lock, r.lock, c);
    } else {
      PinnedSame(met', w, t.lock, s.lock, r.lock, r.lock, c);
      PinnedMore(met', met + met', w, s.lock, r.lock, c);
    }
  }

  /**
   Over a whole run the entries of a coordinate stay as they are, or become one entry for a
   dependency the run met, whose checksum was verified against the lock as it was before the run.
   */
  lemma {:induction false} RunLock(w: World, all: set<Coord>, ds: seq<Dependency>, owner: Manifest, s: State, c: Coord)
    requires Bounds(all, ds) && Finite(all, w, s.dirs)
    ensures LockStep(Met(w, all, ds, owner, s), w, s, Run(w, all, ds, owner, s), c)
    decreases all - s.visited, |ds|
  {
    if ds != [] {
      if ds[0].coord in s.visited {
        RunLock(w, all, ds[1..], owner, s, c);
      } else {
        var (t, m) := Step(w, ds[0], owner, s);
        StepFinite(w, all, ds[0], owner, s);
        StepLock(w, ds[0], owner, s, c);
        var below, inside := t, {};
        if m.Some? {
          RunLock(w, all, m.value.dependencies, m.value, t, c);
          below, inside := Run(w, all, m.value.dependencies, m.value, t), Met(w, all, m.value.dependencies, m.value, t);
        }
        LockSteps({ds[0]}, inside, w, s, t, below, c);
        RunLock(w, all, ds[1..], owner, below, c);
        LockSteps({ds[0]} + inside, Met(w, all, ds[1..], owner, below), w, s, below, Run(w, all, ds[1..], owner, below), c);
      }
    }
  }

  ghost predicate OneEach(ds: set<Dependency>) { forall d, e :: d in ds && e in ds && d.coord == e.coord ==> d == e }

  /** No coordinate is stepped through twice, or after it was visited. */
  lemma {:induction false} MetOnce(w: World, all: set<Coord>, ds: seq<Dependency>, owner: Manifest, s: State)
    requires Bounds(all, ds) && Finite(all, w, s.dirs)
    ensures var met, r := Met(w, all, ds, owner, s), Run(w, all, ds, owner, s);
            OneEach(met) && forall d :: d in met ==> d.coord !in s.visited && d.coord in r.visited
    decreases all - s.visited, |ds|
  {
    if ds != [] {
      if ds[0].coord in s.visited {
        MetOnce(w, all, ds[1..], owner, s);
      } else {
        var (t, m) := Step(w, ds[0], owner, s);
        StepFinite(w, all, ds[0], owner, s);
        var below := t;
        if m.Some? {
          MetOnce(w, all, m.value.dependencies, m.value, t);
          below := Run(w, all, m.value.dependencies, m.value, t);
        }
        MetOnce(w, all, ds[1..], owner, below);
      }
    }
  }

  ghost predicate DupFree(lock: seq<Entry>) {
    forall i, j :: 0 <= i < j < |lock| ==> lock[i].coord != lock[j].coord
  }

  lemma {:induction false} OthersKeep(lock: seq<Entry>, c: Coord)
    ensures forall e :: e in Others(lock, c) <==> e in lock && e.coord != c
  {
    if lock != [] {
      OthersKeep(lock[1..], c);
      assert lock == [lock[0]] + lock[1..];
    }
  }

  lemma {:induction false} OthersDupFree(lock: seq<Entry>, c: Coord)
    requires DupFree(lock)
    ensures DupFree(Others(lock, c))
  {
    if lock != [] {
      OthersDupFree(lock[1..], c);
      OthersKeep(lock[1..], c);
    }
  }

  lemma {:induction false} UpsertDupFree(lock: seq<Entry>, e: Entry)
    requires DupFree(lock)
    ensures DupFree(Upsert(lock, e))
  {
    OthersDupFree(lock, e.coord);
    OthersKeep(lock, e.coord);
  }

  lemma {:induction false} RunDupFree(w: World, all: set<Coord>, ds: seq<Dependency>, owner: Manifest, s: State)
    requires Bounds(all, ds) && Finite(all, w, s.dirs) && DupFree(s.lock)
    ensures DupFree(Run(w, all, ds, owner, s).lock)
    decreases all - s.visited, |ds|
  {
    if ds != [] {
      if ds[0].coord in s.visited {
        RunDupFree(w, all, ds[1..], owner, s);
      } else {
        var (t, m) := Step(w, ds[0], owner, s);
        StepFinite(w, all, ds[0], owner, s);
        StepDupFree(w, ds[0], owner, s);
        var below := t;
        if m.Some? {
          RunDupFree(w, all, m.value.dependencies, m.value, t);
          below := Run(w, all, m.value.dependencies, m.value, t);
        }
        RunDupFree(w, all, ds[1..], owner, below);
      }
    }
  }

  lemma {:induction false} StepDupFree(w: World, d: Dependency, owner: Manifest, s: State)
    requires DupFree(s.lock)
    ensures DupFree(Step(w, d, owner, s).0.lock)
  {
    var t := Step(w, d, owner, s).0;
    if t.lock != s.lock {
      var url := EffectiveUrl(d, owner).value;
      UpsertDupFree(s.lock, Entry(d.coord, url, w.fetch(d.coord, url).value.sha256));
    }
  }

  lemma {:induction false} OnlyEntry(lock: seq<Entry>, e: Entry)
    requires DupFree(lock) && e in lock
    ensures Only(lock, e.coord) == [e]
  {
    if lock[0] == e {
      NoOther(lock[1..], e.coord);
    } else {
      OnlyEntry(lock[1..], e);
      var i :| 0 <= i < |lock| && lock[i] == e;
      assert lock[0].coord != e.coord;
    }
  }

  lemma {:induction false} NoOther(lock: seq<Entry>, c: Coord)
    requires forall i :: 0 <= i < |lock| ==> lock[i].coord != c
    ensures Only(lock, c) == []
  {
    if lock != [] {
      NoOther(lock[1..], c);
    }
  }

  /** The state `tinox install` starts from. */
  function Start(lock: seq<Entry>, dirs: map<Dir, Option<Manifest>>): State { State(lock, dirs, {}, false, 0, 0) }

  /**
   Without `--update`, an entry that is there before and after a run for the same coordinate
   and url keeps its checksum up to letter case, unless the one dependency the run met with that
   coordinate carries a checksum of its own, and then that one matches.
   */
  lemma {:induction false} InstallKeepsHashes(w: World, all: set<Coord>, project: Manifest,
                                              lock: seq<Entry>, dirs: map<Dir, Option<Manifest>>, e: Entry, e': Entry)
    requires Bounds(all, project.dependencies) && Finite(all, w, dirs) && !w.update && DupFree(lock)
    requires e in lock && e' in Run(w, all, project.dependencies, project, Start(lock, dirs)).lock
    requires e.coord == e'.coord && e.url == e'.url
    ensures var met := Met(w, all, project.dependencies, project, Start(lock, dirs));
            && OneEach(met)
            && (Matches(e.sha256, e'.sha256) ||
                exists d :: d in met && d.coord == e.coord && d.sha256.Some? && Matches(d.sha256.value, e'.sha256))
  {
    var c, s := e.coord, Start(lock, dirs);
    var r, met := Run(w, all, project.dependencies, project, s), Met(w, all, project.dependencies, project, s);
    MetOnce(w, all, project.dependencies, project, s);
    RunLock(w, all, project.dependencies, project, s, c);
    RunDupFree(w, all, project.dependencies, project, s);
    OnlyEntry(lock, e);
    OnlyEntry(r.lock, e');
    SameHashIff(e.sha256, e'.sha256);
    if e != e' {
      assert Only(r.lock, c)[0] != Only(lock, c)[0];
      PinIsFirst(lock, c);
      var d, url :| d in met && NewPin(w, lock, r.lock, c, d, url);
      assert Only(r.lock, c)[0] == Entry(c, url, w.fetch(c, url).value.sha256);
      if d.sha256.Some? {
        SameHashIff(d.sha256.value, e'.sha256);
      }
    }
  }

  // ---- Running again ----

  ghost predicate Extends(small: map<Dir, Option<Manifest>>, large: map<Dir, Option<Manifest>>) {
    forall k :: k in small ==> k in large && large[k] == small[k]
  }

  lemma {:induction false} RunGrows(w: World, all: set<Coord>, ds: seq<Dependency>, owner: Manifest, s: State)
    requires Bounds(all, ds) && Finite(all, w, s.dirs)
    ensures var r := Run(w, all, ds, owner, s);
            && Extends(s.dirs, r.dirs) && s.ok <= r.ok && s.fail <= r.fail
            && (!r.changed ==> r.lock == s.lock && r.dirs == s.dirs && !s.changed)
    decreases all - s.visited, |ds|
  {
    if ds != [] {
      if ds[0].coord in s.visited {
        RunGrows(w, all, ds[1..], owner, s);
      } else {
        var (t, m) := Step(w, ds[0], owner, s);
        StepFinite(w, all, ds[0], owner, s);
        var below := t;
        if m.Some? {
          RunGrows(w, all, m.value.dependencies, m.value, t);
          below := Run(w, all, m.value.dependencies, m.value, t);
        }
        RunGrows(w, all, ds[1..], owner, below);
      }
    }
  }

  /** The parts of a run that visits its first dependency: nothing is taken back between them. */
  lemma {:induction false} RunParts(w: World, all: set<Coord>, ds: seq<Dependency>, owner: Manifest, s: State)
    returns (t: State, m: Option<Manifest>, below: State)
    requires Bounds(all, ds) && Finite(all, w, s.dirs) && ds != [] && ds[0].coord !in s.visited
    ensures (t, m) == Step(w, ds[0], owner, s) && Finite(all, w, t.dirs) && BoundsManifest(all, m)
    ensures below == if m.Some? then Run(w, all, m.value.dependencies, m.value, t) else t
    ensures t.visited == s.visited + {ds[0].coord} && t.visited <= below.visited && Finite(all, w, below.dirs)
    ensures var r := Run(w, all, ds, owner, s);
            && r == Run(w, all, ds[1..], owner, below)
            && Extends(t.dirs, r.dirs) && Extends(below.dirs, r.dirs)
            && s.fail <= t.fail <= below.fail <= r.fail && s.ok <= t.ok <= below.ok <= r.ok
  {
    t, m := Step(w, ds[0], owner, s).0, Step(w, ds[0], owner, s).1;
    StepFinite(w, all, ds[0], owner, s);
    below := t;
    if m.Some? {
      RunGrows(w, all, m.value.dependencies, m.value, t);
      below := Run(w, all, m.value.dependencies, m.value, t);
    }
    RunGrows(w, all, ds[1..], owner, below);
  }

  /** A successful step leaves a directory behind, which the next time is taken as it is. */
  lemma {:induction false} StepAgain(w: World, w': World, d: Dependency, owner: Manifest, s: State, s': State)
    requires var t := Step(w, d, owner, s).0; t.fail == s.fail && Extends(t.dirs, s'.dirs)
    ensures Step(w', d, owner, s') == (s'.(visited := s'.visited + {d.coord}, ok := s'.ok + 1), Step(w, d, owner, s).1)
    ensures Step(w, d, owner, s).0.ok == s.ok + 1
  {
  }

  /**
   A run without failures makes the next one a walk through what is there: no download,
   whatever the network does by then, the same lock and the same directories.
   */
  lemma {:induction false} RunAgain(w: World, w': World, all: set<Coord>, ds: seq<Dependency>, owner: Manifest, s: State, s': State)
    requires Bounds(all, ds) && Finite(all, w, s.dirs) && Finite(all, w', s'.dirs) && s.visited == s'.visited
    requires var r := Run(w, all, ds, owner, s); r.fail == s.fail && Extends(r.dirs, s'.dirs)
    ensures var r := Run(w, all, ds, owner, s);
            r.ok >= s.ok && Run(w', all, ds, owner, s') == s'.(visited := r.visited, ok := s'.ok + (r.ok - s.ok))
    decreases all - s.visited, |ds|
  {
    if ds != [] {
      if ds[0].coord in s.visited {
        RunAgain(w, w', all, ds[1..], owner, s, s');
      } else {
        var t, m, below := RunParts(w, all, ds, owner, s);
        StepAgain(w, w', ds[0], owner, s, s');
        var t' := Step(w', ds[0], owner, s').0;
        StepFinite(w', all, ds[0], owner, s');
        var below' := t';
        if m.Some? {
          RunAgain(w, w', all, m.value.dependencies, m.value, t, t');
          below' := Run(w', all, m.value.dependencies, m.value, t');
        }
        RunAgain(w, w', all, ds[1..], owner, below, below');
      }
    }
  }

  lemma {:induction false} InstallTwice(w: World, w': World, all: set<Coord>, project: Manifest,
                                        lock: seq<Entry>, dirs: map<Dir, Option<Manifest>>)
    requires Bounds(all, project.dependencies) && Finite(all, w, dirs)
    requires Run(w, all, project.dependencies, project, Start(lock, dirs)).fail == 0
    requires Finite(all, w', Run(w, all, project.dependencies, project, Start(lock, dirs)).dirs)
    ensures var r := Run(w, all, project.dependencies, project, Start(lock, dirs));
            var again := Run(w', all, project.dependencies, project, Start(r.lock, r.dirs));
            again.lock == r.lock && again.dirs == r.dirs && !again.changed && again.fail == 0 && again.ok == r.ok
  {
    var r := Run(w, all, project.dependencies, project, Start(lock, dirs));
    RunAgain(w, w', all, project.dependencies, project, Start(lock, dirs), Start(r.lock, r.dirs));
  }

  // ---- The installer as it runs ----

  class Installer {
    const world: World
    var lock: seq<Entry>
    var dirs: map<Dir, Option<Manifest>>
    var visited: set<Coord>
    var changed: bool
    var ok: nat
    var fail: nat

    function Now(): State
      reads this
    {
      State(lock, dirs, visited, changed, ok, fail)
    }

    constructor (world: World, lock: seq<Entry>, dirs: map<Dir, Option<Manifest>>)
      ensures this.world == world && Now() == Start(lock, dirs)
    {
      this.world, this.lock, this.dirs := world, lock, dirs;
      visited, changed, ok, fail := {}, false, 0, 0;
    }

    /** `install_dep`, with the result recorded as its caller does. */
    method InstallOne(d: Dependency, owner: Manifest) returns (m: Option<Manifest>)
      modifies this
      ensures (Now(), m) == Step(world, d, owner, old(Now()))
    {
      m := None;
      visited := visited + {d.coord};
      var url, dir := EffectiveUrl(d, owner), DirOf(d);
      if url.None? || dir.None? {
        fail := fail + 1;
        return;
      }
      if dir.value in dirs {
        ok := ok + 1;
        m := dirs[dir.value];
        return;
      }
      var got := world.fetch(d.coord, url.value);
      if got.None? || !Verified(d, url.value, lock, world.update, got.value.sha256) || !got.value.unpacks {
        fail := fail + 1;
        return;
      }
      dirs := dirs[dir.value := got.value.manifest];
      lock := Upsert(lock, Entry(d.coord, url.value, got.value.sha256));
      changed := true;
      ok := ok + 1;
      m := got.value.manifest;
    }

    /** `install_dep_transitively` */
    method InstallTransitively(d: Dependency, owner: Manifest, ghost all: set<Coord>)
      requires Bounds(all, [d]) && Finite(all, world, dirs)
      modifies this
      ensures Finite(all, world, dirs) && Now() == Run(world, all, [d], owner, old(Now()))
      decreases all - visited, 0
    {
      assert [d][1..] == [];
      if d.coord in visited { return; }
      StepFinite(world, all, d, owner, Now());
      var m := InstallOne(d, owner);
      if m.Some? {
        InstallAll(m.value.dependencies, m.value, all);
      }
    }

    method InstallAll(ds: seq<Dependency>, owner: Manifest, ghost all: set<Coord>)
      requires Bounds(all, ds) && Finite(all, world, dirs)
      modifies this
      ensures Finite(all, world, dirs) && Now() == Run(world, all, ds, owner, old(Now()))
      decreases all - visited, 1
    {
      for i := 0 to |ds|
        invariant Finite(all, world, dirs) && Now() == Run(world, all, ds[..i], owner, old(Now()))
        invariant old(visited) <= visited
      {
        RunAppend(world, all, ds[..i], [ds[i]], owner, old(Now()));
        assert ds[..i + 1] == ds[..i] + [ds[i]];
        InstallTransitively(ds[i], owner, all);
      }
      assert ds[..|ds|] == ds;
    }
  }

  lemma {:induction false} RunAppend(w: World, all: set<Coord>, xs: seq<Dependency>, ys: seq<Dependency>, owner: Manifest, s: State)
    requires Bounds(all, xs) && Bounds(all, ys) && Finite(all, w, s.dirs)
    ensures Bounds(all, xs + ys)
    ensures Run(w, all, xs + ys, owner, s) == Run(w, all, ys, owner, Run(w, all, xs, owner, s))
    decreases all - s.visited, |xs|
  {
    if xs == [] {
      assert xs + ys == ys;
    } else {
      assert (xs + ys)[1..] == xs[1..] + ys;
      if xs[0].coord in s.visited {
        RunAppend(w, all, xs[1..], ys, owner, s);
      } else {
        var (t, m) := Step(w, xs[0], owner, s);
        StepFinite(w, all, xs[0], owner, s);
        var below := if m.Some? then Run(w, all, m.value.dependencies, m.value, t) else t;
        RunAppend(w, all, xs[1..], ys, owner, below);
      }
    }
  }

  /** The loop of `cmd_install`; the lock is only written back when it changed. */
  method InstallProject(world: World, project: Manifest, lock: seq<Entry>, dirs: map<Dir, Option<Manifest>>, ghost all: set<Coord>)
    returns (allOk: bool, written: seq<Entry>)
    requires Bounds(all, project.dependencies) && Finite(all, world, dirs)
    ensures var r := Run(world, all, project.dependencies, project, Start(lock, dirs));
            allOk == (r.fail == 0) && written == r.lock
  {
    var installer := new Installer(world, lock, dirs);
    installer.InstallAll(project.dependencies, project, all);
    RunGrows(world, all, project.dependencies, project, Start(lock, dirs));
    allOk := installer.fail == 0;
    written := if installer.changed then installer.lock else lock;
  }
}
