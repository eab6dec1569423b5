/**
 What the installer leaves behind and what the walk of the shared cache then finds. Both go by
 the coordinate alone, but the installer follows dependencies with a url, into project-local
 directories, and the walk skips them: a coordinate installed for one declaration can be missing
 for another.
 */
module InstalledDependencies {
  import opened Wrappers
  import opened Packages
  import opened Install
  import opened DependencyWalk

  function Declared(m: Option<Manifest>): seq<Dependency> { if m.Some? then m.value.dependencies else [] }

  /** The shared cache among the directories of an install. */
  ghost function CacheOf(dirs: map<Dir, Option<Manifest>>): Cache {
    map k | k in dirs && k.Shared? :: k.place := Declared(dirs[k])
  }

  lemma {:induction false} InCache(dirs: map<Dir, Option<Manifest>>, p: Place)
    ensures p in CacheOf(dirs) <==> Shared(p) in dirs
    ensures Shared(p) in dirs ==> CacheOf(dirs)[p] == Declared(dirs[Shared(p)])
  {
    if Shared(p) in dirs {
      assert Shared(p).place in CacheOf(dirs);
    }
  }

  // ---- What a run without failures leaves behind ----

  ghost predicate AllIn(visited: set<Coord>, ds: seq<Dependency>) { forall d :: d in ds ==> d.coord in visited }

  /** The directory of `d` is there, and everything its manifest declares was visited. */
  ghost predicate Settled(r: State, d: Dependency) {
    DirOf(d).Some? && DirOf(d).value in r.dirs && AllIn(r.visited, Declared(r.dirs[DirOf(d).value]))
  }

  ghost predicate InDirOf(met: set<Dependency>, k: Dir) { exists d :: d in met && DirOf(d) == Some(k) }

  ghost predicate WithCoord(met: set<Dependency>, c: Coord) { exists d :: d in met && d.coord == c }

  /** What a run from `s` to `r` that met `met` leaves behind. */
  ghost predicate Leaves(met: set<Dependency>, s: State, r: State) {
    && s.visited <= r.visited && Extends(s.dirs, r.dirs)
    && (forall d :: d in met ==> Settled(r, d))
    && (forall k :: k in r.dirs ==> k in s.dirs || InDirOf(met, k))
    && (forall c :: c in r.visited ==> c in s.visited || WithCoord(met, c))
  }

  lemma {:induction false} LeavesMore(met: set<Dependency>, met': set<Dependency>, s: State, t: State, r: State)
    requires Leaves(met, s, t) && Leaves(met', t, r)
    ensures Leaves(met + met', s, r)
  {
    var both := met + met';
    forall d | d in both ensures Settled(r, d) {
      if d in met {
        assert Settled(t, d);
      }
    }
    forall k | k in r.dirs && k !in s.dirs ensures InDirOf(both, k) {
      var d :| (d in met || d in met') && DirOf(d) == Some(k);
      assert d in both;
    }
    forall c | c in r.visited && c !in s.visited ensures WithCoord(both, c) {
      var d :| (d in met || d in met') && d.coord == c;
      assert d in both;
    }
  }

  /** The same of one step and the run over the manifest it found. */
  lemma {:induction false} StepLeaves(w: World, d: Dependency, owner: Manifest, s: State, met: set<Dependency>, below: State)
    requires var (t, m) := Step(w, d, owner, s); t.fail == s.fail && Leaves(met, t, below) && AllIn(below.visited, Declared(m))
    ensures Leaves({d} + met, s, below)
  {
    var (t, m) := Step(w, d, owner, s);
    var both := {d} + met;
    assert DirOf(d).Some? && DirOf(d).value in t.dirs && t.dirs[DirOf(d).value] == m;
    forall k | k in below.dirs && k !in s.dirs ensures InDirOf(both, k) {
      if k in t.dirs {
        assert d in both && DirOf(d) == Some(k);
      } else {
        var e :| e in met && DirOf(e) == Some(k);
        assert e in both;
      }
    }
    forall c | c in below.visited && c !in s.visited ensures WithCoord(both, c) {
      if c in t.visited {
        assert d in both && d.coord == c;
      } else {
        var e :| e in met && e.coord == c;
        assert e in both;
      }
    }
  }

  /**
   After a run without failures everything it met is in its directory with all it declares visited,
   nothing else was installed, and nothing else was visited.
   */
  lemma {:induction false} RunLeaves(w: World, all: set<Coord>, ds: seq<Dependency>, owner: Manifest, s: State)
    requires Bounds(all, ds) && Finite(all, w, s.dirs) && Run(w, all, ds, owner, s).fail == s.fail
    ensures var r := Run(w, all, ds, owner, s); Leaves(Met(w, all, ds, owner, s), s, r) && AllIn(r.visited, ds)
    decreases all - s.visited, |ds|
  {
    if ds != [] {
      assert forall d :: d in ds ==> d == ds[0] || d in ds[1..];
      if ds[0].coord in s.visited {
        RunLeaves(w, all, ds[1..], owner, s);
      } else {
        var t, m, below := RunParts(w, all, ds, owner, s);
        var inside: set<Dependency> := {};
        if m.Some? {
          RunLeaves(w, all, m.value.dependencies, m.value, t);
          inside := Met(w, all, m.value.dependencies, m.value, t);
        }
        StepLeaves(w, ds[0], owner, s, inside, below);
        RunLeaves(w, all, ds[1..], owner, below);
        LeavesMore({ds[0]} + inside, Met(w, all, ds[1..], owner, below), s, below, Run(w, all, ds[1..], owner, below));
      }
    }
  }

  // ---- An install and the walk after it ----

  ghost predicate Clean(w: World, all: set<Coord>, project: Manifest, lock: seq<Entry>, dirs: map<Dir, Option<Manifest>>) {
    && Bounds(all, project.dependencies) && Finite(all, w, dirs)
    && Run(w, all, project.dependencies, project, Start(lock, dirs)).fail == 0
  }

  /** The shared cache after the install. */
  ghost function After(w: World, all: set<Coord>, project: Manifest, lock: seq<Entry>, dirs: map<Dir, Option<Manifest>>): Cache
    requires Clean(w, all, project, lock, dirs)
  {
    CacheOf(Run(w, all, project.dependencies, project, Start(lock, dirs)).dirs)
  }

  /** The dependencies the install stepped through. */
  ghost function Stepped(w: World, all: set<Coord>, project: Manifest, lock: seq<Entry>, dirs: map<Dir, Option<Manifest>>): set<Dependency>
    requires Clean(w, all, project, lock, dirs)
  {
    Met(w, all, project.dependencies, project, Start(lock, dirs))
  }

  ghost predicate Fresh(dirs: map<Dir, Option<Manifest>>) { forall k :: k in dirs ==> k.Local? }

  lemma {:induction false} NothingMissing(cache: Cache, order: seq<Dependency>)
    ensures Missing(cache, order) == [] <==> forall e :: e in order && PathOk(e) ==> Installed(cache, e)
  {
    forall e | e in order && PathOk(e) && !Installed(cache, e) ensures Missing(cache, order) != [] {
      MissingAre(cache, order, e.coord);
    }
    if Missing(cache, order) != [] {
      MissingAre(cache, order, Missing(cache, order)[0]);
    }
  }

  /** What the walk finds installed was there before, or was met by the installer as that directory. */
  lemma {:induction false} InstalledIff(w: World, all: set<Coord>, project: Manifest,
                                        lock: seq<Entry>, dirs: map<Dir, Option<Manifest>>, e: Dependency)
    requires Clean(w, all, project, lock, dirs)
    ensures Installed(After(w, all, project, lock, dirs), e) <==>
            PathOk(e) && (Shared(PlaceOf(e)) in dirs || InDirOf(Stepped(w, all, project, lock, dirs), Shared(PlaceOf(e))))
  {
    var s := Start(lock, dirs);
    RunLeaves(w, all, project.dependencies, project, s);
    InCache(Run(w, all, project.dependencies, project, s).dirs, PlaceOf(e));
  }

  /**
   After an install without failures, whatever was there before, the walk of the shared cache
   reports nothing missing exactly when the directory of each dependency it visits was there
   before or is where the installer put that coordinate.
   */
  lemma {:induction false} NothingMissingIff(w: World, all: set<Coord>, project: Manifest,
                                             lock: seq<Entry>, dirs: map<Dir, Option<Manifest>>)
    requires Clean(w, all, project, lock, dirs)
    ensures var cache, met := After(w, all, project, lock, dirs), Stepped(w, all, project, lock, dirs);
            var walked := Walked(cache, project.dependencies);
            Missing(cache, walked) == [] <==>
            forall e :: e in walked && PathOk(e) ==> Shared(PlaceOf(e)) in dirs || InDirOf(met, Shared(PlaceOf(e)))
  {
    var cache := After(w, all, project, lock, dirs);
    NothingMissing(cache, Walked(cache, project.dependencies));
    forall e ensures Installed(cache, e) <==>
        PathOk(e) && (Shared(PlaceOf(e)) in dirs || InDirOf(Stepped(w, all, project, lock, dirs), Shared(PlaceOf(e))))
    {
      InstalledIff(w, all, project, lock, dirs, e);
    }
  }

  // ---- Coordinates declared in more than one way ----

  /** The installer met the coordinate of `e` with a url, or through another repository. */
  ghost predicate Clashes(met: set<Dependency>, e: Dependency) {
    exists d :: d in met && d.coord == e.coord && (d.url.Some? || RepositoryId(d) != RepositoryId(e))
  }

  ghost predicate NoClash(met: set<Dependency>, cache: Cache, roots: seq<Dependency>) {
    forall e :: Reaches(cache, roots, e) && PathOk(e) ==> !Clashes(met, e)
  }

  lemma {:induction false} OnePlace(met: set<Dependency>, d: Dependency, e: Dependency)
    requires OneEach(met) && d in met && d.coord == e.coord && PathOk(e) && DirOf(d).Some?
    ensures InDirOf(met, Shared(PlaceOf(e))) <==> !Clashes(met, e)
  {
    assert DirOf(d) == Some(Shared(PlaceOf(e))) <==> d.url.None? && RepositoryId(d) == RepositoryId(e);
    if InDirOf(met, Shared(PlaceOf(e))) {
      var x :| x in met && DirOf(x) == Some(Shared(PlaceOf(e)));
      assert x.coord == e.coord && x == d;
    }
  }

  /** A coordinate that was met without a clash is where the installer put it. */
  lemma {:induction false} MetInPlace(w: World, all: set<Coord>, project: Manifest,
                                      lock: seq<Entry>, dirs: map<Dir, Option<Manifest>>, e: Dependency)
    requires Clean(w, all, project, lock, dirs) && PathOk(e)
    requires WithCoord(Stepped(w, all, project, lock, dirs), e.coord)
    ensures InDirOf(Stepped(w, all, project, lock, dirs), Shared(PlaceOf(e))) <==> !Clashes(Stepped(w, all, project, lock, dirs), e)
  {
    var met, s := Stepped(w, all, project, lock, dirs), Start(lock, dirs);
    RunLeaves(w, all, project.dependencies, project, s);
    MetOnce(w, all, project.dependencies, project, s);
    var d :| d in met && d.coord == e.coord;
    OnePlace(met, d, e);
  }

  /** What is declared by something the installer put in its place was met. */
  lemma {:induction false} ChildMet(w: World, all: set<Coord>, project: Manifest,
                                    lock: seq<Entry>, dirs: map<Dir, Option<Manifest>>, e: Dependency, c: Dependency)
    requires Clean(w, all, project, lock, dirs) && c in Children(After(w, all, project, lock, dirs), e)
    requires InDirOf(Stepped(w, all, project, lock, dirs), Shared(PlaceOf(e)))
    ensures WithCoord(Stepped(w, all, project, lock, dirs), c.coord)
  {
    var s := Start(lock, dirs);
    var r, met := Run(w, all, project.dependencies, project, s), Stepped(w, all, project, lock, dirs);
    RunLeaves(w, all, project.dependencies, project, s);
    InCache(r.dirs, PlaceOf(e));
    var d :| d in met && DirOf(d) == Some(Shared(PlaceOf(e)));
    assert Settled(r, d);
  }

  /** From an empty cache, or where nothing clashes, the installer keeps up with every chain through what is installed. */
  lemma {:induction false} ChainMet(w: World, all: set<Coord>, project: Manifest,
                                    lock: seq<Entry>, dirs: map<Dir, Option<Manifest>>, p: seq<Dependency>, n: nat)
    requires Clean(w, all, project, lock, dirs) && n < |p| && p[0] in project.dependencies
    requires Chain(After(w, all, project, lock, dirs), p)
    requires Fresh(dirs) || NoClash(Stepped(w, all, project, lock, dirs), After(w, all, project, lock, dirs), project.dependencies)
    ensures WithCoord(Stepped(w, all, project, lock, dirs), p[n].coord)
    decreases n
  {
    if n == 0 {
      RunLeaves(w, all, project.dependencies, project, Start(lock, dirs));
    } else {
      var e, cache := p[n - 1], After(w, all, project, lock, dirs);
      assert Link(cache, p, n - 1);
      ChainMet(w, all, project, lock, dirs, p, n - 1);
      PrefixReaches(cache, project.dependencies, p, n - 1);
      InstalledIff(w, all, project, lock, dirs, e);
      MetInPlace(w, all, project, lock, dirs, e);
      ChildMet(w, all, project, lock, dirs, e, p[n]);
    }
  }

  /** Over any directories, where nothing clashes everything reachable is installed. */
  lemma {:induction false} NoClashInstalls(w: World, all: set<Coord>, project: Manifest,
                                           lock: seq<Entry>, dirs: map<Dir, Option<Manifest>>, e: Dependency)
    requires Clean(w, all, project, lock, dirs) && PathOk(e)
    requires NoClash(Stepped(w, all, project, lock, dirs), After(w, all, project, lock, dirs), project.dependencies)
    requires Reaches(After(w, all, project, lock, dirs), project.dependencies, e)
    ensures Installed(After(w, all, project, lock, dirs), e)
  {
    var p :| Leads(After(w, all, project, lock, dirs), project.dependencies, p, e);
    ChainMet(w, all, project, lock, dirs, p, |p| - 1);
    MetInPlace(w, all, project, lock, dirs, e);
    InstalledIff(w, all, project, lock, dirs, e);
  }

  // ---- From an empty cache ----

  /** So of everything reachable the coordinate was met, and it is installed exactly when it was met in its own place. */
  lemma {:induction false} ReachedIff(w: World, all: set<Coord>, project: Manifest,
                                      lock: seq<Entry>, dirs: map<Dir, Option<Manifest>>, e: Dependency)
    requires Clean(w, all, project, lock, dirs) && Fresh(dirs) && PathOk(e)
    requires Reaches(After(w, all, project, lock, dirs), project.dependencies, e)
    ensures Installed(After(w, all, project, lock, dirs), e) <==> !Clashes(Stepped(w, all, project, lock, dirs), e)
  {
    InstalledIff(w, all, project, lock, dirs, e);
    var p :| Leads(After(w, all, project, lock, dirs), project.dependencies, p, e);
    ChainMet(w, all, project, lock, dirs, p, |p| - 1);
    MetInPlace(w, all, project, lock, dirs, e);
  }

  /**
   From an empty cache, the walk after an install without failures reports nothing missing
   exactly when the installer met no coordinate that the walk visits with a url, or through
   another repository than the walk does.
   */
  lemma {:induction false} FreshInstallIff(w: World, all: set<Coord>, project: Manifest,
                                           lock: seq<Entry>, dirs: map<Dir, Option<Manifest>>)
    requires Clean(w, all, project, lock, dirs) && Fresh(dirs)
    ensures var cache, met := After(w, all, project, lock, dirs), Stepped(w, all, project, lock, dirs);
            var walked := Walked(cache, project.dependencies);
            Missing(cache, walked) == [] <==> forall e :: e in walked && PathOk(e) ==> !Clashes(met, e)
  {
    var cache, met := After(w, all, project, lock, dirs), Stepped(w, all, project, lock, dirs);
    var walked := Walked(cache, project.dependencies);
    WalkedFacts(cache, project.dependencies);
    NothingMissing(cache, walked);
    forall e | e in walked && PathOk(e) ensures Installed(cache, e) <==> !Clashes(met, e) {
      ReachedIff(w, all, project, lock, dirs, e);
    }
  }

  /** It can go wrong: the same coordinate with a url and then without is installed once, where the walk does not look. */
  lemma {:induction false} UrlHidesCache()
    returns (w: World, all: set<Coord>, project: Manifest, lock: seq<Entry>, dirs: map<Dir, Option<Manifest>>)
    ensures Clean(w, all, project, lock, dirs) && Fresh(dirs)
    ensures Missing(After(w, all, project, lock, dirs), Walked(After(w, all, project, lock, dirs), project.dependencies)) != []
  {
    var c := Coord("g", "a", "1");
    var d, e := Dependency(c, Some("u"), None, None), Dependency(c, None, None, None);
    w, all := World((c, u) => Some(Artifact("", None, true)), false), {c};
    project, lock, dirs := Manifest(None, [d, e], []), [], map[];
    SameTwice(w, all, d, e, project, Start(lock, dirs));
    Hidden(w, all, d, e, project, lock, dirs);
  }

  lemma {:induction false} Hidden(w: World, all: set<Coord>, d: Dependency, e: Dependency, project: Manifest,
                                  lock: seq<Entry>, dirs: map<Dir, Option<Manifest>>)
    requires Clean(w, all, project, lock, dirs) && Fresh(dirs) && project.dependencies == [d, e]
    requires d.coord == e.coord && d.url.Some? && e.url.None? && PathOk(e)
    requires After(w, all, project, lock, dirs) == map[] && d in Stepped(w, all, project, lock, dirs)
    ensures Missing(After(w, all, project, lock, dirs), Walked(After(w, all, project, lock, dirs), project.dependencies)) != []
  {
    var cache := After(w, all, project, lock, dirs);
    WalkedFacts(cache, [d, e]);
    assert Seen(Walked(cache, [d, e]), e);
    var x := Representative(Walked(cache, [d, e]), e.coord);
    LastLink(cache, [d, e], x);
    assert Clashes(Stepped(w, all, project, lock, dirs), x);
    FreshInstallIff(w, all, project, lock, dirs);
  }

  /** What is reached is a root or declared by something installed. */
  lemma {:induction false} LastLink(cache: Cache, roots: seq<Dependency>, x: Dependency)
    requires Reaches(cache, roots, x)
    ensures x.url.None? && (x in roots || exists y :: x in Children(cache, y))
  {
    var p :| Leads(cache, roots, p, x);
    var n := |p| - 1;
    if n > 0 {
      assert Link(cache, p, n - 1);
    }
  }

  /** Only the first of two dependencies with one coordinate is stepped through. */
  lemma {:induction false} SameTwice(w: World, all: set<Coord>, d: Dependency, e: Dependency, owner: Manifest, s: State)
    requires d.coord == e.coord && d.coord in all && d.coord !in s.visited && Finite(all, w, s.dirs)
    requires Step(w, d, owner, s).1 == None
    ensures Run(w, all, [d, e], owner, s) == Step(w, d, owner, s).0 && Met(w, all, [d, e], owner, s) == {d}
  {
    var t := Step(w, d, owner, s).0;
    StepFinite(w, all, d, owner, s);
    SeenOnly(w, all, e, owner, t);
    assert [d, e][1..] == [e];
  }

  lemma {:induction false} SeenOnly(w: World, all: set<Coord>, e: Dependency, owner: Manifest, t: State)
    requires e.coord in t.visited && e.coord in all && Finite(all, w, t.dirs)
    ensures Run(w, all, [e], owner, t) == t && Met(w, all, [e], owner, t) == {}
  {
    var none := [e][1..];
    assert none == [];
    assert Run(w, all, none, owner, t) == t && Met(w, all, none, owner, t) == {};
  }

  // ---- Without urls ----

  ghost predicate UrlFree(met: set<Dependency>) { forall d :: d in met ==> d.url.None? }

  function SetOf(order: seq<Dependency>): set<Dependency> { set d | d in order }

  lemma {:induction false} SetOfSnoc(order: seq<Dependency>, d: Dependency)
    ensures SetOf(order + [d]) == SetOf(order) + {d} && Coords(order + [d]) == Coords(order) + {d.coord}
  {
    assert forall x :: x in order + [d] <==> x in order || x == d;
  }

  /** A step that succeeds leaves the dependency where the walk looks, with the manifest it found. */
  lemma {:induction false} StepInCache(w: World, d: Dependency, owner: Manifest, s: State, final: map<Dir, Option<Manifest>>)
    requires d.url.None? && Step(w, d, owner, s).0.fail == s.fail && Extends(Step(w, d, owner, s).0.dirs, final)
    ensures Children(CacheOf(final), d) == Declared(Step(w, d, owner, s).1)
  {
    InCache(final, PlaceOf(d));
  }

  lemma {:induction false} CoversCached(covers: set<Coord>, cache: Cache, ds: seq<Dependency>, d: Dependency)
    requires Covers(covers, cache, ds)
    ensures Covers(covers, cache, Children(cache, d)) && Covers(covers, cache, if ds == [] then [] else ds[1..])
  {
  }

  /** Where nothing it meets has a url, the installer visits what the walk of its final cache will visit. */
  lemma {:induction false} RunIsVisit(w: World, all: set<Coord>, ds: seq<Dependency>, owner: Manifest, s: State,
                                      final: map<Dir, Option<Manifest>>, covers: set<Coord>, order: seq<Dependency>)
    requires Bounds(all, ds) && Finite(all, w, s.dirs) && Covers(covers, CacheOf(final), ds)
    requires Coords(order) == s.visited && UrlFree(Met(w, all, ds, owner, s))
    requires var r := Run(w, all, ds, owner, s); r.fail == s.fail && Extends(r.dirs, final)
    ensures var v := Visit(CacheOf(final), covers, ds, order);
            Coords(v) == Run(w, all, ds, owner, s).visited && SetOf(v) == SetOf(order) + Met(w, all, ds, owner, s)
    decreases all - s.visited, |ds|
  {
    if ds != [] {
      var d, cache := ds[0], CacheOf(final);
      CoversCached(covers, cache, ds, d);
      if d.coord in s.visited {
        RunIsVisit(w, all, ds[1..], owner, s, final, covers, order);
      } else {
        var t, m, below := RunParts(w, all, ds, owner, s);
        assert d in Met(w, all, ds, owner, s);
        StepInCache(w, d, owner, s, final);
        SetOfSnoc(order, d);
        var seen := order + [d];
        if m.Some? {
          RunIsVisit(w, all, m.value.dependencies, m.value, t, final, covers, seen);
          seen := Visit(cache, covers, m.value.dependencies, seen);
        }
        RunIsVisit(w, all, ds[1..], owner, below, final, covers, seen);
      }
    }
  }

  lemma {:induction false} WalkedUrlFree(cache: Cache, roots: seq<Dependency>)
    ensures UrlFree(SetOf(Walked(cache, roots)))
  {
    WalkedFacts(cache, roots);
    forall d | d in Walked(cache, roots) ensures d.url.None? {
      LastLink(cache, roots, d);
    }
  }

  /**
   After an install without failures over any directories, the walk visits exactly the
   dependencies that the installer met when none of those has a url, whatever the repositories;
   and then it reports nothing missing.
   */
  lemma {:induction false} WalkIsInstallIff(w: World, all: set<Coord>, project: Manifest,
                                            lock: seq<Entry>, dirs: map<Dir, Option<Manifest>>)
    requires Clean(w, all, project, lock, dirs)
    ensures var cache, met := After(w, all, project, lock, dirs), Stepped(w, all, project, lock, dirs);
            var walked := Walked(cache, project.dependencies);
            && (SetOf(walked) == met <==> UrlFree(met))
            && (UrlFree(met) ==> Missing(cache, walked) == [])
  {
    var cache, met := After(w, all, project, lock, dirs), Stepped(w, all, project, lock, dirs);
    var s := Start(lock, dirs);
    var walked := Walked(cache, project.dependencies);
    WalkedUrlFree(cache, project.dependencies);
    if UrlFree(met) {
      RunIsVisit(w, all, project.dependencies, project, s, Run(w, all, project.dependencies, project, s).dirs,
                 Universe(cache, project.dependencies), []);
      AllInPlace(w, all, project, lock, dirs);
    }
  }

  lemma {:induction false} AllInPlace(w: World, all: set<Coord>, project: Manifest,
                                      lock: seq<Entry>, dirs: map<Dir, Option<Manifest>>)
    requires Clean(w, all, project, lock, dirs) && UrlFree(Stepped(w, all, project, lock, dirs))
    requires SetOf(Walked(After(w, all, project, lock, dirs), project.dependencies)) == Stepped(w, all, project, lock, dirs)
    ensures Missing(After(w, all, project, lock, dirs), Walked(After(w, all, project, lock, dirs), project.dependencies)) == []
  {
    var cache := After(w, all, project, lock, dirs);
    var s := Start(lock, dirs);
    RunLeaves(w, all, project.dependencies, project, s);
    NothingMissing(cache, Walked(cache, project.dependencies));
    forall e | e in Walked(cache, project.dependencies) && PathOk(e) ensures Installed(cache, e) {
      assert e in SetOf(Walked(cache, project.dependencies));
      InCache(Run(w, all, project.dependencies, project, s).dirs, PlaceOf(e));
    }
  }

  /** No manifest on disk or behind a url declares a dependency with a url. */
  ghost predicate NoUrls(w: World, dirs: map<Dir, Option<Manifest>>) {
    && (forall k :: k in dirs ==> UrlFree(SetOf(Declared(dirs[k]))))
    && (forall c, u :: w.fetch(c, u).Some? ==> UrlFree(SetOf(Declared(w.fetch(c, u).value.manifest))))
  }

  lemma {:induction false} MetUrlFree(w: World, all: set<Coord>, ds: seq<Dependency>, owner: Manifest, s: State)
    requires Bounds(all, ds) && Finite(all, w, s.dirs) && NoUrls(w, s.dirs) && UrlFree(SetOf(ds))
    ensures UrlFree(Met(w, all, ds, owner, s)) && NoUrls(w, Run(w, all, ds, owner, s).dirs)
    decreases all - s.visited, |ds|
  {
    if ds != [] {
      assert ds[0] in SetOf(ds) && forall d :: d in SetOf(ds[1..]) ==> d in SetOf(ds);
      if ds[0].coord in s.visited {
        MetUrlFree(w, all, ds[1..], owner, s);
      } else {
        var t, m, below := RunParts(w, all, ds, owner, s);
        if m.Some? {
          MetUrlFree(w, all, m.value.dependencies, m.value, t);
        }
        MetUrlFree(w, all, ds[1..], owner, below);
      }
    }
  }

  /** So if no manifest at all has a url in it, nothing that was installed is missing. */
  lemma {:induction false} NoUrlsNothingMissing(w: World, all: set<Coord>, project: Manifest,
                                                lock: seq<Entry>, dirs: map<Dir, Option<Manifest>>)
    requires Clean(w, all, project, lock, dirs) && NoUrls(w, dirs) && UrlFree(SetOf(project.dependencies))
    ensures var cache := After(w, all, project, lock, dirs);
            Missing(cache, Walked(cache, project.dependencies)) == []
  {
    MetUrlFree(w, all, project.dependencies, project, Start(lock, dirs));
    WalkIsInstallIff(w, all, project, lock, dirs);
  }
}
