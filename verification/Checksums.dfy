/**
 Which downloads the installer accepts, where it fetches them from and where it puts them, said
 of the characters themselves.
 */
module Checksums {
  import opened Wrappers
  import opened Packages
  import opened Install

  // ---- Checksums ----

  /** As a digest is written: letters, if any, are small. */
  predicate NoCapitals(h: string) { forall i :: 0 <= i < |h| ==> !('A' <= h[i] <= 'Z') }

  /** Two digests without capitals agree exactly when they are equal. */
  lemma {:induction false} SameDigest(a: string, b: string)
    requires NoCapitals(a) && NoCapitals(b)
    ensures SameHash(a, b) <==> a == b
  {
    SameHashIff(a, b);
    if SameHash(a, b) {
      forall i | 0 <= i < |a| ensures a[i] == b[i] {
      }
    }
  }

  // ---- One download ----

  /** The entry of the lock that a coordinate is looked up as. */
  ghost predicate FirstEntry(lock: seq<Entry>, c: Coord, e: Entry) {
    exists i :: 0 <= i < |lock| && lock[i] == e && e.coord == c && forall j :: 0 <= j < i ==> lock[j].coord != c
  }

  lemma {:induction false} PinIsFirstEntry(lock: seq<Entry>, c: Coord)
    ensures Pin(lock, c).Some? ==> FirstEntry(lock, c, Pin(lock, c).value)
    ensures Pin(lock, c).None? ==> forall i :: 0 <= i < |lock| ==> lock[i].coord != c
  {
    if lock != [] && lock[0].coord != c {
      PinIsFirstEntry(lock[1..], c);
      if Pin(lock, c).Some? {
        var e := Pin(lock, c).value;
        var i :| 0 <= i < |lock[1..]| && lock[1..][i] == e && e.coord == c && forall j :: 0 <= j < i ==> lock[1..][j].coord != c;
        forall j | 0 <= j < i + 1 ensures lock[j].coord != c {
          if j > 0 { assert lock[j] == lock[1..][j - 1]; }
        }
        assert lock[i + 1] == e;
      } else {
        forall i | 0 <= i < |lock| ensures lock[i].coord != c {
          if i > 0 { assert lock[i] == lock[1..][i - 1]; }
        }
      }
    } else if lock != [] {
      assert lock[0] == Pin(lock, c).value;
    }
  }

  lemma {:induction false} OneFirst(lock: seq<Entry>, c: Coord, e: Entry, f: Entry)
    requires FirstEntry(lock, c, e) && FirstEntry(lock, c, f)
    ensures e == f
  {
    var i :| 0 <= i < |lock| && lock[i] == e && e.coord == c && forall j :: 0 <= j < i ==> lock[j].coord != c;
    var k :| 0 <= k < |lock| && lock[k] == f && f.coord == c && forall j :: 0 <= j < k ==> lock[j].coord != c;
    assert lock[i].coord == c && lock[k].coord == c;
    assert i == k;
  }

  /** The checksum that a download has to have: the dependency's own, or that of the lock for the same url. */
  ghost predicate Demands(w: World, d: Dependency, url: string, lock: seq<Entry>, h: string) {
    d.sha256 == Some(h) ||
    (d.sha256.None? && !w.update && exists e :: FirstEntry(lock, d.coord, e) && e.url == url && e.sha256 == h)
  }

  lemma {:induction false} DemandsExpected(w: World, d: Dependency, url: string, lock: seq<Entry>, h: string)
    ensures Demands(w, d, url, lock, h) <==> Expected(d, url, lock, w.update) == Some(h)
  {
    PinIsFirstEntry(lock, d.coord);
    if Demands(w, d, url, lock, h) && d.sha256.None? {
      var e :| FirstEntry(lock, d.coord, e) && e.url == url && e.sha256 == h;
      var i :| 0 <= i < |lock| && lock[i] == e && e.coord == d.coord && forall j :: 0 <= j < i ==> lock[j].coord != d.coord;
      assert Pin(lock, d.coord).Some?;
      OneFirst(lock, d.coord, e, Pin(lock, d.coord).value);
    }
  }

  /** What is not there yet and has something behind its url. */
  ghost predicate Fetched(w: World, d: Dependency, owner: Manifest, s: State, url: string, dir: Dir, a: Artifact) {
    && EffectiveUrl(d, owner) == Some(url) && DirOf(d) == Some(dir) && dir !in s.dirs && w.fetch(d.coord, url) == Some(a)
  }

  /** A download that does not match what is demanded is refused: nothing is installed or pinned. */
  lemma {:induction false} MismatchRefused(w: World, d: Dependency, owner: Manifest, s: State,
                                           url: string, dir: Dir, a: Artifact, h: string)
    requires Fetched(w, d, owner, s, url, dir, a) && Demands(w, d, url, s.lock, h)
    requires NoCapitals(h) && NoCapitals(a.sha256) && h != a.sha256
    ensures Step(w, d, owner, s) == (s.(visited := s.visited + {d.coord}, fail := s.fail + 1), None)
  {
    DemandsExpected(w, d, url, s.lock, h);
    SameDigest(h, a.sha256);
  }

  lemma {:induction false} VerifiedIff(w: World, d: Dependency, url: string, lock: seq<Entry>, actual: string)
    ensures Verified(d, url, lock, w.update, actual) <==> forall h :: Demands(w, d, url, lock, h) ==> Matches(h, actual)
  {
    var expected := Expected(d, url, lock, w.update);
    forall h ensures Demands(w, d, url, lock, h) <==> expected == Some(h) {
      DemandsExpected(w, d, url, lock, h);
    }
    if expected.Some? {
      SameHashIff(expected.value, actual);
      assert Demands(w, d, url, lock, expected.value);
    }
  }

  /** Exactly the downloads that match what is demanded, if anything is, and unpack are installed and pinned. */
  lemma {:induction false} InstalledIff(w: World, d: Dependency, owner: Manifest, s: State, url: string, dir: Dir, a: Artifact)
    requires Fetched(w, d, owner, s, url, dir, a)
    ensures var t := Step(w, d, owner, s).0;
            if a.unpacks && forall h :: Demands(w, d, url, s.lock, h) ==> Matches(h, a.sha256)
            then t.dirs == s.dirs[dir := a.manifest] && t.fail == s.fail && t.ok == s.ok + 1
                 && FirstEntry(t.lock, d.coord, Entry(d.coord, url, a.sha256))
            else t.dirs == s.dirs && t.lock == s.lock && t.fail == s.fail + 1 && t.ok == s.ok
  {
    VerifiedIff(w, d, url, s.lock, a.sha256);
    UpsertFirst(s.lock, Entry(d.coord, url, a.sha256));
    assert Step(w, d, owner, s) == Download(w, d, url, dir, s.(visited := s.visited + {d.coord}));
  }

  /** Without an address, or with nothing behind it, a dependency fails; what is there already is taken as it is. */
  lemma {:induction false} NotFetched(w: World, d: Dependency, owner: Manifest, s: State)
    requires forall url, dir, a :: !Fetched(w, d, owner, s, url, dir, a)
    ensures var there := EffectiveUrl(d, owner).Some? && DirOf(d).Some? && DirOf(d).value in s.dirs;
            Step(w, d, owner, s) ==
              if there then (s.(visited := s.visited + {d.coord}, ok := s.ok + 1), s.dirs[DirOf(d).value])
              else (s.(visited := s.visited + {d.coord}, fail := s.fail + 1), None)
  {
    var url, dir := EffectiveUrl(d, owner), DirOf(d);
    if url.Some? && dir.Some? && dir.value !in s.dirs && w.fetch(d.coord, url.value).Some? {
      assert Fetched(w, d, owner, s, url.value, dir.value, w.fetch(d.coord, url.value).value);
    }
  }

  lemma {:induction false} UpsertFirst(lock: seq<Entry>, e: Entry)
    ensures FirstEntry(Upsert(lock, e), e.coord, e)
  {
    var after := Upsert(lock, e);
    PinIsFirstEntry(after, e.coord);
    OnlyUpsert(lock, e, e.coord);
    PinIsFirst(after, e.coord);
  }

  /**
   Without `--update`, an entry that is there before and after a run for the same coordinate and
   url keeps its checksum, digests being written without capitals, unless the one dependency met
   with that coordinate carries the new one itself.
   */
  lemma {:induction false} InstallKeepsDigests(w: World, all: set<Coord>, project: Manifest,
                                               lock: seq<Entry>, dirs: map<Dir, Option<Manifest>>, e: Entry, e': Entry)
    requires Bounds(all, project.dependencies) && Finite(all, w, dirs) && !w.update && DupFree(lock)
    requires e in lock && e' in Run(w, all, project.dependencies, project, Start(lock, dirs)).lock
    requires e.coord == e'.coord && e.url == e'.url && NoCapitals(e.sha256) && NoCapitals(e'.sha256)
    ensures var met := Met(w, all, project.dependencies, project, Start(lock, dirs));
            && OneEach(met)
            && (e.sha256 == e'.sha256 ||
                exists d :: d in met && d.coord == e.coord && d.sha256.Some?
                            && (NoCapitals(d.sha256.value) ==> d.sha256.value == e'.sha256))
  {
    InstallKeepsHashes(w, all, project, lock, dirs, e, e');
    SameHashIff(e.sha256, e'.sha256);
    SameDigest(e.sha256, e'.sha256);
    if e.sha256 != e'.sha256 {
      var met := Met(w, all, project.dependencies, project, Start(lock, dirs));
      var d :| d in met && d.coord == e.coord && d.sha256.Some? && Matches(d.sha256.value, e'.sha256);
      if NoCapitals(d.sha256.value) {
        SameHashIff(d.sha256.value, e'.sha256);
        SameDigest(d.sha256.value, e'.sha256);
      }
    }
  }

  // ---- Urls and directories ----

  /** Without a repository the central one is asked, in the cache under the name `central`. */
  lemma {:induction false} CentralUrl(d: Dependency, owner: Manifest)
    requires d.url.None? && d.repository.None?
    ensures EffectiveUrl(d, owner) ==
              Some("https://central.tinox-lang.de/api/v1/" + d.coord.group + "/" + d.coord.artifact + "/" + d.coord.version)
    ensures PlaceOf(d) == Place("central", d.coord)
  {
    var base := "https://central.tinox-lang.de";
    assert base[|base| - 1] == 'e';
    assert TrimSlashes(base) == base;
    assert "https://central.tinox-lang.de" + "/api/v1/" == "https://central.tinox-lang.de/api/v1/";
  }

  /** A repository is found by the first entry with its id; slashes at the end of its url do not count. */
  lemma {:induction false} RepositoryUrl(d: Dependency, owner: Manifest, i: nat, base: string, slashes: string)
    requires d.url.None? && d.repository.Some? && i < |owner.repositories|
    requires owner.repositories[i].id == d.repository.value
    requires forall j :: 0 <= j < i ==> owner.repositories[j].id != d.repository.value
    requires owner.repositories[i].url == base + slashes && (base != "" ==> base[|base| - 1] != '/')
    requires forall j :: 0 <= j < |slashes| ==> slashes[j] == '/'
    ensures EffectiveUrl(d, owner) ==
              Some(base + "/api/v1/" + d.coord.group + "/" + d.coord.artifact + "/" + d.coord.version)
    ensures PlaceOf(d) == Place(d.repository.value, d.coord)
  {
    FirstRepository(owner.repositories, d.repository.value, i);
    Trimmed(base, slashes);
  }

  lemma {:induction false} FirstRepository(rs: seq<Repository>, id: string, i: nat)
    requires i < |rs| && rs[i].id == id && forall j :: 0 <= j < i ==> rs[j].id != id
    ensures FindRepository(rs, id) == Some(rs[i].url)
  {
    if i > 0 {
      forall j | 0 <= j < i - 1 ensures rs[1..][j].id != id { assert rs[1..][j] == rs[j + 1]; }
      FirstRepository(rs[1..], id, i - 1);
    }
  }

  lemma {:induction false} Trimmed(base: string, slashes: string)
    requires (base != "" ==> base[|base| - 1] != '/') && forall j :: 0 <= j < |slashes| ==> slashes[j] == '/'
    ensures TrimSlashes(base + slashes) == base
    decreases |slashes|
  {
    if slashes == "" {
      assert base + slashes == base;
    } else {
      var n := |slashes| - 1;
      assert (base + slashes)[..|base| + n] == base + slashes[..n];
      Trimmed(base, slashes[..n]);
    }
  }

  /** No url: both kinds of address given, or a repository that the manifest does not declare. */
  lemma {:induction false} NoUrlIff(d: Dependency, owner: Manifest)
    ensures EffectiveUrl(d, owner).None? <==>
              d.repository.Some? && (d.url.Some? || forall r :: r in owner.repositories ==> r.id != d.repository.value)
    ensures d.url.Some? && d.repository.None? ==> EffectiveUrl(d, owner) == d.url
  {
    if d.repository.Some? {
      NoRepositoryIff(owner.repositories, d.repository.value);
    }
  }

  lemma {:induction false} NoRepositoryIff(rs: seq<Repository>, id: string)
    ensures FindRepository(rs, id).None? <==> forall r :: r in rs ==> r.id != id
  {
    if rs != [] {
      NoRepositoryIff(rs[1..], id);
      assert rs == [rs[0]] + rs[1..];
    }
  }

  /** A name that could lead out of its directory. */
  predicate Straying(t: string) {
    t == "" || t == "." || t == ".." || exists i :: 0 <= i < |t| && (t[i] == '/' || t[i] == '\\' || t[i] == '\0')
  }

  /** A dependency is refused a directory exactly when one of its path segments could lead elsewhere. */
  lemma {:induction false} DirIff(d: Dependency)
    ensures var stray := Straying(d.coord.group) || Straying(d.coord.artifact) || Straying(d.coord.version);
            DirOf(d) == if d.url.Some? then (if stray then None else Some(Local(d.coord)))
                        else if stray || (d.repository.Some? && Straying(d.repository.value)) then None
                        else Some(Shared(Place(if d.repository.Some? then d.repository.value else "central", d.coord)))
  {
    SegmentIff(d.coord.group);
    SegmentIff(d.coord.artifact);
    SegmentIff(d.coord.version);
    SegmentIff(RepositoryId(d));
    assert "central" != "" && "central" != "." && "central" != "..";
    assert Segment("central");
  }

  lemma {:induction false} SegmentIff(t: string)
    ensures Segment(t) <==> !Straying(t)
  {
  }
}
