/**
 The read-only walk of the shared package cache: which directories a manifest reaches, and
 which coordinates it reaches that are not installed. The cache is a finite map from
 directories to the dependencies their manifests declare, and may be cyclic.
 */
module DependencyWalk {
  import opened Wrappers
  import opened Packages

  type Cache = map<Place, seq<Dependency>>

  predicate Installed(cache: Cache, d: Dependency) { PathOk(d) && PlaceOf(d) in cache }

  /** The dependencies an installed package declares. */
  function Children(cache: Cache, d: Dependency): seq<Dependency> {
    if Installed(cache, d) then cache[PlaceOf(d)] else []
  }

  function Coords(ds: seq<Dependency>): set<Coord> { set d | d in ds :: d.coord }

  /** Everything the walk can meet. */
  ghost function Universe(cache: Cache, roots: seq<Dependency>): set<Coord> {
    Coords(roots) + (set p, d | p in cache && d in cache[p] :: d.coord)
  }

  ghost predicate Covers(all: set<Coord>, cache: Cache, ds: seq<Dependency>) {
    && (forall d :: d in ds ==> d.coord in all)
    && (forall p, d :: p in cache && d in cache[p] ==> d.coord in all)
  }

  // ---- The order of visits ----

  /** `order` followed by what is visited next: depth first, each coordinate once, skipping explicit urls. */
  ghost function Visit(cache: Cache, all: set<Coord>, ds: seq<Dependency>, order: seq<Dependency>): (r: seq<Dependency>)
    requires Covers(all, cache, ds)
    ensures order <= r
    decreases all - Coords(order), |ds|
  {
    if ds == [] then order
    else
      var d := ds[0];
      if d.url.Some? || d.coord in Coords(order) then Visit(cache, all, ds[1..], order)
      else
        Grows(all, order, d);
        var below := Visit(cache, all, Children(cache, d), order + [d]);
        Shrinks(all, order + [d], below);
        Visit(cache, all, ds[1..], below)
  }

  lemma {:induction false} Grows(all: set<Coord>, order: seq<Dependency>, d: Dependency)
    requires d.coord in all && d.coord !in Coords(order)
    ensures Coords(order + [d]) == Coords(order) + {d.coord}
    ensures all - Coords(order + [d]) < all - Coords(order)
  {
    assert forall x :: x in order + [d] <==> x in order || x == d;
    assert d in order + [d];
    assert forall x :: x in order ==> x in order + [d];
    assert d.coord in all - Coords(order);
  }

  lemma {:induction false} Shrinks(all: set<Coord>, order: seq<Dependency>, more: seq<Dependency>)
    requires order <= more
    ensures Coords(order) <= Coords(more) && all - Coords(more) <= all - Coords(order)
  {
    assert forall x :: x in order ==> x in more;
  }

  lemma {:induction false} VisitAppend(cache: Cache, all: set<Coord>, xs: seq<Dependency>, ys: seq<Dependency>, order: seq<Dependency>)
    requires Covers(all, cache, xs) && Covers(all, cache, ys)
    ensures Covers(all, cache, xs + ys)
    ensures Visit(cache, all, xs + ys, order) == Visit(cache, all, ys, Visit(cache, all, xs, order))
    decreases all - Coords(order), |xs|
  {
    if xs == [] {
      assert xs + ys == ys;
    } else {
      var d := xs[0];
      assert (xs + ys)[1..] == xs[1..] + ys;
      if d.url.Some? || d.coord in Coords(order) {
        VisitAppend(cache, all, xs[1..], ys, order);
      } else {
        Grows(all, order, d);
        var below := Visit(cache, all, Children(cache, d), order + [d]);
        Shrinks(all, order + [d], below);
        VisitAppend(cache, all, xs[1..], ys, below);
      }
    }
  }

  /** One dependency by itself. */
  lemma {:induction false} VisitOne(cache: Cache, all: set<Coord>, d: Dependency, order: seq<Dependency>)
    requires Covers(all, cache, [d])
    ensures Visit(cache, all, [d], order) ==
            if d.url.Some? || d.coord in Coords(order) then order else Visit(cache, all, Children(cache, d), order + [d])
  {
  }

  // ---- What the order says ----

  ghost predicate Distinct(order: seq<Dependency>) {
    forall i, j :: 0 <= i < j < |order| ==> order[i].coord != order[j].coord
  }

  lemma {:induction false} VisitDistinct(cache: Cache, all: set<Coord>, ds: seq<Dependency>, order: seq<Dependency>)
    requires Covers(all, cache, ds) && Distinct(order)
    ensures Distinct(Visit(cache, all, ds, order))
    decreases all - Coords(order), |ds|
  {
    if ds != [] {
      var d := ds[0];
      if d.url.Some? || d.coord in Coords(order) {
        VisitDistinct(cache, all, ds[1..], order);
      } else {
        Grows(all, order, d);
        assert forall x :: x in order ==> x.coord in Coords(order);
        VisitDistinct(cache, all, Children(cache, d), order + [d]);
        var below := Visit(cache, all, Children(cache, d), order + [d]);
        Shrinks(all, order + [d], below);
        VisitDistinct(cache, all, ds[1..], below);
      }
    }
  }

  ghost predicate Seen(r: seq<Dependency>, d: Dependency) { d.url.Some? || d.coord in Coords(r) }

  ghost predicate AllSeen(r: seq<Dependency>, ds: seq<Dependency>) { forall d :: d in ds ==> Seen(r, d) }

  /** From `n` on, everything visited has had its own dependencies visited too. */
  ghost predicate ClosedFrom(cache: Cache, r: seq<Dependency>, n: nat) {
    forall i :: n <= i < |r| ==> AllSeen(r, Children(cache, r[i]))
  }

  lemma {:induction false} SeenLater(r: seq<Dependency>, more: seq<Dependency>, ds: seq<Dependency>)
    requires r <= more && AllSeen(r, ds)
    ensures AllSeen(more, ds)
  {
    Shrinks({}, r, more);
  }

  lemma {:induction false} ClosedLater(cache: Cache, r: seq<Dependency>, more: seq<Dependency>, n: nat)
    requires r <= more && ClosedFrom(cache, r, n) && ClosedFrom(cache, more, |r|)
    ensures ClosedFrom(cache, more, n)
  {
    forall i | n <= i < |more| ensures AllSeen(more, Children(cache, more[i])) {
      if i < |r| {
        SeenLater(r, more, Children(cache, r[i]));
      }
    }
  }

  /** A visit leaves nothing open but what was open before it. */
  lemma {:induction false} VisitCloses(cache: Cache, all: set<Coord>, ds: seq<Dependency>, order: seq<Dependency>)
    requires Covers(all, cache, ds)
    ensures var r := Visit(cache, all, ds, order); AllSeen(r, ds) && ClosedFrom(cache, r, |order|)
    decreases all - Coords(order), |ds|
  {
    if ds != [] {
      var d, r := ds[0], Visit(cache, all, ds, order);
      if d.url.Some? || d.coord in Coords(order) {
        VisitCloses(cache, all, ds[1..], order);
        Shrinks(all, order, r);
      } else {
        Grows(all, order, d);
        var below := Visit(cache, all, Children(cache, d), order + [d]);
        VisitCloses(cache, all, Children(cache, d), order + [d]);
        assert below[|order|] == d;
        assert ClosedFrom(cache, below, |order|);
        Shrinks(all, order + [d], below);
        VisitCloses(cache, all, ds[1..], below);
        Shrinks(all, below, r);
        ClosedLater(cache, below, r, |order|);
      }
      AllSeenHead(r, ds);
    }
  }

  lemma {:induction false} AllSeenHead(r: seq<Dependency>, ds: seq<Dependency>)
    requires ds != [] && Seen(r, ds[0]) && AllSeen(r, ds[1..])
    ensures AllSeen(r, ds)
  {
    forall d | d in ds ensures Seen(r, d) {
      if d != ds[0] {
        assert d in ds[1..];
      }
    }
  }

  // ---- Reachability ----

  /** The package at place `i` declares the next dependency. */
  ghost predicate Link(cache: Cache, p: seq<Dependency>, i: nat)
    requires i + 1 < |p|
  {
    p[i + 1] in Children(cache, p[i])
  }

  /** A chain of dependencies, each declared by the package before it. */
  ghost predicate Chain(cache: Cache, p: seq<Dependency>) {
    && (forall i :: 0 <= i < |p| ==> p[i].url.None?)
    && (forall i: nat :: i < |p| - 1 ==> Link(cache, p, i))
  }

  ghost predicate Leads(cache: Cache, ds: seq<Dependency>, p: seq<Dependency>, d: Dependency) {
    p != [] && p[0] in ds && p[|p| - 1] == d && Chain(cache, p)
  }

  ghost predicate Reaches(cache: Cache, ds: seq<Dependency>, d: Dependency) {
    exists p :: Leads(cache, ds, p, d)
  }

  lemma {:induction false} ReachesThrough(cache: Cache, ds: seq<Dependency>, c: Dependency, d: Dependency)
    requires c in ds && c.url.None? && Reaches(cache, Children(cache, c), d)
    ensures Reaches(cache, ds, d)
  {
    var p :| Leads(cache, Children(cache, c), p, d);
    var q := [c] + p;
    forall i: nat | i < |q| - 1 ensures Link(cache, q, i) {
      if i > 0 {
        assert Link(cache, p, i - 1);
      }
    }
    assert Leads(cache, ds, q, d);
  }

  lemma {:induction false} ReachesMore(cache: Cache, ds: seq<Dependency>, d: Dependency)
    requires ds != [] && Reaches(cache, ds[1..], d)
    ensures Reaches(cache, ds, d)
  {
    var p :| Leads(cache, ds[1..], p, d);
    assert Leads(cache, ds, p, d);
  }

  /** Nothing is visited that is not reachable. */
  lemma {:induction false} VisitSound(cache: Cache, all: set<Coord>, ds: seq<Dependency>, order: seq<Dependency>, i: nat)
    requires Covers(all, cache, ds) && |order| <= i < |Visit(cache, all, ds, order)|
    ensures Reaches(cache, ds, Visit(cache, all, ds, order)[i])
    decreases all - Coords(order), |ds|
  {
    var d, r := ds[0], Visit(cache, all, ds, order);
    if d.url.Some? || d.coord in Coords(order) {
      VisitSound(cache, all, ds[1..], order, i);
      ReachesMore(cache, ds, r[i]);
    } else {
      Grows(all, order, d);
      var below := Visit(cache, all, Children(cache, d), order + [d]);
      Shrinks(all, order + [d], below);
      if i == |order| {
        assert r[i] == below[i] == (order + [d])[i] == d;
        assert Leads(cache, ds, [d], d);
      } else if i < |below| {
        VisitSound(cache, all, Children(cache, d), order + [d], i);
        ReachesThrough(cache, ds, d, r[i]);
      } else {
        VisitSound(cache, all, ds[1..], below, i);
        ReachesMore(cache, ds, r[i]);
      }
    }
  }

  // ---- What is reported ----

  /** The directories found, in the order of visits. */
  ghost function Dirs(cache: Cache, order: seq<Dependency>): seq<Place> {
    if order == [] then []
    else
      var n := |order| - 1;
      Dirs(cache, order[..n]) + if Installed(cache, order[n]) then [PlaceOf(order[n])] else []
  }

  /** The coordinates with a valid path but no directory. */
  ghost function Missing(cache: Cache, order: seq<Dependency>): seq<Coord> {
    if order == [] then []
    else
      var n := |order| - 1;
      Missing(cache, order[..n]) +
        if PathOk(order[n]) && !Installed(cache, order[n]) then [order[n].coord] else []
  }

  lemma {:induction false} DirsAre(cache: Cache, order: seq<Dependency>, p: Place)
    ensures p in Dirs(cache, order) <==> exists d :: d in order && Installed(cache, d) && PlaceOf(d) == p
    decreases |order|
  {
    if order != [] {
      var n := |order| - 1;
      DirsAre(cache, order[..n], p);
      assert order == order[..n] + [order[n]];
      if p in Dirs(cache, order[..n]) {
        var d :| d in order[..n] && Installed(cache, d) && PlaceOf(d) == p;
        assert d in order;
      } else if p in Dirs(cache, order) {
        assert order[n] in order && PlaceOf(order[n]) == p;
      }
    }
  }

  lemma {:induction false} MissingAre(cache: Cache, order: seq<Dependency>, c: Coord)
    ensures c in Missing(cache, order) <==> exists d :: d in order && PathOk(d) && !Installed(cache, d) && d.coord == c
    decreases |order|
  {
    if order != [] {
      var n := |order| - 1;
      MissingAre(cache, order[..n], c);
      assert order == order[..n] + [order[n]];
      if c in Missing(cache, order[..n]) {
        var d :| d in order[..n] && PathOk(d) && !Installed(cache, d) && d.coord == c;
        assert d in order;
      } else if c in Missing(cache, order) {
        assert order[n] in order && order[n].coord == c;
      }
    }
  }

  ghost function Walked(cache: Cache, roots: seq<Dependency>): (r: seq<Dependency>) {
    Visit(cache, Universe(cache, roots), roots, [])
  }

  lemma {:induction false} WalkedFacts(cache: Cache, roots: seq<Dependency>)
    ensures var r := Walked(cache, roots);
            && Distinct(r) && AllSeen(r, roots) && ClosedFrom(cache, r, 0)
            && forall d :: d in r ==> Reaches(cache, roots, d)
  {
    var all, r := Universe(cache, roots), Walked(cache, roots);
    VisitDistinct(cache, all, roots, []);
    VisitCloses(cache, all, roots, []);
    forall i | 0 <= i < |r| ensures Reaches(cache, roots, r[i]) {
      VisitSound(cache, all, roots, [], i);
    }
  }

  /** The walk reports what it should about `d`: its directory, or its coordinate as missing. */
  ghost predicate Reported(cache: Cache, order: seq<Dependency>, d: Dependency) {
    if Installed(cache, d) then PlaceOf(d) in Dirs(cache, order)
    else PathOk(d) ==> d.coord in Missing(cache, order)
  }

  /** Two references to a coordinate that mean the same directory, or no directory at all. */
  ghost predicate Agree(cache: Cache, d: Dependency, e: Dependency) {
    PlaceOf(d) == PlaceOf(e) || (!Installed(cache, d) && !Installed(cache, e))
  }

  /** No coordinate is reached through two repositories, one of which has it. */
  ghost predicate Unambiguous(cache: Cache, roots: seq<Dependency>) {
    forall d, e :: Reaches(cache, roots, d) && Reaches(cache, roots, e) && d.coord == e.coord ==> Agree(cache, d, e)
  }

  lemma {:induction false} Representative(order: seq<Dependency>, c: Coord) returns (e: Dependency)
    requires c in Coords(order)
    ensures e in order && e.coord == c
  {
    e :| e in order && e.coord == c;
  }

  lemma {:induction false} SeenReported(cache: Cache, roots: seq<Dependency>, d: Dependency, e: Dependency)
    requires Agree(cache, d, e) && d.coord == e.coord && PathOk(d) && PathOk(e) && e in Walked(cache, roots)
    ensures Reported(cache, Walked(cache, roots), d)
  {
    DirsAre(cache, Walked(cache, roots), PlaceOf(d));
    MissingAre(cache, Walked(cache, roots), d.coord);
  }

  lemma {:induction false} PrefixReaches(cache: Cache, roots: seq<Dependency>, p: seq<Dependency>, n: nat)
    requires n < |p| && p[0] in roots && Chain(cache, p)
    ensures Reaches(cache, roots, p[n])
  {
    var q := p[..n + 1];
    forall i: nat | i < |q| - 1 ensures Link(cache, q, i) {
      assert Link(cache, p, i);
    }
    assert Leads(cache, roots, q, p[n]);
  }

  /** What is declared by something seen is seen. */
  lemma {:induction false} ChildSeen(cache: Cache, r: seq<Dependency>, d: Dependency, e: Dependency, c: Dependency)
    requires ClosedFrom(cache, r, 0) && e in r && Agree(cache, d, e) && c in Children(cache, d)
    ensures Seen(r, c)
  {
    SameChildren(cache, d, e);
    var i :| 0 <= i < |r| && r[i] == e;
    assert AllSeen(r, Children(cache, r[i]));
  }

  /** Whatever the walk visits first with a coordinate means the same directory as every valid reference reached. */
  ghost predicate FirstMeant(cache: Cache, roots: seq<Dependency>) {
    forall d, e :: Reaches(cache, roots, d) && PathOk(d) && e in Walked(cache, roots) && d.coord == e.coord ==>
      PathOk(e) && Agree(cache, d, e)
  }

  /** Along every chain the walk keeps up. */
  lemma {:induction false} ChainSeen(cache: Cache, roots: seq<Dependency>, p: seq<Dependency>, n: nat)
    requires FirstMeant(cache, roots) && n < |p| && p[0] in roots && Chain(cache, p)
    ensures p[n].coord in Coords(Walked(cache, roots)) && Reaches(cache, roots, p[n])
    decreases n
  {
    PrefixReaches(cache, roots, p, n);
    if n == 0 {
      RootSeen(cache, roots, p[0]);
    } else {
      ChainSeen(cache, roots, p, n - 1);
      NextSeen(cache, roots, p, n);
    }
  }

  lemma {:induction false} RootSeen(cache: Cache, roots: seq<Dependency>, d: Dependency)
    requires d in roots && d.url.None?
    ensures d.coord in Coords(Walked(cache, roots))
  {
    WalkedFacts(cache, roots);
    assert Seen(Walked(cache, roots), d);
  }

  lemma {:induction false} NextSeen(cache: Cache, roots: seq<Dependency>, p: seq<Dependency>, n: nat)
    requires FirstMeant(cache, roots) && 0 < n < |p| && Chain(cache, p)
    requires p[n - 1].coord in Coords(Walked(cache, roots)) && Reaches(cache, roots, p[n - 1])
    ensures p[n].coord in Coords(Walked(cache, roots))
  {
    var d, r := p[n - 1], Walked(cache, roots);
    WalkedFacts(cache, roots);
    var e := Representative(r, d.coord);
    assert Link(cache, p, n - 1) && PathOk(d);
    ChildSeen(cache, r, d, e, p[n]);
  }

  lemma {:induction false} SameChildren(cache: Cache, d: Dependency, e: Dependency)
    requires Agree(cache, d, e)
    ensures Children(cache, d) == Children(cache, e)
  {
  }

  lemma {:induction false} AllReported(cache: Cache, roots: seq<Dependency>, d: Dependency)
    requires FirstMeant(cache, roots) && Reaches(cache, roots, d)
    ensures Reported(cache, Walked(cache, roots), d)
  {
    if PathOk(d) {
      var p :| Leads(cache, roots, p, d);
      ChainSeen(cache, roots, p, |p| - 1);
      var e := Representative(Walked(cache, roots), d.coord);
      SeenReported(cache, roots, d, e);
    }
  }

  /** What is reported of a valid reference is what was visited first. */
  lemma {:induction false} ReportedFirst(cache: Cache, roots: seq<Dependency>, d: Dependency, e: Dependency)
    requires PathOk(d) && Reported(cache, Walked(cache, roots), d) && e in Walked(cache, roots) && d.coord == e.coord
    ensures PathOk(e) && Agree(cache, d, e)
  {
    var r := Walked(cache, roots);
    WalkedFacts(cache, roots);
    var x := ReportedBy(cache, r, d);
    var i :| 0 <= i < |r| && r[i] == x;
    var j :| 0 <= j < |r| && r[j] == e;
    assert i == j;
  }

  /**
   On every cache, the walk reports everything reachable through installed packages along
   dependencies without a url exactly when what it visits first with a coordinate means the same
   as every valid reference to it.
   */
  lemma {:induction false} ReportsAllIff(cache: Cache, roots: seq<Dependency>)
    ensures (forall d :: Reaches(cache, roots, d) ==> Reported(cache, Walked(cache, roots), d))
            <==> FirstMeant(cache, roots)
  {
    if FirstMeant(cache, roots) {
      forall d | Reaches(cache, roots, d) ensures Reported(cache, Walked(cache, roots), d) {
        AllReported(cache, roots, d);
      }
    }
    if forall d :: Reaches(cache, roots, d) ==> Reported(cache, Walked(cache, roots), d) {
      forall d, e | Reaches(cache, roots, d) && PathOk(d) && e in Walked(cache, roots) && d.coord == e.coord
        ensures PathOk(e) && Agree(cache, d, e)
      {
        ReportedFirst(cache, roots, d, e);
      }
    }
  }

  lemma {:induction false} WalkedReaches(cache: Cache, roots: seq<Dependency>, e: Dependency)
    requires e in Walked(cache, roots)
    ensures Reaches(cache, roots, e)
  {
    WalkedFacts(cache, roots);
  }

  /**
   Where all paths are valid that is so exactly when no coordinate is reached through two
   repositories one of which has it.
   */
  lemma {:induction false} CompleteIff(cache: Cache, roots: seq<Dependency>)
    requires forall d :: Reaches(cache, roots, d) ==> PathOk(d)
    ensures (forall d :: Reaches(cache, roots, d) ==> Reported(cache, Walked(cache, roots), d))
            <==> Unambiguous(cache, roots)
  {
    var r := Walked(cache, roots);
    ReportsAllIff(cache, roots);
    if Unambiguous(cache, roots) {
      forall d, e | Reaches(cache, roots, d) && PathOk(d) && e in r && d.coord == e.coord
        ensures PathOk(e) && Agree(cache, d, e)
      {
        WalkedReaches(cache, roots, e);
      }
    }
    if FirstMeant(cache, roots) {
      WalkedFacts(cache, roots);
      forall d, e | Reaches(cache, roots, d) && Reaches(cache, roots, e) && d.coord == e.coord
        ensures Agree(cache, d, e)
      {
        ReportedAgree(cache, r, d, e);
      }
    }
  }

  /** It can go wrong: a second repository that has the package is not asked. */
  lemma {:induction false} SecondRepositoryIgnored() returns (cache: Cache, roots: seq<Dependency>)
    ensures exists d :: Reaches(cache, roots, d) && PathOk(d) && !Reported(cache, Walked(cache, roots), d)
  {
    var c := Coord("g", "a", "1");
    var d, e := Dependency(c, None, None, None), Dependency(c, None, Some("mirror"), None);
    cache, roots := map[PlaceOf(e) := []], [d, e];
    assert Leads(cache, roots, [d], d) && Leads(cache, roots, [e], e);
    assert Reaches(cache, roots, d) && Reaches(cache, roots, e);
    assert PathOk(d) && PathOk(e);
    assert !Agree(cache, d, e);
    WalkedFacts(cache, roots);
    if Reported(cache, Walked(cache, roots), d) && Reported(cache, Walked(cache, roots), e) {
      ReportedAgree(cache, Walked(cache, roots), d, e);
      assert false;
    }
  }

  /** One coordinate has one report. */
  lemma {:induction false} ReportedAgree(cache: Cache, r: seq<Dependency>, d: Dependency, e: Dependency)
    requires Distinct(r) && d.coord == e.coord && PathOk(d) && PathOk(e) && Reported(cache, r, d) && Reported(cache, r, e)
    ensures Agree(cache, d, e)
  {
    var x := ReportedBy(cache, r, d);
    var y := ReportedBy(cache, r, e);
    assert x == y by {
      var i :| 0 <= i < |r| && r[i] == x;
      var j :| 0 <= j < |r| && r[j] == y;
      assert i == j;
    }
  }

  lemma {:induction false} ReportedBy(cache: Cache, r: seq<Dependency>, d: Dependency) returns (x: Dependency)
    requires PathOk(d) && Reported(cache, r, d)
    ensures x in r && x.coord == d.coord && PathOk(x)
    ensures if Installed(cache, d) then Installed(cache, x) && PlaceOf(x) == PlaceOf(d) else !Installed(cache, x)
  {
    if Installed(cache, d) {
      DirsAre(cache, r, PlaceOf(d));
      x :| x in r && Installed(cache, x) && PlaceOf(x) == PlaceOf(d);
    } else {
      MissingAre(cache, r, d.coord);
      x :| x in r && PathOk(x) && !Installed(cache, x) && x.coord == d.coord;
    }
  }

  /** Nothing unreachable is reported, whatever the cache. */
  lemma {:induction false} ReportedIsReachable(cache: Cache, roots: seq<Dependency>)
    ensures forall p :: p in Dirs(cache, Walked(cache, roots)) ==>
              exists d :: Reaches(cache, roots, d) && Installed(cache, d) && PlaceOf(d) == p
    ensures forall c :: c in Missing(cache, Walked(cache, roots)) ==>
              exists d :: Reaches(cache, roots, d) && PathOk(d) && !Installed(cache, d) && d.coord == c
  {
    var r := Walked(cache, roots);
    WalkedFacts(cache, roots);
    forall p | p in Dirs(cache, r)
      ensures exists d :: Reaches(cache, roots, d) && Installed(cache, d) && PlaceOf(d) == p
    {
      DirsAre(cache, r, p);
    }
    forall c | c in Missing(cache, r)
      ensures exists d :: Reaches(cache, roots, d) && PathOk(d) && !Installed(cache, d) && d.coord == c
    {
      MissingAre(cache, r, c);
    }
  }

  /** Each coordinate is reported at most once, as a directory or as missing and never both. */
  lemma {:induction false} ReportedOnce(cache: Cache, roots: seq<Dependency>)
    ensures OnePerCoord(Dirs(cache, Walked(cache, roots))) && NoRepeats(Missing(cache, Walked(cache, roots)))
    ensures forall p :: p in Dirs(cache, Walked(cache, roots)) ==> p.coord !in Missing(cache, Walked(cache, roots))
  {
    var r := Walked(cache, roots);
    WalkedFacts(cache, roots);
    FilteredDistinct(cache, r);
    forall p | p in Dirs(cache, r) ensures p.coord !in Missing(cache, r) {
      DirsAre(cache, r, p);
      MissingAre(cache, r, p.coord);
      var d :| d in r && Installed(cache, d) && PlaceOf(d) == p;
      forall e | e in r && e.coord == p.coord ensures e == d {
        var i :| 0 <= i < |r| && r[i] == d;
        var j :| 0 <= j < |r| && r[j] == e;
        assert i == j;
      }
    }
  }

  ghost predicate OnePerCoord(ds: seq<Place>) { forall i, j :: 0 <= i < j < |ds| ==> ds[i].coord != ds[j].coord }

  ghost predicate NoRepeats(cs: seq<Coord>) { forall i, j :: 0 <= i < j < |cs| ==> cs[i] != cs[j] }

  lemma {:induction false} FilteredDistinct(cache: Cache, r: seq<Dependency>)
    requires Distinct(r)
    ensures OnePerCoord(Dirs(cache, r)) && NoRepeats(Missing(cache, r))
    decreases |r|
  {
    if r != [] {
      var n := |r| - 1;
      var q, x := r[..n], r[n];
      assert r == q + [x];
      FilteredDistinct(cache, q);
      var ds, cs := Dirs(cache, q), Missing(cache, q);
      forall i | 0 <= i < |ds| ensures ds[i].coord != x.coord {
        assert ds[i] in ds;
        DirsAre(cache, q, ds[i]);
        NotAmong(q, x, ds[i].coord);
      }
      forall i | 0 <= i < |cs| ensures cs[i] != x.coord {
        assert cs[i] in cs;
        MissingAre(cache, q, cs[i]);
        NotAmong(q, x, cs[i]);
      }
      assert Dirs(cache, r) == ds + if Installed(cache, x) then [PlaceOf(x)] else [];
      assert Missing(cache, r) == cs + if PathOk(x) && !Installed(cache, x) then [x.coord] else [];
    }
  }

  lemma {:induction false} NotAmong(q: seq<Dependency>, x: Dependency, c: Coord)
    requires Distinct(q + [x]) && exists d :: d in q && d.coord == c
    ensures c != x.coord
  {
    var d :| d in q && d.coord == c;
    var i :| 0 <= i < |q| && q[i] == d;
    assert (q + [x])[i] == d && (q + [x])[|q|] == x;
  }

  // ---- The walk as it runs ----

  class Walk {
    const cache: Cache
    var dirs: seq<Place>
    var missing: seq<Coord>
    var visited: set<Coord>
    ghost var order: seq<Dependency>

    ghost predicate Valid()
      reads this
    {
      visited == Coords(order) && dirs == Dirs(cache, order) && missing == Missing(cache, order)
    }

    constructor (cache: Cache)
      ensures Valid() && this.cache == cache && order == []
    {
      this.cache := cache;
      dirs, missing, visited, order := [], [], {}, [];
    }

    /** Enters a coordinate that was not visited before. */
    method Enter(d: Dependency, ghost all: set<Coord>)
      requires Valid() && d.coord in all && d.coord !in visited
      modifies this
      ensures Valid() && order == old(order) + [d]
    {
      Grows(all, order, d);
      visited := visited + {d.coord};
      order := order + [d];
      assert order[..|order| - 1] == old(order);
      if PathOk(d) {
        if PlaceOf(d) !in cache {
          missing := missing + [d.coord];
        } else {
          dirs := dirs + [PlaceOf(d)];
        }
      }
    }

    /** `collect_global_dep_dir` */
    method Collect(d: Dependency, ghost all: set<Coord>)
      requires Valid() && d.url.None? && Covers(all, cache, [d])
      modifies this
      ensures Valid() && order == Visit(cache, all, [d], old(order))
      decreases all - Coords(order), 0
    {
      VisitOne(cache, all, d, order);
      if d.coord in visited { return; }
      Grows(all, order, d);
      Enter(d, all);
      if Installed(cache, d) {
        CollectAll(cache[PlaceOf(d)], all);
      }
    }

    /** The loop over a manifest's dependencies. */
    method CollectAll(ds: seq<Dependency>, ghost all: set<Coord>)
      requires Valid() && Covers(all, cache, ds)
      modifies this
      ensures Valid() && order == Visit(cache, all, ds, old(order))
      decreases all - Coords(order), 1
    {
      for i := 0 to |ds|
        invariant Valid() && Covers(all, cache, ds[..i]) && order == Visit(cache, all, ds[..i], old(order))
      {
        Shrinks(all, old(order), order);
        VisitAppend(cache, all, ds[..i], [ds[i]], old(order));
        assert ds[..i + 1] == ds[..i] + [ds[i]];
        if ds[i].url.None? {
          Collect(ds[i], all);
        }
      }
      assert ds[..|ds|] == ds;
    }
  }

  /** `global_dep_dirs` */
  method GlobalDepDirs(cache: Cache, roots: seq<Dependency>) returns (dirs: seq<Place>, missing: seq<Coord>)
    ensures dirs == Dirs(cache, Walked(cache, roots)) && missing == Missing(cache, Walked(cache, roots))
  {
    var w := new Walk(cache);
    w.CollectAll(roots, Universe(cache, roots));
    return w.dirs, w.missing;
  }
}
