/**
 The string map over runs with removes: what is still true of every such run, and exactly when
 it still behaves as a map. Tombstones keep probe runs unbroken, but `set` takes the first one
 it meets without looking whether the key is further on.
 */
module StringMapRuns {
  import opened StringMap

  // ---- Probe runs stay unbroken ----

  /** Every live entry sits behind slots, from its home on, of which none is empty. */
  ghost predicate Chained(hash: Hash, slots: seq<Slot>)
    requires |slots| > 0
  {
    forall i, d :: 0 <= i < |slots| && slots[i].Live? && 0 <= d < Dist(Home(hash, slots[i].key, |slots|), i, |slots|)
      ==> !slots[Pos(Home(hash, slots[i].key, |slots|), d, |slots|)].Empty?
  }

  /** A slot may become a tombstone, or an entry at the end of its probe run. */
  lemma {:induction false} UpdateChained(hash: Hash, slots: seq<Slot>, i: nat, s: Slot)
    requires i < |slots| && Chained(hash, slots) && !s.Empty?
    requires s.Live? ==> forall d :: 0 <= d < Dist(Home(hash, s.key, |slots|), i, |slots|)
                           ==> !slots[Pos(Home(hash, s.key, |slots|), d, |slots|)].Empty?
    ensures Chained(hash, slots[i := s])
  {
    var r, cap := slots[i := s], |slots|;
    forall j, d | 0 <= j < cap && r[j].Live? && 0 <= d < Dist(Home(hash, r[j].key, cap), j, cap)
      ensures !r[Pos(Home(hash, r[j].key, cap), d, cap)].Empty?
    {
      if j != i {
        assert r[j] == slots[j];
      }
    }
  }

  lemma {:induction false} MoveChained(hash: Hash, slots: seq<Slot>, s: Slot)
    requires Count(slots) < |slots| && Chained(hash, slots)
    ensures Chained(hash, Move(hash, slots, s))
  {
    if s.Live? {
      var h := Home(hash, s.key, |slots|);
      FreeExists(slots, h);
      var d := FreeDist(slots, h, 0);
      assert Dist(h, Pos(h, d, |slots|), |slots|) == d;
      UpdateChained(hash, slots, Pos(h, d, |slots|), s);
    }
  }

  lemma {:induction false} MovedChained(hash: Hash, from: seq<Slot>, cap: nat)
    requires |from| < cap
    ensures Chained(hash, Moved(hash, from, cap))
    decreases |from|
  {
    if from != [] {
      var n := |from| - 1;
      MovedChained(hash, from[..n], cap);
      MoveChained(hash, Moved(hash, from[..n], cap), from[n]);
    }
  }

  lemma {:induction false} GrownChained(hash: Hash, t: Table)
    requires Valid(t) && Chained(hash, t.slots)
    ensures Chained(hash, Grown(hash, t).slots)
  {
    if t.len * 4 >= |t.slots| * 3 {
      MovedChained(hash, t.slots, 2 * |t.slots|);
    }
  }

  /** The slot `set` writes to. */
  function Target(hash: Hash, t: Table, k: string): (i: nat)
    requires Valid(t) && 4 * t.len < 3 * |t.slots|
    ensures i < |t.slots| && !SetPasses(t.slots[i], k)
    ensures forall d :: 0 <= d < Dist(Home(hash, k, |t.slots|), i, |t.slots|)
              ==> SetPasses(t.slots[Pos(Home(hash, k, |t.slots|), d, |t.slots|)], k)
  {
    var h := Home(hash, k, |t.slots|);
    SetStops(t.slots, k, h);
    assert Dist(h, Pos(h, SetDist(t.slots, k, h, 0), |t.slots|), |t.slots|) == SetDist(t.slots, k, h, 0);
    Pos(h, SetDist(t.slots, k, h, 0), |t.slots|)
  }

  lemma {:induction false} SetIs(hash: Hash, t: Table, k: string, v: int)
    requires Valid(t)
    ensures var g := Grown(hash, t);
            Set(hash, t, k, v).slots == g.slots[Target(hash, g, k) := Live(k, v)]
  {
  }

  lemma {:induction false} SetChained(hash: Hash, t: Table, k: string, v: int)
    requires Valid(t) && Chained(hash, t.slots)
    ensures Chained(hash, Set(hash, t, k, v).slots)
  {
    var g := Grown(hash, t);
    var i := Target(hash, g, k);
    GrownChained(hash, t);
    SetIs(hash, t, k, v);
    forall d | 0 <= d < Dist(Home(hash, k, |g.slots|), i, |g.slots|)
      ensures !g.slots[Pos(Home(hash, k, |g.slots|), d, |g.slots|)].Empty?
    {
      assert SetPasses(g.slots[Pos(Home(hash, k, |g.slots|), d, |g.slots|)], k);
    }
    UpdateChained(hash, g.slots, i, Live(k, v));
  }

  lemma {:induction false} RemoveChained(hash: Hash, t: Table, k: string)
    requires Valid(t) && Chained(hash, t.slots)
    ensures Chained(hash, Remove(hash, t, k).slots)
  {
    var h := Home(hash, k, |t.slots|);
    var d := GetDist(t.slots, k, h, 0);
    if d < |t.slots| && t.slots[Pos(h, d, |t.slots|)].Live? {
      UpdateChained(hash, t.slots, Pos(h, d, |t.slots|), Tombstone);
    }
  }

  /** In every run, with any removes and any number of rehashes. */
  lemma {:induction false} RunsChained(hash: Hash, first: nat, ops: seq<Op>)
    requires FirstCapacity(first) && After(hash, first, ops).At?
    ensures Chained(hash, After(hash, first, ops).t.slots)
    decreases |ops|
  {
    if ops != [] {
      var n := |ops| - 1;
      RunsChained(hash, first, ops[..n]);
      var t := After(hash, first, ops[..n]).t;
      match ops[n]
      case OpSet(k, v) => SetChained(hash, t, k, v);
      case OpRemove(k) => RemoveChained(hash, t, k);
    }
  }

  // ---- What lookups and removes do ----

  ghost predicate Held(slots: seq<Slot>, k: string) { exists i :: 0 <= i < |slots| && Holds(slots[i], k) }

  ghost predicate HeldTwice(slots: seq<Slot>, k: string) {
    exists i, j :: 0 <= i < j < |slots| && Holds(slots[i], k) && Holds(slots[j], k)
  }

  /** Where a lookup of a held key ends. */
  lemma {:induction false} LookupEnds(hash: Hash, slots: seq<Slot>, k: string)
    requires |slots| > 0 && Chained(hash, slots) && Held(slots, k)
    ensures var h := Home(hash, k, |slots|);
            var d := GetDist(slots, k, h, 0);
            d < |slots| && Holds(slots[Pos(h, d, |slots|)], k)
  {
    var i :| 0 <= i < |slots| && Holds(slots[i], k);
    var h := Home(hash, k, |slots|);
    var e := Dist(h, i, |slots|);
    assert !GetPasses(slots[Pos(h, e, |slots|)], k);
    var d := GetDist(slots, k, h, 0);
    if d < e {
      assert !slots[Pos(h, d, |slots|)].Empty?;
    }
  }

  /** A lookup finds a key exactly when some slot holds it. */
  lemma {:induction false} FoundIff(hash: Hash, t: Table, k: string)
    requires |t.slots| > 0 && Chained(hash, t.slots)
    ensures Get(hash, t, k).Found? <==> Held(t.slots, k)
  {
    if Held(t.slots, k) {
      LookupEnds(hash, t.slots, k);
    } else {
      var h := Home(hash, k, |t.slots|);
      var d := GetDist(t.slots, k, h, 0);
      if d < |t.slots| {
        assert !Holds(t.slots[Pos(h, d, |t.slots|)], k);
      }
    }
  }

  /** Removing a held key frees one slot that holds it. */
  lemma {:induction false} RemoveIs(hash: Hash, t: Table, k: string) returns (i: nat)
    requires Valid(t) && Chained(hash, t.slots) && Held(t.slots, k)
    ensures i < |t.slots| && Holds(t.slots[i], k)
    ensures Remove(hash, t, k).slots == t.slots[i := Tombstone]
  {
    LookupEnds(hash, t.slots, k);
    var h := Home(hash, k, |t.slots|);
    i := Pos(h, GetDist(t.slots, k, h, 0), |t.slots|);
  }

  lemma {:induction false} RemoveNothing(hash: Hash, t: Table, k: string)
    requires Valid(t) && Chained(hash, t.slots) && !Held(t.slots, k)
    ensures Remove(hash, t, k) == t
  {
    FoundIff(hash, t, k);
  }

  /** After a remove the key is gone exactly when no two slots held it. */
  lemma {:induction false} RemoveForgetsIff(hash: Hash, t: Table, k: string)
    requires Valid(t) && Chained(hash, t.slots)
    ensures !Get(hash, Remove(hash, t, k), k).Found? <==> !HeldTwice(t.slots, k)
  {
    RemoveChained(hash, t, k);
    FoundIff(hash, Remove(hash, t, k), k);
    if Held(t.slots, k) {
      var i := RemoveIs(hash, t, k);
      var r := t.slots[i := Tombstone];
      if Held(r, k) {
        var j :| 0 <= j < |r| && Holds(r[j], k);
        assert Holds(t.slots[j], k);
        assert HeldTwice(t.slots, k) by { if i < j { assert Holds(t.slots[i], k); } }
      }
      if HeldTwice(t.slots, k) {
        var a, b :| 0 <= a < b < |r| && Holds(t.slots[a], k) && Holds(t.slots[b], k);
        var j := if a == i then b else a;
        assert Holds(r[j], k);
      }
    } else {
      RemoveNothing(hash, t, k);
    }
  }

  ghost predicate Forgets(hash: Hash, t: Table)
    requires Valid(t)
  {
    forall k :: !Get(hash, Remove(hash, t, k), k).Found?
  }

  /** Every remove forgets its key exactly when each key has one slot. */
  lemma {:induction false} ForgetsIff(hash: Hash, t: Table)
    requires Valid(t) && Chained(hash, t.slots)
    ensures Forgets(hash, t) <==> OneSlotPerKey(t.slots)
  {
    forall k ensures !Get(hash, Remove(hash, t, k), k).Found? <==> !HeldTwice(t.slots, k) {
      RemoveForgetsIff(hash, t, k);
    }
    if !OneSlotPerKey(t.slots) {
      var i, j :| 0 <= i < j < |t.slots| && t.slots[i].Live? && t.slots[j].Live? && t.slots[i].key == t.slots[j].key;
      assert Holds(t.slots[i], t.slots[i].key) && Holds(t.slots[j], t.slots[i].key);
      assert HeldTwice(t.slots, t.slots[i].key);
    }
  }

  // ---- When a run behaves as a map ----

  /** A set that would fill a free slot while its key is live in another one. */
  ghost predicate Shadows(hash: Hash, t: Table, k: string)
    requires Valid(t)
  {
    var g := Grown(hash, t);
    !g.slots[Target(hash, g, k)].Live? && Held(g.slots, k)
  }

  /** The live slots of `t` are the entries of `m`, one each, all within reach. */
  ghost predicate Keeps(hash: Hash, slots: seq<Slot>, m: map<string, int>) {
    |slots| > 0 && OneSlotPerKey(slots) && Chained(hash, slots) && Entries(slots, m)
  }

  lemma {:induction false} RepresentsKeeps(hash: Hash, slots: seq<Slot>, m: map<string, int>)
    requires Represents(hash, slots, m)
    ensures Keeps(hash, slots, m)
  {
  }

  lemma {:induction false} GrownKeeps(hash: Hash, t: Table, m: map<string, int>)
    requires Valid(t) && Keeps(hash, t.slots, m)
    ensures Keeps(hash, Grown(hash, t).slots, m)
  {
    if t.len * 4 >= |t.slots| * 3 {
      MovedRefines(hash, t.slots, m, |t.slots|, 2 * |t.slots|);
      assert t.slots[..|t.slots|] == t.slots;
      assert Restrict(t.slots, m, |t.slots|) == m;
      RepresentsKeeps(hash, Grown(hash, t).slots, m);
    }
  }

  /** A slot that no other key's entry is in takes a key that is nowhere else. */
  lemma {:induction false} WriteEntries(slots: seq<Slot>, m: map<string, int>, i: nat, k: string, v: int)
    requires OneSlotPerKey(slots) && Entries(slots, m) && i < |slots|
    requires !SetPasses(slots[i], k) && (slots[i].Live? || !Held(slots, k))
    ensures OneSlotPerKey(slots[i := Live(k, v)]) && Entries(slots[i := Live(k, v)], m[k := v])
  {
    var r, m' := slots[i := Live(k, v)], m[k := v];
    forall j | 0 <= j < |slots| && j != i && slots[j].Live? ensures slots[j].key != k {
      if slots[i].Live? {
        assert slots[i].key == k;
      } else {
        assert !Holds(slots[j], k);
      }
    }
    forall x | x in m' ensures exists j :: 0 <= j < |r| && Holds(r[j], x) {
      if x == k {
        assert Holds(r[i], x);
      } else {
        var j :| 0 <= j < |slots| && Holds(slots[j], x);
        assert Holds(r[j], x);
      }
    }
  }

  lemma {:induction false} SetKeeps(hash: Hash, t: Table, m: map<string, int>, k: string, v: int)
    requires Valid(t) && Keeps(hash, t.slots, m) && !Shadows(hash, t, k)
    ensures Keeps(hash, Set(hash, t, k, v).slots, m[k := v])
  {
    var g := Grown(hash, t);
    GrownKeeps(hash, t, m);
    SetIs(hash, t, k, v);
    SetChained(hash, t, k, v);
    WriteEntries(g.slots, m, Target(hash, g, k), k, v);
  }

  lemma {:induction false} RemoveKeeps(hash: Hash, t: Table, m: map<string, int>, k: string)
    requires Valid(t) && Keeps(hash, t.slots, m)
    ensures Keeps(hash, Remove(hash, t, k).slots, m - {k})
  {
    RemoveChained(hash, t, k);
    if Held(t.slots, k) {
      var i := RemoveIs(hash, t, k);
      var r, m' := t.slots[i := Tombstone], m - {k};
      forall x | x in m' ensures exists j :: 0 <= j < |r| && Holds(r[j], x) {
        var j :| 0 <= j < |r| && Holds(t.slots[j], x);
        assert Holds(r[j], x);
      }
    } else {
      RemoveNothing(hash, t, k);
      assert m - {k} == m;
    }
  }

  /** A lookup gives what the map has; of a key it does not have, a lookup gives nothing, or does not end. */
  lemma {:induction false} KeepsGet(hash: Hash, t: Table, m: map<string, int>, k: string)
    requires Valid(t) && Keeps(hash, t.slots, m)
    ensures if k in m then Get(hash, t, k) == Found(m[k]) else !Get(hash, t, k).Found?
  {
    FoundIff(hash, t, k);
    if Held(t.slots, k) {
      LookupEnds(hash, t.slots, k);
    }
  }

  /** What a run means. */
  function Meaning(ops: seq<Op>): map<string, int>
    decreases |ops|
  {
    if ops == [] then map[]
    else
      var m := Meaning(ops[..|ops| - 1]);
      match ops[|ops| - 1]
      case OpSet(k, v) => m[k := v]
      case OpRemove(k) => m - {k}
  }

  /** No set of the run fills a free slot while its key is live elsewhere. */
  ghost predicate Unshadowed(hash: Hash, first: nat, ops: seq<Op>)
    requires FirstCapacity(first) && After(hash, first, ops).At?
    decreases |ops|
  {
    ops == [] ||
    (var n := |ops| - 1;
     && Unshadowed(hash, first, ops[..n])
     && (ops[n].OpSet? ==> !Shadows(hash, After(hash, first, ops[..n]).t, ops[n].key)))
  }

  /** Such a run, removes and rehashes included, keeps the table an image of its map. */
  lemma {:induction false} RunsRefineMap(hash: Hash, first: nat, ops: seq<Op>)
    requires FirstCapacity(first) && After(hash, first, ops).At? && Unshadowed(hash, first, ops)
    ensures Keeps(hash, After(hash, first, ops).t.slots, Meaning(ops))
    decreases |ops|
  {
    if ops != [] {
      var n := |ops| - 1;
      RunsRefineMap(hash, first, ops[..n]);
      var t := After(hash, first, ops[..n]).t;
      match ops[n]
      case OpSet(k, v) => SetKeeps(hash, t, Meaning(ops[..n]), k, v);
      case OpRemove(k) => RemoveKeeps(hash, t, Meaning(ops[..n]), k);
    }
  }

  // ---- And only then ----

  /** A table with one slot for each key is the image of a map. */
  lemma {:induction false} HasEntries(slots: seq<Slot>) returns (m: map<string, int>)
    requires OneSlotPerKey(slots)
    ensures Entries(slots, m)
    decreases |slots|
  {
    if slots == [] {
      m := map[];
    } else {
      var n := |slots| - 1;
      var m0 := HasEntries(slots[..n]);
      m := if slots[n].Live? then m0[slots[n].key := slots[n].value] else m0;
      forall i | 0 <= i < n && slots[i].Live? ensures slots[i].key in m && m[slots[i].key] == slots[i].value {
        assert slots[..n][i].Live?;
      }
      forall k | k in m ensures exists i :: 0 <= i < |slots| && Holds(slots[i], k) {
        if slots[n].Live? && slots[n].key == k {
          assert Holds(slots[n], k);
        } else {
          var i :| 0 <= i < n && Holds(slots[..n][i], k);
          assert Holds(slots[i], k);
        }
      }
    }
  }

  lemma {:induction false} SetOneSlotIff(hash: Hash, t: Table, k: string, v: int)
    requires Valid(t) && Chained(hash, t.slots) && OneSlotPerKey(t.slots)
    ensures OneSlotPerKey(Set(hash, t, k, v).slots) <==> !Shadows(hash, t, k)
  {
    var g := Grown(hash, t);
    var m := HasEntries(t.slots);
    GrownKeeps(hash, t, m);
    SetIs(hash, t, k, v);
    var i := Target(hash, g, k);
    if Shadows(hash, t, k) {
      var j :| 0 <= j < |g.slots| && Holds(g.slots[j], k);
      var r := g.slots[i := Live(k, v)];
      assert r[i].key == r[j].key == k;
    } else {
      WriteEntries(g.slots, m, i, k, v);
    }
  }

  lemma {:induction false} RemoveOneSlot(hash: Hash, t: Table, k: string)
    requires Valid(t) && OneSlotPerKey(t.slots)
    ensures OneSlotPerKey(Remove(hash, t, k).slots)
  {
  }

  /** After every prefix of the run, removing any key would forget it. */
  ghost predicate AlwaysForgets(hash: Hash, first: nat, ops: seq<Op>)
    requires FirstCapacity(first) && After(hash, first, ops).At?
    decreases |ops|
  {
    Forgets(hash, After(hash, first, ops).t) && (ops == [] || AlwaysForgets(hash, first, ops[..|ops| - 1]))
  }

  /** In every run removes forget their keys throughout exactly when no set shadows a live key. */
  lemma {:induction false} AlwaysForgetsIff(hash: Hash, first: nat, ops: seq<Op>)
    requires FirstCapacity(first) && After(hash, first, ops).At?
    ensures AlwaysForgets(hash, first, ops) <==> Unshadowed(hash, first, ops)
    decreases |ops|
  {
    var t' := After(hash, first, ops).t;
    RunsChained(hash, first, ops);
    ForgetsIff(hash, t');
    if ops != [] {
      var n := |ops| - 1;
      AlwaysForgetsIff(hash, first, ops[..n]);
      if AlwaysForgets(hash, first, ops[..n]) {
        var t := After(hash, first, ops[..n]).t;
        RunsChained(hash, first, ops[..n]);
        ForgetsIff(hash, t);
        match ops[n]
        case OpSet(k, v) => SetOneSlotIff(hash, t, k, v);
        case OpRemove(k) => RemoveOneSlot(hash, t, k);
      }
    }
  }
}
