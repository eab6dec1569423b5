/**
 The runtime's string map: open addressing with linear probing, growth by doubling, and
 tombstones. The hash is an arbitrary function, reduced to a slot by the mask `cap - 1`,
 which for a power of two is the remainder.
 */
module StringMap {

  datatype Slot = Empty | Tombstone | Live(key: string, value: int)

  /** The fields of the table; its capacity is the number of slots. */
  datatype Table = Table(slots: seq<Slot>, len: nat)

  type Hash = string -> nat

  // ---- Probe sequences ----

  /** The slot `d` steps after `h`, wrapping at the end. */
  function Pos(h: nat, d: nat, cap: nat): (i: nat)
    requires h < cap && d <= cap
    ensures i < cap
  {
    if h + d < cap then h + d else h + d - cap
  }

  /** `(idx + 1) & (cap - 1)` */
  function Next(i: nat, cap: nat): (r: nat)
    requires i < cap
    ensures r == if i + 1 == cap then 0 else i + 1
  {
    (i + 1) % cap
  }

  lemma {:induction false} NextPos(h: nat, d: nat, cap: nat)
    requires h < cap && d < cap
    ensures Next(Pos(h, d, cap), cap) == Pos(h, d + 1, cap)
  {
  }

  /** The number of steps from `h` to slot `i`. */
  function Dist(h: nat, i: nat, cap: nat): (d: nat)
    requires h < cap && i < cap
    ensures d < cap && Pos(h, d, cap) == i
    ensures forall e :: 0 <= e < cap && Pos(h, e, cap) == i ==> e == d
  {
    if i >= h then i - h else i + cap - h
  }

  function Home(hash: Hash, k: string, cap: nat): (h: nat)
    requires cap > 0
    ensures h < cap
  {
    hash(k) % cap
  }

  predicate Holds(s: Slot, k: string) { s.Live? && s.key == k }

  /** What makes `set` step on: a slot taken by another key. */
  predicate SetPasses(s: Slot, k: string) { s.Live? && s.key != k }

  /** What makes `get`, `contains` and `remove` step on: a tombstone, or another key. */
  predicate GetPasses(s: Slot, k: string) { s.Tombstone? || SetPasses(s, k) }

  /** Steps until `set` stops, or the capacity if it never does. */
  function SetDist(slots: seq<Slot>, k: string, h: nat, d: nat): (r: nat)
    requires h < |slots| && d <= |slots|
    ensures d <= r <= |slots|
    ensures forall e :: d <= e < r ==> SetPasses(slots[Pos(h, e, |slots|)], k)
    ensures r < |slots| ==> !SetPasses(slots[Pos(h, r, |slots|)], k)
    decreases |slots| - d
  {
    if d == |slots| || !SetPasses(slots[Pos(h, d, |slots|)], k) then d else SetDist(slots, k, h, d + 1)
  }

  /** Steps until a lookup stops, or the capacity if it never does. */
  function GetDist(slots: seq<Slot>, k: string, h: nat, d: nat): (r: nat)
    requires h < |slots| && d <= |slots|
    ensures d <= r <= |slots|
    ensures forall e :: d <= e < r ==> GetPasses(slots[Pos(h, e, |slots|)], k)
    ensures r < |slots| ==> !GetPasses(slots[Pos(h, r, |slots|)], k)
    decreases |slots| - d
  {
    if d == |slots| || !GetPasses(slots[Pos(h, d, |slots|)], k) then d else GetDist(slots, k, h, d + 1)
  }

  // ---- Counting live slots ----

  function Weight(s: Slot): nat { if s.Live? then 1 else 0 }

  function Count(slots: seq<Slot>): (n: nat)
    ensures n <= |slots|
  {
    if slots == [] then 0 else Count(slots[..|slots| - 1]) + Weight(slots[|slots| - 1])
  }

  lemma {:induction false} CountUpdate(slots: seq<Slot>, i: nat, s: Slot)
    requires i < |slots|
    ensures Count(slots[i := s]) + Weight(slots[i]) == Count(slots) + Weight(s)
    decreases |slots|
  {
    var n := |slots| - 1;
    if i < n {
      CountUpdate(slots[..n], i, s);
      assert slots[i := s][..n] == slots[..n][i := s];
    } else {
      assert slots[i := s][..n] == slots[..n];
    }
  }

  /** A table with fewer live slots than slots has a slot that is not live. */
  lemma {:induction false} SomeFree(slots: seq<Slot>) returns (i: nat)
    requires Count(slots) < |slots|
    ensures i < |slots| && !slots[i].Live?
    decreases |slots|
  {
    var n := |slots| - 1;
    if !slots[n].Live? {
      i := n;
    } else {
      i := SomeFree(slots[..n]);
    }
  }

  lemma {:induction false} CountEmpty(slots: seq<Slot>)
    requires forall i :: 0 <= i < |slots| ==> slots[i].Empty?
    ensures Count(slots) == 0
    decreases |slots|
  {
    if slots != [] {
      CountEmpty(slots[..|slots| - 1]);
    }
  }

  lemma {:induction false} CountPrefix(slots: seq<Slot>, i: nat)
    requires i <= |slots|
    ensures Count(slots[..i]) <= Count(slots)
    decreases |slots|
  {
    if i < |slots| {
      CountPrefix(slots[..|slots| - 1], i);
      assert slots[..|slots| - 1][..i] == slots[..i];
    } else {
      assert slots[..i] == slots;
    }
  }

  // ---- Operations ----

  /** `set` without its growth step: the probed slot takes the key. */
  function Put(hash: Hash, t: Table, k: string, v: int): Table
    requires |t.slots| > 0
    requires SetDist(t.slots, k, Home(hash, k, |t.slots|), 0) < |t.slots|
  {
    var h := Home(hash, k, |t.slots|);
    var i := Pos(h, SetDist(t.slots, k, h, 0), |t.slots|);
    Table(t.slots[i := Live(k, v)], if t.slots[i].Live? then t.len else t.len + 1)
  }

  /** Steps to the first slot of a rehashed table that is not taken. */
  function FreeDist(slots: seq<Slot>, h: nat, d: nat): (r: nat)
    requires h < |slots| && d <= |slots|
    ensures d <= r <= |slots|
    ensures forall e :: d <= e < r ==> slots[Pos(h, e, |slots|)].Live?
    ensures r < |slots| ==> !slots[Pos(h, r, |slots|)].Live?
    decreases |slots| - d
  {
    if d == |slots| || !slots[Pos(h, d, |slots|)].Live? then d else FreeDist(slots, h, d + 1)
  }

  /** Moves one slot into the new table, if it is live. */
  function Move(hash: Hash, slots: seq<Slot>, s: Slot): (r: seq<Slot>)
    requires Count(slots) < |slots|
    ensures |r| == |slots| && Count(r) == Count(slots) + Weight(s)
  {
    if s.Live? then
      var h := Home(hash, s.key, |slots|);
      FreeExists(slots, h);
      var i := Pos(h, FreeDist(slots, h, 0), |slots|);
      CountUpdate(slots, i, s);
      slots[i := s]
    else slots
  }

  lemma {:induction false} FreeExists(slots: seq<Slot>, h: nat)
    requires Count(slots) < |slots| && h < |slots|
    ensures FreeDist(slots, h, 0) < |slots|
  {
    var i := SomeFree(slots);
    var d := Dist(h, i, |slots|);
    assert !slots[Pos(h, d, |slots|)].Live?;
  }

  lemma {:induction false} SetStops(slots: seq<Slot>, k: string, h: nat)
    requires Count(slots) < |slots| && h < |slots|
    ensures SetDist(slots, k, h, 0) < |slots|
  {
    var i := SomeFree(slots);
    var d := Dist(h, i, |slots|);
    assert !SetPasses(slots[Pos(h, d, |slots|)], k);
  }

  /** The slots of `from`, in order, moved into a table of `cap` empty slots. */
  function Moved(hash: Hash, from: seq<Slot>, cap: nat): (r: seq<Slot>)
    requires |from| < cap
    ensures |r| == cap && Count(r) == Count(from)
    decreases |from|
  {
    if from == [] then
      CountEmpty(seq(cap, _ => Empty));
      seq(cap, _ => Empty)
    else Move(hash, Moved(hash, from[..|from| - 1], cap), from[|from| - 1])
  }

  function Rehash(hash: Hash, t: Table): Table
    requires |t.slots| > 0
  {
    Table(Moved(hash, t.slots, 2 * |t.slots|), t.len)
  }

  function Grown(hash: Hash, t: Table): (r: Table)
    requires Valid(t)
    ensures Valid(r) && 4 * r.len < 3 * |r.slots|
  {
    if t.len * 4 >= |t.slots| * 3 then
      DoubleQuarters(|t.slots|);
      Rehash(hash, t)
    else t
  }

  lemma {:induction false} DoubleQuarters(n: nat)
    requires n % 4 == 0
    ensures 2 * n % 4 == 0
  {
  }

  /** `set`: always stops, and keeps the load under three quarters. */
  function Set(hash: Hash, t: Table, k: string, v: int): (r: Table)
    requires Valid(t)
    ensures Valid(r)
  {
    var g := Grown(hash, t);
    var h := Home(hash, k, |g.slots|);
    SetStops(g.slots, k, h);
    PutValid(hash, g, k, v);
    Put(hash, g, k, v)
  }

  /** A set doubles the table exactly when three quarters of it are taken. */
  lemma {:induction false} SetGrowsIff(hash: Hash, t: Table, k: string, v: int)
    requires Valid(t)
    ensures |Set(hash, t, k, v).slots| == if 4 * t.len >= 3 * |t.slots| then 2 * |t.slots| else |t.slots|
  {
  }

  lemma {:induction false} PutValid(hash: Hash, t: Table, k: string, v: int)
    requires Valid(t) && 4 * t.len < 3 * |t.slots|
    requires SetDist(t.slots, k, Home(hash, k, |t.slots|), 0) < |t.slots|
    ensures Valid(Put(hash, t, k, v))
  {
    var h := Home(hash, k, |t.slots|);
    CountUpdate(t.slots, Pos(h, SetDist(t.slots, k, h, 0), |t.slots|), Live(k, v));
  }

  datatype Outcome = Found(value: int) | Absent | Loops

  /** How a lookup ends: the probe may also go round for ever. */
  function Get(hash: Hash, t: Table, k: string): Outcome
    requires |t.slots| > 0
  {
    var h := Home(hash, k, |t.slots|);
    var d := GetDist(t.slots, k, h, 0);
    if d == |t.slots| then Loops
    else
      var s := t.slots[Pos(h, d, |t.slots|)];
      if s.Live? then Found(s.value) else Absent
  }

  function Remove(hash: Hash, t: Table, k: string): (r: Table)
    requires Valid(t)
    ensures Valid(r)
  {
    var h := Home(hash, k, |t.slots|);
    var d := GetDist(t.slots, k, h, 0);
    if d == |t.slots| then t
    else
      var i := Pos(h, d, |t.slots|);
      if t.slots[i].Live? then
        CountUpdate(t.slots, i, Tombstone);
        Table(t.slots[i := Tombstone], t.len - 1)
      else t
  }

  /** The live keys in slot order. */
  function Keys(slots: seq<Slot>): (r: seq<string>)
    ensures |r| == Count(slots)
  {
    if slots == [] then []
    else
      var n := |slots| - 1;
      Keys(slots[..n]) + if slots[n].Live? then [slots[n].key] else []
  }

  function New(cap: nat): (t: Table)
    ensures |t.slots| == cap && t.len == 0
  {
    Table(seq(cap, _ => Empty), 0)
  }

  // ---- What every run keeps ----

  predicate Valid(t: Table) {
    && |t.slots| >= 4 && |t.slots| % 4 == 0
    && t.len == Count(t.slots)
    && 4 * t.len <= 3 * |t.slots|
  }

  /** A map starts with 16 slots, the map of a parsed JSON object with 4. */
  predicate FirstCapacity(cap: nat) { cap == 16 || cap == 4 }

  lemma {:induction false} NewValid(cap: nat)
    requires FirstCapacity(cap)
    ensures Valid(New(cap))
  {
    CountEmpty(New(cap).slots);
  }

  /** A lookup ends at the first slot it does not pass, whichever step it is counted from. */
  lemma {:induction false} GetDistIs(slots: seq<Slot>, k: string, h: nat, e: nat, d: nat)
    requires h < |slots| && e <= d < |slots|
    requires forall x :: e <= x < d ==> GetPasses(slots[Pos(h, x, |slots|)], k)
    requires !GetPasses(slots[Pos(h, d, |slots|)], k)
    ensures GetDist(slots, k, h, e) == d
    decreases d - e
  {
    if e < d {
      GetDistIs(slots, k, h, e + 1, d);
    }
  }

  /** In every state, whatever was removed before: a lookup right after `set` finds the value. */
  lemma {:induction false} GetAfterSet(hash: Hash, t: Table, k: string, v: int)
    requires Valid(t)
    ensures Get(hash, Set(hash, t, k, v), k) == Found(v)
  {
    var g := Grown(hash, t);
    var cap := |g.slots|;
    var h := Home(hash, k, cap);
    SetStops(g.slots, k, h);
    var d := SetDist(g.slots, k, h, 0);
    var r := Set(hash, t, k, v).slots;
    var i := Pos(h, d, cap);
    forall x | 0 <= x < d
      ensures GetPasses(r[Pos(h, x, cap)], k)
    {
      assert Dist(h, i, cap) == d;
      assert SetPasses(g.slots[Pos(h, x, cap)], k);
    }
    GetDistIs(r, k, h, 0, d);
  }

  /** A lookup goes round for ever exactly when no slot is empty and none holds the key. */
  lemma {:induction false} LoopsIff(hash: Hash, t: Table, k: string)
    requires |t.slots| > 0
    ensures Get(hash, t, k) == Loops
       <==> forall i :: 0 <= i < |t.slots| ==> !t.slots[i].Empty? && !Holds(t.slots[i], k)
  {
    var cap := |t.slots|;
    var h := Home(hash, k, cap);
    var d := GetDist(t.slots, k, h, 0);
    if d == cap {
      forall i | 0 <= i < cap
        ensures !t.slots[i].Empty? && !Holds(t.slots[i], k)
      {
        assert GetPasses(t.slots[Pos(h, Dist(h, i, cap), cap)], k);
      }
    }
  }

  // ---- Refinement to a map, while nothing is removed ----

  /** Every live entry sits behind an unbroken run of live slots from its home. */
  ghost predicate Reachable(hash: Hash, slots: seq<Slot>)
    requires |slots| > 0
  {
    forall i, d :: 0 <= i < |slots| && slots[i].Live? && 0 <= d < Dist(Home(hash, slots[i].key, |slots|), i, |slots|)
      ==> slots[Pos(Home(hash, slots[i].key, |slots|), d, |slots|)].Live?
  }

  ghost predicate NoTombstones(slots: seq<Slot>) {
    forall i :: 0 <= i < |slots| ==> !slots[i].Tombstone?
  }

  ghost predicate OneSlotPerKey(slots: seq<Slot>) {
    forall i, j :: 0 <= i < j < |slots| && slots[i].Live? && slots[j].Live? ==> slots[i].key != slots[j].key
  }

  /** The live slots are exactly the entries of `m`. */
  ghost predicate Entries(slots: seq<Slot>, m: map<string, int>) {
    && (forall i :: 0 <= i < |slots| && slots[i].Live? ==> slots[i].key in m && m[slots[i].key] == slots[i].value)
    && (forall k :: k in m ==> exists i :: 0 <= i < |slots| && Holds(slots[i], k))
  }

  ghost predicate Represents(hash: Hash, slots: seq<Slot>, m: map<string, int>) {
    && |slots| > 0
    && NoTombstones(slots) && OneSlotPerKey(slots) && Reachable(hash, slots) && Entries(slots, m)
  }

  /** Writing an entry into a free slot at the end of its probe run keeps the table well formed. */
  lemma {:induction false} FillFree(hash: Hash, slots: seq<Slot>, m: map<string, int>, k: string, v: int, d: nat)
    requires Represents(hash, slots, m) && d < |slots| && k !in m
    requires var h := Home(hash, k, |slots|);
             !slots[Pos(h, d, |slots|)].Live? && forall e :: 0 <= e < d ==> slots[Pos(h, e, |slots|)].Live?
    ensures Represents(hash, slots[Pos(Home(hash, k, |slots|), d, |slots|) := Live(k, v)], m[k := v])
  {
    var cap := |slots|;
    var h := Home(hash, k, cap);
    var i := Pos(h, d, cap);
    var r, m' := slots[i := Live(k, v)], m[k := v];
    forall x | x in m'
      ensures exists j :: 0 <= j < cap && Holds(r[j], x)
    {
      if x == k {
        assert Holds(r[i], x);
      } else {
        var j :| 0 <= j < cap && Holds(slots[j], x);
        assert Holds(r[j], x);
      }
    }
    forall j, e | 0 <= j < cap && r[j].Live? && 0 <= e < Dist(Home(hash, r[j].key, cap), j, cap)
      ensures r[Pos(Home(hash, r[j].key, cap), e, cap)].Live?
    {
      if j == i {
        assert Dist(h, i, cap) == d;
      } else {
        assert r[j] == slots[j];
      }
    }
  }

  /** Where a key of the map lives, and that both probes stop there. */
  lemma {:induction false} ProbeFinds(hash: Hash, slots: seq<Slot>, m: map<string, int>, k: string) returns (i: nat)
    requires Represents(hash, slots, m) && k in m
    ensures i < |slots| && slots[i] == Live(k, m[k])
    ensures var h := Home(hash, k, |slots|); GetDist(slots, k, h, 0) == SetDist(slots, k, h, 0) == Dist(h, i, |slots|)
  {
    i :| 0 <= i < |slots| && Holds(slots[i], k);
    var cap := |slots|;
    var h := Home(hash, k, cap);
    var d := Dist(h, i, cap);
    forall e | 0 <= e < d
      ensures SetPasses(slots[Pos(h, e, cap)], k)
    {
      assert slots[Pos(h, e, cap)].Live?;
      assert Pos(h, e, cap) != i;
    }
    GetDistIs(slots, k, h, 0, d);
  }

  /** Overwriting the value of a key in place. */
  lemma {:induction false} Overwrite(hash: Hash, slots: seq<Slot>, m: map<string, int>, k: string, v: int, i: nat)
    requires Represents(hash, slots, m) && i < |slots| && Holds(slots[i], k)
    ensures Represents(hash, slots[i := Live(k, v)], m[k := v])
  {
    var r, m' := slots[i := Live(k, v)], m[k := v];
    forall x | x in m'
      ensures exists j :: 0 <= j < |slots| && Holds(r[j], x)
    {
      var j :| 0 <= j < |slots| && Holds(slots[j], x);
      assert Holds(r[j], x);
    }
  }

  /** `set` without growth writes through to the map. */
  lemma {:induction false} PutRefines(hash: Hash, t: Table, m: map<string, int>, k: string, v: int)
    requires Represents(hash, t.slots, m) && Count(t.slots) < |t.slots|
    ensures SetDist(t.slots, k, Home(hash, k, |t.slots|), 0) < |t.slots|
    ensures Represents(hash, Put(hash, t, k, v).slots, m[k := v])
  {
    var cap := |t.slots|;
    var h := Home(hash, k, cap);
    SetStops(t.slots, k, h);
    if k in m {
      var i := ProbeFinds(hash, t.slots, m, k);
      Overwrite(hash, t.slots, m, k, v, i);
    } else {
      var d := SetDist(t.slots, k, h, 0);
      forall e | 0 <= e < d ensures t.slots[Pos(h, e, cap)].Live? {
        assert SetPasses(t.slots[Pos(h, e, cap)], k);
      }
      FillFree(hash, t.slots, m, k, v, d);
    }
  }

  /** The entries among the first `n` slots. */
  ghost function Restrict(slots: seq<Slot>, m: map<string, int>, n: nat): map<string, int>
    requires n <= |slots|
  {
    map k | k in m && InPrefix(slots, n, k) :: m[k]
  }

  ghost predicate InPrefix(slots: seq<Slot>, n: nat, k: string)
    requires n <= |slots|
  {
    exists i :: 0 <= i < n && Holds(slots[i], k)
  }

  lemma {:induction false} InPrefixStep(slots: seq<Slot>, n: nat, k: string)
    requires 0 < n <= |slots|
    ensures InPrefix(slots, n, k) <==> InPrefix(slots, n - 1, k) || Holds(slots[n - 1], k)
  {
  }

  lemma {:induction false} RestrictStep(slots: seq<Slot>, m: map<string, int>, n: nat)
    requires OneSlotPerKey(slots) && Entries(slots, m) && 0 < n <= |slots|
    ensures var s, m' := slots[n - 1], Restrict(slots, m, n - 1);
            if s.Live? then s.key !in m' && Restrict(slots, m, n) == m'[s.key := s.value]
            else Restrict(slots, m, n) == m'
  {
    var s, m' := slots[n - 1], Restrict(slots, m, n - 1);
    forall k | k in m
      ensures k in Restrict(slots, m, n) <==> k in m' || Holds(s, k)
    {
      InPrefixStep(slots, n, k);
    }
    if s.Live? {
      assert Restrict(slots, m, n) == m'[s.key := s.value];
    } else {
      assert Restrict(slots, m, n) == m';
    }
  }

  lemma {:induction false} MoveRefines(hash: Hash, r: seq<Slot>, m: map<string, int>, s: Slot)
    requires Represents(hash, r, m) && Count(r) < |r| && s.Live? && s.key !in m
    ensures Represents(hash, Move(hash, r, s), m[s.key := s.value])
  {
    var h := Home(hash, s.key, |r|);
    FreeExists(r, h);
    FillFree(hash, r, m, s.key, s.value, FreeDist(r, h, 0));
  }

  /** Rehashing keeps the map: after moving the first `n` slots the new table holds their entries. */
  lemma {:induction false} MovedRefines(hash: Hash, slots: seq<Slot>, m: map<string, int>, n: nat, cap: nat)
    requires OneSlotPerKey(slots) && Entries(slots, m) && n <= |slots| < cap
    ensures Represents(hash, Moved(hash, slots[..n], cap), Restrict(slots, m, n))
    decreases n
  {
    if n == 0 {
      assert Restrict(slots, m, 0) == map[];
    } else {
      MovedRefines(hash, slots, m, n - 1, cap);
      RestrictStep(slots, m, n);
      assert slots[..n][..n - 1] == slots[..n - 1];
      var r := Moved(hash, slots[..n - 1], cap);
      if slots[n - 1].Live? {
        MoveRefines(hash, r, Restrict(slots, m, n - 1), slots[n - 1]);
      }
    }
  }

  lemma {:induction false} GrownRefines(hash: Hash, t: Table, m: map<string, int>)
    requires Valid(t) && Represents(hash, t.slots, m)
    ensures Represents(hash, Grown(hash, t).slots, m)
  {
    if t.len * 4 >= |t.slots| * 3 {
      MovedRefines(hash, t.slots, m, |t.slots|, 2 * |t.slots|);
      assert t.slots[..|t.slots|] == t.slots;
      assert Restrict(t.slots, m, |t.slots|) == m;
    }
  }

  /** Across growth, `set` is map update. */
  lemma {:induction false} SetRefines(hash: Hash, t: Table, m: map<string, int>, k: string, v: int)
    requires Valid(t) && Represents(hash, t.slots, m)
    ensures Represents(hash, Set(hash, t, k, v).slots, m[k := v])
  {
    GrownRefines(hash, t, m);
    PutRefines(hash, Grown(hash, t), m, k, v);
  }

  /** A lookup always ends, and says what the map says. */
  lemma {:induction false} GetRefines(hash: Hash, t: Table, m: map<string, int>, k: string)
    requires Valid(t) && Represents(hash, t.slots, m)
    ensures Get(hash, t, k) == if k in m then Found(m[k]) else Absent
  {
    if k in m {
      var i := ProbeFinds(hash, t.slots, m, k);
    } else {
      var i := SomeFree(t.slots);
      LoopsIff(hash, t, k);
      var h := Home(hash, k, |t.slots|);
      var s := t.slots[Pos(h, GetDist(t.slots, k, h, 0), |t.slots|)];
      assert s.Live? ==> Holds(s, k);
    }
  }

  // Listing the keys

  lemma {:induction false} KeysAreLive(slots: seq<Slot>, k: string)
    ensures k in Keys(slots) <==> exists i :: 0 <= i < |slots| && Holds(slots[i], k)
    decreases |slots|
  {
    if slots != [] {
      var n := |slots| - 1;
      KeysAreLive(slots[..n], k);
      if k in Keys(slots[..n]) {
        var i :| 0 <= i < n && Holds(slots[..n][i], k);
        assert Holds(slots[i], k);
      }
      if i :| 0 <= i < n && Holds(slots[i], k) {
        assert Holds(slots[..n][i], k);
      }
    }
  }

  lemma {:induction false} KeysDistinct(slots: seq<Slot>)
    requires OneSlotPerKey(slots)
    ensures forall i, j :: 0 <= i < j < |Keys(slots)| ==> Keys(slots)[i] != Keys(slots)[j]
    decreases |slots|
  {
    if slots != [] {
      var n := |slots| - 1;
      KeysDistinct(slots[..n]);
      if slots[n].Live? {
        KeysAreLive(slots[..n], slots[n].key);
      }
    }
  }

  /** `keys` lists each key of the map exactly once, and `len` is their number. */
  lemma {:induction false} KeysRefine(hash: Hash, t: Table, m: map<string, int>)
    requires Valid(t) && Represents(hash, t.slots, m)
    ensures forall k :: k in Keys(t.slots) <==> k in m
    ensures forall i, j :: 0 <= i < j < |Keys(t.slots)| ==> Keys(t.slots)[i] != Keys(t.slots)[j]
    ensures |Keys(t.slots)| == t.len == |m|
  {
    forall k ensures k in Keys(t.slots) <==> k in m {
      KeysAreLive(t.slots, k);
    }
    KeysDistinct(t.slots);
    DistinctSize(Keys(t.slots), m.Keys);
  }

  lemma {:induction false} DistinctSize(ks: seq<string>, s: set<string>)
    requires forall i, j :: 0 <= i < j < |ks| ==> ks[i] != ks[j]
    requires forall k :: k in ks <==> k in s
    ensures |ks| == |s|
    decreases |ks|
  {
    if ks == [] {
      assert s == {};
    } else {
      var n := |ks| - 1;
      var last := ks[n];
      forall k ensures k in ks[..n] <==> k in s - {last} {
        if k in s - {last} {
          var i :| 0 <= i < |ks| && ks[i] == k;
          assert ks[..n][i] == k;
        }
      }
      DistinctSize(ks[..n], s - {last});
    }
  }

  // ---- Whole runs ----

  datatype Op = OpSet(key: string, value: int) | OpRemove(key: string)

  datatype Run = Stuck | At(t: Table)

  /** A run of updates from a new table; it is stuck once a `remove` probes for ever. */
  function After(hash: Hash, first: nat, ops: seq<Op>): (r: Run)
    requires FirstCapacity(first)
    ensures r.At? ==> Valid(r.t)
    decreases |ops|
  {
    if ops == [] then
      NewValid(first);
      At(New(first))
    else
      match After(hash, first, ops[..|ops| - 1])
      case Stuck => Stuck
      case At(t) => Step(hash, t, ops[|ops| - 1])
  }

  function Step(hash: Hash, t: Table, op: Op): (r: Run)
    requires Valid(t)
    ensures r.At? ==> Valid(r.t)
  {
    match op
    case OpSet(k, v) => At(Set(hash, t, k, v))
    case OpRemove(k) => if Get(hash, t, k) == Loops then Stuck else At(Remove(hash, t, k))
  }

  /** What a sequence of sets means. */
  function Writes(ops: seq<Op>): map<string, int>
    decreases |ops|
  {
    if ops == [] then map[]
    else
      var m, op := Writes(ops[..|ops| - 1]), ops[|ops| - 1];
      if op.OpSet? then m[op.key := op.value] else m
  }

  /**
   Every run without removals, through any number of rehashes, behaves as a map: it is never
   stuck, every lookup ends with what the map says, an empty slot remains, and the keys are
   listed once each.
   */
  lemma {:induction false} SetsRefineMap(hash: Hash, first: nat, ops: seq<Op>)
    requires FirstCapacity(first) && forall i :: 0 <= i < |ops| ==> ops[i].OpSet?
    ensures After(hash, first, ops).At?
    ensures Represents(hash, After(hash, first, ops).t.slots, Writes(ops))
    ensures exists i :: 0 <= i < |After(hash, first, ops).t.slots| && After(hash, first, ops).t.slots[i].Empty?
    decreases |ops|
  {
    if ops != [] {
      var n := |ops| - 1;
      SetsRefineMap(hash, first, ops[..n]);
      SetRefines(hash, After(hash, first, ops[..n]).t, Writes(ops[..n]), ops[n].key, ops[n].value);
    }
    var i := SomeFree(After(hash, first, ops).t.slots);
    assert !After(hash, first, ops).t.slots[i].Tombstone?;
  }

  predicate PowerOfTwo(n: nat) {
    n == 1 || (n > 0 && n % 2 == 0 && PowerOfTwo(n / 2))
  }

  /** The capacity stays a power of two, so that masking with `cap - 1` is taking the remainder. */
  lemma {:induction false} CapacityPowerOfTwo(hash: Hash, first: nat, ops: seq<Op>)
    requires FirstCapacity(first) && After(hash, first, ops).At?
    ensures PowerOfTwo(|After(hash, first, ops).t.slots|)
    decreases |ops|
  {
    if ops == [] {
      assert PowerOfTwo(2) && PowerOfTwo(4) && PowerOfTwo(8) && PowerOfTwo(16);
    } else {
      CapacityPowerOfTwo(hash, first, ops[..|ops| - 1]);
      CapacityStep(hash, After(hash, first, ops[..|ops| - 1]).t, ops[|ops| - 1]);
    }
  }

  lemma {:induction false} CapacityStep(hash: Hash, t: Table, op: Op)
    requires Valid(t) && PowerOfTwo(|t.slots|) && Step(hash, t, op).At?
    ensures PowerOfTwo(|Step(hash, t, op).t.slots|)
  {
    DoublePower(|t.slots|);
    match op
    case OpSet(k, v) => assert |Set(hash, t, k, v).slots| == |Grown(hash, t).slots|;
    case OpRemove(k) =>
  }

  lemma {:induction false} DoublePower(n: nat)
    requires PowerOfTwo(n)
    ensures PowerOfTwo(2 * n)
  {
    assert 2 * n / 2 == n;
  }

  // ---- What removals break, and exactly when ----

  /**
   `set` stops at the first tombstone without looking whether the key is further on. It keeps
   one slot per key exactly when it does not fill a free slot for a key that is live elsewhere.
   */
  lemma {:induction false} PutKeepsOneSlot(hash: Hash, t: Table, k: string, v: int)
    requires |t.slots| > 0 && OneSlotPerKey(t.slots)
    requires SetDist(t.slots, k, Home(hash, k, |t.slots|), 0) < |t.slots|
    ensures var h := Home(hash, k, |t.slots|);
            var i := Pos(h, SetDist(t.slots, k, h, 0), |t.slots|);
            OneSlotPerKey(Put(hash, t, k, v).slots)
            <==> t.slots[i].Live? || forall j :: 0 <= j < |t.slots| ==> !Holds(t.slots[j], k)
  {
    var h := Home(hash, k, |t.slots|);
    var i := Pos(h, SetDist(t.slots, k, h, 0), |t.slots|);
    var r := Put(hash, t, k, v).slots;
    if !t.slots[i].Live? && exists j :: 0 <= j < |t.slots| && Holds(t.slots[j], k) {
      var j :| 0 <= j < |t.slots| && Holds(t.slots[j], k);
      assert r[j].key == r[i].key == k;
    }
  }

  /** The state of a new table after its first `n` slots were each filled and removed again. */
  function Worn(n: nat): Table
    requires n <= 16
  {
    Table(seq(16, i => if i < n then Tombstone else Empty), 0)
  }

  function WearOut(keys: seq<string>): seq<Op> {
    if keys == [] then [] else WearOut(keys[..|keys| - 1]) + [OpSet(keys[|keys| - 1], 0), OpRemove(keys[|keys| - 1])]
  }

  lemma {:induction false} WornValid(n: nat)
    requires n <= 16
    ensures Valid(Worn(n))
  {
    NewValid(16);
    CountNone(Worn(n).slots);
  }

  lemma {:induction false} CountNone(slots: seq<Slot>)
    requires forall i :: 0 <= i < |slots| ==> !slots[i].Live?
    ensures Count(slots) == 0
    decreases |slots|
  {
    if slots != [] {
      CountNone(slots[..|slots| - 1]);
    }
  }

  /** Setting and removing a key whose home is the next empty slot turns it into a tombstone. */
  lemma {:induction false} WearOne(hash: Hash, n: nat, k: string)
    requires n < 16 && hash(k) % 16 == n
    ensures Valid(Worn(n)) && Set(hash, Worn(n), k, 0) == Table(Worn(n).slots[n := Live(k, 0)], 1)
    ensures Remove(hash, Set(hash, Worn(n), k, 0), k) == Worn(n + 1)
    ensures Get(hash, Set(hash, Worn(n), k, 0), k) == Found(0)
  {
    WornValid(n);
    var t := Set(hash, Worn(n), k, 0);
    assert Home(hash, k, 16) == n && Pos(n, 0, 16) == n;
    assert SetDist(Worn(n).slots, k, n, 0) == 0;
    assert t.slots == Worn(n).slots[n := Live(k, 0)];
    assert GetDist(t.slots, k, n, 0) == 0;
    assert Remove(hash, t, k).slots == Worn(n + 1).slots;
  }

  lemma {:induction false} WearOutRun(hash: Hash, keys: seq<string>)
    requires |keys| <= 16 && forall i :: 0 <= i < |keys| ==> hash(keys[i]) % 16 == i
    ensures After(hash, 16, WearOut(keys)) == At(Worn(|keys|))
    decreases |keys|
  {
    if keys == [] {
      assert New(16).slots == Worn(0).slots;
    } else {
      var n := |keys| - 1;
      WearOutRun(hash, keys[..n]);
      WearOne(hash, n, keys[n]);
      SnocTwo(hash, WearOut(keys[..n]), OpSet(keys[n], 0), OpRemove(keys[n]));
    }
  }

  lemma {:induction false} SnocTwo(hash: Hash, ops: seq<Op>, op: Op, op': Op)
    requires After(hash, 16, ops).At? && Step(hash, After(hash, 16, ops).t, op).At?
    ensures After(hash, 16, ops + [op, op']) == Step(hash, Step(hash, After(hash, 16, ops).t, op).t, op')
  {
    var one, two := ops + [op], ops + [op, op'];
    assert one[..|one| - 1] == ops && two[..|two| - 1] == one;
  }

  /**
   Tombstones are never reclaimed by lookups: sixteen keys with different homes, each set and
   removed once, leave no empty slot, and then looking up any key goes round for ever.
   */
  lemma {:induction false} LookupCanLoop(hash: Hash, keys: seq<string>)
    requires |keys| == 16 && forall i :: 0 <= i < 16 ==> hash(keys[i]) % 16 == i
    ensures var r := After(hash, 16, WearOut(keys)); r.At? && forall k :: Get(hash, r.t, k) == Loops
  {
    WearOutRun(hash, keys);
    forall k ensures Get(hash, Worn(16), k) == Loops {
      LoopsIff(hash, Worn(16), k);
    }
  }

  /** With one shared home: `a` set, `b` set, `a` removed, `b` set again. */
  function ShadowOps(a: string, b: string): seq<Op> {
    [OpSet(a, 1), OpSet(b, 2), OpRemove(a), OpSet(b, 3)]
  }

  /**
   After that run `b` occupies two slots and is counted twice; removing it once brings the
   overwritten value back.
   */
  lemma {:induction false} RemoveCanResurrect(hash: Hash, a: string, b: string)
    requires a != b && hash(a) % 16 == 0 && hash(b) % 16 == 0
    ensures var r := After(hash, 16, ShadowOps(a, b));
            r.At? && r.t.len == 2 && !OneSlotPerKey(r.t.slots)
            && Get(hash, r.t, b) == Found(3)
            && Get(hash, Remove(hash, r.t, b), b) == Found(2)
  {
    var t := ShadowState(hash, a, b);
    assert t.slots[0].key == t.slots[1].key == b;
    assert GetDist(t.slots, b, 0, 0) == 0;
    var t' := Table(t.slots[0 := Tombstone], 1);
    assert Remove(hash, t, b) == t';
    GetDistIs(t'.slots, b, 0, 0, 1);
  }

  /** A run whose states are known step by step. */
  lemma {:induction false} AfterChain(hash: Hash, ops: seq<Op>, ts: seq<Table>)
    requires |ts| == |ops| + 1 && ts[0] == New(16)
    requires forall i :: 0 <= i < |ts| ==> Valid(ts[i])
    requires forall i :: 0 <= i < |ops| ==> Step(hash, ts[i], ops[i]) == At(ts[i + 1])
    ensures After(hash, 16, ops) == At(ts[|ops|])
    decreases |ops|
  {
    if ops != [] {
      var n := |ops| - 1;
      AfterChain(hash, ops[..n], ts[..n + 1]);
      assert Step(hash, ts[n], ops[n]) == At(ts[n + 1]);
    }
  }

  lemma {:induction false} SetWithoutGrowth(hash: Hash, t: Table, k: string, v: int)
    requires Valid(t) && 4 * t.len < 3 * |t.slots| && Home(hash, k, |t.slots|) == 0
    ensures var d := SetDist(t.slots, k, 0, 0);
            d < |t.slots| && Set(hash, t, k, v) == Table(t.slots[d := Live(k, v)], if t.slots[d].Live? then t.len else t.len + 1)
  {
    SetStops(t.slots, k, 0);
  }

  /** A table of sixteen slots of which only the first two are used. */
  function Two(s0: Slot, s1: Slot, len: nat): Table {
    Table(seq(16, i => if i == 0 then s0 else if i == 1 then s1 else Empty), len)
  }

  lemma {:induction false} SetInTwo(hash: Hash, s0: Slot, s1: Slot, len: nat, k: string, v: int)
    requires Valid(Two(s0, s1, len)) && len < 12 && hash(k) % 16 == 0
    ensures !SetPasses(s0, k) ==> Set(hash, Two(s0, s1, len), k, v) == Two(Live(k, v), s1, if s0.Live? then len else len + 1)
    ensures SetPasses(s0, k) && !SetPasses(s1, k) ==>
              Set(hash, Two(s0, s1, len), k, v) == Two(s0, Live(k, v), if s1.Live? then len else len + 1)
  {
    var t := Two(s0, s1, len);
    SetWithoutGrowth(hash, t, k, v);
    assert Pos(0, 0, 16) == 0 && Pos(0, 1, 16) == 1;
    if !SetPasses(s0, k) {
      assert SetDist(t.slots, k, 0, 0) == 0;
      assert t.slots[0 := Live(k, v)] == Two(Live(k, v), s1, 0).slots;
    } else if !SetPasses(s1, k) {
      assert SetDist(t.slots, k, 0, 1) == 1;
      assert SetDist(t.slots, k, 0, 0) == 1;
      assert t.slots[1 := Live(k, v)] == Two(s0, Live(k, v), 0).slots;
    }
  }

  lemma {:induction false} RemoveInTwo(hash: Hash, s0: Slot, s1: Slot, len: nat, k: string)
    requires Valid(Two(s0, s1, len)) && hash(k) % 16 == 0 && Holds(s0, k)
    ensures len > 0 && Get(hash, Two(s0, s1, len), k) == Found(s0.value)
    ensures Remove(hash, Two(s0, s1, len), k) == Two(Tombstone, s1, len - 1)
  {
    var t := Two(s0, s1, len);
    assert Home(hash, k, 16) == 0 && Pos(0, 0, 16) == 0;
    assert GetDist(t.slots, k, 0, 0) == 0;
    CountUpdate(t.slots, 0, Tombstone);
    assert t.slots[0 := Tombstone] == Two(Tombstone, s1, 0).slots;
  }

  lemma {:induction false} ShadowState(hash: Hash, a: string, b: string) returns (t: Table)
    requires a != b && hash(a) % 16 == 0 && hash(b) % 16 == 0
    ensures After(hash, 16, ShadowOps(a, b)) == At(t)
    ensures t == Two(Live(b, 3), Live(b, 2), 2)
  {
    NewValid(16);
    assert New(16).slots == Two(Empty, Empty, 0).slots;
    SetInTwo(hash, Empty, Empty, 0, a, 1);
    SetInTwo(hash, Live(a, 1), Empty, 1, b, 2);
    RemoveInTwo(hash, Live(a, 1), Live(b, 2), 2, a);
    SetInTwo(hash, Tombstone, Live(b, 2), 1, b, 3);
    t := Two(Live(b, 3), Live(b, 2), 2);
    AfterChain(hash, ShadowOps(a, b),
      [New(16), Two(Live(a, 1), Empty, 1), Two(Live(a, 1), Live(b, 2), 2), Two(Tombstone, Live(b, 2), 1), t]);
  }
}
