/**
 The string map as the runtime runs it: probing loops over a slot array, updated in place,
 proved step for step equal to the operations of `StringMap`.
 */
module StringTable {
  import opened StringMap

  class StringTable {
    const hash: Hash
    var entries: array<Slot>
    var len: nat

    function State(): Table
      reads this, entries
    {
      Table(entries[..], len)
    }

    ghost predicate Ok()
      reads this, entries
    {
      Valid(State())
    }

    constructor (hash: Hash)
      ensures this.hash == hash && fresh(entries) && State() == New(16) && Ok()
    {
      this.hash := hash;
      entries := new Slot[16](_ => Empty);
      len := 0;
      new;
      NewValid(16);
      assert entries[..] == New(16).slots;
    }

    /** `map_rehash` */
    method Grow()
      requires Ok()
      modifies this
      ensures State() == Rehash(hash, old(State())) && fresh(entries)
    {
      var cap := 2 * entries.Length;
      var bigger := new Slot[cap](_ => Empty);
      CopyAll(hash, entries, bigger);
      entries := bigger;
    }

    /** `tinox_map_set` */
    method Set(key: string, value: int)
      requires Ok()
      modifies this, entries
      ensures State() == StringMap.Set(hash, old(State()), key, value)
      ensures Ok() && (entries == old(entries) || fresh(entries))
    {
      MakeRoom();
      Store(key, value);
    }

    /** The growth step of `set`. */
    method MakeRoom()
      requires Ok()
      modifies this
      ensures State() == Grown(hash, old(State()))
      ensures entries == old(entries) || fresh(entries)
    {
      if len * 4 >= entries.Length * 3 {
        Grow();
      }
    }

    /** `set` once there is room. */
    method Store(key: string, value: int)
      requires entries.Length > 0 && Count(entries[..]) < entries.Length
      modifies this`len, entries
      ensures SetDist(old(entries[..]), key, Home(hash, key, entries.Length), 0) < entries.Length
      ensures State() == Put(hash, old(State()), key, value)
    {
      ghost var slots := entries[..];
      SetStops(slots, key, Home(hash, key, entries.Length));
      var idx := FindForSet(key);
      if !entries[idx].Live? {
        len := len + 1;
      }
      entries[idx] := Live(key, value);
      assert entries[..] == slots[idx := Live(key, value)];
    }

    /** The probe of `set`: the first slot that is free or holds the key. */
    method FindForSet(key: string) returns (idx: nat)
      requires entries.Length > 0 && Count(entries[..]) < entries.Length
      ensures var h := Home(hash, key, entries.Length); idx == Pos(h, SetDist(entries[..], key, h, 0), entries.Length)
      ensures idx < entries.Length
    {
      var cap := entries.Length;
      ghost var slots, h, d := entries[..], Home(hash, key, cap), 0;
      SetStops(slots, key, h);
      idx := Home(hash, key, cap);
      while entries[idx].Live? && entries[idx].key != key
        invariant d < cap && idx == Pos(h, d, cap)
        invariant SetDist(slots, key, h, d) == SetDist(slots, key, h, 0)
        decreases cap - d
      {
        NextPos(h, d, cap);
        idx := Next(idx, cap);
        d := d + 1;
      }
    }

    /** The probe of the lookups. It is called only where it ends, which `LoopsIff` characterises. */
    method FindForGet(key: string) returns (idx: nat)
      requires Ok() && Get(hash, State(), key) != Loops
      ensures var h := Home(hash, key, entries.Length); idx == Pos(h, GetDist(entries[..], key, h, 0), entries.Length)
      ensures idx < entries.Length && !entries[idx].Tombstone? && (entries[idx].Live? ==> entries[idx].key == key)
    {
      var cap := entries.Length;
      ghost var slots, h, d := entries[..], Home(hash, key, cap), 0;
      idx := Home(hash, key, cap);
      while !entries[idx].Empty? && !(entries[idx].Live? && entries[idx].key == key)
        invariant d < cap && idx == Pos(h, d, cap)
        invariant GetDist(slots, key, h, d) == GetDist(slots, key, h, 0)
        decreases cap - d
      {
        NextPos(h, d, cap);
        idx := Next(idx, cap);
        d := d + 1;
      }
    }

    /** `tinox_map_get`: zero for an absent key. */
    method Lookup(key: string) returns (v: int)
      requires Ok() && Get(hash, State(), key) != Loops
      ensures match Get(hash, State(), key)
              case Found(x) => v == x
              case Absent => v == 0
              case Loops => false
    {
      var idx := FindForGet(key);
      v := if entries[idx].Live? then entries[idx].value else 0;
    }

    /** `tinox_map_contains` */
    method Contains(key: string) returns (b: bool)
      requires Ok() && Get(hash, State(), key) != Loops
      ensures b == Get(hash, State(), key).Found?
    {
      var idx := FindForGet(key);
      b := entries[idx].Live?;
    }

    /** `tinox_map_remove` */
    method Remove(key: string)
      requires Ok() && Get(hash, State(), key) != Loops
      modifies this`len, entries
      ensures State() == StringMap.Remove(hash, old(State()), key) && Ok()
    {
      ghost var slots := entries[..];
      var idx := FindForGet(key);
      if entries[idx].Live? {
        CountUpdate(slots, idx, Tombstone);
        entries[idx] := Tombstone;
        len := len - 1;
        assert entries[..] == slots[idx := Tombstone];
      }
    }

    /** `tinox_map_keys`: an array of `len` elements is filled exactly, in slot order. */
    method ListKeys() returns (r: array<string>)
      requires Ok()
      ensures fresh(r) && r[..] == Keys(entries[..])
    {
      r := new string[len](_ => "");
      ghost var slots := entries[..];
      var j := 0;
      for i := 0 to entries.Length
        invariant j <= len && r[..j] == Keys(slots[..i])
      {
        KeysStep(slots, i);
        if entries[i].Live? {
          r[j] := entries[i].key;
          j := j + 1;
        }
      }
      assert slots[..entries.Length] == slots;
    }
  }

  lemma {:induction false} KeysStep(slots: seq<Slot>, i: nat)
    requires i < |slots|
    ensures Keys(slots[..i + 1]) == Keys(slots[..i]) + if slots[i].Live? then [slots[i].key] else []
    ensures |Keys(slots[..i + 1])| <= Count(slots)
  {
    assert slots[..i + 1][..i] == slots[..i];
    CountPrefix(slots, i + 1);
  }

  /** The outer loop of the rehash: every slot in order. */
  method CopyAll(hash: Hash, a: array<Slot>, b: array<Slot>)
    requires a != b && a.Length < b.Length && forall i :: 0 <= i < b.Length ==> b[i].Empty?
    modifies b
    ensures b[..] == Moved(hash, a[..], b.Length)
  {
    assert b[..] == Moved(hash, a[..0], b.Length);
    for i := 0 to a.Length
      invariant b[..] == Moved(hash, a[..i], b.Length)
      invariant a[..] == old(a[..])
    {
      assert a[..i + 1][..i] == a[..i];
      if a[i].Live? {
        CopySlot(hash, b, a[i]);
      }
    }
    assert a[..a.Length] == a[..];
  }

  /** The inner loop of the rehash: the first free slot from the home of the key. */
  method FindFree(a: array<Slot>, h: nat) returns (idx: nat)
    requires h < a.Length && Count(a[..]) < a.Length
    ensures FreeDist(a[..], h, 0) < a.Length && idx == Pos(h, FreeDist(a[..], h, 0), a.Length)
  {
    var cap := a.Length;
    ghost var slots, d := a[..], 0;
    FreeExists(slots, h);
    idx := h;
    while a[idx].Live?
      invariant d < cap && idx == Pos(h, d, cap)
      invariant FreeDist(slots, h, d) == FreeDist(slots, h, 0)
      decreases cap - d
    {
      NextPos(h, d, cap);
      idx := Next(idx, cap);
      d := d + 1;
    }
  }

  method CopySlot(hash: Hash, a: array<Slot>, s: Slot)
    requires s.Live? && Count(a[..]) < a.Length
    modifies a
    ensures a[..] == Move(hash, old(a[..]), s)
  {
    var idx := FindFree(a, Home(hash, s.key, a.Length));
    a[idx] := s;
  }
}
