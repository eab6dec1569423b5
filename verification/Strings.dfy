/**
 Splitting, joining and replacing in the runtime's strings. Each operation first measures its
 result and then fills a buffer of exactly that size; the search is C's `strstr`.
 */
module Strings {
  import opened CText

  // ---- Searching ----

  datatype Hit = Absent | Found(pos: nat)

  /** `strstr`: the first occurrence at or behind `p`, character by character. */
  function Next(s: string, d: string, p: nat): (r: Hit)
    requires p <= |s|
    ensures r.Found? ==> p <= r.pos && r.pos + |d| <= |s|
    decreases |s| - p, |d| + 2
  {
    if p + |d| > |s| then Absent else Here(s, d, p)
  }

  function Here(s: string, d: string, p: nat): (r: Hit)
    requires p + |d| <= |s|
    ensures r.Found? ==> p <= r.pos && r.pos + |d| <= |s|
    decreases |s| - p, |d| + 1
  {
    Compare(s, d, p, 0)
  }

  function Compare(s: string, d: string, p: nat, k: nat): (r: Hit)
    requires p + |d| <= |s| && k <= |d|
    ensures r.Found? ==> p <= r.pos && r.pos + |d| <= |s|
    decreases |s| - p, |d| - k
  {
    if k == |d| then Found(p) else if s[p + k] == d[k] then Compare(s, d, p, k + 1) else Next(s, d, p + 1)
  }

  /** `r` is the first occurrence at or behind `p`, or there is none. */
  ghost predicate IsFirst(s: string, d: string, p: nat, r: Hit) {
    && (r.Found? ==> p <= r.pos && Occurs(s, r.pos, d))
    && forall q :: p <= q <= |s| && (r.Found? ==> q < r.pos) ==> !Occurs(s, q, d)
  }

  lemma {:induction false} NextIsFirst(s: string, d: string, p: nat)
    requires p <= |s|
    ensures IsFirst(s, d, p, Next(s, d, p))
    decreases |s| - p, |d| + 1
  {
    if p + |d| <= |s| {
      CompareIsFirst(s, d, p, 0);
      assert Next(s, d, p) == Here(s, d, p) == Compare(s, d, p, 0);
    }
  }

  lemma {:induction false} CompareIsFirst(s: string, d: string, p: nat, k: nat)
    requires p + |d| <= |s| && k <= |d| && forall j :: 0 <= j < k ==> s[p + j] == d[j]
    ensures IsFirst(s, d, p, Compare(s, d, p, k))
    decreases |s| - p, |d| - k
  {
    if k < |d| {
      if s[p + k] == d[k] {
        CompareIsFirst(s, d, p, k + 1);
      } else {
        NextIsFirst(s, d, p + 1);
        assert !Occurs(s, p, d);
      }
    }
  }

  /** The occurrences found when the search goes on behind each hit. */
  function Count(s: string, d: string, p: nat): nat
    requires p <= |s| && d != []
    decreases |s| - p
  {
    match Next(s, d, p)
    case Absent => 0
    case Found(q) => 1 + Count(s, d, q + |d|)
  }

  /** The pieces between them. */
  function Pieces(s: string, d: string, p: nat): (r: seq<string>)
    requires p <= |s| && d != []
    ensures r != []
    decreases |s| - p
  {
    match Next(s, d, p)
    case Absent => [s[p..]]
    case Found(q) => [s[p..q]] + Pieces(s, d, q + |d|)
  }

  /** The counting pass and the filling pass agree. */
  lemma {:induction false} PieceCount(s: string, d: string, p: nat)
    requires p <= |s| && d != []
    ensures |Pieces(s, d, p)| == 1 + Count(s, d, p)
    decreases |s| - p
  {
    match Next(s, d, p)
    case Absent =>
    case Found(q) => PieceCount(s, d, q + |d|);
  }

  /** An empty delimiter cuts into characters; the empty string is then one empty piece. */
  function Split(s: string, d: string): seq<string> {
    if d != [] then Pieces(s, d, 0) else if s == [] then [[]] else seq(|s|, i requires 0 <= i < |s| => [s[i]])
  }

  function Join(parts: seq<string>, sep: string): string {
    if parts == [] then [] else if |parts| == 1 then parts[0] else parts[0] + (sep + Join(parts[1..], sep))
  }

  /** An empty pattern replaces nothing. */
  function Replace(s: string, from: string, to: string): string {
    if from == [] then s else Join(Split(s, from), to)
  }

  // ---- Joining undoes splitting ----

  lemma {:induction false} JoinCons(x: string, parts: seq<string>, sep: string)
    requires parts != []
    ensures Join([x] + parts, sep) == x + (sep + Join(parts, sep))
  {
    assert ([x] + parts)[1..] == parts;
  }

  lemma {:induction false} Around(s: string, p: nat, q: nat, d: string)
    requires p <= q && Occurs(s, q, d)
    ensures s[p..q] + (d + s[q + |d|..]) == s[p..]
  {
    OccursSlice(s, q, d);
  }

  lemma {:induction false} JoinPieces(s: string, d: string, p: nat)
    requires p <= |s| && d != []
    ensures Join(Pieces(s, d, p), d) == s[p..]
    decreases |s| - p
  {
    match Next(s, d, p)
    case Absent =>
    case Found(q) =>
      JoinPieces(s, d, q + |d|);
      JoinCons(s[p..q], Pieces(s, d, q + |d|), d);
      NextIsFirst(s, d, p);
      Around(s, p, q, d);
  }

  lemma {:induction false} JoinChars(s: string, n: nat)
    requires n < |s|
    ensures Join(Split(s, [])[n..], []) == s[n..]
    decreases |s| - n
  {
    var parts := Split(s, []);
    if n + 1 < |s| {
      JoinChars(s, n + 1);
      assert parts[n..] == [[s[n]]] + parts[n + 1..];
      JoinCons([s[n]], parts[n + 1..], []);
      assert [s[n]] + s[n + 1..] == s[n..];
      assert [] + s[n + 1..] == s[n + 1..];
    } else {
      assert parts[n..] == [[s[n]]] && s[n..] == [s[n]];
    }
  }

  /** For every string and every delimiter, the empty one included. */
  lemma {:induction false} JoinSplit(s: string, d: string)
    ensures Join(Split(s, d), d) == s
  {
    if d != [] {
      JoinPieces(s, d, 0);
      assert s[0..] == s;
    } else if s != [] {
      JoinChars(s, 0);
      assert Split(s, [])[0..] == Split(s, []) && s[0..] == s;
    }
  }

  // ---- When splitting undoes joining ----

  /** The delimiter behind `x` is the first one in `x + d`. */
  ghost predicate EndsFirst(x: string, d: string) {
    forall q :: 0 <= q < |x| ==> !Occurs(x + d, q, d)
  }

  ghost predicate FreeOf(x: string, d: string) {
    forall q :: 0 <= q <= |x| ==> !Occurs(x, q, d)
  }

  /** No piece lets a delimiter start before the one that follows it. */
  ghost predicate Separable(parts: seq<string>, d: string) {
    && parts != []
    && (forall i :: 0 <= i < |parts| - 1 ==> EndsFirst(parts[i], d))
    && FreeOf(parts[|parts| - 1], d)
  }

  /** Occurrences in a slice are occurrences in the whole. */
  lemma {:induction false} OccursWithin(s: string, p: nat, x: string, q: nat, d: string)
    requires Occurs(s, p, x) && q + |d| <= |x|
    ensures Occurs(s, p + q, d) <==> Occurs(x, q, d)
  {
    if Occurs(x, q, d) {
      forall k | 0 <= k < |d| ensures s[p + q + k] == d[k] {
        assert s[p + (q + k)] == x[q + k];
      }
    }
    if Occurs(s, p + q, d) {
      forall k | 0 <= k < |d| ensures x[q + k] == d[k] {
        assert s[p + (q + k)] == x[q + k];
      }
    }
  }

  /** What follows decides nothing about the first hit, once the delimiter behind `x` is there. */
  lemma {:induction false} NextBehind(s: string, p: nat, x: string, d: string)
    requires d != [] && Occurs(s, p, x + d)
    ensures Next(s, d, p) == Found(p + |x|) <==> EndsFirst(x, d)
  {
    NextIsFirst(s, d, p);
    OccursAppend(s, p, x, d);
    forall q | 0 <= q < |x| ensures Occurs(s, p + q, d) <==> Occurs(x + d, q, d) {
      OccursWithin(s, p, x + d, q, d);
    }
    var r := Next(s, d, p);
    assert r.Found? && r.pos <= p + |x| by {
      assert Occurs(s, p + |x|, d);
    }
    if r.pos < p + |x| {
      assert Occurs(x + d, r.pos - p, d);
    }
    if r.pos == p + |x| {
      forall q | 0 <= q < |x| ensures !Occurs(x + d, q, d) {
        assert !Occurs(s, p + q, d);
      }
    }
  }

  lemma {:induction false} NextInLast(s: string, p: nat, d: string)
    requires d != [] && p <= |s|
    ensures Next(s, d, p) == Absent <==> FreeOf(s[p..], d)
  {
    NextIsFirst(s, d, p);
    var x := s[p..];
    assert Occurs(s, p, x);
    forall q | 0 <= q <= |x| ensures Occurs(s, p + q, d) <==> Occurs(x, q, d) {
      if q + |d| <= |x| {
        OccursWithin(s, p, x, q, d);
      }
    }
    if Next(s, d, p).Found? {
      assert Occurs(x, Next(s, d, p).pos - p, d);
    }
  }

  lemma {:induction false} PiecesSeparable(s: string, d: string, p: nat)
    requires p <= |s| && d != []
    ensures Separable(Pieces(s, d, p), d)
    decreases |s| - p
  {
    NextInLast(s, p, d);
    NextIsFirst(s, d, p);
    match Next(s, d, p)
    case Absent =>
    case Found(q) =>
      var x := s[p..q];
      assert Occurs(s, p, x);
      OccursAppend(s, p, x, d);
      NextBehind(s, p, x, d);
      PiecesSeparable(s, d, q + |d|);
  }

  /** A text that starts with `x + d`, and what is behind it. */
  lemma {:induction false} Behind(s: string, p: nat, x: string, d: string, rest: string)
    requires p <= |s| && s[p..] == x + (d + rest)
    ensures Occurs(s, p, x) && Occurs(s, p, x + d) && s[p..p + |x|] == x
    ensures p + |x + d| <= |s| && s[p + |x + d|..] == rest
  {
    var t := x + (d + rest);
    assert forall k :: 0 <= k < |t| ==> s[p + k] == s[p..][k];
  }

  lemma {:induction false} SeparableTail(parts: seq<string>, d: string)
    requires |parts| > 1 && Separable(parts, d)
    ensures Separable(parts[1..], d) && EndsFirst(parts[0], d)
  {
    var rest := parts[1..];
    forall i | 0 <= i < |rest| - 1 ensures EndsFirst(rest[i], d) {
      assert rest[i] == parts[i + 1];
    }
  }

  lemma {:induction false} PiecesOfJoin(s: string, d: string, p: nat, parts: seq<string>)
    requires p <= |s| && d != [] && Separable(parts, d) && s[p..] == Join(parts, d)
    ensures Pieces(s, d, p) == parts
    decreases |parts|
  {
    if |parts| == 1 {
      NextInLast(s, p, d);
    } else {
      var x, rest := parts[0], parts[1..];
      Behind(s, p, x, d, Join(rest, d));
      NextBehind(s, p, x, d);
      SeparableTail(parts, d);
      PiecesOfJoin(s, d, p + |x + d|, rest);
      assert parts == [x] + rest;
    }
  }

  /** The empty delimiter splits into characters. */
  predicate Characters(parts: seq<string>) {
    parts == [[]] || (parts != [] && forall i :: 0 <= i < |parts| ==> |parts[i]| == 1)
  }

  lemma {:induction false} JoinCharacters(parts: seq<string>)
    requires forall i :: 0 <= i < |parts| ==> |parts[i]| == 1
    ensures var s := Join(parts, []); |s| == |parts| && forall i :: 0 <= i < |parts| ==> parts[i] == [s[i]]
    decreases |parts|
  {
    if |parts| > 1 {
      JoinCharacters(parts[1..]);
      assert [] + Join(parts[1..], []) == Join(parts[1..], []);
    }
  }

  lemma {:induction false} CharactersIff(parts: seq<string>)
    ensures Split(Join(parts, []), []) == parts <==> Characters(parts)
  {
    var s := Join(parts, []);
    if Characters(parts) && parts != [[]] {
      JoinCharacters(parts);
    }
    if Split(s, []) == parts && s != [] {
      forall i | 0 <= i < |parts| ensures |parts[i]| == 1 {
        assert parts[i] == Split(s, [])[i];
      }
    }
  }

  /**
   Splitting gives back the joined parts exactly when they are separable, or for the empty
   delimiter single characters or one empty part.
   */
  lemma {:induction false} SplitJoinIff(parts: seq<string>, d: string)
    ensures Split(Join(parts, d), d) == parts <==> if d != [] then Separable(parts, d) else Characters(parts)
  {
    var s := Join(parts, d);
    if d == [] {
      CharactersIff(parts);
    } else {
      PiecesSeparable(s, d, 0);
      if Separable(parts, d) {
        assert s[0..] == s;
        PiecesOfJoin(s, d, 0, parts);
      }
    }
  }

  /** With a one-character delimiter that only means that no part contains it. */
  lemma {:induction false} SeparableByChar(parts: seq<string>, c: char)
    ensures Separable(parts, [c]) <==> parts != [] && forall i :: 0 <= i < |parts| ==> c !in parts[i]
  {
    forall i | 0 <= i < |parts| ensures EndsFirst(parts[i], [c]) <==> c !in parts[i] {
      FreeOfChar(parts[i], c);
    }
    forall i | 0 <= i < |parts| ensures FreeOf(parts[i], [c]) <==> c !in parts[i] {
      FreeOfChar(parts[i], c);
    }
  }

  lemma {:induction false} FreeOfChar(x: string, c: char)
    ensures EndsFirst(x, [c]) <==> c !in x
    ensures FreeOf(x, [c]) <==> c !in x
  {
    forall q | 0 <= q < |x|
      ensures Occurs(x, q, [c]) <==> x[q] == c
      ensures Occurs(x + [c], q, [c]) <==> x[q] == c
    {
      assert Occurs(x, q, [c]) <==> x[q + 0] == [c][0];
      assert Occurs(x + [c], q, [c]) <==> (x + [c])[q + 0] == [c][0];
    }
  }

  /** It can go wrong: a part with the delimiter in it comes back as two. */
  lemma {:induction false} PartCutInTwo(parts: seq<string>, d: string)
    requires parts == ["a,b"] && d == ","
    ensures Split(Join(parts, d), d) != parts
  {
    assert parts[0][1] == ',';
    SeparableByChar(parts, ',');
    SplitJoinIff(parts, d);
  }

  // ---- Lengths ----

  function Total(parts: seq<string>): nat {
    if parts == [] then 0 else |parts[0]| + Total(parts[1..])
  }

  lemma {:induction false} JoinLength(parts: seq<string>, sep: string)
    requires parts != []
    ensures |Join(parts, sep)| == Total(parts) + (|parts| - 1) * |sep|
    decreases |parts|
  {
    if |parts| > 1 {
      JoinLength(parts[1..], sep);
    }
  }

  /** The length `tinox_string_replace` computes before it writes anything. */
  lemma {:induction false} ReplaceLength(s: string, from: string, to: string)
    requires from != []
    ensures |Replace(s, from, to)| == |s| + Count(s, from, 0) * (|to| - |from|)
  {
    var parts, n := Split(s, from), Count(s, from, 0);
    JoinSplit(s, from);
    PieceCount(s, from, 0);
    JoinLength(parts, from);
    JoinLength(parts, to);
    assert n * |to| - n * |from| == n * (|to| - |from|);
  }

  // ---- The loops ----

  method CountHits(s: string, d: string) returns (n: nat)
    requires d != []
    ensures n == Count(s, d, 0)
  {
    n := 0;
    var hit := Next(s, d, 0);
    ghost var p := 0;
    while hit.Found?
      invariant p <= |s| && hit == Next(s, d, p) && n + Count(s, d, p) == Count(s, d, 0)
      decreases |s| - p
    {
      n, p := n + 1, hit.pos + |d|;
      hit := Next(s, d, hit.pos + |d|);
    }
  }

  /** `memcpy` into a buffer. */
  method Put(buf: array<char>, at: nat, t: string)
    requires at + |t| <= buf.Length
    modifies buf
    ensures buf[..at + |t|] == old(buf[..at]) + t
  {
    for k := 0 to |t|
      invariant buf[..at] == old(buf[..at]) && buf[at..at + k] == t[..k]
    {
      buf[at + k] := t[k];
    }
    assert buf[..at + |t|] == buf[..at] + buf[at..at + |t|];
  }

  method PutTwo(buf: array<char>, at: nat, x: string, y: string) returns (next: nat)
    requires at + |x| + |y| <= buf.Length
    modifies buf
    ensures next == at + |x| + |y| && buf[..next] == old(buf[..at]) + x + y
  {
    Put(buf, at, x);
    Put(buf, at + |x|, y);
    next := at + |x| + |y|;
  }

  lemma {:induction false} Regroup(w: string, x: string, y: string, z: string)
    ensures w + x + y + z == w + (x + (y + z))
  {
  }

  /** The delimited branch of `tinox_string_split`: count the hits, then fill that many slots and one more. */
  method SplitPieces(s: string, d: string) returns (parts: array<string>)
    requires d != []
    ensures fresh(parts) && parts[..] == Split(s, d)
  {
    var count := CountHits(s, d);
    PieceCount(s, d, 0);
    parts := new string[count + 1];
    var i, start := 0, 0;
    var hit := Next(s, d, 0);
    while hit.Found?
      invariant start <= |s| && hit == Next(s, d, start)
      invariant 0 <= i <= parts.Length && parts[..i] + Pieces(s, d, start) == Pieces(s, d, 0)
      decreases |s| - start
    {
      PutPart(s, d, start, hit.pos, parts, i);
      i, start := i + 1, hit.pos + |d|;
      hit := Next(s, d, start);
    }
    ghost var done := parts[..i];
    parts[i] := s[start..];
    assert parts[..] == done + [s[start..]];
  }

  /** One round: the piece before the hit goes into the next slot. */
  method PutPart(s: string, d: string, start: nat, q: nat, parts: array<string>, i: nat)
    requires d != [] && start <= |s| && Next(s, d, start) == Found(q)
    requires i <= parts.Length && |parts[..i] + Pieces(s, d, start)| == parts.Length
    modifies parts
    ensures i < parts.Length && parts[..i + 1] + Pieces(s, d, q + |d|) == old(parts[..i]) + Pieces(s, d, start)
  {
    ghost var done, rest := parts[..i], Pieces(s, d, q + |d|);
    parts[i] := s[start..q];
    assert parts[..i + 1] == done + [s[start..q]];
    assert done + [s[start..q]] + rest == done + ([s[start..q]] + rest);
  }

  /** The branch for an empty delimiter; an empty string yields its terminator, an empty piece. */
  method SplitChars(s: string) returns (parts: array<string>)
    ensures fresh(parts) && parts[..] == Split(s, [])
  {
    var count := if |s| == 0 then 1 else |s|;
    parts := new string[count];
    for i := 0 to count
      invariant forall j :: 0 <= j < i ==> parts[j] == if s == [] then [] else [s[j]]
    {
      parts[i] := if i < |s| then [s[i]] else [];
    }
    assert parts[..] == Split(s, []);
  }

  method SplitString(s: string, d: string) returns (parts: array<string>)
    ensures fresh(parts) && parts[..] == Split(s, d)
  {
    if |d| > 0 {
      parts := SplitPieces(s, d);
    } else {
      assert d == [];
      parts := SplitChars(s);
    }
  }

  /** The measuring pass of `tinox_string_join`. */
  method JoinedLength(parts: seq<string>, sep: string) returns (total: nat)
    requires parts != []
    ensures total == |Join(parts, sep)|
  {
    total := 0;
    for i := 0 to |parts|
      invariant total + |Join(parts[i..], sep)| == |Join(parts, sep)|
    {
      total := total + |parts[i]|;
      if i < |parts| - 1 {
        JoinCons(parts[i], parts[i + 1..], sep);
        assert parts[i..] == [parts[i]] + parts[i + 1..];
        total := total + |sep|;
      }
    }
  }

  method PutPiece(parts: seq<string>, sep: string, i: nat, buf: array<char>, at: nat) returns (next: nat)
    requires i < |parts| && at + |Join(parts[i..], sep)| == buf.Length
    modifies buf
    ensures next + |Join(parts[i + 1..], sep)| == buf.Length
    ensures buf[..next] + Join(parts[i + 1..], sep) == old(buf[..at]) + Join(parts[i..], sep)
  {
    var rest := parts[i + 1..];
    assert parts[i..] == [parts[i]] + rest;
    next := at + |parts[i]|;
    if i < |parts| - 1 {
      JoinCons(parts[i], rest, sep);
      Regroup(buf[..at], parts[i], sep, Join(rest, sep));
      next := PutTwo(buf, at, parts[i], sep);
    } else {
      Put(buf, at, parts[i]);
    }
  }

  /** `tinox_string_join`: the filling pass ends exactly at the measured length. */
  method JoinStrings(parts: seq<string>, sep: string) returns (buf: array<char>)
    ensures fresh(buf) && buf[..] == Join(parts, sep)
  {
    if |parts| == 0 {
      buf := new char[0];
      return;
    }
    var total := JoinedLength(parts, sep);
    buf := new char[total];
    var at := 0;
    for i := 0 to |parts|
      invariant 0 <= at && at + |Join(parts[i..], sep)| == buf.Length
      invariant buf[..at] + Join(parts[i..], sep) == Join(parts, sep)
    {
      at := PutPiece(parts, sep, i, buf, at);
    }
    assert buf[..at] == buf[..];
  }

  /** `tinox_string_replace`: the buffer has the computed length and is filled to its end. */
  method ReplaceAll(s: string, from: string, to: string) returns (buf: array<char>)
    ensures fresh(buf) && buf[..] == Replace(s, from, to)
  {
    var count := 0;
    if |from| > 0 {
      count := CountHits(s, from);
    }
    if count == 0 {
      buf := new char[|s|];
      Put(buf, 0, s);
      assert buf[..] == buf[..|s|];
      if |from| > 0 {
        assert Split(s, from) == [s[0..]];
      }
      return;
    }
    ReplaceLength(s, from, to);
    buf := new char[|s| + count * (|to| - |from|)];
    FillReplaced(s, from, to, buf);
  }

  method FillReplaced(s: string, from: string, to: string, buf: array<char>)
    requires from != [] && buf.Length == |Replace(s, from, to)|
    modifies buf
    ensures buf[..] == Replace(s, from, to)
  {
    var p, at := 0, 0;
    var hit := Next(s, from, 0);
    while hit.Found?
      invariant p <= |s| && hit == Next(s, from, p)
      invariant 0 <= at && at + |Join(Pieces(s, from, p), to)| == buf.Length
      invariant buf[..at] + Join(Pieces(s, from, p), to) == Replace(s, from, to)
      decreases |s| - p
    {
      at := PutReplaced(s, from, to, p, hit.pos, buf, at);
      p := hit.pos + |from|;
      hit := Next(s, from, p);
    }
    Put(buf, at, s[p..]);
    assert buf[..at + |s| - p] == buf[..];
  }

  /** One round: the text before the hit, then the replacement. */
  method PutReplaced(s: string, from: string, to: string, p: nat, q: nat, buf: array<char>, at: nat) returns (next: nat)
    requires from != [] && p <= |s| && Next(s, from, p) == Found(q)
    requires at + |Join(Pieces(s, from, p), to)| == buf.Length
    modifies buf
    ensures next + |Join(Pieces(s, from, q + |from|), to)| == buf.Length
    ensures buf[..next] + Join(Pieces(s, from, q + |from|), to) == old(buf[..at]) + Join(Pieces(s, from, p), to)
  {
    var x := s[p..q];
    ghost var tail := Join(Pieces(s, from, q + |from|), to);
    JoinCons(x, Pieces(s, from, q + |from|), to);
    Regroup(buf[..at], x, to, tail);
    next := PutTwo(buf, at, x, to);
  }
}
