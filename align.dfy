/** `align_roots` (Main.cc): renumbers the roots of a freshly rendered frame
    so that each one keeps, where it can, the index of the nearest root of
    the previous frame, and rewrites the raster and the root list to match. */
module Align {
  import opened ComplexNumbers
  import opened JuliaSet

  // ---------------------------------------------------------------------
  // The candidate pairs, ordered as the `multimap` holds them.

  /** One entry of `distance_pairs`: the key abs2(prev[x] - current[y])
      and the pair (x, y). */
  datatype Candidate = Candidate(distance: real, prev: nat, cur: nat)

  /** The entry for previous root x and current root y. */
  function CandidateAt(prev: seq<Complex>, current: seq<Complex>, x: nat, y: nat): Candidate
    requires x < |prev| && y < |current|
  {
    Candidate(Abs2(Sub(prev[x], current[y])), x, y)
  }

  /** (x1, y1) comes before (x2, y2) in the x-outer, y-inner loop order. */
  predicate LoopBefore(x1: int, y1: int, x2: int, y2: int)
  {
    x1 < x2 || (x1 == x2 && y1 < y2)
  }

  /** The multimap's order: by key, and among equal keys by insertion,
      which is the loop order. */
  predicate Before(a: Candidate, b: Candidate)
  {
    a.distance < b.distance || (a.distance == b.distance && LoopBefore(a.prev, a.cur, b.prev, b.cur))
  }

  predicate Sorted(s: seq<Candidate>)
  {
    forall i, j :: 0 <= i < j < |s| ==> Before(s[i], s[j])
  }

  /** The first index at or after i whose key exceeds d, or |s|. */
  function UpperBound(s: seq<Candidate>, d: real, i: nat): (u: nat)
    requires i <= |s|
    ensures i <= u <= |s|
    decreases |s| - i
  {
    if i == |s| || s[i].distance > d then i else UpperBound(s, d, i + 1)
  }

  /** Every key before the upper bound is at most d, the key at it exceeds d. */
  lemma {:induction false} UpperBoundSplits(s: seq<Candidate>, d: real, i: nat)
    requires i <= |s|
    ensures forall k :: i <= k < UpperBound(s, d, i) ==> s[k].distance <= d
    ensures UpperBound(s, d, i) < |s| ==> s[UpperBound(s, d, i)].distance > d
    decreases |s| - i
  {
    if i < |s| && s[i].distance <= d {
      UpperBoundSplits(s, d, i + 1);
    }
  }

  /** `multimap::emplace`: the new entry goes after every entry with an
      equal key, at the upper bound of its key. */
  function Emplace(s: seq<Candidate>, c: Candidate): seq<Candidate>
  {
    var u := UpperBound(s, c.distance, 0);
    s[..u] + [c] + s[u..]
  }

  /** The multimap the loops of Main.cc:118-124 end with when they resume
      at pair (x, y) holding s. */
  function InsertFrom(prev: seq<Complex>, current: seq<Complex>, s: seq<Candidate>, x: nat, y: nat): seq<Candidate>
    requires x <= |prev| && y <= |current|
    decreases |prev| - x, |current| - y
  {
    if x == |prev| then s
    else if y == |current| then InsertFrom(prev, current, s, x + 1, 0)
    else InsertFrom(prev, current, Emplace(s, CandidateAt(prev, current, x, y)), x, y + 1)
  }

  /** `distance_pairs` once filled. */
  function DistancePairs(prev: seq<Complex>, current: seq<Complex>): (s: seq<Candidate>)
    ensures forall e :: e in s ==> e.prev < |prev| && e.cur < |current|
  {
    InsertedOrdered(prev, current, [], 0, 0);
    InsertFrom(prev, current, [], 0, 0)
  }

  /** An entry whose pair is a real pair that comes before (x, y) in loop
      order. */
  predicate PairBefore(prev: seq<Complex>, current: seq<Complex>, e: Candidate, x: nat, y: nat)
  {
    e.prev < |prev| && e.cur < |current| && LoopBefore(e.prev, e.cur, x, y)
  }

  /** Emplacing an entry that comes after every present one in loop order
      keeps the listing sorted and adds exactly that entry. */
  lemma EmplaceKeepsSorted(s: seq<Candidate>, c: Candidate)
    requires Sorted(s)
    requires forall e :: e in s ==> LoopBefore(e.prev, e.cur, c.prev, c.cur)
    ensures Sorted(Emplace(s, c))
    ensures forall e :: e in Emplace(s, c) <==> e in s || e == c
  {
    var u := UpperBound(s, c.distance, 0);
    var r := Emplace(s, c);
    EmplaceLayout(s, c, u);
    UpperBoundSplits(s, c.distance, 0);
    forall i, j | 0 <= i < j < |r|
      ensures Before(r[i], r[j])
    {
      if j < u || i > u {
        assert Before(Shifted(s, c, u, i), Shifted(s, c, u, j));
      } else if i < u && j == u {
        assert s[i] in s;
      } else if i == u {
        assert s[u].distance <= s[j - 1].distance;
      }
    }
  }

  /** Entry k of s with c inserted at position u. */
  function Shifted(s: seq<Candidate>, c: Candidate, u: nat, k: nat): Candidate
    requires u <= |s| && k <= |s|
  {
    if k < u then s[k] else if k == u then c else s[k - 1]
  }

  /** Emplacing adds exactly the new entry. */
  lemma EmplaceMembers(s: seq<Candidate>, c: Candidate)
    ensures forall e :: e in Emplace(s, c) <==> e in s || e == c
  {
    var u := UpperBound(s, c.distance, 0);
    assert s == s[..u] + s[u..];
  }

  lemma EmplaceLayout(s: seq<Candidate>, c: Candidate, u: nat)
    requires u == UpperBound(s, c.distance, 0)
    ensures |Emplace(s, c)| == |s| + 1
    ensures forall k :: 0 <= k <= |s| ==> Emplace(s, c)[k] == Shifted(s, c, u, k)
    ensures forall e :: e in Emplace(s, c) <==> e in s || e == c
  {
    assert s == s[..u] + s[u..];
  }

  /** Resumed at (x, y) on a sorted multimap of pairs before (x, y), the
      loops end with a sorted multimap of real pairs. */
  lemma {:induction false} InsertedOrdered(prev: seq<Complex>, current: seq<Complex>, s: seq<Candidate>, x: nat, y: nat)
    requires x <= |prev| && y <= |current|
    requires Sorted(s) && forall e :: e in s ==> PairBefore(prev, current, e, x, y)
    ensures var r := InsertFrom(prev, current, s, x, y);
      Sorted(r) && forall e :: e in r ==> e.prev < |prev| && e.cur < |current|
    decreases |prev| - x, |current| - y
  {
    if x == |prev| {
    } else if y == |current| {
      InsertedOrdered(prev, current, s, x + 1, 0);
    } else {
      var c := CandidateAt(prev, current, x, y);
      EmplaceKeepsSorted(s, c);
      InsertedOrdered(prev, current, Emplace(s, c), x, y + 1);
    }
  }

  /** Every entry of s is the entry of a real pair, with its true distance. */
  predicate TrueKeys(prev: seq<Complex>, current: seq<Complex>, s: seq<Candidate>)
  {
    forall e :: e in s ==> e.prev < |prev| && e.cur < |current| && e == CandidateAt(prev, current, e.prev, e.cur)
  }

  lemma {:induction false} InsertedKeys(prev: seq<Complex>, current: seq<Complex>, s: seq<Candidate>, x: nat, y: nat)
    requires x <= |prev| && y <= |current| && TrueKeys(prev, current, s)
    ensures TrueKeys(prev, current, InsertFrom(prev, current, s, x, y))
    decreases |prev| - x, |current| - y
  {
    if x == |prev| {
    } else if y == |current| {
      InsertedKeys(prev, current, s, x + 1, 0);
    } else {
      var c := CandidateAt(prev, current, x, y);
      EmplaceMembers(s, c);
      InsertedKeys(prev, current, Emplace(s, c), x, y + 1);
    }
  }

  /** s holds the entry of every pair before (x, y) in loop order. */
  predicate HoldsPairsBefore(prev: seq<Complex>, current: seq<Complex>, s: seq<Candidate>, x: nat, y: nat)
  {
    forall i, j :: 0 <= i < |prev| && 0 <= j < |current| && LoopBefore(i, j, x, y) ==>
      CandidateAt(prev, current, i, j) in s
  }

  lemma HoldsPairsEmplace(prev: seq<Complex>, current: seq<Complex>, s: seq<Candidate>, x: nat, y: nat)
    requires HoldsPairsBefore(prev, current, s, x, y) && x < |prev| && y < |current|
    ensures HoldsPairsBefore(prev, current, Emplace(s, CandidateAt(prev, current, x, y)), x, y + 1)
  {
    var c := CandidateAt(prev, current, x, y);
    EmplaceMembers(s, c);
    forall i, j | 0 <= i < |prev| && 0 <= j < |current| && LoopBefore(i, j, x, y + 1)
      ensures CandidateAt(prev, current, i, j) in Emplace(s, c)
    {
      if LoopBefore(i, j, x, y) {
        assert CandidateAt(prev, current, i, j) in s;
      }
    }
  }

  /** Resumed at (x, y) holding every pair before (x, y), the loops end
      holding every pair. */
  lemma {:induction false} InsertedComplete(prev: seq<Complex>, current: seq<Complex>, s: seq<Candidate>, x: nat, y: nat)
    requires x <= |prev| && y <= |current| && HoldsPairsBefore(prev, current, s, x, y)
    ensures HoldsPairsBefore(prev, current, InsertFrom(prev, current, s, x, y), |prev|, 0)
    decreases |prev| - x, |current| - y
  {
    if x == |prev| {
    } else if y == |current| {
      InsertedComplete(prev, current, s, x + 1, 0);
    } else {
      HoldsPairsEmplace(prev, current, s, x, y);
      InsertedComplete(prev, current, Emplace(s, CandidateAt(prev, current, x, y)), x, y + 1);
    }
  }

  /** The filled multimap is sorted by distance and then by loop order. */
  lemma DistancePairsSorted(prev: seq<Complex>, current: seq<Complex>)
    ensures Sorted(DistancePairs(prev, current))
  {
    InsertedOrdered(prev, current, [], 0, 0);
  }

  /** Every entry of the filled multimap holds the true distance of its pair. */
  lemma DistancePairsKeys(prev: seq<Complex>, current: seq<Complex>)
    ensures forall e :: e in DistancePairs(prev, current) ==>
      e.prev < |prev| && e.cur < |current| && e == CandidateAt(prev, current, e.prev, e.cur)
  {
    InsertedKeys(prev, current, [], 0, 0);
  }

  /** The filled multimap lists every (prev, current) pair. */
  lemma DistancePairsComplete(prev: seq<Complex>, current: seq<Complex>)
    ensures forall i, j :: 0 <= i < |prev| && 0 <= j < |current| ==>
      CandidateAt(prev, current, i, j) in DistancePairs(prev, current)
  {
    InsertedComplete(prev, current, [], 0, 0);
  }

  /** The nested loops of Main.cc:118-124. */
  method FillDistancePairs(prev: seq<Complex>, current: seq<Complex>) returns (pairs: seq<Candidate>)
    ensures pairs == DistancePairs(prev, current)
  {
    pairs := [];
    var x := 0;
    while x < |prev|
      invariant 0 <= x <= |prev|
      invariant InsertFrom(prev, current, pairs, x, 0) == DistancePairs(prev, current)
    {
      var y := 0;
      while y < |current|
        invariant 0 <= y <= |current|
        invariant InsertFrom(prev, current, pairs, x, y) == DistancePairs(prev, current)
      {
        var diff := Sub(prev[x], current[y]);
        pairs := Emplace(pairs, Candidate(Abs2(diff), x, y));
        y := y + 1;
      }
      x := x + 1;
    }
  }

  // ---------------------------------------------------------------------
  // The replacement map.

  /** `replacement_map` (-1 for a slot not yet assigned) together with
      `unused_root_indices`. */
  datatype Assignment = Assignment(slots: seq<int>, unused: set<int>)

  /** Both containers as Main.cc:126-131 create them for n current roots. */
  function Initial(n: nat): (a: Assignment)
    ensures |a.slots| == n
  {
    Assignment(seq(n, _ => -1), Below(n))
  }

  /** The set {0, ..., n-1}. */
  function Below(n: nat): (s: set<int>)
    ensures forall i :: i in s <==> 0 <= i < n
    ensures |s| == n
  {
    if n == 0 then {} else Below(n - 1) + {n - 1}
  }

  /** Main.cc:132-137 for one entry: the current root takes the previous
      root's index if the current root is still unassigned and that index
      is still unused (the erase runs only when the first test passes). */
  function Claim(a: Assignment, c: Candidate): (r: Assignment)
    requires c.cur < |a.slots|
    ensures |r.slots| == |a.slots|
  {
    if a.slots[c.cur] < 0 && c.prev in a.unused then Assignment(a.slots[c.cur := c.prev], a.unused - {c.prev})
    else a
  }

  /** The greedy phase after the first k entries of the multimap. */
  function GreedyUpTo(s: seq<Candidate>, n: nat, k: nat): (r: Assignment)
    requires k <= |s| && forall e :: e in s ==> e.cur < n
    ensures |r.slots| == n
  {
    if k == 0 then Initial(n) else Claim(GreedyUpTo(s, n, k - 1), s[k - 1])
  }

  /** The smallest member of u in i .. n-1, or n when there is none:
      `unused_root_indices.begin()`. */
  function Least(u: set<int>, i: int, n: int): (m: int)
    ensures i <= n ==> i <= m <= n
    decreases n - i
  {
    if i >= n || i in u then i else Least(u, i + 1, n)
  }

  /** Main.cc:140-148 for slot x: an unassigned slot takes the smallest
      unused index, which leaves the set. */
  function FillStep(a: Assignment, x: nat): (r: Assignment)
    requires x < |a.slots|
    ensures |r.slots| == |a.slots|
  {
    if a.slots[x] >= 0 then a
    else
      var m := Least(a.unused, 0, |a.slots|);
      Assignment(a.slots[x := m], a.unused - {m})
  }

  /** The fill phase run over slots x .. n-1. */
  function FillFrom(a: Assignment, x: nat): (r: Assignment)
    requires x <= |a.slots|
    ensures |r.slots| == |a.slots|
    decreases |a.slots| - x
  {
    if x == |a.slots| then a else FillFrom(FillStep(a, x), x + 1)
  }

  /** The replacement map `align_roots` computes. */
  function ReplacementMap(prev: seq<Complex>, current: seq<Complex>): (m: seq<int>)
    ensures |m| == |current|
  {
    var s := DistancePairs(prev, current);
    FillFrom(GreedyUpTo(s, |current|, |s|), 0).slots
  }

  /** The slots still unassigned. */
  function Free(slots: seq<int>): set<int>
  {
    set i | 0 <= i < |slots| && slots[i] < 0
  }

  /** What both phases keep true: assigned slots hold distinct indices in
      0 .. n-1 that have left the unused set, the unused set lies in 0 ..
      n-1, every index in 0 .. n-1 is either unused or assigned, and there
      are exactly as many unused indices as unassigned slots. */
  ghost predicate Consistent(a: Assignment, n: nat)
  {
    && |a.slots| == n
    && (forall i :: 0 <= i < n ==> a.slots[i] == -1 || (0 <= a.slots[i] < n))
    && (forall i {:trigger a.slots[i] in a.unused} :: 0 <= i < n ==> a.slots[i] !in a.unused)
    && (forall i, j :: 0 <= i < j < n && a.slots[i] >= 0 ==> a.slots[i] != a.slots[j])
    && (forall v :: v in a.unused ==> 0 <= v < n)
    && (forall v :: 0 <= v < n && v !in a.unused ==> Hit(a.slots, v))
    && |a.unused| == |Free(a.slots)|
  }

  /** A permutation of 0 .. n-1. */
  ghost predicate IsPermutation(m: seq<int>, n: nat)
  {
    && |m| == n
    && (forall i :: 0 <= i < n ==> 0 <= m[i] < n)
    && (forall i, j :: 0 <= i < j < n ==> m[i] != m[j])
    && (forall v :: 0 <= v < n ==> Hit(m, v))
  }

  /** Some slot of m holds v. */
  ghost predicate Hit(m: seq<int>, v: int)
  {
    exists i :: 0 <= i < |m| && m[i] == v
  }

  lemma InitialConsistent(n: nat)
    ensures Consistent(Initial(n), n)
  {
    var a := Initial(n);
    assert Free(a.slots) == a.unused;
  }

  /** Assigning an unused index to an unassigned slot keeps the books. */
  lemma AssignConsistent(a: Assignment, n: nat, x: nat, v: int)
    requires Consistent(a, n) && x < n && a.slots[x] < 0 && v in a.unused
    ensures Consistent(Assignment(a.slots[x := v], a.unused - {v}), n)
  {
    var b := Assignment(a.slots[x := v], a.unused - {v});
    assert Free(b.slots) == Free(a.slots) - {x};
    forall w | 0 <= w < n && w !in b.unused
      ensures Hit(b.slots, w)
    {
      if w == v {
        assert b.slots[x] == w;
      } else {
        var i :| 0 <= i < n && a.slots[i] == w;
        assert b.slots[i] == w;
      }
    }
  }

  lemma ClaimConsistent(a: Assignment, n: nat, c: Candidate)
    requires Consistent(a, n) && c.cur < n
    ensures Consistent(Claim(a, c), n)
  {
    if a.slots[c.cur] < 0 && c.prev in a.unused {
      AssignConsistent(a, n, c.cur, c.prev);
    }
  }

  lemma {:induction false} GreedyConsistent(s: seq<Candidate>, n: nat, k: nat)
    requires k <= |s| && forall e :: e in s ==> e.cur < n
    ensures Consistent(GreedyUpTo(s, n, k), n)
  {
    if k == 0 {
      InitialConsistent(n);
    } else {
      GreedyConsistent(s, n, k - 1);
      assert s[k - 1] in s;
      ClaimConsistent(GreedyUpTo(s, n, k - 1), n, s[k - 1]);
    }
  }

  /** On a set within i .. n-1, Least finds its smallest member, and
      reaches n only when the set is empty. */
  lemma {:induction false} LeastIsSmallest(u: set<int>, i: int, n: int)
    requires forall v :: v in u ==> i <= v < n
    ensures Least(u, i, n) < n ==> Least(u, i, n) in u
    ensures Least(u, i, n) >= n ==> u == {}
    ensures forall v :: v in u ==> Least(u, i, n) <= v
    decreases n - i
  {
    if i >= n {
      assert forall v :: v !in u;
    } else if i !in u {
      LeastIsSmallest(u, i + 1, n);
    }
  }

  /** The fill phase keeps the books, and an unassigned slot always finds
      an unused index (so `begin()` is never taken on an empty set) and
      takes the least one. */
  lemma FillStepConsistent(a: Assignment, n: nat, x: nat)
    requires Consistent(a, n) && x < n
    ensures Consistent(FillStep(a, x), n) && FillStep(a, x).slots[x] >= 0
    ensures a.slots[x] < 0 ==> |a.unused| > 0 && FillStep(a, x).slots[x] in a.unused
    ensures a.slots[x] < 0 ==> forall v :: v in a.unused ==> FillStep(a, x).slots[x] <= v
    ensures forall i :: 0 <= i < n && i != x ==> FillStep(a, x).slots[i] == a.slots[i]
  {
    if a.slots[x] < 0 {
      assert x in Free(a.slots);
      LeastIsSmallest(a.unused, 0, n);
      AssignConsistent(a, n, x, Least(a.unused, 0, n));
    }
  }

  /** Run from slot x on, with the slots before x assigned, the fill phase
      keeps the books and leaves every slot assigned. */
  lemma {:induction false} FillConsistent(a: Assignment, n: nat, x: nat)
    requires Consistent(a, n) && x <= n
    requires forall i :: 0 <= i < x ==> a.slots[i] >= 0
    ensures Consistent(FillFrom(a, x), n)
    ensures forall i :: 0 <= i < n ==> FillFrom(a, x).slots[i] >= 0
    decreases n - x
  {
    if x < n {
      FillStepConsistent(a, n, x);
      FillConsistent(FillStep(a, x), n, x + 1);
    }
  }

  /** Once every slot is assigned the books say the map is a permutation. */
  lemma FullIsPermutation(a: Assignment, n: nat)
    requires Consistent(a, n) && forall i :: 0 <= i < n ==> a.slots[i] >= 0
    ensures IsPermutation(a.slots, n) && a.unused == {}
  {
    assert Free(a.slots) == {};
  }

  /** `replacement_map` ends as a permutation of 0 .. n-1, n the number of
      current roots: so no previous index n or above is ever assigned. */
  lemma ReplacementMapIsPermutation(prev: seq<Complex>, current: seq<Complex>)
    ensures IsPermutation(ReplacementMap(prev, current), |current|)
  {
    var s := DistancePairs(prev, current);
    var n := |current|;
    GreedyConsistent(s, n, |s|);
    FillConsistent(GreedyUpTo(s, n, |s|), n, 0);
    FullIsPermutation(FillFrom(GreedyUpTo(s, n, |s|), 0), n);
  }

  // ---------------------------------------------------------------------
  // Unchanged roots are kept in place.

  /** The pair (i, i) is among the first k entries. */
  predicate DiagonalSeen(s: seq<Candidate>, k: nat, i: int)
  {
    0 < k <= |s| && ((s[k - 1].prev == i && s[k - 1].cur == i) || DiagonalSeen(s, k - 1, i))
  }

  lemma {:induction false} DiagonalSeenAt(s: seq<Candidate>, k: nat, j: nat, i: int)
    requires j < k <= |s| && s[j].prev == i && s[j].cur == i
    ensures DiagonalSeen(s, k, i)
  {
    if j < k - 1 {
      DiagonalSeenAt(s, k - 1, j, i);
    }
  }

  lemma {:induction false} DiagonalSeenWhere(s: seq<Candidate>, k: nat, i: int) returns (j: nat)
    requires DiagonalSeen(s, k, i)
    ensures j < k <= |s| && s[j].prev == i && s[j].cur == i
  {
    if s[k - 1].prev == i && s[k - 1].cur == i {
      j := k - 1;
    } else {
      j := DiagonalSeenWhere(s, k - 1, i);
    }
  }

  /** In the multimap of distinct roots against themselves, a diagonal
      entry (c, c) is the first entry with current root c. */
  lemma DiagonalComesFirst(roots: seq<Complex>, k: nat)
    requires forall i, j :: 0 <= i < j < |roots| ==> roots[i] != roots[j]
    requires 0 < k <= |DistancePairs(roots, roots)|
    ensures var s := DistancePairs(roots, roots);
      var c := s[k - 1].cur;
      s[k - 1].prev == c <==> !DiagonalSeen(s, k - 1, c)
  {
    DistancePairsSorted(roots, roots);
    SameRootsKeys(roots);
    SameRootsDiagonal(roots);
    DiagonalFirstIn(DistancePairs(roots, roots), k);
  }

  /** For distinct roots against themselves, the keys are zero exactly on
      the diagonal. */
  lemma SameRootsKeys(roots: seq<Complex>)
    requires forall i, j :: 0 <= i < j < |roots| ==> roots[i] != roots[j]
    ensures forall e :: e in DistancePairs(roots, roots) ==>
      e.distance >= 0.0 && (e.distance == 0.0 <==> e.prev == e.cur)
  {
    var s := DistancePairs(roots, roots);
    DistancePairsKeys(roots, roots);
    forall e | e in s
      ensures e.distance >= 0.0 && (e.distance == 0.0 <==> e.prev == e.cur)
    {
      PairOfSame(roots, e.prev, e.cur);
    }
  }

  /** ... and every diagonal entry is present, with key zero. */
  lemma SameRootsDiagonal(roots: seq<Complex>)
    ensures var s := DistancePairs(roots, roots);
      forall e :: e in s ==> Candidate(0.0, e.cur, e.cur) in s
  {
    var s := DistancePairs(roots, roots);
    DistancePairsComplete(roots, roots);
    forall e | e in s
      ensures Candidate(0.0, e.cur, e.cur) in s
    {
      assert CandidateAt(roots, roots, e.cur, e.cur) in s;
      DistanceZeroIff(roots[e.cur], roots[e.cur]);
    }
  }

  lemma PairOfSame(roots: seq<Complex>, x: nat, y: nat)
    requires forall i, j :: 0 <= i < j < |roots| ==> roots[i] != roots[j]
    requires x < |roots| && y < |roots|
    ensures CandidateAt(roots, roots, x, y).distance >= 0.0
    ensures CandidateAt(roots, roots, x, y).distance == 0.0 <==> x == y
  {
    if x < y {
      assert roots[x] != roots[y];
    } else if y < x {
      assert roots[y] != roots[x];
    }
    DistanceZeroIff(roots[x], roots[y]);
  }

  /** The same, for any sorted listing whose keys are zero exactly on
      the diagonal and which holds every diagonal entry. */
  lemma DiagonalFirstIn(s: seq<Candidate>, k: nat)
    requires Sorted(s) && 0 < k <= |s|
    requires forall e :: e in s ==> e.distance >= 0.0 && (e.distance == 0.0 <==> e.prev == e.cur)
    requires forall e :: e in s ==> Candidate(0.0, e.cur, e.cur) in s
    ensures s[k - 1].prev == s[k - 1].cur <==> !DiagonalSeen(s, k - 1, s[k - 1].cur)
  {
    var e := s[k - 1];
    var c := e.cur;
    assert e in s;
    if e.prev == c {
      if DiagonalSeen(s, k - 1, c) {
        var j := DiagonalSeenWhere(s, k - 1, c);
        assert false;
      }
    } else {
      var j :| 0 <= j < |s| && s[j] == Candidate(0.0, c, c);
      assert j < k - 1;
      DiagonalSeenAt(s, k - 1, j, c);
    }
  }

  /** While the greedy phase runs over the multimap of a list of distinct
      roots against itself, exactly the slots whose pair (i, i) has been
      seen are assigned, each to itself. */
  lemma {:induction false} GreedyOnSameRoots(roots: seq<Complex>, k: nat)
    requires forall i, j :: 0 <= i < j < |roots| ==> roots[i] != roots[j]
    requires k <= |DistancePairs(roots, roots)|
    ensures var s := DistancePairs(roots, roots);
      var a := GreedyUpTo(s, |roots|, k);
      && (forall i :: 0 <= i < |roots| ==> a.slots[i] == if DiagonalSeen(s, k, i) then i else -1)
      && (forall v :: v in a.unused <==> 0 <= v < |roots| && !DiagonalSeen(s, k, v))
  {
    var s := DistancePairs(roots, roots);
    if k > 0 {
      GreedyOnSameRoots(roots, k - 1);
      DiagonalComesFirst(roots, k);
      assert s[k - 1] in s;
    }
  }

  /** When the previous and current root lists are the same list of
      distinct roots, every root keeps its index. */
  lemma SameRootsKeepIndices(roots: seq<Complex>)
    requires forall i, j :: 0 <= i < j < |roots| ==> roots[i] != roots[j]
    ensures ReplacementMap(roots, roots) == seq(|roots|, i => i)
  {
    var s := DistancePairs(roots, roots);
    var n := |roots|;
    DistancePairsComplete(roots, roots);
    GreedyOnSameRoots(roots, |s|);
    var a := GreedyUpTo(s, n, |s|);
    forall i | 0 <= i < n
      ensures a.slots[i] == i
    {
      var d := CandidateAt(roots, roots, i, i);
      assert d in s;
      var j :| 0 <= j < |s| && s[j] == d;
      DiagonalSeenAt(s, |s|, j, i);
    }
    FillLeavesFull(a, 0);
  }

  /** The fill phase leaves a fully assigned map alone. */
  lemma {:induction false} FillLeavesFull(a: Assignment, x: nat)
    requires x <= |a.slots| && forall i :: 0 <= i < |a.slots| ==> a.slots[i] >= 0
    ensures FillFrom(a, x) == a
    decreases |a.slots| - x
  {
    if x < |a.slots| {
      FillLeavesFull(a, x + 1);
    }
  }

  // ---------------------------------------------------------------------
  // The imperative phases.

  /** Main.cc:126-137: the unused set and the map are created, then every
      multimap entry is offered to the greedy claim in order. */
  method GreedyMatch(pairs: seq<Candidate>, n: nat) returns (slots: array<int>, unused: set<int>)
    requires forall e :: e in pairs ==> e.cur < n
    ensures fresh(slots)
    ensures Assignment(slots[..], unused) == GreedyUpTo(pairs, n, |pairs|)
  {
    unused := AllIndices(n);
    slots := new int[n](_ => -1);
    assert Assignment(slots[..], unused) == Initial(n);
    var k := 0;
    while k < |pairs|
      invariant 0 <= k <= |pairs|
      invariant Assignment(slots[..], unused) == GreedyUpTo(pairs, n, k)
    {
      var rep := pairs[k];
      assert rep in pairs;
      if slots[rep.cur] < 0 && rep.prev in unused {
        unused := unused - {rep.prev};
        slots[rep.cur] := rep.prev;
      }
      k := k + 1;
    }
  }

  /** Main.cc:126-129: the unused set starts as every index of a current
      root. */
  method AllIndices(n: nat) returns (unused: set<int>)
    ensures unused == Below(n)
  {
    unused := {};
    var x := 0;
    while x < n
      invariant 0 <= x <= n
      invariant unused == Below(x)
    {
      unused := unused + {x};
      x := x + 1;
    }
  }

  /** Main.cc:139-148: each unassigned slot, in increasing order, takes the
      smallest unused index. */
  method FillUnassigned(slots: array<int>, unused0: set<int>) returns (unused: set<int>)
    modifies slots
    ensures Assignment(slots[..], unused) == FillFrom(Assignment(old(slots[..]), unused0), 0)
  {
    unused := unused0;
    var x := 0;
    while x < slots.Length
      invariant 0 <= x <= slots.Length
      invariant FillFrom(Assignment(slots[..], unused), x) == FillFrom(Assignment(old(slots[..]), unused0), 0)
    {
      if slots[x] >= 0 {
        x := x + 1;
        continue;
      }
      var first := Least(unused, 0, slots.Length);
      slots[x] := first;
      unused := unused - {first};
      x := x + 1;
    }
  }

  /** A pixel after the rewrite of Main.cc:150-159: error pixels unchanged,
      every other one keeps its depth and takes its root's new index. */
  function Relabeled(p: Pixel, m: seq<int>): Pixel
    requires !p.error ==> p.rootIndex < |m| && m[p.rootIndex] >= 0
  {
    if p.error then p else Pixel(p.depth, m[p.rootIndex], false)
  }

  /** Main.cc:150-159 over the whole raster. */
  method RelabelPixels(data: array2<Pixel>, slots: array<int>)
    requires forall i :: 0 <= i < slots.Length ==> slots[i] >= 0
    requires forall x, y :: 0 <= x < data.Length0 && 0 <= y < data.Length1 && !data[x, y].error ==>
      data[x, y].rootIndex < slots.Length
    modifies data
    ensures forall x, y :: 0 <= x < data.Length0 && 0 <= y < data.Length1 ==>
      data[x, y] == Relabeled(old(data[x, y]), slots[..])
  {
    var y := 0;
    while y < data.Length1
      invariant 0 <= y <= data.Length1
      invariant forall i, j :: 0 <= i < data.Length0 && 0 <= j < data.Length1 ==>
        data[i, j] == if j < y then Relabeled(old(data[i, j]), slots[..]) else old(data[i, j])
    {
      var x := 0;
      while x < data.Length0
        invariant 0 <= x <= data.Length0
        invariant forall i, j :: 0 <= i < data.Length0 && 0 <= j < data.Length1 ==>
          data[i, j] == if j < y || (j == y && i < x) then Relabeled(old(data[i, j]), slots[..]) else old(data[i, j])
      {
        var p := data[x, y];
        if !p.error {
          data[x, y] := Pixel(p.depth, slots[p.rootIndex], false);
        }
        x := x + 1;
      }
      y := y + 1;
    }
  }

  /** Main.cc:161-165: root i moves to slot m[i] of a fresh list of
      default (zero) complexes. */
  method PermuteRoots(roots: seq<Complex>, slots: array<int>) returns (newRoots: seq<Complex>)
    requires IsPermutation(slots[..], |roots|)
    ensures |newRoots| == |roots|
    ensures forall i :: 0 <= i < |roots| ==> newRoots[slots[i]] == roots[i]
    ensures multiset(newRoots) == multiset(roots)
  {
    var target := new Complex[|roots|](_ => Zero);
    var x := 0;
    while x < slots.Length
      invariant 0 <= x <= slots.Length
      invariant forall i :: 0 <= i < x ==> target[slots[i]] == roots[i]
    {
      target[slots[x]] := roots[x];
      x := x + 1;
    }
    newRoots := target[..];
    PermutedMultiset(roots, slots[..], newRoots);
  }

  /** Placing root i at slot m[i], for a permutation m, rearranges the
      list: the result holds the same roots, each as often as before. */
  lemma {:induction false} PermutedMultiset(roots: seq<Complex>, m: seq<int>, newRoots: seq<Complex>)
    requires IsPermutation(m, |roots|) && |newRoots| == |roots|
    requires forall i :: 0 <= i < |roots| ==> newRoots[m[i]] == roots[i]
    ensures multiset(newRoots) == multiset(roots)
    decreases |roots|
  {
    var n := |roots|;
    if n > 0 {
      var k := m[n - 1];
      var front := roots[..n - 1];
      var rest := newRoots[..k] + newRoots[k + 1..];
      var shrunk := Shrink(m, k);
      ShrinkIsPermutation(m, n);
      forall i | 0 <= i < n - 1
        ensures rest[shrunk[i]] == front[i]
      {
        assert m[i] != k;
        assert newRoots[m[i]] == roots[i];
      }
      PermutedMultiset(front, shrunk, rest);
      assert newRoots == newRoots[..k] + [newRoots[k]] + newRoots[k + 1..];
      assert roots == front + [roots[n - 1]];
    }
  }

  /** The permutation m of 0 .. |m|-1 without its last slot, whose value
      k is closed up: every value above k moves down by one. */
  function Shrink(m: seq<int>, k: int): (r: seq<int>)
    requires |m| > 0
    ensures |r| == |m| - 1
  {
    seq(|m| - 1, i requires 0 <= i < |m| - 1 => if m[i] > k then m[i] - 1 else m[i])
  }

  lemma ShrinkIsPermutation(m: seq<int>, n: nat)
    requires IsPermutation(m, n) && n > 0
    ensures IsPermutation(Shrink(m, m[n - 1]), n - 1)
  {
    var k := m[n - 1];
    var r := Shrink(m, k);
    forall i | 0 <= i < n - 1
      ensures m[i] != k && 0 <= r[i] < n - 1
    {
      assert m[i] != m[n - 1];
    }
    forall v | 0 <= v < n - 1
      ensures Hit(r, v)
    {
      var w := if v < k then v else v + 1;
      assert Hit(m, w);
      var i :| 0 <= i < n && m[i] == w;
      assert i != n - 1;
      assert r[i] == v;
    }
  }

  /** `align_roots`: the current frame's roots are renumbered by the
      replacement map; every non-error pixel follows its root, so it still
      denotes the same root value, and the result stays well formed. */
  method AlignRoots(current: FractalResult, prev: FractalResult)
    requires current.Valid()
    modifies current, current.data
    ensures current.data == old(current.data)
    ensures IsPermutation(ReplacementMap(old(prev.roots), old(current.roots)), |old(current.roots)|)
    ensures var m := ReplacementMap(old(prev.roots), old(current.roots));
      && |current.roots| == |old(current.roots)|
      && (forall i :: 0 <= i < |m| ==> current.roots[m[i]] == old(current.roots)[i])
      && multiset(current.roots) == multiset(old(current.roots))
      && (forall x, y :: 0 <= x < current.data.Length0 && 0 <= y < current.data.Length1 ==>
            current.data[x, y] == Relabeled(old(current.data[x, y]), m))
    ensures forall x, y :: 0 <= x < current.data.Length0 && 0 <= y < current.data.Length1 && !current.data[x, y].error ==>
      current.roots[current.data[x, y].rootIndex] == old(current.roots)[old(current.data[x, y]).rootIndex]
    ensures current.Valid()
  {
    var prevRoots, roots := prev.roots, current.roots;
    ghost var m := ReplacementMap(prevRoots, roots);
    var pairs := FillDistancePairs(prevRoots, roots);
    var slots, unused := GreedyMatch(pairs, |roots|);
    GreedyConsistent(pairs, |roots|, |pairs|);
    unused := FillUnassigned(slots, unused);
    ReplacementMapIsPermutation(prevRoots, roots);
    assert slots[..] == m;
    RelabelPixels(current.data, slots);
    var newRoots := PermuteRoots(roots, slots);
    current.roots := newRoots;
  }
}
