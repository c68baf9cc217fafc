/**
 The round-robin backend pool (package `round_robin`, file
 round_robin_pool.go): an ordered sequence of backend identities and a
 cursor. Locking and atomics are left out; every operation is a pure
 function from one pool value to the next.
 */
module RoundRobinPool {
  import opened Options
  import opened Backend

  /** `RoundRobin`: the backends in registration order and the `Current` cursor. */
  datatype RoundRobin = RoundRobin(backends: seq<BackendId>, current: nat)

  /** What one `NextAvailableBackend` call leaves behind: the new pool, its pick, and how often it rotated. */
  datatype Selection = Selection(pool: RoundRobin, chosen: Option<BackendId>, rotations: nat)

  /** Every entry refers to a backend object in the heap (Go pointers never dangle). */
  predicate Resolves(backends: seq<BackendId>, servers: Servers) {
    forall i | 0 <= i < |backends| :: backends[i] in servers
  }

  /** The liveness flag of the k-th entry. */
  predicate AliveAt(backends: seq<BackendId>, servers: Servers, k: nat)
    requires Resolves(backends, servers) && k < |backends|
  {
    IsAlive(servers[backends[k]]).Load()
  }

  /** The index reached from cursor `c` after `j` further steps around a pool of size `n`. */
  function Slot(c: nat, j: nat, n: nat): (k: nat)
    requires n > 0
    ensures k < n
  {
    (c + j) % n
  }

  // ---------------------------------------------------------------------
  // Operations
  // ---------------------------------------------------------------------

  /** `Initialize`: no backends and the cursor at 0. */
  function Initialize(): (r: RoundRobin)
    ensures GetServerPoolSize(r) == 0 && ListServiceBackends(r) == []
    ensures r.current == 0
  {
    RoundRobin([], 0)
  }

  /** `GetServerPoolSize`: the number of entries, duplicates included. */
  function GetServerPoolSize(p: RoundRobin): (n: nat)
    ensures n == |ListServiceBackends(p)|
    ensures n == 0 <==> p.backends == []
  {
    |p.backends|
  }

  /**
   `ListServiceBackends`: a copy holding the same entries in the same order.
   Sequences are values, so the copy is the sequence itself.
   */
  function ListServiceBackends(p: RoundRobin): (r: seq<BackendId>)
    ensures |r| == |p.backends|
    ensures forall i | 0 <= i < |r| :: r[i] == p.backends[i]
  {
    p.backends
  }

  /** `RegisterServiceBackend`: appends at the end, keeping duplicates. */
  function RegisterServiceBackend(p: RoundRobin, b: BackendId): (r: RoundRobin)
    ensures GetServerPoolSize(r) == GetServerPoolSize(p) + 1
    ensures r.backends[..|p.backends|] == p.backends
    ensures r.backends[|p.backends|] == b
    ensures r.current == p.current
  {
    RoundRobin(p.backends + [b], p.current)
  }

  /** The position of the first entry equal to `b`: where the `range` loop stops. */
  function FirstIndex(s: seq<BackendId>, b: BackendId): (i: nat)
    requires b in s
    ensures i < |s| && s[i] == b
    ensures forall k | 0 <= k < i :: s[k] != b
    decreases |s|
  {
    if s[0] == b then 0 else 1 + FirstIndex(s[1..], b)
  }

  /**
   `RemoveBackend`: drops only the first identity-equal entry and keeps the
   rest in order; a backend not in the pool leaves it as it was. The cursor
   is left alone, so it may end up past the end.
   */
  function RemoveBackend(p: RoundRobin, b: BackendId): (r: RoundRobin)
    ensures b !in p.backends ==> r == p
    ensures b in p.backends ==>
              var i := FirstIndex(p.backends, b);
              r.backends == p.backends[..i] + p.backends[i + 1..]
    ensures b in p.backends ==> GetServerPoolSize(r) == GetServerPoolSize(p) - 1
    ensures multiset(r.backends) == multiset(p.backends) - multiset{b}
    ensures r.current == p.current
  {
    if b in p.backends then
      var i := FirstIndex(p.backends, b);
      assert p.backends == p.backends[..i] + [b] + p.backends[i + 1..];
      RoundRobin(p.backends[..i] + p.backends[i + 1..], p.current)
    else
      p
  }

  /**
   `Rotate`: advances the cursor by one modulo the size and returns the
   entry it now points at. Even a stale cursor (left past the end by
   `RemoveBackend`) yields an index inside the pool.
   */
  function Rotate(p: RoundRobin): (r: (RoundRobin, BackendId))
    requires |p.backends| > 0
    ensures r.0.backends == p.backends
    ensures r.0.current < |p.backends|
    ensures r.0.current == Slot(p.current, 1, |p.backends|)
    ensures r.1 == p.backends[r.0.current]
  {
    var currentIndex := p.current;
    var nextIndex := (currentIndex + 1) % GetServerPoolSize(p);
    (p.(current := nextIndex), p.backends[nextIndex])
  }

  /**
   The loop of `NextAvailableBackend` from iteration `i` on: rotate, stop at
   the first alive entry, give up after `size` iterations in all. Offsets in
   the contract are counted from the cursor at iteration `i`.
   */
  function Scan(p: RoundRobin, servers: Servers, i: nat): (r: Selection)
    requires Resolves(p.backends, servers)
    requires i <= |p.backends|
    ensures r.pool.backends == p.backends
    ensures i <= r.rotations <= |p.backends|
    ensures r.rotations == i ==> r.pool == p && r.chosen.None?
    ensures r.rotations > i ==> r.pool.current == Slot(p.current, r.rotations - i, |p.backends|)
    ensures r.chosen.Some? ==>
              r.pool.current < |p.backends| &&
              r.chosen.value == p.backends[r.pool.current] &&
              AliveAt(p.backends, servers, r.pool.current)
    ensures r.chosen.None? ==> r.rotations == |p.backends|
    ensures r.chosen.Some? ==> forall j | 1 <= j < r.rotations - i ::
              !AliveAt(p.backends, servers, Slot(p.current, j, |p.backends|))
    ensures r.chosen.None? ==> forall j | 1 <= j <= r.rotations - i ::
              !AliveAt(p.backends, servers, Slot(p.current, j, |p.backends|))
    decreases |p.backends| - i
  {
    if i < GetServerPoolSize(p) then
      var rotated := Rotate(p);
      var nextPeer := rotated.1;
      if IsAlive(servers[nextPeer]).Load() then
        Selection(rotated.0, Some(nextPeer), i + 1)
      else
        var rest := Scan(rotated.0, servers, i + 1);
        SlotStep(p.current, |p.backends|);
        DeadShift(p.backends, servers, p.current,
                  if rest.chosen.None? then rest.rotations - (i + 1) else rest.rotations - (i + 2));
        rest
    else
      Selection(p, None, i)
  }

  /**
   `NextAvailableBackend`: at most `size` rotations; the pick is the first
   alive entry in the order cursor+1, cursor+2, ...; none exactly when no
   entry is alive, and then the cursor has come full circle.
   */
  function NextAvailableBackend(p: RoundRobin, servers: Servers): (r: Selection)
    requires Resolves(p.backends, servers)
    ensures r.pool.backends == p.backends
    ensures r.rotations <= |p.backends|
    ensures |p.backends| == 0 ==> r == Selection(p, None, 0)
    ensures r.chosen.Some? ==>
              0 < r.rotations &&
              r.pool.current == Slot(p.current, r.rotations, |p.backends|) &&
              r.chosen.value == p.backends[r.pool.current] &&
              AliveAt(p.backends, servers, r.pool.current)
    ensures r.chosen.Some? ==>
              forall j | 1 <= j < r.rotations :: !AliveAt(p.backends, servers, Slot(p.current, j, |p.backends|))
    ensures r.chosen.None? <==> forall k | 0 <= k < |p.backends| :: !AliveAt(p.backends, servers, k)
    ensures r.chosen.None? && |p.backends| > 0 ==> r.pool.current == p.current % |p.backends|
    ensures |p.backends| > 0 ==> r.pool.current < |p.backends|
  {
    var r := Scan(p, servers, 0);
    var n := |p.backends|;
    if r.chosen.None? && n > 0 then
      assert forall k | 0 <= k < n :: !AliveAt(p.backends, servers, k) by {
        forall k | 0 <= k < n
          ensures !AliveAt(p.backends, servers, k)
        {
          var j := SlotCover(p.current, n, k);
        }
      }
      SlotFullCircle(p.current, n);
      r
    else
      r
  }

  // ---------------------------------------------------------------------
  // Cursor arithmetic
  // ---------------------------------------------------------------------

  /** Euclidean division is unique: a quotient/remainder pair pins down `%`. */
  lemma ModUnique(x: int, n: int, q: int, r: int)
    requires n > 0 && 0 <= r < n && x == q * n + r
    ensures x % n == r
  {
    var q0, r0 := x / n, x % n;
    assert (q - q0) * n == r0 - r;
    if q > q0 {
      assert (q - q0) * n >= n by { MulAtLeast(q - q0, n); }
    } else if q < q0 {
      assert (q0 - q) * n >= n by { MulAtLeast(q0 - q, n); }
    }
  }

  lemma MulAtLeast(d: int, n: int)
    requires d >= 1 && n > 0
    ensures d * n >= n
  {
  }

  /** Taking one step and then `j` more is the same as taking `j + 1` steps. */
  lemma SlotStep(c: nat, n: nat)
    requires n > 0
    ensures forall j: nat :: Slot(Slot(c, 1, n), j, n) == Slot(c, j + 1, n)
  {
    forall j: nat
      ensures Slot(Slot(c, 1, n), j, n) == Slot(c, j + 1, n)
    {
      var y := (c + 1) % n + j;
      ModUnique(c + j + 1, n, (c + 1) / n + y / n, y % n);
    }
  }

  /** Dead at one step and at steps 1..m after it means dead at steps 1..m+1. */
  lemma DeadShift(backends: seq<BackendId>, servers: Servers, c: nat, m: nat)
    requires Resolves(backends, servers) && |backends| > 0
    requires !AliveAt(backends, servers, Slot(c, 1, |backends|))
    requires forall j | 1 <= j <= m :: !AliveAt(backends, servers, Slot(Slot(c, 1, |backends|), j, |backends|))
    ensures forall j | 1 <= j <= m + 1 :: !AliveAt(backends, servers, Slot(c, j, |backends|))
  {
    SlotStep(c, |backends|);
    forall j | 2 <= j <= m + 1
      ensures !AliveAt(backends, servers, Slot(c, j, |backends|))
    {
      assert Slot(Slot(c, 1, |backends|), j - 1, |backends|) == Slot(c, j, |backends|);
    }
  }

  /** Every index of the pool is reached within one full cycle of steps. */
  lemma SlotCover(c: nat, n: nat, k: nat) returns (j: nat)
    requires n > 0 && k < n
    ensures 1 <= j <= n && Slot(c, j, n) == k
  {
    var t := k - c - 1;
    j := t % n + 1;
    ModUnique(c + j, n, -(t / n), k);
  }

  /** `n` steps around a pool of size `n` lead back to the (normalised) start. */
  lemma SlotFullCircle(c: nat, n: nat)
    requires n > 0
    ensures Slot(c, n, n) == c % n
  {
    ModUnique(c + n, n, c / n + 1, c % n);
  }

  /** A further `n` steps around a pool of size `n` change nothing. */
  lemma SlotWrap(c: nat, j: nat, n: nat)
    requires n > 0
    ensures Slot(c, n + j, n) == Slot(c, j, n)
  {
    ModUnique(c + (n + j), n, (c + j) / n + 1, (c + j) % n);
  }

  /** Different step counts within one cycle land on different indices. */
  lemma SlotDistinct(c: nat, a: nat, b: nat, n: nat)
    requires n > 0 && a < b < a + n
    ensures Slot(c, a, n) != Slot(c, b, n)
  {
    var ra, rb := (c + a) % n, (c + b) % n;
    var qa, qb := (c + a) / n, (c + b) / n;
    if ra == rb {
      assert (qb - qa) * n == b - a;
      if qb - qa >= 1 {
        MulAtLeast(qb - qa, n);
      } else if qa - qb >= 1 {
        MulAtLeast(qa - qb, n);
      }
    }
  }

  // ---------------------------------------------------------------------
  // Register and remove
  // ---------------------------------------------------------------------

  /** Registering a backend that was not in the pool and then removing it restores the pool. */
  lemma RegisterThenRemove(p: RoundRobin, b: BackendId)
    requires b !in p.backends
    ensures RemoveBackend(RegisterServiceBackend(p, b), b) == p
  {
    var q := RegisterServiceBackend(p, b);
    assert FirstIndex(q.backends, b) == |p.backends| by {
      var i := FirstIndex(q.backends, b);
      assert q.backends[i] == b;
    }
    assert q.backends[..|p.backends|] == p.backends;
  }

  /** After registration the backend is listed; after removing its only copy it is not. */
  lemma MembershipAfterRegisterAndRemove(p: RoundRobin, b: BackendId)
    ensures b in ListServiceBackends(RegisterServiceBackend(p, b))
    ensures multiset(p.backends)[b] == 1 ==> b !in ListServiceBackends(RemoveBackend(p, b))
  {
    var q := RegisterServiceBackend(p, b);
    assert ListServiceBackends(q)[|p.backends|] == b;
    var r := RemoveBackend(p, b);
    if multiset(p.backends)[b] == 1 {
      assert multiset(r.backends) == multiset(p.backends) - multiset{b};
      assert multiset(r.backends)[b] == 0;
      assert ListServiceBackends(r) == r.backends;
    }
  }

  /**
   The cursor quirk: removal can leave the cursor past the end, yet the
   next rotation still lands inside the pool and picks a real entry.
   */
  lemma RotateAfterRemoveStaysInRange(p: RoundRobin, b: BackendId)
    requires |RemoveBackend(p, b).backends| > 0
    ensures Rotate(RemoveBackend(p, b)).0.current < GetServerPoolSize(RemoveBackend(p, b))
    ensures Rotate(RemoveBackend(p, b)).1 in p.backends
  {
    var r := RemoveBackend(p, b);
    assert Rotate(r).1 in multiset(r.backends);
  }

  // ---------------------------------------------------------------------
  // Fairness
  // ---------------------------------------------------------------------

  predicate AllAlive(backends: seq<BackendId>, servers: Servers)
    requires Resolves(backends, servers)
  {
    forall k | 0 <= k < |backends| :: AliveAt(backends, servers, k)
  }

  /** The selections made by `k` consecutive `NextAvailableBackend` calls with no mutation in between. */
  function Calls(p: RoundRobin, servers: Servers, k: nat): (t: seq<Selection>)
    requires Resolves(p.backends, servers)
    ensures |t| == k
    ensures forall j | 0 <= j < k :: t[j].pool.backends == p.backends
    decreases k
  {
    if k == 0 then []
    else
      var s := NextAvailableBackend(p, servers);
      [s] + Calls(s.pool, servers, k - 1)
  }

  /** With every backend alive, the j-th call rotates once and lands j + 1 steps past the start. */
  lemma {:induction false} CallsWhenAllAlive(p: RoundRobin, servers: Servers, k: nat)
    requires Resolves(p.backends, servers) && AllAlive(p.backends, servers)
    requires |p.backends| > 0
    ensures forall j | 0 <= j < k ::
              Calls(p, servers, k)[j].pool.current == Slot(p.current, j + 1, |p.backends|) &&
              Calls(p, servers, k)[j].chosen == Some(p.backends[Calls(p, servers, k)[j].pool.current])
    decreases k
  {
    if k > 0 {
      var n := |p.backends|;
      var s := NextAvailableBackend(p, servers);
      assert s.chosen.Some? by {
        assert AliveAt(p.backends, servers, 0);
      }
      assert s.rotations == 1 by {
        assert AliveAt(p.backends, servers, Slot(p.current, 1, n));
      }
      CallsWhenAllAlive(s.pool, servers, k - 1);
      SlotStep(p.current, n);
      var t := Calls(p, servers, k);
      forall j | 0 <= j < k
        ensures t[j].pool.current == Slot(p.current, j + 1, n)
        ensures t[j].chosen == Some(p.backends[t[j].pool.current])
      {
        if j > 0 {
          assert t[j] == Calls(s.pool, servers, k - 1)[j - 1];
        }
      }
    }
  }

  /** The indices picked by the first `n` selections of a trace. */
  function PickedIndices(t: seq<Selection>, n: nat): set<nat>
    requires n <= |t|
  {
    set j | 0 <= j < n :: t[j].pool.current
  }

  /** The index set of a pool of size `n`. */
  function AllIndices(n: nat): (r: set<nat>)
    ensures forall k: nat :: k in r <==> k < n
  {
    if n == 0 then {} else AllIndices(n - 1) + {n - 1}
  }

  /**
   Round-robin fairness, first half: with all backends alive and no
   mutation, `size` consecutive calls each pick the entry at the cursor, and
   no index is picked twice.
   */
  lemma FairnessNoRepeats(p: RoundRobin, servers: Servers)
    requires Resolves(p.backends, servers) && AllAlive(p.backends, servers)
    requires |p.backends| > 0
    ensures var n := |p.backends|;
            var t := Calls(p, servers, n + 1);
            && (forall j | 0 <= j <= n :: t[j].pool.current < n && t[j].chosen == Some(p.backends[t[j].pool.current]))
            && (forall a, b | 0 <= a < b < n :: t[a].pool.current != t[b].pool.current)
  {
    var n := |p.backends|;
    var t := Calls(p, servers, n + 1);
    CallsWhenAllAlive(p, servers, n + 1);
    forall a, b | 0 <= a < b < n
      ensures t[a].pool.current != t[b].pool.current
    {
      SlotDistinct(p.current, a + 1, b + 1, n);
    }
  }

  /** Round-robin fairness, second half: the first `size` calls pick every index of the pool. */
  lemma FairnessCoversPool(p: RoundRobin, servers: Servers)
    requires Resolves(p.backends, servers) && AllAlive(p.backends, servers)
    requires |p.backends| > 0
    ensures var n := |p.backends|;
            var t := Calls(p, servers, n + 1);
            PickedIndices(t, n) == AllIndices(n)
  {
    var n := |p.backends|;
    var t := Calls(p, servers, n + 1);
    CallsWhenAllAlive(p, servers, n + 1);
    assert PickedIndices(t, n) <= AllIndices(n) by {
      forall idx | idx in PickedIndices(t, n)
        ensures idx < n
      {
        var j :| 0 <= j < n && t[j].pool.current == idx;
        assert idx == Slot(p.current, j + 1, n);
      }
    }
    assert AllIndices(n) <= PickedIndices(t, n) by {
      forall idx: nat | idx < n
        ensures idx in PickedIndices(t, n)
      {
        var j := SlotCover(p.current, n, idx);
        assert t[j - 1].pool.current == idx;
      }
    }
  }

  /** After a full cycle the pick comes round again: call `size + 1` repeats call 1. */
  lemma FairnessWrapsAround(p: RoundRobin, servers: Servers)
    requires Resolves(p.backends, servers) && AllAlive(p.backends, servers)
    requires |p.backends| > 0
    ensures var n := |p.backends|;
            var t := Calls(p, servers, n + 1);
            t[n].chosen == t[0].chosen
  {
    CallsWhenAllAlive(p, servers, |p.backends| + 1);
    SlotWrap(p.current, 1, |p.backends|);
  }
}
