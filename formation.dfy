// `战阵调整` inside `华山论剑` (daledou/run.py:180-219): the knight arena line-up.
// The page fetches and pattern scans that feed it are abstracted to their
// results: the knight ids offered for the first fight, the free positions and
// the knights already seated. What is modelled is the bookkeeping on the id
// list (`remove` of every seated knight, `pop` for every free or benched
// position) and the `setknight` requests it sends, in order.
module Formation {
  import opened Text

  /** One "更改侠士" entry of the line-up page: durability, position and knight id, as captured. */
  datatype Seat = Seat(durability: string, pos: string, id: string)

  /** One `setknight` request: knight `id` into position `pos` (`on`) or out of it. */
  datatype Order = Order(id: string, pos: string, on: bool)

  /** How the adjustment ended. */
  datatype Outcome =
    | NoKnights                  // no knight ids at all: the page's message is reported, False returned
    | Adjusted(exhausted: bool)  // True returned; `exhausted` when "没有可用的侠士" was reported
    | NotListed(id: string)      // `knightid.remove(id)` raised ValueError

  /** The position of the first occurrence of `x` in `s`. */
  function IndexOf(s: seq<string>, x: string): (i: nat)
    requires x in s
    ensures i < |s| && s[i] == x && x !in s[..i]
  {
    if s[0] == x then 0
    else
      var i := 1 + IndexOf(s[1..], x);
      assert s[..i] == [s[0]] + s[1..][..i - 1];
      i
  }

  /** `s.remove(x)` on a Python list: the first occurrence goes and the rest keep their
      order; None for the ValueError. */
  function RemoveFirst(s: seq<string>, x: string): (r: Option<seq<string>>)
    ensures r.None? <==> x !in s
    ensures r.Some? ==> var i := IndexOf(s, x); r.value == s[..i] + s[i + 1..]
    ensures r.Some? ==> multiset(r.value) == multiset(s) - multiset{x} && |r.value| == |s| - 1
  {
    if x !in s then None
    else
      var i := IndexOf(s, x);
      assert s == s[..i] + [x] + s[i + 1..];
      Some(s[..i] + s[i + 1..])
  }

  /** What the first loop leaves: the ids still free, the requests that benched knights
      with no durability left, their positions, and the id whose removal failed, if any. */
  datatype Released = Released(pool: seq<string>, cancels: seq<Order>, benched: seq<string>, failed: Option<string>)

  /** The loop over the seated knights, up to and including the last seat. */
  function Release(ids: seq<string>, seats: seq<Seat>): Released
    decreases |seats|
  {
    if seats == [] then Released(ids, [], [], None)
    else
      var r := Release(ids, seats[..|seats| - 1]);
      var s := seats[|seats| - 1];
      if r.failed.Some? then r
      else
        match RemoveFirst(r.pool, s.id)
        case None => r.(failed := Some(s.id))
        case Some(rest) =>
          if s.durability == "0" then
            Released(rest, r.cancels + [Order(s.id, s.pos, false)], r.benched + [s.pos], None)
          else r.(pool := rest)
  }

  /** The second loop, written flat: the k-th free slot gets the k-th id from the end of
      the pool, for as many slots as there are ids. */
  function Assign(pool: seq<string>, slots: seq<string>): (r: seq<Order>)
    ensures |r| == if |slots| <= |pool| then |slots| else |pool|
  {
    var n := if |slots| <= |pool| then |slots| else |pool|;
    seq(n, k requires 0 <= k < n => Order(pool[|pool| - 1 - k], slots[k], true))
  }

  /** The requests `战阵调整` sends and how it ends, given the offered ids, the free
      positions and the seated knights. */
  function Adjust(ids: seq<string>, free: seq<string>, seats: seq<Seat>): (seq<Order>, Outcome) {
    if ids == [] then ([], NoKnights)
    else
      var r := Release(ids, seats);
      if r.failed.Some? then (r.cancels, NotListed(r.failed.value))
      else
        var slots := free + r.benched;
        (r.cancels + Assign(r.pool, slots), Adjusted(|slots| > |r.pool|))
  }

  /** `战阵调整`: the two loops below, and the early return when no knight is offered. */
  method AdjustFormation(knightIds: seq<string>, free: seq<string>, seats: seq<Seat>)
    returns (orders: seq<Order>, outcome: Outcome)
    ensures (orders, outcome) == Adjust(knightIds, free, seats)
  {
    if knightIds == [] {
      return [], NoKnights;
    }
    var r := BenchSpent(knightIds, seats);
    if r.failed.Some? {
      return r.cancels, NotListed(r.failed.value);
    }
    var placed, exhausted := FillSlots(r.pool, free + r.benched);
    orders := r.cancels + placed;
    outcome := Adjusted(exhausted);
  }

  /** The first loop: `knightid.remove(_id)` for every seated knight, and a request that
      benches each one with durability "0". */
  method BenchSpent(knightIds: seq<string>, seats: seq<Seat>) returns (r: Released)
    ensures r == Release(knightIds, seats)
  {
    var knightid := knightIds;
    var cancels: seq<Order> := [];
    var benched: seq<string> := [];
    for i := 0 to |seats|
      invariant Release(knightIds, seats[..i]) == Released(knightid, cancels, benched, None)
    {
      assert seats[..i + 1][..i] == seats[..i];
      var seat := seats[i];
      var rest := RemoveFirst(knightid, seat.id);
      if rest.None? {
        ReleaseFailureStays(knightIds, seats, i + 1);
        return Released(knightid, cancels, benched, Some(seat.id));
      }
      knightid := rest.value;
      if seat.durability == "0" {
        benched := benched + [seat.pos];
        cancels := cancels + [Order(seat.id, seat.pos, false)];
      }
    }
    assert seats[..|seats|] == seats;
    r := Released(knightid, cancels, benched, None);
  }

  /** The second loop: `knightid.pop()` into each free or benched position, until the
      ids run out. */
  method FillSlots(pool: seq<string>, slots: seq<string>) returns (orders: seq<Order>, exhausted: bool)
    ensures orders == Assign(pool, slots)
    ensures exhausted <==> |slots| > |pool|
  {
    var knightid := pool;
    orders, exhausted := [], false;
    for j := 0 to |slots|
      invariant j <= |pool| && knightid == pool[..|pool| - j]
      invariant orders == Assign(pool, slots[..j])
      invariant !exhausted
    {
      if knightid == [] {
        exhausted := true;
        break;
      }
      var id := knightid[|knightid| - 1];
      knightid := knightid[..|knightid| - 1];
      orders := orders + [Order(id, slots[j], true)];
      AssignStep(pool, slots, j);
    }
    if exhausted {
      assert Assign(pool, slots[..|pool|]) == Assign(pool, slots);
    } else {
      assert slots[..|slots|] == slots;
    }
  }

  lemma AssignStep(pool: seq<string>, slots: seq<string>, j: nat)
    requires j < |slots| && j < |pool|
    ensures Assign(pool, slots[..j + 1]) == Assign(pool, slots[..j]) + [Order(pool[|pool| - 1 - j], slots[j], true)]
  {
  }

  /** Once a removal has failed, the later seats change nothing: the loop has already raised. */
  lemma {:induction false} ReleaseFailureStays(ids: seq<string>, seats: seq<Seat>, i: nat)
    requires i <= |seats|
    requires Release(ids, seats[..i]).failed.Some?
    ensures Release(ids, seats) == Release(ids, seats[..i])
    decreases |seats| - i
  {
    if i < |seats| {
      assert seats[..i + 1][..i] == seats[..i];
      ReleaseFailureStays(ids, seats, i + 1);
    } else {
      assert seats[..i] == seats;
    }
  }

  /** The ids of the seated knights, in page order. */
  function SeatIds(seats: seq<Seat>): seq<string>
    decreases |seats|
  {
    if seats == [] then [] else SeatIds(seats[..|seats| - 1]) + [seats[|seats| - 1].id]
  }

  /** The positions of the seated knights with no durability left, in page order. */
  function SpentPositions(seats: seq<Seat>): seq<string>
    decreases |seats|
  {
    if seats == [] then []
    else
      var s := seats[|seats| - 1];
      SpentPositions(seats[..|seats| - 1]) + (if s.durability == "0" then [s.pos] else [])
  }

  /** The ids of the seated knights with no durability left, in page order. */
  function SpentIds(seats: seq<Seat>): seq<string>
    decreases |seats|
  {
    if seats == [] then []
    else
      var s := seats[|seats| - 1];
      SpentIds(seats[..|seats| - 1]) + (if s.durability == "0" then [s.id] else [])
  }

  /** When the first loop gets through, every seated knight has left the pool exactly once,
      and exactly the knights with no durability left were benched, in page order, each
      by a request naming that knight and its position. */
  lemma ReleaseAccounts(ids: seq<string>, seats: seq<Seat>)
    requires Release(ids, seats).failed.None?
    ensures var r := Release(ids, seats);
      && multiset(r.pool) + multiset(SeatIds(seats)) == multiset(ids)
      && r.benched == SpentPositions(seats)
      && |r.cancels| == |r.benched| == |SpentIds(seats)|
      && forall k | 0 <= k < |r.cancels| ::
           !r.cancels[k].on && r.cancels[k].pos == r.benched[k] && r.cancels[k].id == SpentIds(seats)[k]
  {
    ReleasePool(ids, seats);
    ReleaseBenched(ids, seats);
  }

  lemma {:induction false} ReleasePool(ids: seq<string>, seats: seq<Seat>)
    requires Release(ids, seats).failed.None?
    ensures multiset(Release(ids, seats).pool) + multiset(SeatIds(seats)) == multiset(ids)
    decreases |seats|
  {
    if seats != [] {
      var init := seats[..|seats| - 1];
      var s := seats[|seats| - 1];
      var r := Release(ids, init);
      assert r.failed.None?;
      ReleasePool(ids, init);
      var rest := RemoveFirst(r.pool, s.id);
      assert rest.Some?;
      assert multiset(rest.value) + multiset{s.id} == multiset(r.pool);
    }
  }

  lemma {:induction false} ReleaseBenched(ids: seq<string>, seats: seq<Seat>)
    requires Release(ids, seats).failed.None?
    ensures var r := Release(ids, seats);
      && r.benched == SpentPositions(seats)
      && r.cancels == Cancels(seats)
    decreases |seats|
  {
    if seats != [] {
      var init := seats[..|seats| - 1];
      assert Release(ids, init).failed.None?;
      ReleaseBenched(ids, init);
    }
  }

  /** The bench requests of the seats with no durability left, in page order. */
  function Cancels(seats: seq<Seat>): (r: seq<Order>)
    ensures |r| == |SpentIds(seats)| == |SpentPositions(seats)|
    ensures forall k | 0 <= k < |r| :: r[k] == Order(SpentIds(seats)[k], SpentPositions(seats)[k], false)
    decreases |seats|
  {
    if seats == [] then []
    else
      var s := seats[|seats| - 1];
      Cancels(seats[..|seats| - 1]) + (if s.durability == "0" then [Order(s.id, s.pos, false)] else [])
  }

  /** `战阵调整` raises exactly when some seated knight is not among the offered ids (counting
      repeats): the first loop gets through iff the seated ids fit into the offered ones. */
  lemma {:induction false} ReleaseFailsIff(ids: seq<string>, seats: seq<Seat>)
    ensures Release(ids, seats).failed.None? <==> multiset(SeatIds(seats)) <= multiset(ids)
    decreases |seats|
  {
    if seats != [] {
      var init := seats[..|seats| - 1];
      var s := seats[|seats| - 1];
      var r := Release(ids, init);
      ReleaseFailsIff(ids, init);
      assert multiset(SeatIds(seats)) == multiset(SeatIds(init)) + multiset{s.id};
      if r.failed.None? {
        ReleasePool(ids, init);
        var rest := RemoveFirst(r.pool, s.id);
        assert rest.None? <==> multiset(r.pool)[s.id] == 0;
        MultisetFits(multiset(r.pool), multiset(SeatIds(init)), s.id);
      }
    }
  }

  lemma MultisetFits(pool: multiset<string>, taken: multiset<string>, x: string)
    ensures taken + multiset{x} <= pool + taken <==> pool[x] > 0
  {
    if pool[x] > 0 {
      forall y ensures (taken + multiset{x})[y] <= (pool + taken)[y] {
        if y == x {
        }
      }
    } else {
      assert (taken + multiset{x})[x] > (pool + taken)[x];
    }
  }

  predicate Distinct(s: seq<string>) {
    forall i, j | 0 <= i < j < |s| :: s[i] != s[j]
  }

  lemma DistinctCounts(s: seq<string>, x: string)
    requires Distinct(s)
    ensures multiset(s)[x] <= 1
    decreases |s|
  {
    if s != [] {
      DistinctCounts(s[1..], x);
      assert s == [s[0]] + s[1..];
      if s[0] == x {
        assert x !in s[1..] by {
          forall k | 0 <= k < |s[1..]| ensures s[1..][k] != x {
            assert s[1..][k] == s[k + 1];
          }
        }
      }
    }
  }

  /** With distinct ids on the page, no knight already seated is sent out again. */
  lemma SeatedKnightsNotReassigned(ids: seq<string>, free: seq<string>, seats: seq<Seat>)
    requires Distinct(ids)
    requires Release(ids, seats).failed.None?
    ensures var a := Assign(Release(ids, seats).pool, free + Release(ids, seats).benched);
      forall k | 0 <= k < |a| :: a[k].id !in SeatIds(seats)
  {
    var r := Release(ids, seats);
    ReleasePool(ids, seats);
    var a := Assign(r.pool, free + r.benched);
    forall k | 0 <= k < |a|
      ensures a[k].id !in SeatIds(seats)
    {
      assert a[k].id == r.pool[|r.pool| - 1 - k];
      NotInBoth(ids, r.pool, SeatIds(seats), a[k].id);
    }
  }

  /** With distinct ids on the page, no knight is sent into two positions. */
  lemma KnightsSentOnce(ids: seq<string>, free: seq<string>, seats: seq<Seat>)
    requires Distinct(ids)
    requires Release(ids, seats).failed.None?
    ensures var a := Assign(Release(ids, seats).pool, free + Release(ids, seats).benched);
      forall k, m | 0 <= k < m < |a| :: a[k].id != a[m].id
  {
    var r := Release(ids, seats);
    ReleasePool(ids, seats);
    PoolDistinct(ids, r.pool, SeatIds(seats));
    AssignDistinct(r.pool, free + r.benched);
  }

  lemma AssignDistinct(pool: seq<string>, slots: seq<string>)
    requires Distinct(pool)
    ensures var a := Assign(pool, slots); forall k, m | 0 <= k < m < |a| :: a[k].id != a[m].id
  {
    var a := Assign(pool, slots);
    forall k, m | 0 <= k < m < |a|
      ensures a[k].id != a[m].id
    {
      assert a[k].id == pool[|pool| - 1 - k] && a[m].id == pool[|pool| - 1 - m];
    }
  }

  lemma NotInBoth(ids: seq<string>, pool: seq<string>, taken: seq<string>, x: string)
    requires Distinct(ids) && multiset(pool) + multiset(taken) == multiset(ids)
    requires x in pool
    ensures x !in taken
  {
    DistinctCounts(ids, x);
    assert x in multiset(pool);
    if x in taken {
      assert false;
    }
  }

  lemma PoolDistinct(ids: seq<string>, pool: seq<string>, taken: seq<string>)
    requires Distinct(ids) && multiset(pool) + multiset(taken) == multiset(ids)
    ensures Distinct(pool)
  {
    forall i, j | 0 <= i < j < |pool|
      ensures pool[i] != pool[j]
    {
      if pool[i] == pool[j] {
        PairCounts(pool, i, j);
        DistinctCounts(ids, pool[i]);
        assert false;
      }
    }
  }

  lemma PairCounts(s: seq<string>, i: nat, j: nat)
    requires i < j < |s| && s[i] == s[j]
    ensures multiset(s)[s[i]] >= 2
  {
    assert s == s[..i] + [s[i]] + s[i + 1..j] + [s[j]] + s[j + 1..];
  }
}
