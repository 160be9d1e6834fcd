/** Spawn placement (objects/spawn.go): the circle-overlap test and the
    rejection-sampling search for a free position. Go's float64 is modelled as
    real, and the values of rand.Float64 are supplied as a sequence of draws. */
module Spawn {
  import opened Wrappers
  import opened Collection
  import opened Objects

  /** Two circles are too close when the squared distance of their centres is
      at most the square of their summed radii: touching counts. */
  function Overlaps(x: real, y: real, radius: real, o: Circle): (b: bool)
    ensures o.x == x && o.y == y ==> b
    ensures b && radius + o.radius >= 0.0 ==>
              && -(radius + o.radius) <= o.x - x <= radius + o.radius
              && -(radius + o.radius) <= o.y - y <= radius + o.radius
  {
    var dx := o.x - x;
    var dy := o.y - y;
    SquareWithin(dx, dy, radius + o.radius);
    SquareWithin(dy, dx, radius + o.radius);
    dx * dx + dy * dy <= (radius + o.radius) * (radius + o.radius)
  }

  /** A centre offset within the summed radius on the circle test is within
      it on each axis. */
  lemma SquareWithin(d: real, e: real, sum: real)
    ensures sum >= 0.0 && d * d + e * e <= sum * sum ==> -sum <= d <= sum
  {
    if sum >= 0.0 {
      SquareGrows(d, sum);
      assert e * e >= 0.0;
    }
  }

  /** Outside [-sum, sum] the square exceeds sum's square. */
  lemma SquareGrows(d: real, sum: real)
    requires sum >= 0.0
    ensures d > sum ==> d * d > sum * sum
    ensures d < -sum ==> d * d > sum * sum
  {
    var e := if d < 0.0 then -d else d;
    assert e * e == d * d;
    assert e * e - sum * sum == (e - sum) * (e + sum);
    if e > sum {
      PositiveProduct(e - sum, e + sum);
    }
  }

  lemma PositiveProduct(a: real, b: real)
    requires a > 0.0 && b > 0.0
    ensures a * b > 0.0
  {
  }

  /** Reference meaning of isTooClose: the collection exists and one of its
      objects overlaps the circle. */
  ghost predicate NearAny<T>(x: real, y: real, radius: real, objects: Option<Collection<T>>, shape: T -> Circle)
  {
    && objects.Some?
    && exists k :: k in objects.value.objects && Overlaps(x, y, radius, shape(objects.value.objects[k]))
  }

  /** The ForEach visitor of isTooClose folded over the visits: once the flag
      is set the visitor returns at once; otherwise it sets the flag on an
      overlap. */
  function ScanTooClose<T>(tooClose: bool, x: real, y: real, radius: real, visits: seq<(Id, T)>, shape: T -> Circle): (r: bool)
    ensures r <==> tooClose || exists i :: 0 <= i < |visits| && Overlaps(x, y, radius, shape(visits[i].1))
    decreases |visits|
  {
    if |visits| == 0 then tooClose
    else
      var flag := if tooClose then tooClose else Overlaps(x, y, radius, shape(visits[0].1));
      var r := ScanTooClose(flag, x, y, radius, visits[1..], shape);
      assert r ==> tooClose || exists i :: 0 <= i < |visits| && Overlaps(x, y, radius, shape(visits[i].1)) by {
        if r && !tooClose && !flag {
          var j :| 0 <= j < |visits[1..]| && Overlaps(x, y, radius, shape(visits[1..][j].1));
          assert visits[j + 1] == visits[1..][j];
        }
      }
      assert (exists i :: 0 <= i < |visits| && Overlaps(x, y, radius, shape(visits[i].1))) ==> r by {
        if exists i :: 0 <= i < |visits| && Overlaps(x, y, radius, shape(visits[i].1)) {
          var i :| 0 <= i < |visits| && Overlaps(x, y, radius, shape(visits[i].1));
          if i > 0 {
            assert visits[1..][i - 1] == visits[i];
          }
        }
      }
      r
  }

  /** isTooClose over the visits of one ForEach: false for an absent
      collection, otherwise true exactly when some object overlaps. */
  function IsTooClose<T>(x: real, y: real, radius: real, objects: Option<Collection<T>>, visits: seq<(Id, T)>, shape: T -> Circle): (r: bool)
    ensures objects.None? ==> !r
    ensures objects.Some? && VisitsEachOnce(objects.value, visits) ==>
              (r <==> NearAny(x, y, radius, objects, shape))
  {
    if objects.None? then false
    else
      var r := ScanTooClose(false, x, y, radius, visits, shape);
      assert VisitsEachOnce(objects.value, visits) ==> (r <==> NearAny(x, y, radius, objects, shape)) by {
        if VisitsEachOnce(objects.value, visits) {
          var m := objects.value.objects;
          if r {
            var i :| 0 <= i < |visits| && Overlaps(x, y, radius, shape(visits[i].1));
            assert visits[i].0 in m && m[visits[i].0] == visits[i].1;
          }
          if NearAny(x, y, radius, objects, shape) {
            var k :| k in m && Overlaps(x, y, radius, shape(m[k]));
            var i :| 0 <= i < |visits| && visits[i].0 == k;
            assert visits[i].1 == m[k];
          }
        }
      }
      r
  }

  /** isTooClose as the search calls it: one ForEach, then the scan. */
  method TooCloseNow<T>(x: real, y: real, radius: real, objects: Option<Collection<T>>, shape: T -> Circle) returns (r: bool)
    ensures r <==> NearAny(x, y, radius, objects, shape)
  {
    if objects.None? {
      return false;
    }
    var visits := ForEach(objects.value);
    r := IsTooClose(x, y, radius, objects, visits, shape);
  }

  /** The starting half-extent of the search square. */
  const InitialBound: real := 3000.0

  /** Failed attempts tolerated at one bound before it doubles. */
  const MaxTries: int := 25

  function Pow2(n: nat): nat
  {
    if n == 0 then 1 else 2 * Pow2(n - 1)
  }

  /** The effect of one failed attempt: the counter advances, and once it
      exceeds MaxTries the bound doubles and the counter restarts at 0. */
  function Backoff(bound: real, tries: int): (r: (real, int))
    ensures 0 <= tries <= MaxTries ==> 0 <= r.1 <= MaxTries
    ensures 0 <= tries ==> (r.1 == 0 <==> tries >= MaxTries)
    ensures r.0 == bound || r.0 == 2.0 * bound
    ensures 0 <= tries && bound > 0.0 ==> (r.0 == 2.0 * bound <==> r.1 == 0)
  {
    var t := tries + 1;
    if t > MaxTries then (bound * 2.0, 0) else (bound, t)
  }

  /** The bound in force at attempt `n` (counting from 0): it doubles after
      every MaxTries + 1 consecutive failures. */
  function BoundAt(n: nat): real
  {
    InitialBound * Pow2(n / (MaxTries + 1)) as real
  }

  /** One failed attempt moves the search state of attempt n to that of
      attempt n + 1: the counter is n mod 26 and the bound is 3000 * 2^(n / 26). */
  lemma BackoffStep(n: nat)
    ensures Backoff(BoundAt(n), n % (MaxTries + 1)) == (BoundAt(n + 1), (n + 1) % (MaxTries + 1))
  {
    var q := n / (MaxTries + 1);
    var r := n % (MaxTries + 1);
    assert n == q * (MaxTries + 1) + r;
    if r == MaxTries {
      assert n + 1 == (q + 1) * (MaxTries + 1);
      assert (n + 1) / (MaxTries + 1) == q + 1;
      assert (n + 1) % (MaxTries + 1) == 0;
      assert Pow2(q + 1) == 2 * Pow2(q);
    } else {
      assert n + 1 == q * (MaxTries + 1) + (r + 1);
      assert (n + 1) / (MaxTries + 1) == q;
      assert (n + 1) % (MaxTries + 1) == r + 1;
    }
  }

  /** The bound never shrinks and never falls below its start. */
  lemma {:induction false} BoundAtMonotone(n: nat, m: nat)
    requires n <= m
    ensures InitialBound <= BoundAt(n) <= BoundAt(m)
    decreases m - n
  {
    if n < m {
      BoundAtMonotone(n + 1, m);
      BackoffStep(n);
    } else {
      Pow2Positive(n / (MaxTries + 1));
    }
  }

  lemma {:induction false} Pow2Positive(n: nat)
    ensures Pow2(n) >= 1
  {
    if n > 0 {
      Pow2Positive(n - 1);
    }
  }

  /** One coordinate of a candidate: `bound * (2u - 1)` for a draw u. */
  function Coordinate(bound: real, u: real): (c: real)
    ensures bound > 0.0 ==> (c < 0.0 <==> u < 0.5)
    ensures bound > 0.0 ==> (c == 0.0 <==> u == 0.5)
  {
    ProductSign(bound, 2.0 * u - 1.0);
    bound * (2.0 * u - 1.0)
  }

  /** Scaling by a positive bound keeps the sign. */
  lemma ProductSign(bound: real, t: real)
    ensures bound > 0.0 ==> (bound * t < 0.0 <==> t < 0.0) && (bound * t == 0.0 <==> t == 0.0)
  {
    if bound > 0.0 {
      if t < 0.0 {
        assert bound * (-t) > 0.0;
      } else if t > 0.0 {
        assert bound * t > 0.0;
      }
    }
  }

  /** A draw in [0, 1) gives a coordinate in [-bound, bound). */
  lemma CoordinateInRange(bound: real, u: real)
    requires bound > 0.0
    requires 0.0 <= u < 1.0
    ensures -bound <= Coordinate(bound, u) < bound
  {
    assert bound * (2.0 * u) >= 0.0;
    assert bound * (2.0 * u) < bound * 2.0 by {
      assert bound * (2.0 - 2.0 * u) > 0.0;
    }
  }

  /** The candidate point of attempt n: it reads draws 2n and 2n + 1. */
  function Candidate(draws: seq<real>, n: nat): (p: (real, real))
    requires 2 * n + 1 < |draws|
    ensures 0.0 <= draws[2 * n] < 1.0 ==> -BoundAt(n) <= p.0 < BoundAt(n)
    ensures 0.0 <= draws[2 * n + 1] < 1.0 ==> -BoundAt(n) <= p.1 < BoundAt(n)
  {
    BoundAtMonotone(0, n);
    var x := if 0.0 <= draws[2 * n] < 1.0 then CoordinateInRange(BoundAt(n), draws[2 * n]); Coordinate(BoundAt(n), draws[2 * n])
             else Coordinate(BoundAt(n), draws[2 * n]);
    var y := if 0.0 <= draws[2 * n + 1] < 1.0 then CoordinateInRange(BoundAt(n), draws[2 * n + 1]); Coordinate(BoundAt(n), draws[2 * n + 1])
             else Coordinate(BoundAt(n), draws[2 * n + 1]);
    (x, y)
  }

  /** A point is free when its circle overlaps no player and no spore. */
  ghost predicate Free(p: (real, real), radius: real, players: Option<Collection<Player>>, spores: Option<Collection<Spore>>)
  {
    && !NearAny(p.0, p.1, radius, players, PlayerCircle)
    && !NearAny(p.0, p.1, radius, spores, SporeCircle)
  }

  /** SpawnCoords: draws candidates until one is free. Go loops forever; here
      the draws are finite, so the search gives up (None) when they run out.
      `n` is the index of the accepted attempt, or the number of attempts made. */
  method SpawnCoords(radius: real, players: Option<Collection<Player>>, spores: Option<Collection<Spore>>, draws: seq<real>)
    returns (pos: Option<(real, real)>, n: nat)
    ensures pos.Some? ==> 2 * n + 1 < |draws| && pos.value == Candidate(draws, n)
    ensures pos.Some? ==> Free(pos.value, radius, players, spores)
    ensures pos.None? ==> |draws| <= 2 * n + 1
    ensures forall j :: 0 <= j < n && 2 * j + 1 < |draws| ==> !Free(Candidate(draws, j), radius, players, spores)
  {
    var bound := InitialBound;
    var tries := 0;
    n := 0;
    while 2 * n + 1 < |draws|
      invariant bound == BoundAt(n)
      invariant tries == n % (MaxTries + 1)
      invariant 0 <= tries <= MaxTries
      invariant forall j :: 0 <= j < n && 2 * j + 1 < |draws| ==> !Free(Candidate(draws, j), radius, players, spores)
      decreases |draws| - 2 * n
    {
      var x := Coordinate(bound, draws[2 * n]);
      var y := Coordinate(bound, draws[2 * n + 1]);
      var nearPlayer := TooCloseNow(x, y, radius, players, PlayerCircle);
      var nearSpore := TooCloseNow(x, y, radius, spores, SporeCircle);
      if !nearPlayer && !nearSpore {
        return Some((x, y)), n;
      }
      BackoffStep(n);
      bound, tries := Backoff(bound, tries).0, Backoff(bound, tries).1;
      n := n + 1;
    }
    return None, n;
  }

  /** Every candidate lies in the square of the bound in force at its attempt,
      and that bound is at least the initial one. */
  lemma CandidateInSquare(draws: seq<real>, n: nat)
    requires 2 * n + 1 < |draws|
    requires 0.0 <= draws[2 * n] < 1.0 && 0.0 <= draws[2 * n + 1] < 1.0
    ensures InitialBound <= BoundAt(n)
    ensures -BoundAt(n) <= Candidate(draws, n).0 < BoundAt(n)
    ensures -BoundAt(n) <= Candidate(draws, n).1 < BoundAt(n)
  {
    BoundAtMonotone(0, n);
    CoordinateInRange(BoundAt(n), draws[2 * n]);
    CoordinateInRange(BoundAt(n), draws[2 * n + 1]);
  }
}
