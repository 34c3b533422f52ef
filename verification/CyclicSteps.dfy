/**
 Stepping from a start towards an end in machine integers, where passing the largest value comes
 back at the smallest. The loop stops at the first value past the end; whether there is one
 depends on the greatest common divisor of the step and the number of values.
 */
module CyclicSteps {
  import opened Wrappers


  /** The values `low`, `low + 1`, … of a machine integer. */
  datatype Ring = Ring(low: int, size: nat) {
    predicate Valid() {
      size > 0
    }

    predicate Has(v: int) {
      low <= v < low + size
    }

    function Wrap(v: int): (r: int)
      requires Valid()
      ensures Has(r) && (Has(v) ==> r == v)
    {
      low + Residue(v - low, size)
    }
  }

  function Residue(a: int, m: nat): (r: int)
    requires m > 0
    ensures 0 <= r < m && (0 <= a < m ==> r == a)
  {
    a % m
  }

  // ---- divisors ----

  function Gcd(a: nat, b: nat): nat
    decreases b
  {
    if b == 0 then a else Gcd(b, a % b)
  }

  ghost predicate Divides(d: int, a: int) {
    exists q: int :: a == q * d
  }

  lemma DividesSum(d: int, a: int, b: int, q: int)
    requires Divides(d, a) && Divides(d, b)
    ensures Divides(d, a + q * b)
  {
    var x: int :| a == x * d;
    var y: int :| b == y * d;
    assert a + q * b == (x + q * y) * d;
  }

  lemma {:induction false} GcdDivides(a: nat, b: nat)
    requires a > 0 || b > 0
    ensures Gcd(a, b) > 0 && Divides(Gcd(a, b), a) && Divides(Gcd(a, b), b)
    decreases b
  {
    if b == 0 {
      assert a == 1 * a && b == 0 * a;
    } else {
      GcdDivides(b, a % b);
      DividesSum(Gcd(a, b), a % b, b, a / b);
      assert a == a % b + (a / b) * b;
    }
  }

  /** The greatest common divisor is a combination of the two. */
  lemma {:induction false} Combines(a: nat, b: nat) returns (x: int, y: int)
    ensures x * a + y * b == Gcd(a, b)
    decreases b
  {
    if b == 0 {
      x, y := 1, 0;
    } else {
      var u, v := Combines(b, a % b);
      x, y := v, u - (a / b) * v;
      assert a == (a / b) * b + a % b;
      calc {
        x * a + y * b;
        v * ((a / b) * b + a % b) + (u - (a / b) * v) * b;
        { Distributes(v, (a / b) * b, a % b); Reorders(v, a / b, b); }
        u * b + v * (a % b);
      }
    }
  }

  lemma GcdGreatest(d: int, a: nat, b: nat)
    requires Divides(d, a) && Divides(d, b)
    ensures Divides(d, Gcd(a, b))
  {
    hide Gcd;
    var x, y := Combines(a, b);
    var p: int :| a == p * d;
    var q: int :| b == q * d;
    assert x * (p * d) == (x * p) * d && y * (q * d) == (y * q) * d;
    assert Gcd(a, b) == (x * p + y * q) * d;
  }

  lemma Distributes(v: int, p: int, q: int)
    ensures v * (p + q) == v * p + v * q
  {}

  lemma Reorders(v: int, p: int, b: int)
    ensures v * (p * b) == (p * v) * b
  {}

  // ---- residues ----

  lemma ResidueOf(a: int, m: nat)
    requires m > 0
    ensures Divides(m, a - Residue(a, m))
  {
    assert a - Residue(a, m) == (a / m) * m;
  }

  lemma ResidueIs(a: int, r: int, m: nat)
    requires m > 0 && 0 <= r < m && Divides(m, a - r)
    ensures Residue(a, m) == r
  {
    var q: int :| a - r == q * m;
    Unique(a / m, a % m, q, r, m);
  }

  lemma Unique(p: int, x: int, q: int, y: int, m: nat)
    requires 0 <= x < m && 0 <= y < m && p * m + x == q * m + y
    ensures x == y
  {
    if p < q { Below(p, q, m); }
    if q < p { Below(q, p, m); }
  }

  lemma Below(p: int, q: int, m: nat)
    requires p < q
    ensures p * m + m <= q * m
  {
    assert (q - p - 1) * m >= 0;
    assert q * m == p * m + m + (q - p - 1) * m;
  }

  /** Numbers that differ by a multiple have one residue, and the other way round. */
  lemma SameResidue(a: int, b: int, m: nat)
    requires m > 0
    ensures Residue(a, m) == Residue(b, m) <==> Divides(m, a - b)
  {
    ResidueOf(a, m);
    ResidueOf(b, m);
    if Residue(a, m) == Residue(b, m) {
      DividesSum(m, a - Residue(a, m), b - Residue(b, m), -1);
    }
    if Divides(m, a - b) {
      DividesSum(m, a - b, b - Residue(b, m), 1);
      ResidueIs(a, Residue(b, m), m);
    }
  }

  lemma DividesAlong(d: int, m: int, a: int)
    requires Divides(d, m) && Divides(m, a)
    ensures Divides(d, a)
  {
    var p: int :| m == p * d;
    var q: int :| a == q * m;
    assert a == (q * p) * d;
  }

  function Size(step: int): nat {
    if step < 0 then -step else step
  }

  lemma DividesStep(d: int, step: int)
    ensures Divides(d, step) <==> Divides(d, Size(step))
  {
    if Divides(d, step) {
      var q: int :| step == q * d;
      assert -step == (-q) * d;
    }
    if Divides(d, Size(step)) {
      var q: int :| Size(step) == q * d;
      assert 0 - Size(step) == (-q) * d;
    }
  }

  /** Steps keep the residue by the common divisor. */
  lemma Stays(s: int, step: int, m: nat, k: nat)
    requires m > 0
    ensures Gcd(m, Size(step)) > 0
    ensures var g := Gcd(m, Size(step)); Residue(Residue(s + k * step, m), g) == Residue(s, g)
  {
    var g := Gcd(m, Size(step));
    var r := Residue(s + k * step, m);
    GcdDivides(m, Size(step));
    DividesStep(g, step);
    ResidueOf(s + k * step, m);
    DividesAlong(g, m, s + k * step - r);
    assert 0 == 0 * g;
    DividesSum(g, 0, step, k);
    DividesSum(g, k * step, s + k * step - r, -1);
    assert k * step - (s + k * step - r) == r - s;
    SameResidue(r, s, g);
  }

  /** And every value with that residue is reached. */
  lemma Reaches(s: int, step: int, m: nat, r: int) returns (k: nat)
    requires m > 0 && 0 <= r < m && Gcd(m, Size(step)) > 0
    requires var g := Gcd(m, Size(step)); Residue(r, g) == Residue(s, g)
    ensures Residue(s + k * step, m) == r
  {
    var g := Gcd(m, Size(step));
    SameResidue(r, s, g);
    var q: int :| r - s == q * g;
    var x, y := Combines(m, Size(step));
    var z := if step < 0 then -(q * y) else q * y;
    SignedProduct(q * y, step);
    k := Residue(z, m);
    ResidueOf(z, m);
    var j: int :| z - k == j * m;
    Rearrange(q, x, m, y, Size(step), g);
    Remains(s, r, step, k, z, j, m, q * x);
    ResidueIs(s + k * step, r, m);
  }

  lemma SignedProduct(a: int, step: int)
    ensures (if step < 0 then -a else a) * step == a * Size(step)
  {}

  lemma Remains(s: int, r: int, step: int, k: int, z: int, j: int, m: int, p: int)
    requires z - k == j * m && r - s == p * m + z * step
    ensures Divides(m, s + k * step - r)
  {
    assert k * step == z * step - (j * m) * step;
    assert (j * m) * step == (j * step) * m;
    assert s + k * step - r == (-(p + j * step)) * m;
  }

  lemma Rearrange(q: int, x: int, m: int, y: int, t: int, g: int)
    requires x * m + y * t == g
    ensures q * g == (q * x) * m + (q * y) * t
  {
    assert q * (x * m + y * t) == q * (x * m) + q * (y * t);
    assert q * (x * m) == (q * x) * m;
    assert q * (y * t) == (q * y) * t;
  }

  // ---- stepping until the end is passed ----

  function At(ring: Ring, start: int, step: int, k: nat): int
    requires ring.Valid()
  {
    ring.Wrap(start + k * step)
  }

  predicate Inside(v: int, end: int, up: bool) {
    if up then v <= end else v >= end
  }

  /** The step taken: down is a negative step. */
  function Signed(step: int, up: bool): int {
    if up then step else -step
  }

  /** Whether some value is past the end, by the divisor alone. */
  predicate Halts(ring: Ring, start: int, end: int, step: int, up: bool)
    requires ring.Valid()
  {
    var g := Gcd(ring.size, Size(step));
    g > 0 &&
    var least := Residue(start - ring.low, g);
    if up then ring.low + ring.size - g + least > end else ring.low + least < end
  }

  lemma SizeSigned(step: int, up: bool)
    ensures Size(Signed(step, up)) == Size(step)
  {}

  lemma AtResidue(ring: Ring, start: int, step: int, k: nat)
    requires ring.Valid()
    ensures At(ring, start, step, k) - ring.low == Residue((start - ring.low) + k * step, ring.size)
  {
    assert start + k * step - ring.low == (start - ring.low) + k * step;
  }

  /** The loop ends if and only if the divisor says so. */
  lemma EndsExactly(ring: Ring, start: int, end: int, step: int, up: bool)
    requires ring.Valid() && ring.Has(start)
    ensures Halts(ring, start, end, step, up) <==> exists k: nat :: !Inside(At(ring, start, Signed(step, up), k), end, up)
  {
    var m, s, t := ring.size, start - ring.low, Signed(step, up);
    SizeSigned(step, up);
    GcdDivides(m, Size(step));
    var g := Gcd(m, Size(step));
    var least := Residue(s, g);
    Extremes(m, g, least);
    if Halts(ring, start, end, step, up) {
      var r := if up then m - g + least else least;
      var k := Reaches(s, t, m, r);
      AtResidue(ring, start, t, k);
      assert !Inside(At(ring, start, t, k), end, up);
    }
    forall k: nat | !Inside(At(ring, start, t, k), end, up) ensures Halts(ring, start, end, step, up) {
      AtResidue(ring, start, t, k);
      Stays(s, t, m, k);
      var r := Residue(s + k * t, m);
      Bounded(m, g, r);
    }
  }

  lemma Extremes(m: nat, g: nat, least: int)
    requires 0 < g && m > 0 && Divides(g, m) && 0 <= least < g
    ensures 0 <= m - g + least < m && Residue(m - g + least, g) == least && Residue(least, g) == least
  {
    var q: int :| m == q * g;
    Positive(q, g);
    assert m - g == (q - 1) * g;
    assert (m - g + least) - least == (q - 1) * g;
    assert (q - 1) * g >= 0;
    ResidueIs(m - g + least, least, g);
  }

  lemma Positive(q: int, g: nat)
    requires q * g > 0
    ensures q > 0
  {}

  lemma Bounded(m: nat, g: nat, r: int)
    requires 0 < g && Divides(g, m) && 0 <= r < m
    ensures Residue(r, g) <= r <= m - g + Residue(r, g)
  {
    var q: int :| m == q * g;
    var j, x := r / g, r % g;
    assert r == j * g + x;
    assert j >= 0;
    assert j * g >= 0;
    assert (q - 1) * g == q * g - g;
    if j >= q { Below(q - 1, j, g); }
    if j + 1 <= q { if j + 1 < q { Below(j + 1, q, g); } assert (j + 1) * g == j * g + g; }
  }

  /** The first value past the end. */
  ghost function Past(ring: Ring, start: int, end: int, step: int, up: bool): (n: nat)
    requires ring.Valid() && exists k: nat :: !Inside(At(ring, start, Signed(step, up), k), end, up)
    ensures !Inside(At(ring, start, Signed(step, up), n), end, up)
    ensures forall k: nat :: k < n ==> Inside(At(ring, start, Signed(step, up), k), end, up)
  {
    var k: nat :| !Inside(At(ring, start, Signed(step, up), k), end, up);
    Search(ring, start, end, Signed(step, up), up, 0, k)
  }

  ghost function Search(ring: Ring, start: int, end: int, step: int, up: bool, from0: nat, k: nat): (n: nat)
    requires ring.Valid() && from0 <= k && !Inside(At(ring, start, step, k), end, up)
    ensures from0 <= n <= k && !Inside(At(ring, start, step, n), end, up)
    ensures forall j: nat :: from0 <= j < n ==> Inside(At(ring, start, step, j), end, up)
    decreases k - from0
  {
    if !Inside(At(ring, start, step, from0), end, up) then from0 else Search(ring, start, end, step, up, from0 + 1, k)
  }

  /** The values of the loop, in order; none when it does not end. */
  ghost function Walked(ring: Ring, start: int, end: int, step: int, up: bool): (values: Option<seq<int>>)
    requires ring.Valid() && ring.Has(start)
    ensures values.None? <==> forall k: nat :: Inside(At(ring, start, Signed(step, up), k), end, up)
  {
    if exists k: nat :: !Inside(At(ring, start, Signed(step, up), k), end, up)
    then Some(seq(Past(ring, start, end, step, up), k requires k >= 0 => At(ring, start, Signed(step, up), k)))
    else None
  }

  method Walk(ring: Ring, start: int, end: int, step: int, up: bool) returns (values: Option<seq<int>>)
    requires ring.Valid() && ring.Has(start)
    ensures values == Walked(ring, start, end, step, up)
  {
    hide At, Inside, Halts, Past, Search, Signed;
    EndsExactly(ring, start, end, step, up);
    if !Halts(ring, start, end, step, up) {
      return None;
    }
    ghost var n := Past(ring, start, end, step, up);
    var walked := [];
    var v := start;
    Begins(ring, start, Signed(step, up));
    while Inside(v, end, up)
      invariant |walked| <= n && v == At(ring, start, Signed(step, up), |walked|)
      invariant forall k :: 0 <= k < |walked| ==> walked[k] == At(ring, start, Signed(step, up), k)
      decreases n - |walked|
    {
      NextStep(ring, start, Signed(step, up), |walked|);
      walked := walked + [v];
      v := ring.Wrap(v + Signed(step, up));
    }
    assert |walked| == n;
    WalkedIs(ring, start, end, step, up, walked);
    values := Some(walked);
  }

  lemma WalkedIs(ring: Ring, start: int, end: int, step: int, up: bool, values: seq<int>)
    requires ring.Valid() && ring.Has(start) && exists k: nat :: !Inside(At(ring, start, Signed(step, up), k), end, up)
    requires |values| == Past(ring, start, end, step, up)
    requires forall k :: 0 <= k < |values| ==> values[k] == At(ring, start, Signed(step, up), k)
    ensures Walked(ring, start, end, step, up) == Some(values)
  {
    hide At, Past;
    var all := Walked(ring, start, end, step, up).value;
    assert |all| == |values|;
    assert forall k :: 0 <= k < |all| ==> all[k] == values[k];
    assert all == values;
  }

  /** Walked values are the steps up to the first one past the end. */
  lemma WalkedAt(ring: Ring, start: int, end: int, step: int, up: bool)
    requires ring.Valid() && ring.Has(start) && Walked(ring, start, end, step, up).Some?
    ensures var values := Walked(ring, start, end, step, up).value;
            && !Inside(At(ring, start, Signed(step, up), |values|), end, up)
            && forall k: nat :: k < |values| ==> values[k] == At(ring, start, Signed(step, up), k) && Inside(values[k], end, up) && ring.Has(values[k])
  {
    hide Inside;
  }

  lemma Begins(ring: Ring, start: int, step: int)
    requires ring.Valid() && ring.Has(start)
    ensures At(ring, start, step, 0) == start
  {
    assert start + 0 * step == start;
  }

  lemma NextStep(ring: Ring, start: int, step: int, k: nat)
    requires ring.Valid()
    ensures ring.Wrap(At(ring, start, step, k) + step) == At(ring, start, step, k + 1)
  {
    var a := start + k * step - ring.low;
    assert start + (k + 1) * step - ring.low == a + step;
    var r := Residue(a, ring.size);
    ResidueOf(a, ring.size);
    assert r + step - (a + step) == (-1) * (a - r);
    assert Divides(ring.size, r + step - (a + step)) by {
      var q: int :| a - r == q * ring.size;
      assert r + step - (a + step) == (-q) * ring.size;
    }
    SameResidue(r + step, a + step, ring.size);
  }

  // ---- loops that never come round ----

  function Distance(a: int, b: int): nat {
    if a <= b then b - a else a - b
  }

  /** How many values fit between the ends. */
  function Fitting(start: int, end: int, step: nat): (n: nat)
    requires step > 0
    ensures n > 0
  {
    Distance(start, end) / step + 1
  }

  /** The last of them. */
  function Last(start: int, end: int, step: nat): int
    requires step > 0
  {
    start + (Fitting(start, end, step) - 1) * Signed(step, start <= end)
  }

  function Progression(start: int, end: int, step: nat): (values: seq<int>)
    requires step > 0
    ensures |values| == Fitting(start, end, step)
    ensures forall k :: 0 <= k < |values| ==> values[k] == start + k * Signed(step, start <= end)
  {
    seq(Fitting(start, end, step), k requires 0 <= k => start + k * Signed(step, start <= end))
  }

  lemma Between(start: int, end: int, step: nat, k: nat)
    requires step > 0
    ensures var v := start + k * Signed(step, start <= end);
            && (k < Fitting(start, end, step) ==> if start <= end then start <= v <= end else end <= v <= start)
            && (k == Fitting(start, end, step) ==> !Inside(v, end, start <= end))
  {
    var d := Distance(start, end);
    var q, r := d / step, d % step;
    assert d == q * step + r;
    assert start + k * Signed(step, start <= end) == if start <= end then start + k * step else start - k * step;
    if k <= q { Monotone(k, q, step); } else if k == q + 1 { assert (q + 1) * step == q * step + step; }
  }

  lemma Monotone(a: int, b: int, step: nat)
    requires 0 <= a <= b
    ensures 0 <= a * step <= b * step
  {
    assert (b - a) * step >= 0;
    assert b * step == a * step + (b - a) * step;
  }

  /** The loop goes through exactly the progression if and only if the step after its last value is past the end. */
  lemma ProgressionExactly(ring: Ring, start: int, end: int, step: nat)
    requires ring.Valid() && ring.Has(start) && ring.Has(end) && step > 0
    ensures var up := start <= end;
            Walked(ring, start, end, step, up) == Some(Progression(start, end, step))
            <==> !Inside(ring.Wrap(Last(start, end, step) + Signed(step, up)), end, up)
  {
    hide Last, Fitting, Progression, Walked, Past;
    var up, n := start <= end, Fitting(start, end, step);
    var s := Signed(step, up);
    forall k: nat | k < n ensures At(ring, start, s, k) == start + k * s && Inside(At(ring, start, s, k), end, up) {
      Between(start, end, step, k);
    }
    LastIs(start, end, step);
    assert At(ring, start, s, n) == ring.Wrap(Last(start, end, step) + s);
    var w := Walked(ring, start, end, step, up);
    if w == Some(Progression(start, end, step)) {
      WalkedAt(ring, start, end, step, up);
    }
    if !Inside(At(ring, start, s, n), end, up) {
      FirstPast(ring, start, end, step, up, n);
      WalkedIs(ring, start, end, step, up, Progression(start, end, step));
    }
  }

  lemma LastIs(start: int, end: int, step: nat)
    requires step > 0
    ensures var s, n := Signed(step, start <= end), Fitting(start, end, step); Last(start, end, step) + s == start + n * s
  {
    var s, n := Signed(step, start <= end), Fitting(start, end, step);
    assert n * s == (n - 1) * s + s;
  }

  lemma FirstPast(ring: Ring, start: int, end: int, step: int, up: bool, n: nat)
    requires ring.Valid() && !Inside(At(ring, start, Signed(step, up), n), end, up)
    requires forall k: nat :: k < n ==> Inside(At(ring, start, Signed(step, up), k), end, up)
    ensures Past(ring, start, end, step, up) == n
  {
    hide At, Inside;
    var p := Past(ring, start, end, step, up);
  }
}
