/** The cyclic windows with which the server walks its transaction pools.

    A pool of `len` entries is read `v` entries at a time: height `h` selects the entries from
    `h*v mod len` up to `(h+1)*v mod len`, where a zero upper end stands for `len`. */
module Windows {

  function Start(h: nat, v: nat, len: nat): nat
    requires len > 0
  {
    (h * v) % len
  }

  function End(h: nat, v: nat, len: nat): nat
    requires len > 0
  {
    var end := ((h + 1) * v) % len;
    if end == 0 then len else end
  }

  lemma ModUnique(q: nat, r: nat, m: nat)
    requires r < m
    ensures (q * m + r) % m == r && (q * m + r) / m == q
  {
    var x := q * m + r;
    var q', r' := x / m, x % m;
    assert (q - q') * m == r' - r;
    if q < q' { MulMono(1, q' - q, m); }
    if q' < q { MulMono(1, q - q', m); }
  }

  lemma MulMono(a: nat, b: nat, m: nat)
    requires a <= b
    ensures a * m <= b * m
  {
    assert b * m == a * m + (b - a) * m;
  }

  /** Division with remainder of the successor. */
  lemma SuccDivMod(h: nat, m: nat)
    requires m > 0
    ensures h % m + 1 < m ==> (h + 1) / m == h / m && (h + 1) % m == h % m + 1
    ensures h % m + 1 == m ==> (h + 1) / m == h / m + 1 && (h + 1) % m == 0
  {
    var q, r := h / m, h % m;
    assert h == q * m + r;
    if r + 1 < m {
      ModUnique(q, r + 1, m);
    } else {
      assert h + 1 == (q + 1) * m + 0;
      ModUnique(q + 1, 0, m);
    }
  }

  /** The identity both window schemes rest on: `hV mod MV = V (h mod M)`. */
  lemma MulMod(h: nat, v: nat, m: nat)
    requires v > 0 && m > 0
    ensures m * v > 0 && (h * v) % (m * v) == (h % m) * v
  {
    var q, r := h / m, h % m;
    assert h == q * m + r;
    MulMono(r + 1, m, v);
    assert (r + 1) * v == r * v + v;
    assert h * v == q * (m * v) + r * v by {
      assert (q * m + r) * v == (q * m) * v + r * v;
      assert (q * m) * v == q * (m * v);
    }
    ModUnique(q, r * v, m * v);
  }

  /** When the pool holds `m` whole windows, height `h` reads exactly window `h mod m`. */
  lemma Aligned(h: nat, v: nat, m: nat)
    requires v > 0 && m > 0
    ensures m * v > 0
    ensures Start(h, v, m * v) == h % m * v
    ensures End(h, v, m * v) == (h % m + 1) * v <= m * v
  {
    MulMod(h, v, m);
    MulMod(h + 1, v, m);
    SuccDivMod(h, m);
    MulMono(h % m + 1, m, v);
    MulMono(1, h % m + 1, v);
  }

  ghost predicate AllWindowsOrdered(v: nat, len: nat)
    requires len > 0
  {
    forall h: nat :: Start(h, v, len) <= End(h, v, len)
  }

  lemma StartAt(h: nat, v: nat, len: nat, x: nat)
    requires x < len && h * v == x
    ensures Start(h, v, len) == x
  {
    ModUnique(0, x, len);
  }

  lemma EndAt(h: nat, v: nat, len: nat, x: nat)
    requires 0 < x < len && (h + 1) * v == len + x
    ensures End(h, v, len) == x
  {
    ModUnique(1, x, len);
    assert 1 * len + x == len + x;
  }

  /** A pool with a rest is read out of order where the rest begins. */
  lemma DisorderedAtRest(v: nat, len: nat, m: nat, r: nat)
    requires 0 < r < v <= len && len == m * v + r
    ensures Start(m, v, len) == len - r && End(m, v, len) == v - r
  {
    hide *;
    StartAt(m, v, len, len - r);
    assert (m + 1) * v == m * v + v;
    EndAt(m, v, len, v - r);
  }

  lemma OrderedWhenDivides(h: nat, v: nat, m: nat)
    requires v > 0 && m > 0
    ensures m * v > 0 && Start(h, v, m * v) <= End(h, v, m * v)
  {
    hide *;
    Aligned(h, v, m);
    MulMono(h % m, h % m + 1, v);
  }

  /** The slice expressions of the packing functions are valid at every height if and only if the
      batch size divides the pool length. */
  lemma WindowsOrderedIffDivides(v: nat, len: nat)
    requires 0 < v <= len
    ensures AllWindowsOrdered(v, len) <==> len % v == 0
  {
    hide Start, End;
    var m, r := len / v, len % v;
    assert len == m * v + r;
    if r == 0 {
      forall h: nat ensures Start(h, v, len) <= End(h, v, len) { OrderedWhenDivides(h, v, m); }
    } else {
      DisorderedAtRest(v, len, m, r);
      MulMono(1, m, v);
      assert Start(m, v, len) > End(m, v, len);
    }
  }

  ghost predicate AllWindowsFull(v: nat, len: nat)
    requires len > 0
  {
    forall h: nat :: End(h, v, len) - Start(h, v, len) == v
  }

  /** Every height selects exactly `v` entries if and only if the batch size divides the pool
      length. */
  lemma WindowsFullIffDivides(v: nat, len: nat)
    requires v > 0 && len > 0
    ensures AllWindowsFull(v, len) <==> len % v == 0
  {
    if v > len {
      ModUnique(0, len, v);
      assert Start(0, v, len) == 0 && End(0, v, len) <= len;
      assert !AllWindowsFull(v, len);
    } else if len % v == 0 {
      var m := len / v;
      assert len == m * v + len % v;
      forall h: nat ensures End(h, v, len) - Start(h, v, len) == v {
        Aligned(h, v, m);
        assert (h % m + 1) * v == h % m * v + v;
      }
    } else {
      WindowsOrderedIffDivides(v, len);
      assert !AllWindowsOrdered(v, len);
    }
  }

  predicate Covers(h: nat, j: nat, v: nat, len: nat)
    requires len > 0
  {
    Start(h, v, len) <= j < End(h, v, len)
  }

  /** How often the entry at index `j` was read by the windows of the heights below `h`. */
  function Executions(j: nat, h: nat, v: nat, len: nat): nat
    requires len > 0
  {
    if h == 0 then 0
    else Executions(j, h - 1, v, len) + (if Covers(h - 1, j, v, len) then 1 else 0)
  }

  lemma QuotientBound(j: nat, v: nat, m: nat)
    requires v > 0 && j < m * v
    ensures j / v < m
  {
    if j / v >= m { MulMono(m, j / v, v); }
  }

  lemma CoversIff(h: nat, j: nat, v: nat, m: nat)
    requires v > 0 && m > 0
    ensures m * v > 0 && (Covers(h, j, v, m * v) <==> j / v == h % m)
  {
    Aligned(h, v, m);
    var r, q := h % m, j / v;
    assert j == q * v + j % v;
    assert (r + 1) * v == r * v + v && (q + 1) * v == q * v + v;
    if q < r { MulMono(q + 1, r, v); }
    if q > r { MulMono(r + 1, q, v); }
  }

  /** Fair round robin: after `h` windows the entry at index `j` was read `h/m` times, once more
      if its batch comes before the current one in the period under way. */
  lemma {:induction false} FairRoundRobin(j: nat, h: nat, v: nat, m: nat)
    requires v > 0 && m > 0 && j < m * v
    ensures Executions(j, h, v, m * v) == h / m + (if j / v < h % m then 1 else 0)
  {
    QuotientBound(j, v, m);
    if h == 0 {
      ModUnique(0, 0, m);
    } else {
      FairRoundRobin(j, h - 1, v, m);
      CoversIff(h - 1, j, v, m);
      SuccDivMod(h - 1, m);
    }
  }

  /** Every `m` consecutive heights read every entry exactly once more. */
  lemma OncePerPeriod(j: nat, h: nat, v: nat, m: nat)
    requires v > 0 && m > 0 && j < m * v
    ensures Executions(j, h + m, v, m * v) == Executions(j, h, v, m * v) + 1
  {
    FairRoundRobin(j, h, v, m);
    FairRoundRobin(j, h + m, v, m);
    DivModPeriod(h, m);
  }

  lemma DivModPeriod(h: nat, m: nat)
    requires m > 0
    ensures (h + m) / m == h / m + 1 && (h + m) % m == h % m
  {
    assert h + m == (h / m + 1) * m + h % m;
    ModUnique(h / m + 1, h % m, m);
  }

  lemma Rotated(n: nat, i: nat, len: nat)
    requires i < len
    ensures (n + i) % len == if n % len + i < len then n % len + i else n % len + i - len
  {
    var q, r := n / len, n % len;
    assert n == q * len + r;
    if r + i < len {
      ModUnique(q, r + i, len);
    } else {
      assert n + i == (q + 1) * len + (r + i - len);
      ModUnique(q + 1, r + i - len, len);
    }
  }

  /** The first `n` indices of a pool of `len` entries read over and over again. */
  function Cycle(n: nat, len: nat): seq<nat>
    requires len > 0
  {
    if n == 0 then [] else Cycle(n - 1, len) + [(n - 1) % len]
  }

  lemma {:induction false} CycleAt(n: nat, len: nat)
    requires len > 0
    ensures |Cycle(n, len)| == n && forall i :: 0 <= i < n ==> Cycle(n, len)[i] == i % len
  {
    if n > 0 { CycleAt(n - 1, len); }
  }

  lemma CycleOne(n: nat, len: nat, j: nat)
    requires len > 0
    ensures multiset(Cycle(n + 1, len))[j] == multiset(Cycle(n, len))[j] + (if n % len == j then 1 else 0)
  {
  }

  /** `k` more indices that stay within one repetition. */
  lemma {:induction false} CycleMore(n: nat, k: nat, len: nat, j: nat)
    requires len > 0 && n % len + k <= len
    ensures multiset(Cycle(n + k, len))[j] ==
      multiset(Cycle(n, len))[j] + (if n % len <= j < n % len + k then 1 else 0)
  {
    hide Cycle;
    if k > 0 {
      CycleMore(n, k - 1, len, j);
      Rotated(n, k - 1, len);
      CycleOne(n + k - 1, len, j);
    }
  }

  lemma ExecutionsNext(j: nat, h: nat, v: nat, m: nat, r: nat)
    requires v > 0 && m > 0 && r == h % m * v
    ensures m * v > 0 && (h * v) % (m * v) == r && r + v <= m * v
    ensures Executions(j, h + 1, v, m * v) == Executions(j, h, v, m * v) + (if r <= j < r + v then 1 else 0)
  {
    hide Start, End;
    Aligned(h, v, m);
    MulMod(h, v, m);
    assert (h % m + 1) * v == r + v;
  }

  lemma NoWindow(j: nat, v: nat, len: nat)
    requires len > 0
    ensures Cycle(0, len) == [] && Executions(j, 0, v, len) == 0
  {
  }

  /** One more window in both readings. */
  lemma OneWindow(j: nat, h: nat, v: nat, m: nat, before: nat, len: nat)
    requires v > 0 && m > 0 && before == h * v && len == m * v && len > 0
    ensures multiset(Cycle(before + v, len))[j] + Executions(j, h, v, len) ==
      multiset(Cycle(before, len))[j] + Executions(j, h + 1, v, len)
  {
    hide *;
    ExecutionsNext(j, h, v, m, h % m * v);
    CycleMore(before, v, len, j);
  }

  lemma {:induction false} CycleExecutionsOf(j: nat, h: nat, v: nat, m: nat, n: nat, len: nat)
    requires v > 0 && m > 0 && n == h * v && len == m * v && len > 0
    ensures multiset(Cycle(n, len))[j] == Executions(j, h, v, len)
  {
    hide *;
    NoWindow(j, v, len);
    if h > 0 {
      var before := (h - 1) * v;
      assert before + v == n;
      CycleExecutionsOf(j, h - 1, v, m, before, len);
      OneWindow(j, h - 1, v, m, before, len);
    }
  }

  /** The windows of the first `h` heights read index `j` as often as counted by `Executions`. */
  lemma CycleExecutions(j: nat, h: nat, v: nat, m: nat)
    requires v > 0 && m > 0
    ensures m * v > 0 && h * v >= 0
    ensures multiset(Cycle(h * v, m * v))[j] == Executions(j, h, v, m * v)
  {
    MulMono(1, m, v);
    CycleExecutionsOf(j, h, v, m, h * v, m * v);
  }
}
