/** The window of wrench samples and its mean. */
module WrenchBias {

  const WRENCH_DIM := 6

  type Wrench = w: seq<real> | |w| == WRENCH_DIM witness ZERO

  const ZERO: seq<real> := seq(WRENCH_DIM, _ => 0.0)

  function Sum(s: seq<Wrench>, j: nat): real
    requires j < WRENCH_DIM
  {
    if s == [] then 0.0 else Sum(s[..|s| - 1], j) + s[|s| - 1][j]
  }

  function Total(s: seq<Wrench>): Wrench {
    seq(WRENCH_DIM, j requires 0 <= j < WRENCH_DIM => Sum(s, j))
  }

  /** The componentwise mean; that of no samples is zero. */
  function Mean(s: seq<Wrench>): (m: Wrench)
  {
    if s == [] then ZERO else seq(WRENCH_DIM, j requires 0 <= j < WRENCH_DIM => Total(s)[j] / |s| as real)
  }

  /** The last n samples, or all of them when there are fewer. */
  function Last(s: seq<Wrench>, n: nat): (r: seq<Wrench>)
    ensures |r| == if |s| < n then |s| else n
    ensures r <= s[|s| - |r|..]
  {
    if |s| <= n then s else s[|s| - n..]
  }

  lemma {:induction false} SumOfConcat(a: seq<Wrench>, b: seq<Wrench>, j: nat)
    requires j < WRENCH_DIM
    ensures Sum(a + b, j) == Sum(a, j) + Sum(b, j)
    decreases |b|
  {
    if b == [] {
      assert a + b == a;
    } else {
      var n := |b| - 1;
      assert (a + b)[..|a| + n] == a + b[..n];
      SumOfConcat(a, b[..n], j);
    }
  }

  /** The mean does not depend on where a ring of samples is cut. */
  lemma MeanOfRotation(a: seq<Wrench>, b: seq<Wrench>)
    ensures Mean(a + b) == Mean(b + a)
  {
    forall j: nat | j < WRENCH_DIM ensures Total(a + b)[j] == Total(b + a)[j] {
      SumOfConcat(a, b, j);
      SumOfConcat(b, a, j);
    }
    assert |a + b| == |b + a|;
    forall j: nat | j < WRENCH_DIM ensures Mean(a + b)[j] == Mean(b + a)[j] {
      MeanAt(a + b, j);
      MeanAt(b + a, j);
    }
  }

  lemma MeanAt(s: seq<Wrench>, j: nat)
    requires j < WRENCH_DIM
    ensures Mean(s)[j] == if s == [] then 0.0 else Total(s)[j] / |s| as real
  {
    assert ZERO[j] == 0.0;
  }

  lemma TotalStep(s: seq<Wrench>, w: Wrench)
    ensures forall j :: 0 <= j < WRENCH_DIM ==> Total(s + [w])[j] == Total(s)[j] + w[j]
  {
    assert (s + [w])[..|s|] == s;
  }

  /** Adds a sample component by component. */
  method Add(mean: Wrench, sample: Wrench) returns (r: Wrench)
    ensures forall j :: 0 <= j < WRENCH_DIM ==> r[j] == mean[j] + sample[j]
  {
    r := mean;
    for j := 0 to WRENCH_DIM
      invariant forall l: nat :: l < WRENCH_DIM ==> r[l] == if l < j then mean[l] + sample[l] else mean[l]
    {
      r := r[j := r[j] + sample[j]];
    }
  }

  /** Divides component by component. */
  method Divide(mean: Wrench, n: nat) returns (r: Wrench)
    requires n > 0
    ensures forall j :: 0 <= j < WRENCH_DIM ==> r[j] == mean[j] / n as real
  {
    r := mean;
    for j := 0 to WRENCH_DIM
      invariant forall l: nat :: l < WRENCH_DIM ==> r[l] == if l < j then mean[l] / n as real else mean[l]
    {
      r := r[j := r[j] / n as real];
    }
  }

  /** The ring holds the last samples, the index where the next one goes. */
  ghost predicate Holds(ring: seq<Wrench>, idx: nat, full: bool, history: seq<Wrench>) {
    && idx < |ring| && idx <= |history| && ring[..idx] == history[|history| - idx..]
    && (full ==> |history| >= |ring| && ring[idx..] == history[|history| - |ring|..|history| - idx])
    && (!full ==> |history| == idx)
  }

  lemma PushHolds(ring: seq<Wrench>, idx: nat, full: bool, history: seq<Wrench>, sample: Wrench)
    requires Holds(ring, idx, full, history)
    ensures idx < |ring|
    ensures var last := idx + 1 == |ring|;
      Holds(ring[idx := sample], if last then 0 else idx + 1, full || last, history + [sample])
  {
    PrefixGrows(ring, idx, history, sample);
    if full {
      SuffixShrinks(ring, idx, history, sample);
    }
    var r, h := ring[idx := sample], history + [sample];
    if idx + 1 == |ring| {
      RingIsFull(r, h);
    }
  }

  lemma PrefixGrows(ring: seq<Wrench>, idx: nat, history: seq<Wrench>, sample: Wrench)
    requires idx < |ring| && idx <= |history| && ring[..idx] == history[|history| - idx..]
    ensures ring[idx := sample][..idx + 1] == (history + [sample])[|history| - idx..]
  {
    assert ring[idx := sample][..idx + 1] == ring[..idx] + [sample];
    assert (history + [sample])[|history| - idx..] == history[|history| - idx..] + [sample];
  }

  lemma SuffixShrinks(ring: seq<Wrench>, idx: nat, history: seq<Wrench>, sample: Wrench)
    requires idx < |ring| <= |history| && ring[idx..] == history[|history| - |ring|..|history| - idx]
    ensures ring[idx := sample][idx + 1..] == (history + [sample])[|history| + 1 - |ring|..|history| - idx]
  {
    assert ring[idx := sample][idx + 1..] == ring[idx..][1..];
    assert (history + [sample])[|history| + 1 - |ring|..|history| - idx] ==
      history[|history| - |ring|..|history| - idx][1..];
  }

  lemma RingIsFull(r: seq<Wrench>, h: seq<Wrench>)
    requires 0 < |r| <= |h| && r[..|r|] == h[|h| - |r|..]
    ensures Holds(r, 0, true, h)
  {
    assert r[..|r|] == r == r[0..] && h[|h| - |r|..] == h[|h| - |r|..|h| - 0];
    assert r[..0] == [] == h[|h| - 0..];
  }

  lemma ZerosHold(ring: seq<Wrench>, idx: nat, full: bool, history: seq<Wrench>)
    requires Holds(ring, idx, full, history)
    ensures Holds(Zeros(|ring|), idx, full, Zeros(|history|))
  {
  }

  lemma RingMean(ring: seq<Wrench>, idx: nat, full: bool, history: seq<Wrench>)
    requires Holds(ring, idx, full, history)
    ensures idx < |ring|
    ensures full ==> Mean(ring) == Mean(Last(history, |ring|))
    ensures !full ==> ring[..idx] == history == Last(history, |ring|)
  {
    hide Mean;
    if full {
      WindowIsRotation(ring, history, idx);
    }
  }

  class WrenchBuffer {
    const window: nat
    const buffer: array<Wrench>
    var idx: nat
    var full: bool

    /** All samples since the first configuration. */
    ghost var history: seq<Wrench>

    ghost predicate Valid()
      reads this, buffer
    {
      buffer.Length == window > 0 && Holds(buffer[..], idx, full, history)
    }

    /** The first configuration fills the window with zeros. */
    constructor (window: nat)
      requires window > 0
      ensures Valid() && this.window == window && history == [] && fresh(buffer)
    {
      this.window := window;
      buffer := new Wrench[window](_ => ZERO);
      idx, full := 0, false;
      history := [];
    }

    /** A later configuration zeroes the samples but not the index: it counts as if all samples had been zero. */
    method Configure()
      requires Valid()
      modifies this, buffer
      ensures Valid() && history == Zeros(|old(history)|)
      ensures forall k :: 0 <= k < |history| ==> history[k] == ZERO
    {
      hide Holds;
      ZerosHold(buffer[..], idx, full, history);
      for i := 0 to window
        modifies buffer
        invariant forall k :: 0 <= k < i ==> buffer[k] == ZERO
      {
        buffer[i] := ZERO;
      }
      history := Zeros(|history|);
      assert buffer[..] == Zeros(window);
    }

    /** One control cycle's sample. */
    method Push(sample: Wrench)
      requires Valid()
      modifies this, buffer
      ensures Valid() && history == old(history) + [sample]
    {
      hide Holds;
      PushHolds(buffer[..], idx, full, history, sample);
      buffer[idx] := sample;
      idx := idx + 1;
      history := history + [sample];
      if idx >= window {
        idx := 0;
        full := true;
      }
      assert buffer[..] == old(buffer[..])[old(idx) := sample];
    }

    /** However often the window wrapped around, the bias is the mean of the last samples that fit into it. */
    method ComputeBias() returns (mean: Wrench)
      requires Valid()
      ensures mean == Mean(Last(history, window))
    {
      hide Mean, Last, Total, Holds;
      RingMean(buffer[..], idx, full, history);
      mean := ZERO;
      var validSize := if full then window else idx;
      NoSamples();
      if validSize == 0 {
        return;
      }
      ghost var samples := buffer[..validSize];
      for i := 0 to validSize
        invariant mean == Total(samples[..i])
      {
        mean := Add(mean, buffer[i]);
        TotalStep(samples[..i], samples[i]);
        assert samples[..i + 1] == samples[..i] + [samples[i]];
      }
      assert samples[..validSize] == samples;
      mean := Divide(mean, validSize);
      MeanIs(samples, mean);
      assert full ==> samples == buffer[..];
    }
  }

  lemma NoSamples()
    ensures Total([]) == ZERO && Mean([]) == ZERO
  {
  }

  lemma MeanIs(s: seq<Wrench>, mean: Wrench)
    requires s != [] && forall j :: 0 <= j < WRENCH_DIM ==> mean[j] == Total(s)[j] / |s| as real
    ensures mean == Mean(s)
  {
  }

  /** The ring holds the last samples, cut at the index. */
  lemma WindowIsRotation(ring: seq<Wrench>, history: seq<Wrench>, idx: nat)
    requires idx <= |ring| <= |history|
    requires ring[..idx] == history[|history| - idx..]
    requires ring[idx..] == history[|history| - |ring|..|history| - idx]
    ensures Mean(ring) == Mean(Last(history, |ring|))
  {
    hide Mean;
    var n := |history|;
    assert ring == ring[..idx] + ring[idx..];
    assert Last(history, |ring|) == history[n - |ring|..n - idx] + history[n - idx..];
    MeanOfRotation(ring[..idx], ring[idx..]);
  }

  // -------------------------------------------------------------------------
  // A later configuration
  // -------------------------------------------------------------------------

  function Zeros(n: nat): (s: seq<Wrench>)
    ensures |s| == n
  {
    seq(n, _ => ZERO)
  }

  lemma {:induction false} SumOfZeros(n: nat, j: nat)
    requires j < WRENCH_DIM
    ensures Sum(Zeros(n), j) == 0.0
  {
    if n > 0 {
      SumOfZeros(n - 1, j);
      assert Zeros(n)[..n - 1] == Zeros(n - 1);
    }
  }

  /** The last samples when n zeros precede the ones since the configuration. */
  lemma LastWithZeros(n: nat, s: seq<Wrench>, window: nat)
    ensures |s| >= window ==> Last(Zeros(n) + s, window) == Last(s, window)
    ensures |s| < window ==>
      && Last(s, window) == s
      && Last(Zeros(n) + s, window) == Zeros(if n + |s| <= window then n else window - |s|) + s
  {
  }

  /** After n samples, a configuration and the samples s, a component of the bias is that of the mean of s, as far as it
      fits the window, exactly when there were no earlier samples, or s fills the window, or sums to zero. */
  lemma ZerosCountUnless(n: nat, s: seq<Wrench>, window: nat, j: nat)
    requires j < WRENCH_DIM
    ensures Mean(Last(Zeros(n) + s, window))[j] == Mean(Last(s, window))[j] <==>
      n == 0 || |s| >= window || Sum(s, j) == 0.0
  {
    hide Mean, Last, Sum, Total;
    LastWithZeros(n, s, window);
    if n == 0 {
      assert Zeros(n) + s == s;
    } else if |s| < window {
      MeanWithZeros(if n + |s| <= window then n else window - |s|, s, j);
    }
  }

  lemma MeanWithZeros(m: nat, s: seq<Wrench>, j: nat)
    requires m > 0 && j < WRENCH_DIM
    ensures Mean(Zeros(m) + s)[j] == Mean(s)[j] <==> Sum(s, j) == 0.0
  {
    hide Mean, Sum, Total;
    SumOfConcat(Zeros(m), s, j);
    SumOfZeros(m, j);
    SumOfNothing(j);
    MeanTimesCount(Zeros(m) + s, j);
    MeanTimesCount(s, j);
    SameQuotient(Sum(s, j), |s| as real, (m + |s|) as real, Mean(s)[j], Mean(Zeros(m) + s)[j]);
  }

  lemma MeanTimesCount(s: seq<Wrench>, j: nat)
    requires j < WRENCH_DIM
    ensures Mean(s)[j] * |s| as real == Sum(s, j) && (s == [] ==> Mean(s)[j] == 0.0)
  {
    MeanAt(s, j);
  }

  lemma SameQuotient(x: real, a: real, b: real, p: real, q: real)
    requires 0.0 <= a < b && p * a == x && q * b == x && (a == 0.0 ==> p == 0.0)
    ensures q == p <==> x == 0.0
  {
    if q == p {
      assert p * (b - a) == 0.0;
    }
  }

  lemma SumOfNothing(j: nat)
    requires j < WRENCH_DIM
    ensures Sum([], j) == 0.0
  {
  }

  /** The input: one sample, a configuration and one more sample leave half of the only sample since the
      configuration. */
  lemma OneZeroHalves(sample: Wrench, window: nat, j: nat)
    requires window >= 2 && j < WRENCH_DIM
    ensures Mean(Last(Zeros(1) + [sample], window))[j] == sample[j] / 2.0
  {
    LastWithZeros(1, [sample], window);
    hide Mean, Last;
    MeanTimesCount(Zeros(1) + [sample], j);
    SumOfConcat(Zeros(1), [sample], j);
    SumOfZeros(1, j);
    assert [sample][..0] == [];
  }

  /** Earlier samples, a configuration, later samples, and the bias: the earlier samples count as zeros. */
  method BiasAfterReconfiguration(window: nat, earlier: seq<Wrench>, later: seq<Wrench>) returns (bias: Wrench)
    requires window > 0
    ensures bias == Mean(Last(Zeros(|earlier|) + later, window))
  {
    hide Mean, Last, Holds;
    var buffer := new WrenchBuffer(window);
    for i := 0 to |earlier|
      invariant fresh(buffer) && fresh(buffer.buffer) && buffer.Valid() && buffer.history == earlier[..i]
    {
      buffer.Push(earlier[i]);
    }
    buffer.Configure();
    assert buffer.history == Zeros(|earlier|) + later[..0];
    for i := 0 to |later|
      invariant fresh(buffer) && fresh(buffer.buffer) && buffer.Valid() &&
        buffer.history == Zeros(|earlier|) + later[..i]
    {
      buffer.Push(later[i]);
      assert later[..i + 1] == later[..i] + [later[i]];
    }
    assert later[..|later|] == later;
    bias := buffer.ComputeBias();
  }
}
