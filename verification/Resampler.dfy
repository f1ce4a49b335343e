/** The 4x polyphase upsampler, over exact reals, against the plain filter it stands for. */
module Resampler {
  import opened Common

  const TAPS := 33
  const HALF := TAPS / 2
  const L := 4
  const MAX_PHASE_TAPS := 9

  datatype Phase = Phase(taps: seq<real>, count: nat, base: int)

  /** clamp16: saturate, then truncate toward zero. */
  function Clamp16(v: real): (r: int)
    ensures v >= 32767.0 ==> r == 32767
    ensures v <= -32768.0 ==> r == -32768
    ensures 0.0 <= v <= 32767.0 ==> r as real <= v < r as real + 1.0
    ensures -32768.0 <= v <= 0.0 ==> r as real - 1.0 < v <= r as real
  {
    if v > 32767.0 then 32767
    else if v < -32768.0 then -32768
    else if v >= 0.0 then v.Floor
    else -((-v).Floor)
  }

  // ---- Specification: zero-stuff by four, then the full filter -----------------------------------

  /** The input followed and preceded by silence. */
  function At(x: seq<int>, i: int): real { if 0 <= i < |x| then x[i] as real else 0.0 }

  /** The input with three zeros after every sample. */
  function ZeroStuffed(x: seq<int>, i: int): real { if i % L == 0 then At(x, i / L) else 0.0 }

  /** The first n terms of the 33-tap filter, centred on position o of the zero-stuffed input. */
  function Fir(h: seq<real>, x: seq<int>, o: int, n: nat): real
    requires n <= |h|
  {
    if n == 0 then 0.0 else Fir(h, x, o, n - 1) + h[n - 1] * ZeroStuffed(x, o - HALF + (n - 1))
  }

  /** A single sample v at position k answers with the 33 taps, the last first, centred on output 4k. */
  lemma {:induction false} Impulse(h: seq<real>, x: seq<int>, k: nat, o: int, n: nat)
    requires n <= |h| && k < |x| && forall i :: 0 <= i < |x| && i != k ==> x[i] == 0
    ensures Fir(h, x, o, n) == if 0 <= 16 + 4 * k - o < n then h[16 + 4 * k - o] * x[k] as real else 0.0
  {
    if n > 0 {
      Impulse(h, x, k, o, n - 1);
      var i := o - HALF + (n - 1);
      assert i % L == 0 ==> i == L * (i / L);
      assert ZeroStuffed(x, i) == if i == L * k then x[k] as real else 0.0;
    }
  }

  // ---- The phases --------------------------------------------------------------------------------------

  /** Index of the first tap of phase p. */
  function First(p: nat): (t: nat)
    ensures t < L
  {
    (HALF - p % L) % L
  }

  /** Phase p holds every fourth tap from First(p) on, and starts at the sample under the first one. */
  ghost predicate IsPhase(h: seq<real>, p: nat, ph: Phase) {
    && |h| == TAPS && |ph.taps| == MAX_PHASE_TAPS && ph.count <= MAX_PHASE_TAPS
    && L * ph.base == p - HALF + First(p)
    && First(p) + L * (ph.count - 1) < TAPS <= First(p) + L * ph.count
    && forall j :: 0 <= j < ph.count ==> First(p) + L * j < TAPS && ph.taps[j] == h[First(p) + L * j]
  }

  /** The source's own expression for the first tap, and its exact division for the base. */
  lemma FirstTap(p: nat)
    requires p < L
    ensures ((HALF - p) % L + L) % L == First(p) && L * ((p - HALF + First(p)) / L) == p - HALF + First(p)
  {}

  /** The tap at position j of phase p. */
  function Place(p: nat, j: int): int { First(p) + L * j }

  lemma PhaseCounts(h: seq<real>, p: nat, ph: Phase)
    requires p < L && IsPhase(h, p, ph)
    ensures ph.count == (if p == 0 then 9 else 8)
  {}

  lemma PlaceOf(t: nat) returns (p: nat, j: nat)
    requires t < TAPS
    ensures p < L && Place(p, j) == t && j < (if p == 0 then 9 else 8)
  {
    p := (HALF - t % L) % L;
    j := t / L;
  }

  lemma PlaceUnique(p: nat, j: int, p': nat, j': int)
    requires p < L && p' < L && Place(p, j) == Place(p', j')
    ensures p == p' && j == j'
  {}

  /** The four phases split the 33 taps: tap t is in exactly one phase, at exactly one position. */
  lemma PhasesPartition(h: seq<real>, phases: seq<Phase>, t: nat) returns (p: nat, j: nat)
    requires |phases| == L && (forall q :: 0 <= q < L ==> IsPhase(h, q, phases[q])) && t < TAPS
    ensures p < L && j < phases[p].count && Place(p, j) == t
    ensures |h| == TAPS && j < |phases[p].taps| && phases[p].taps[j] == h[t]
    ensures forall p', j' :: 0 <= p' < L && 0 <= j' < phases[p'].count && Place(p', j') == t ==> p' == p && j' == j
  {
    p, j := PlaceOf(t);
    PhaseCounts(h, p, phases[p]);
    forall p', j' | 0 <= p' < L && 0 <= j' < phases[p'].count && Place(p', j') == t
      ensures p' == p && j' == j
    {
      PlaceUnique(p, j, p', j');
    }
  }

  /** The first n terms of a phase's sum for output o. */
  function PhaseSum(ph: Phase, x: seq<int>, m: int, n: nat): real
    requires n <= |ph.taps|
  {
    if n == 0 then 0.0 else PhaseSum(ph, x, m, n - 1) + ph.taps[n - 1] * At(x, m + ph.base + (n - 1))
  }

  /** How many of the first n taps belong to the phase whose first tap is t0. */
  function Used(t0: nat, n: nat): nat
    requires t0 < L
  {
    (n + L - 1 - t0) / L
  }

  /** Of the filter's terms only every fourth meets a sample: those are the phase's terms. */
  lemma {:induction false} PhaseIsFir(h: seq<real>, ph: Phase, x: seq<int>, o: nat, n: nat)
    requires IsPhase(h, o % L, ph) && n <= TAPS
    ensures Used(First(o % L), n) <= ph.count
    ensures PhaseSum(ph, x, o / L, Used(First(o % L), n)) == Fir(h, x, o, n)
  {
    hide First, Used, ZeroStuffed, At, IsPhase;
    var t0 := First(o % L);
    UsedStep(t0, n);
    if n > 0 {
      PhaseIsFir(h, ph, x, o, n - 1);
      var j := Used(t0, n - 1);
      PhaseTap(h, o, ph, n - 1, j);
      TermsAgree(x, o, n - 1, ph.base, j);
    }
  }

  lemma UsedStep(t0: nat, n: nat)
    requires t0 < L
    ensures n == 0 ==> Used(t0, n) == 0
    ensures n > 0 ==> Used(t0, n) == Used(t0, n - 1) + if (n - 1) % L == t0 then 1 else 0
    ensures n > 0 && (n - 1) % L == t0 ==> n - 1 == t0 + L * Used(t0, n - 1)
  {}

  /** Tap t of the filter is tap j of its phase. */
  lemma PhaseTap(h: seq<real>, o: nat, ph: Phase, t: nat, j: nat)
    requires IsPhase(h, o % L, ph) && t < TAPS && j <= ph.count
    ensures |h| == TAPS && |ph.taps| == MAX_PHASE_TAPS && ph.count <= MAX_PHASE_TAPS && First(o % L) < L
    ensures L * ph.base == o % L - HALF + First(o % L)
    ensures t == First(o % L) + L * j ==> j < ph.count && ph.taps[j] == h[t]
  {}

  /** The filter's term at tap t meets a sample only on the phase, and then the phase's own. */
  lemma TermsAgree(x: seq<int>, o: nat, t: nat, base: int, j: nat)
    requires L * base == o % L - HALF + First(o % L)
    ensures t % L != First(o % L) ==> ZeroStuffed(x, o - HALF + t) == 0.0
    ensures t == First(o % L) + L * j ==> ZeroStuffed(x, o - HALF + t) == At(x, o / L + base + j)
  {
    hide First, At;
    StuffedPlace(o, t, base);
    if t == First(o % L) + L * j { Stuffed(x, o / L + base + j); }
  }

  lemma Stuffed(x: seq<int>, i: int)
    ensures ZeroStuffed(x, L * i) == At(x, i)
  {
    assert L * i % L == 0 && L * i / L == i;
  }

  lemma StuffedPlace(o: nat, t: nat, base: int)
    requires L * base == o % L - HALF + First(o % L)
    ensures (o - HALF + t) % L == 0 <==> t % L == First(o % L)
    ensures t % L == First(o % L) ==> o - HALF + t == L * (o / L + base + (t - First(o % L)) / L)
  {
    var first := First(o % L);
    hide First;
    var u, w := t / L, t % L;
    var whole := o / L + base + u;
    assert o - HALF + t == L * whole + (w - first);
    OnGrid(whole, w - first);
    if w == first { OnGrid(u, 0); }
  }

  /** A number that is d more than a multiple of four. */
  lemma OnGrid(q: int, d: int)
    requires -L < d < L
    ensures (L * q + d) % L == 0 <==> d == 0
    ensures L * q / L == q
  {
    DivMod(q, 0, L);
    if d >= 0 { DivMod(q, d, L); } else { DivMod(q - 1, d + L, L); }
  }

  /** For every input, however short, and every output position, edges included. */
  lemma PolyphaseIsFir(h: seq<real>, ph: Phase, x: seq<int>, o: nat)
    requires IsPhase(h, o % L, ph)
    ensures PhaseSum(ph, x, o / L, ph.count) == Fir(h, x, o, TAPS)
  {
    PhaseIsFir(h, ph, x, o, TAPS);
    assert Used(First(o % L), TAPS) == ph.count;
  }

  // ---- The program ---------------------------------------------------------------------------------------------

  class Filter {
    const filterTaps: array<real>
    const phases: array<Phase>

    ghost predicate Designed()
      reads filterTaps, phases
    {
      && filterTaps.Length == TAPS && phases.Length == L
      && forall p :: 0 <= p < L ==> IsPhase(filterTaps[..], p, phases[p])
    }

    /** design_filters, from given (already normalised) taps on. */
    constructor (taps: seq<real>)
      requires |taps| == TAPS
      ensures Designed() && filterTaps[..] == taps && fresh(filterTaps) && fresh(phases)
    {
      filterTaps := new real[TAPS](i requires 0 <= i < TAPS => taps[i]);
      phases := new Phase[L](_ => Phase(seq(MAX_PHASE_TAPS, _ => 0.0), 0, 0));
      new;
      assert filterTaps[..] == taps;
      for p := 0 to L
        invariant filterTaps[..] == taps && phases.Length == L
        invariant forall q :: 0 <= q < L ==> |phases[q].taps| == MAX_PHASE_TAPS
        invariant forall q :: 0 <= q < p ==> IsPhase(taps, q, phases[q])
      {
        Split(p);
      }
    }

    method Split(p: nat)
      requires filterTaps.Length == TAPS && phases.Length == L && p < L && |phases[p].taps| == MAX_PHASE_TAPS
      modifies phases
      ensures IsPhase(filterTaps[..], p, phases[p])
      ensures forall q :: 0 <= q < L && q != p ==> phases[q] == old(phases[q])
    {
      hide First;
      FirstTap(p);
      var t0 := ((HALF - p) % L + L) % L;
      phases[p] := phases[p].(base := (p - HALF + t0) / L);
      var cnt, t := 0, t0;
      while t < TAPS
        invariant t == t0 + L * cnt && cnt <= MAX_PHASE_TAPS && (cnt > 0 ==> t - L < TAPS)
        invariant |phases[p].taps| == MAX_PHASE_TAPS && L * phases[p].base == p - HALF + t0
        invariant forall j :: 0 <= j < cnt ==> t0 + L * j < TAPS && phases[p].taps[j] == filterTaps[t0 + L * j]
        invariant forall q :: 0 <= q < L && q != p ==> phases[q] == old(phases[q])
      {
        phases[p] := phases[p].(taps := phases[p].taps[cnt := filterTaps[t]]);
        cnt := cnt + 1;
        t := t + L;
      }
      phases[p] := phases[p].(count := cnt);
    }

    /** upsample4x: every output sample is four times the full filter over the zero-stuffed input. */
    method Upsample(input: array<int>, n: nat, out: array<int>) returns (outN: nat)
      requires Designed() && n <= input.Length && L * n <= out.Length && out != input
      modifies out
      ensures outN == 4 * n
      ensures forall o :: 0 <= o < outN ==> out[o] == Clamp16(Fir(filterTaps[..], input[..n], o, 33) * 4.0)
    {
      outN := n * L;
      ghost var x := input[..n];
      for o := 0 to outN
        invariant input[..n] == x
        invariant forall i :: 0 <= i < o ==> out[i] == Clamp16(Fir(filterTaps[..], x, i, TAPS) * 4.0)
      {
        var acc := OneSample(input, n, o);
        out[o] := Clamp16(acc * 4.0);
      }
    }

    method OneSample(input: array<int>, n: nat, o: nat) returns (acc: real)
      requires Designed() && n <= input.Length
      ensures acc == Fir(filterTaps[..], input[..n], o, TAPS)
    {
      hide Fir;
      var ph := phases[o % L];
      assert IsPhase(filterTaps[..], o % L, ph);
      var m := o / L;
      acc := 0.0;
      for j := 0 to ph.count
        invariant acc == PhaseSum(ph, input[..n], m, j)
      {
        var src := m + ph.base + j;
        if src >= 0 && src < n { acc := acc + ph.taps[j] * input[src] as real; }
      }
      PolyphaseIsFir(filterTaps[..], ph, input[..n], o);
    }
  }
}
