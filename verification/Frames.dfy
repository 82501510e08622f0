/** Index arithmetic of interleaved frames: sample c of frame f among n channels lies at
    f*n + c. The multiplication is kept inside this module. */
module Frames {

  function At(f: nat, n: nat, c: nat): nat {
    f * n + c
  }

  lemma Start(f: nat, n: nat)
    ensures At(0, n, 0) == 0 && At(f, n, 0) == f * n
    ensures At(f + 1, n, 0) == At(f, n, 0) + n
    ensures n > 0 ==> At(f, n, 0) >= f
  {
  }

  lemma AtOffset(n: nat)
    ensures forall f: nat, c: nat {:trigger At(f, n, c)} :: At(f, n, c) == At(f, n, 0) + c
  {
  }

  lemma Later(f: nat, g: nat, n: nat)
    requires f < g
    ensures At(f, n, 0) + n <= At(g, n, 0)
  {
    var d := g - f - 1;
    assert g * n == f * n + n + d * n;
  }

  /** Frames lie one after the other: those before i end where i starts, those after start
      where i ends. */
  lemma Around(i: nat, n: nat)
    ensures forall f: nat, c: nat {:trigger At(f, n, c)} :: f < i && c < n ==> At(f, n, c) < At(i, n, 0)
    ensures forall f: nat, c: nat {:trigger At(f, n, c)} :: f > i ==> At(f, n, c) >= At(i, n, 0) + n
  {
    AtOffset(n);
    forall f: nat | f < i ensures At(f, n, 0) + n <= At(i, n, 0) { Later(f, i, n); }
    forall f: nat | f > i ensures At(i, n, 0) + n <= At(f, n, 0) { Later(i, f, n); }
  }

  /** Different samples lie at different places. */
  lemma Injective(f: nat, c: nat, g: nat, d: nat, n: nat)
    requires c < n && d < n && At(f, n, c) == At(g, n, d)
    ensures f == g && c == d
  {
    if f < g { Later(f, g, n); } else if g < f { Later(g, f, n); }
  }

  /** Every place below frames*n is some sample. */
  lemma Covered(k: nat, frames: nat, n: nat) returns (f: nat, c: nat)
    requires k < frames * n
    ensures f < frames && c < n && k == At(f, n, c)
  {
    f, c := k / n, k % n;
    assert k == f * n + c;
    if f >= frames {
      AtMost(frames, f, n);
    }
  }

  lemma AtMost(f: nat, g: nat, n: nat)
    requires f <= g
    ensures f * n <= g * n
  {
  }

  /** The whole frames of m samples are among the m samples. */
  lemma WholeFrames(m: nat, n: nat)
    requires n > 0
    ensures At(m / n, n, 0) <= m
  {
    assert m == (m / n) * n + m % n;
  }
}
