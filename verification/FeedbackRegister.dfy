/** A linear shift register with feedback, over any carrier with an exclusive-or. */
module FeedbackRegister {

  function Fold<T>(step: (T, bool) -> T, x: T, bits: seq<bool>): T {
    if bits == [] then x else step(Fold(step, x, bits[..|bits| - 1]), bits[|bits| - 1])
  }

  function Iterate<T>(f: T -> T, x: T, k: nat): T {
    if k == 0 then x else f(Iterate(f, x, k - 1))
  }

  function Zeros(n: nat): (z: seq<bool>)
    ensures |z| == n
  {
    seq(n, i => false)
  }

  function XorBits(x: seq<bool>, y: seq<bool>): (r: seq<bool>)
    requires |x| == |y|
    ensures |r| == |x|
  {
    seq(|x|, i requires 0 <= i < |x| => x[i] != y[i])
  }

  lemma {:induction false} FoldConcat<T>(step: (T, bool) -> T, x: T, a: seq<bool>, b: seq<bool>)
    ensures Fold(step, x, a + b) == Fold(step, Fold(step, x, a), b)
  {
    if b == [] {
      assert a + b == a;
    } else {
      assert (a + b)[..|a + b| - 1] == a + b[..|b| - 1];
      FoldConcat(step, x, a, b[..|b| - 1]);
    }
  }

  /** The register is linear: feeding the exclusive-or of two inputs gives the exclusive-or of the states. */
  lemma {:induction false} FoldLinear<T(!new)>(step: (T, bool) -> T, xor: (T, T) -> T, a: T, b: T, x: seq<bool>, y: seq<bool>)
    requires forall a: T, b: T, p, q :: step(xor(a, b), p != q) == xor(step(a, p), step(b, q))
    requires |x| == |y|
    ensures Fold(step, xor(a, b), XorBits(x, y)) == xor(Fold(step, a, x), Fold(step, b, y))
  {
    if x != [] {
      var n := |x| - 1;
      FoldLinear(step, xor, a, b, x[..n], y[..n]);
      assert XorBits(x, y)[..n] == XorBits(x[..n], y[..n]);
      assert XorBits(x, y)[n] == (x[n] != y[n]);
    }
  }

  /** Feeding zeros neither creates nor destroys a difference. */
  lemma {:induction false} FoldZeros<T(!new)>(step: (T, bool) -> T, zero: T, a: T, n: nat)
    requires forall a: T :: step(a, false) == zero <==> a == zero
    ensures Fold(step, a, Zeros(n)) == zero <==> a == zero
  {
    if n > 0 {
      assert Zeros(n)[..n - 1] == Zeros(n - 1);
      FoldZeros(step, zero, a, n - 1);
    }
  }

  /** Shifting a register with input words pending in it is feeding the pending bits one by one. */
  lemma {:induction false} ShiftsFeedBits<T(!new)>(shift: T -> T, step: (T, bool) -> T, xor: (T, T) -> T, top: T -> bool,
                                                   double: T -> T, c: T, bits: seq<bool>, pending: seq<T>, k: nat)
    requires forall a: T, p: T :: shift(xor(a, p)) == xor(step(a, top(p)), double(p))
    requires k <= |bits| && |pending| == |bits| + 1
    requires forall i :: 0 <= i < |bits| ==> top(pending[i]) == bits[i]
    requires forall i :: 0 <= i < |bits| ==> pending[i + 1] == double(pending[i])
    ensures Iterate(shift, xor(c, pending[0]), k) == xor(Fold(step, c, bits[..k]), pending[k])
  {
    if k > 0 {
      ShiftsFeedBits(shift, step, xor, top, double, c, bits, pending, k - 1);
      var before := Fold(step, c, bits[..k - 1]);
      FoldPrefix(step, c, bits, k - 1);
      hide Fold;
      assert Iterate(shift, xor(c, pending[0]), k) == shift(xor(before, pending[k - 1]));
      assert top(pending[k - 1]) == bits[k - 1];
    }
  }

  lemma FoldPrefix<T>(step: (T, bool) -> T, x: T, bits: seq<bool>, n: nat)
    requires n < |bits|
    ensures Fold(step, x, bits[..n + 1]) == step(Fold(step, x, bits[..n]), bits[n])
  {
    assert bits[..n + 1][..n] == bits[..n];
  }

  lemma Unfold2<T>(step: (T, bool) -> T, x: T, a: bool, b: bool)
    ensures Fold(step, x, [a, b]) == step(step(x, a), b)
  {
    assert [a, b][..1] == [a] && [a][..0] == [];
    assert Fold(step, x, [a]) == step(Fold(step, x, []), a);
  }

  lemma Unfold4<T>(step: (T, bool) -> T, x: T, a: bool, b: bool, c: bool, d: bool)
    ensures Fold(step, x, [a, b, c, d]) == step(step(step(step(x, a), b), c), d)
  {
    hide Fold;
    Unfold2(step, x, a, b);
    Unfold2(step, Fold(step, x, [a, b]), c, d);
    FoldConcat(step, x, [a, b], [c, d]);
    assert [a, b] + [c, d] == [a, b, c, d];
  }

  lemma Unfold8<T>(step: (T, bool) -> T, x: T, w: seq<bool>)
    requires |w| == 8
    ensures Fold(step, x, w) == step(step(step(step(step(step(step(step(x, w[0]), w[1]), w[2]), w[3]), w[4]), w[5]), w[6]), w[7])
  {
    hide Fold;
    var first, second := [w[0], w[1], w[2], w[3]], [w[4], w[5], w[6], w[7]];
    assert w == first + second;
    FoldConcat(step, x, first, second);
    Unfold4(step, x, w[0], w[1], w[2], w[3]);
    Unfold4(step, Fold(step, x, first), w[4], w[5], w[6], w[7]);
  }
}
