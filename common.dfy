/** Small shared vocabulary: the optional value the kernel's `sl::Opt`,
    nullable handles and "not found" results are modelled with. */
module Common {

  datatype Option<T> = None | Some(value: T)

  /** Smallest multiple of `align` that is at least `x` (`sl::AlignUp`). */
  function AlignUp(x: nat, align: nat): nat
    requires align > 0
  {
    (x + align - 1) / align * align
  }

  /** Largest multiple of `align` that is at most `x` (`sl::AlignDown`). */
  function AlignDown(x: nat, align: nat): nat
    requires align > 0
  {
    x / align * align
  }

  function Min(a: nat, b: nat): nat
  {
    if a <= b then a else b
  }

  /** AlignUp gives the least multiple of the alignment that is not below `x`. */
  lemma AlignUpBounds(x: nat, align: nat)
    requires align > 0
    ensures AlignUp(x, align) % align == 0
    ensures x <= AlignUp(x, align) < x + align
  {
    var q := (x + align - 1) / align;
    assert x + align - 1 == q * align + (x + align - 1) % align;
    MulMod(q, align);
  }

  /** No multiple of the alignment lies strictly between `x` and AlignUp(x). */
  lemma AlignUpLeast(x: nat, align: nat, y: nat)
    requires align > 0
    requires y % align == 0 && x <= y
    ensures AlignUp(x, align) <= y
  {
    var qy := y / align;
    assert y == qy * align + y % align;
    DivModUnique(y + align - 1, align, qy, align - 1);
    DivMonotone(x + align - 1, y + align - 1, align);
    MulMonotone((x + align - 1) / align, qy, align);
  }

  /** AlignDown gives a multiple of the alignment not above `x` and within one alignment of it. */
  lemma AlignDownBounds(x: nat, align: nat)
    requires align > 0
    ensures AlignDown(x, align) % align == 0
    ensures AlignDown(x, align) <= x < AlignDown(x, align) + align
  {
    assert x == x / align * align + x % align;
    MulMod(x / align, align);
  }

  lemma DivMonotone(a: nat, b: nat, d: nat)
    requires d > 0 && a <= b
    ensures a / d <= b / d
  {
    if a / d > b / d {
      assert a == a / d * d + a % d;
      assert b == b / d * d + b % d;
      MulMonotone(b / d + 1, a / d, d);
    }
  }

  /** Division and remainder are determined by a quotient/remainder decomposition. */
  lemma DivModUnique(a: nat, d: nat, q: nat, r: nat)
    requires d > 0 && r < d && a == q * d + r
    ensures a / d == q && a % d == r
  {
    var q0 := a / d;
    assert a == q0 * d + a % d;
    if q0 < q {
      MulMonotone(q0 + 1, q, d);
    } else if q < q0 {
      MulMonotone(q + 1, q0, d);
    }
  }

  lemma MulMod(q: nat, d: nat)
    requires d > 0
    ensures (q * d) % d == 0 && (q * d) / d == q
  {
    DivModUnique(q * d, d, q, 0);
  }

  lemma MulMonotone(a: nat, b: nat, c: nat)
    requires a <= b
    ensures a * c <= b * c
  {
  }

  /** `start + k * step`, written as k additions so that proofs about strided walks stay linear. */
  function Stride(start: nat, k: nat, step: nat): nat
  {
    if k == 0 then start else Stride(start, k - 1, step) + step
  }

  /** A walk that starts one step later has taken one step fewer. */
  lemma {:induction false} StrideShift(start: nat, k: nat, step: nat)
    requires k > 0
    ensures Stride(start + step, k - 1, step) == Stride(start, k, step)
  {
    if k > 1 {
      StrideShift(start, k - 1, step);
    }
  }

  lemma {:induction false} StrideIsProduct(start: nat, k: nat, step: nat)
    ensures Stride(start, k, step) == start + k * step
  {
    if k > 0 {
      StrideIsProduct(start, k - 1, step);
      assert k * step == (k - 1) * step + step;
    }
  }

  /** Strided walks are ordered as their step counts are. */
  lemma StrideOrder(start: nat, j: nat, k: nat, step: nat)
    requires step > 0
    ensures Stride(start, j, step) < Stride(start, k, step) ==> j < k
  {
    if k < j {
      StrideMonotone(start, k, j, step);
    }
  }

  lemma {:induction false} StrideMonotone(start: nat, j: nat, k: nat, step: nat)
    requires step > 0 && j < k
    ensures Stride(start, j, step) < Stride(start, k, step)
  {
    if j < k - 1 {
      StrideMonotone(start, j, k - 1, step);
    }
  }
}
