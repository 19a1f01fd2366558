/** Row-major addressing of a two-dimensional picture. */
module Grid {
  /** Where pixel (x, y) lies in a buffer with `stride` pixels per row. */
  function At(stride: nat, x: nat, y: nat): nat { y * stride + x }

  lemma AtInjective(stride: nat, x: nat, y: nat, x': nat, y': nat)
    requires x < stride && x' < stride
    ensures At(stride, x, y) == At(stride, x', y') <==> x == x' && y == y'
  {
    if y < y' { RowGap(stride, y, y'); }
    if y' < y { RowGap(stride, y', y); }
  }

  lemma RowGap(stride: nat, y: nat, y': nat)
    requires y < y'
    ensures y * stride + stride <= y' * stride
  {
    assert y' * stride == y * stride + (y' - y) * stride;
    OneMore(y' - y, stride);
  }

  lemma OneMore(k: nat, stride: nat)
    requires k >= 1
    ensures k * stride >= stride
  {
    assert k * stride == (k - 1) * stride + stride;
  }

  lemma AtInRange(stride: nat, rows: nat, x: nat, y: nat)
    requires x < stride && y < rows
    ensures At(stride, x, y) < stride * rows
  {
    RowGap(stride, y, rows);
  }
}
