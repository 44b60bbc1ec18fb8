/** The one arithmetic idiom of the controller: `Math.floor(Math.random() * n)`. */
module JsMath {
  /** A value `Math.random()` can return. */
  predicate IsDraw(x: real) {
    0.0 <= x < 1.0
  }

  /** `Math.floor(draw * n)`: a uniformly chosen index below `n`. */
  function RandomBelow(draw: real, n: nat): (r: nat)
    requires IsDraw(draw) && n > 0
    ensures r < n
  {
    assert 0.0 <= draw * n as real < n as real;
    (draw * n as real).Floor
  }
}
