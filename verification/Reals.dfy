/** Small facts about real numbers. */
module Reals {
  function AtLeastOne(x: real): real {
    if x < 1.0 then 1.0 else x
  }

  lemma AtLeastOneIs(x: real)
    ensures AtLeastOne(x) >= 1.0
  {
  }

  lemma QuotientGrows(x: real, y: real, d: real)
    requires x <= y && d > 0.0
    ensures x / d <= y / d
    ensures 0.0 <= x ==> 0.0 <= x / d
  {
    assert y / d - x / d == (y - x) / d;
  }
}
