/** The relevance bands both word reports count: high from 40, medium from
    15 up to 40, low below 15. */
module Bands {
  import opened Numeric
  import opened Collections

  predicate IsHigh(r: real) { r >= 40.0 }

  predicate IsMedium(r: real) { r >= 15.0 && r < 40.0 }

  predicate IsLow(r: real) { r < 15.0 }

  /** The number of scores in each band. */
  function High(rs: seq<real>): nat { |Filter(rs, IsHigh)| }

  function Medium(rs: seq<real>): nat { |Filter(rs, IsMedium)| }

  function Low(rs: seq<real>): nat { |Filter(rs, IsLow)| }

  /** Every score falls in exactly one band, so the band counts add up to the
      number of scores. */
  lemma {:induction false} BandsPartition(rs: seq<real>)
    ensures High(rs) + Medium(rs) + Low(rs) == |rs|
  {
    if rs != [] {
      BandsPartition(rs[..|rs| - 1]);
    }
  }

  /** One more score raises the count of its own band by one, and its sum
      by itself. */
  lemma BandsSnoc(rs: seq<real>, x: real)
    ensures High(rs + [x]) == High(rs) + (if x >= 40.0 then 1 else 0)
    ensures Medium(rs + [x]) == Medium(rs) + (if 15.0 <= x < 40.0 then 1 else 0)
    ensures Low(rs + [x]) == Low(rs) + (if x < 15.0 then 1 else 0)
    ensures Sum(rs + [x]) == Sum(rs) + x
  {
    assert (rs + [x])[..|rs|] == rs;
    FilterSnoc(rs, x, IsHigh);
    FilterSnoc(rs, x, IsMedium);
    FilterSnoc(rs, x, IsLow);
  }
}
