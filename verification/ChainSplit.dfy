/** The recursive split of the chain benchmark: open new raw bases among the members of a
    star while that pays. Sizes are in units of one tensor; `R(m, b)` is the ratio to which
    member `m` shrinks as a delta against `b`, any real number at all. */
module ChainSplit {
  import opened Sequences
  import opened Reals

  type Ratio = (nat, nat) -> real

  ghost function SumOf(s: seq<nat>, f: nat -> real): real {
    if s == [] then 0.0 else SumOf(s[..|s| - 1], f) + f(s[|s| - 1])
  }

  lemma {:induction false} SumOfSame(s: seq<nat>, f: nat -> real, g: nat -> real)
    requires forall m | m in s :: f(m) == g(m)
    ensures SumOf(s, f) == SumOf(s, g)
  {
    if s != [] {
      SumOfSame(s[..|s| - 1], f, g);
    }
  }

  lemma SumOfSnoc(s: seq<nat>, x: nat, f: nat -> real)
    ensures SumOf(s + [x], f) == SumOf(s, f) + f(x)
  {
    assert (s + [x])[..|s|] == s;
  }

  lemma {:induction false} SumOfAtMost(s: seq<nat>, f: nat -> real, g: nat -> real)
    requires forall m | m in s :: f(m) <= g(m)
    ensures SumOf(s, f) <= SumOf(s, g)
  {
    if s != [] {
      SumOfAtMost(s[..|s| - 1], f, g);
    }
  }

  // ---- what opening a member would save

  ghost function Saving(R: Ratio, base: nat, cand: nat): nat -> real {
    (m: nat) => if m == cand then 0.0 else if R(m, cand) < R(m, base) then R(m, base) - R(m, cand) else 0.0
  }

  ghost function Gain(members: seq<nat>, base: nat, R: Ratio, cand: nat): real {
    SumOf(members, Saving(R, base, cand)) - (1.0 - R(cand, base))
  }

  ghost predicate IsFirstBest(members: seq<nat>, base: nat, R: Ratio, i: nat, gain: real, best: int)
    requires i < |members|
  {
    && best == members[i] != base && gain == Gain(members, base, R, members[i])
    && forall j | 0 <= j < i && members[j] != base :: Gain(members, base, R, members[j]) < gain
  }

  /** The first member of greatest positive gain, or nothing when no gain is positive. */
  ghost predicate IsBest(members: seq<nat>, base: nat, R: Ratio, k: nat, gain: real, best: int)
    requires k <= |members|
  {
    && (forall i | 0 <= i < k && members[i] != base :: Gain(members, base, R, members[i]) <= gain)
    && (if best == -1 then gain == 0.0
        else gain > 0.0 && exists i | 0 <= i < k :: IsFirstBest(members, base, R, i, gain, best))
  }

  method GainOf(members: seq<nat>, base: nat, R: Ratio, cand: nat) returns (gain: real)
    ensures gain == Gain(members, base, R, cand)
  {
    gain := -(1.0 - R(cand, base));
    ghost var saving := Saving(R, base, cand);
    for k := 0 to |members|
      invariant gain == SumOf(members[..k], saving) - (1.0 - R(cand, base))
    {
      var m := members[k];
      if m != cand && R(m, cand) < R(m, base) {
        gain := gain + (R(m, base) - R(m, cand));
      }
      assert members[..k + 1] == members[..k] + [m];
      SumOfSnoc(members[..k], m, saving);
    }
    assert members[..|members|] == members;
  }

  method BestOpen(members: seq<nat>, base: nat, R: Ratio) returns (gain: real, best: int)
    ensures IsBest(members, base, R, |members|, gain, best)
  {
    hide Gain;
    gain, best := 0.0, -1;
    for k := 0 to |members|
      invariant IsBest(members, base, R, k, gain, best)
    {
      var cand := members[k];
      if cand == base {
        continue;
      }
      var g := GainOf(members, base, R, cand);
      if g > gain {
        assert IsFirstBest(members, base, R, k, g, cand);
        gain, best := g, cand;
      }
    }
  }

  // ---- a partition and its cost

  /** `home[m]` is the base `m` is stored against; an opened member is its own home and costs
      one unit, which is counted with the bases. */
  ghost function Stored(R: Ratio, home: map<nat, nat>): nat -> real {
    (m: nat) => if m !in home || home[m] == m then 0.0 else R(m, home[m])
  }

  ghost function Against(R: Ratio, base: nat): nat -> real {
    (m: nat) => R(m, base)
  }

  ghost function TotalGain(gains: seq<real>): real {
    if gains == [] then 0.0 else TotalGain(gains[..|gains| - 1]) + gains[|gains| - 1]
  }

  /** `raws` are the members that are their own homes, each once; every other member is
      stored against one of them or against the old base. */
  ghost predicate Houses(members: seq<nat>, base: nat, raws: seq<nat>, home: map<nat, nat>) {
    && Distinct(raws)
    && (forall b | b in raws :: b in members)
    && (forall m :: m in home <==> m in members)
    && (forall m | m in members :: home[m] == m <==> m in raws)
    && (forall m | m in members :: home[m] == base || home[m] in raws)
  }

  /** Every opening has a positive gain, and together they are exactly what the partition
      costs less than the star. */
  ghost predicate Accounts(members: seq<nat>, base: nat, R: Ratio, raws: seq<nat>, home: map<nat, nat>,
                           gains: seq<real>)
  {
    && |gains| == |raws|
    && (forall k | 0 <= k < |gains| :: gains[k] > 0.0)
    && |raws| as real + SumOf(members, Stored(R, home)) == SumOf(members, Against(R, base)) - TotalGain(gains)
  }

  predicate Moves(R: Ratio, base: nat, cand: nat, m: nat) {
    R(m, cand) < R(m, base)
  }

  /** The members other than `cand` that stay (or that move), in order. */
  ghost function Kept(members: seq<nat>, base: nat, cand: nat, R: Ratio, moving: bool): seq<nat> {
    if members == [] then []
    else
      var last := |members| - 1;
      Kept(members[..last], base, cand, R, moving)
      + (if members[last] != cand && Moves(R, base, cand, members[last]) == moving then [members[last]] else [])
  }

  lemma {:induction false} KeptMembers(members: seq<nat>, base: nat, cand: nat, R: Ratio, moving: bool)
    requires Distinct(members)
    ensures var s := Kept(members, base, cand, R, moving);
      Distinct(s) && forall m :: m in s <==> m in members && m != cand && (R(m, cand) < R(m, base) <==> moving)
    ensures |Kept(members, base, cand, R, moving)| <= |members|
    ensures cand in members ==> |Kept(members, base, cand, R, moving)| < |members|
  {
    if members != [] {
      var last := |members| - 1;
      KeptMembers(members[..last], base, cand, R, moving);
      assert members == members[..last] + [members[last]];
    }
  }

  /** Who stays and who moves keep their order. */
  lemma {:induction false} KeptOrder(members: seq<nat>, base: nat, cand: nat, R: Ratio, moving: bool)
    requires Increasing(members)
    ensures Increasing(Kept(members, base, cand, R, moving))
    ensures forall m | m in Kept(members, base, cand, R, moving) :: m in members
  {
    if members != [] {
      var last := |members| - 1;
      var kept := Kept(members[..last], base, cand, R, moving);
      KeptOrder(members[..last], base, cand, R, moving);
      assert forall m | m in members[..last] :: m < members[last];
      IncreasingSnoc(kept, members[last]);
      assert kept + [] == kept;
    }
  }

  lemma KeptSum(front: seq<nat>, m: nat, base: nat, cand: nat, R: Ratio, moving: bool, f: nat -> real)
    ensures SumOf(Kept(front + [m], base, cand, R, moving), f)
      == SumOf(Kept(front, base, cand, R, moving), f)
        + (if m != cand && Moves(R, base, cand, m) == moving then f(m) else 0.0)
  {
    assert (front + [m])[..|front|] == front;
    var kept := Kept(front, base, cand, R, moving);
    SumOfSnoc(kept, m, f);
    assert kept + [] == kept;
  }

  ghost function Share(members: seq<nat>, cand: nat, f: nat -> real): real {
    if cand in members then f(cand) else 0.0
  }

  lemma NothingSplits(base: nat, cand: nat, R: Ratio, f: nat -> real)
    ensures SumOf([], f) == 0.0 && Kept([], base, cand, R, false) == [] == Kept([], base, cand, R, true)
  {
  }

  lemma ShareSnoc(front: seq<nat>, m: nat, cand: nat, f: nat -> real)
    requires Distinct(front + [m])
    ensures Share(front + [m], cand, f) == Share(front, cand, f) + if m == cand then f(m) else 0.0
  {
    var s := front + [m];
    forall i | 0 <= i < |front| ensures front[i] != m {
      assert s[i] == front[i] && s[i] != s[|front|];
    }
  }

  /** A sum over the members is the sum over those that stay, those that move and `cand`. */
  lemma {:induction false} SumSplits(members: seq<nat>, base: nat, cand: nat, R: Ratio, f: nat -> real)
    requires Distinct(members)
    ensures SumOf(members, f)
      == SumOf(Kept(members, base, cand, R, false), f) + SumOf(Kept(members, base, cand, R, true), f)
      + Share(members, cand, f)
  {
    hide Kept, Moves;
    if members == [] {
      NothingSplits(base, cand, R, f);
    } else {
      var last := |members| - 1;
      var front, m := members[..last], members[last];
      assert members == front + [m];
      SumSplits(front, base, cand, R, f);
      KeptSum(front, m, base, cand, R, false, f);
      KeptSum(front, m, base, cand, R, true, f);
      ShareSnoc(front, m, cand, f);
      SumOfSnoc(front, m, f);
    }
  }

  lemma {:induction false} SumOfTerms(s: seq<nat>, f: nat -> real, g: nat -> real, h: nat -> real)
    requires forall m | m in s :: f(m) == g(m) + h(m)
    ensures SumOf(s, f) == SumOf(s, g) + SumOf(s, h)
  {
    if s != [] {
      SumOfTerms(s[..|s| - 1], f, g, h);
    }
  }

  lemma {:induction false} SumOfNothing(s: seq<nat>, f: nat -> real)
    requires forall m | m in s :: f(m) == 0.0
    ensures SumOf(s, f) == 0.0
  {
    if s != [] {
      SumOfNothing(s[..|s| - 1], f);
    }
  }

  /** One opening lowers the cost of the partition by exactly the computed gain. */
  lemma OpeningSaves(members: seq<nat>, base: nat, R: Ratio, cand: nat)
    requires Distinct(members) && cand in members
    ensures SumOf(members, Against(R, base)) - Gain(members, base, R, cand)
      == 1.0 + SumOf(Kept(members, base, cand, R, false), Against(R, base))
        + SumOf(Kept(members, base, cand, R, true), Against(R, cand))
  {
    var stay, move := Kept(members, base, cand, R, false), Kept(members, base, cand, R, true);
    var saving := Saving(R, base, cand);
    SumSplits(members, base, cand, R, Against(R, base));
    SumSplits(members, base, cand, R, saving);
    KeptMembers(members, base, cand, R, false);
    KeptMembers(members, base, cand, R, true);
    SumOfNothing(stay, saving);
    SumOfTerms(move, Against(R, base), Against(R, cand), saving);
  }

  lemma {:induction false} TotalGainJoins(a: seq<real>, b: seq<real>)
    ensures TotalGain(a + b) == TotalGain(a) + TotalGain(b)
  {
    if b == [] {
      assert a + b == a;
    } else {
      TotalGainJoins(a, b[..|b| - 1]);
      assert (a + b)[..|a + b| - 1] == a + b[..|b| - 1];
    }
  }

  lemma {:induction false} TotalGainPositive(gains: seq<real>)
    requires forall k | 0 <= k < |gains| :: gains[k] > 0.0
    ensures TotalGain(gains) >= 0.0 && (gains != [] ==> TotalGain(gains) > 0.0)
  {
    if gains != [] {
      TotalGainPositive(gains[..|gains| - 1]);
    }
  }

  /** Nothing opened: everyone stays with the old base. */
  lemma StarHouses(members: seq<nat>, base: nat, R: Ratio)
    requires base !in members
    ensures Houses(members, base, [], map m | m in members :: base)
    ensures Accounts(members, base, R, [], map m | m in members :: base, [])
  {
    SumOfSame(members, Stored(R, map m | m in members :: base), Against(R, base));
  }

  ghost function Joined(cand: nat, home0: map<nat, nat>, home1: map<nat, nat>): map<nat, nat> {
    home0 + home1 + map[cand := cand]
  }

  lemma RawsJoin(cand: nat, raws0: seq<nat>, raws1: seq<nat>)
    requires Distinct(raws0) && Distinct(raws1) && cand !in raws0 && cand !in raws1
    requires forall b | b in raws0 :: b !in raws1
    ensures Distinct([cand] + raws0 + raws1)
    ensures forall b :: b in [cand] + raws0 + raws1 <==> b == cand || b in raws0 || b in raws1
  {
    var r := [cand] + raws0 + raws1;
    forall i, j | 0 <= i < j < |r| ensures r[i] != r[j] {
      assert j <= |raws0| ==> r[j] == raws0[j - 1] && r[j] in raws0;
      assert j > |raws0| ==> r[j] == raws1[j - 1 - |raws0|] && r[j] in raws1;
      assert 0 < i <= |raws0| ==> r[i] == raws0[i - 1] && r[i] in raws0;
      assert i > |raws0| ==> r[i] == raws1[i - 1 - |raws0|] && r[i] in raws1;
    }
  }

  lemma HousesJoin(members: seq<nat>, base: nat, R: Ratio, cand: nat, raws0: seq<nat>, home0: map<nat, nat>,
                   raws1: seq<nat>, home1: map<nat, nat>)
    requires Distinct(members) && base !in members && cand in members
    requires Houses(Kept(members, base, cand, R, false), base, raws0, home0)
    requires Houses(Kept(members, base, cand, R, true), cand, raws1, home1)
    ensures Houses(members, base, [cand] + raws0 + raws1, Joined(cand, home0, home1))
  {
    hide Kept, Moves;
    KeptMembers(members, base, cand, R, false);
    KeptMembers(members, base, cand, R, true);
    RawsJoin(cand, raws0, raws1);
  }

  lemma GainsJoin(g: real, gains0: seq<real>, gains1: seq<real>)
    ensures TotalGain([g] + gains0 + gains1) == g + TotalGain(gains0) + TotalGain(gains1)
  {
    TotalGainJoins([g] + gains0, gains1);
    TotalGainJoins([g], gains0);
    assert [g][..0] == [];
  }

  lemma StoredJoin(members: seq<nat>, base: nat, R: Ratio, cand: nat, raws0: seq<nat>, home0: map<nat, nat>,
                   raws1: seq<nat>, home1: map<nat, nat>)
    requires Distinct(members) && cand in members
    requires Houses(Kept(members, base, cand, R, false), base, raws0, home0)
    requires Houses(Kept(members, base, cand, R, true), cand, raws1, home1)
    ensures SumOf(members, Stored(R, Joined(cand, home0, home1)))
      == SumOf(Kept(members, base, cand, R, false), Stored(R, home0))
        + SumOf(Kept(members, base, cand, R, true), Stored(R, home1))
  {
    hide Kept, Moves;
    var stay, move := Kept(members, base, cand, R, false), Kept(members, base, cand, R, true);
    var home := Joined(cand, home0, home1);
    KeptMembers(members, base, cand, R, false);
    KeptMembers(members, base, cand, R, true);
    SumSplits(members, base, cand, R, Stored(R, home));
    SumOfSame(stay, Stored(R, home), Stored(R, home0));
    SumOfSame(move, Stored(R, home), Stored(R, home1));
  }

  lemma AccountsJoin(members: seq<nat>, base: nat, R: Ratio, cand: nat, raws0: seq<nat>, home0: map<nat, nat>,
                     gains0: seq<real>,
                     raws1: seq<nat>, home1: map<nat, nat>, gains1: seq<real>)
    requires Distinct(members) && base !in members && cand in members && Gain(members, base, R, cand) > 0.0
    requires Houses(Kept(members, base, cand, R, false), base, raws0, home0)
    requires Houses(Kept(members, base, cand, R, true), cand, raws1, home1)
    requires Accounts(Kept(members, base, cand, R, false), base, R, raws0, home0, gains0)
    requires Accounts(Kept(members, base, cand, R, true), cand, R, raws1, home1, gains1)
    ensures Accounts(members, base, R, [cand] + raws0 + raws1, Joined(cand, home0, home1),
      [Gain(members, base, R, cand)] + gains0 + gains1)
  {
    hide Kept, Moves, Houses, Gain, Against, Stored, SumOf, TotalGain;
    var home, g := Joined(cand, home0, home1), Gain(members, base, R, cand);
    OpeningSaves(members, base, R, cand);
    StoredJoin(members, base, R, cand, raws0, home0, raws1, home1);
    GainsJoin(g, gains0, gains1);
  }

  method Partition(members: seq<nat>, base: nat, cand: nat, R: Ratio) returns (stay: seq<nat>, move: seq<nat>)
    ensures stay == Kept(members, base, cand, R, false) && move == Kept(members, base, cand, R, true)
  {
    stay, move := [], [];
    for k := 0 to |members|
      invariant stay == Kept(members[..k], base, cand, R, false) && move == Kept(members[..k], base, cand, R, true)
    {
      assert members[..k + 1][..k] == members[..k];
      if members[k] != cand {
        if Moves(R, base, cand, members[k]) {
          move := move + [members[k]];
        } else {
          stay := stay + [members[k]];
        }
      }
    }
    assert members[..|members|] == members;
  }

  function AtLeastTiny(x: real): (r: real)
    ensures r > 0.0 && r >= x
  {
    if x < 0.000000001 then 0.000000001 else x
  }

  method StarCost(members: seq<nat>, base: nat, R: Ratio) returns (cost: real)
    ensures cost == 1.0 + SumOf(members, Against(R, base))
  {
    cost := 1.0;
    for k := 0 to |members|
      invariant cost == 1.0 + SumOf(members[..k], Against(R, base))
    {
      cost := cost + R(members[k], base);
      assert members[..k + 1] == members[..k] + [members[k]];
      SumOfSnoc(members[..k], members[k], Against(R, base));
    }
    assert members[..|members|] == members;
  }

  // ---- the tree of openings

  /** What the recursion does to a star: nothing, or it opens `cand` and goes on with those
      that stay and those that move. */
  datatype Cut = Whole | Opened(cand: nat, stay: Cut, move: Cut)

  /** Opening `m` saves something, and enough of the star's cost. */
  ghost predicate Worth(members: seq<nat>, base: nat, R: Ratio, minRatio: real, m: nat) {
    var gain := Gain(members, base, R, m);
    gain > 0.0 && gain / AtLeastTiny(1.0 + SumOf(members, Against(R, base))) >= minRatio
  }

  /** At every opening the first member of greatest gain is opened, which is worth it; a star of
      two members or more is left whole only if no member is worth opening. */
  ghost predicate IsCut(members: seq<nat>, base: nat, R: Ratio, minRatio: real, t: Cut)
    decreases t, 0
  {
    match t
    case Whole => forall m | m in members :: !Worth(members, base, R, minRatio, m)
    case Opened(cand, stay, move) =>
      && IsBest(members, base, R, |members|, Gain(members, base, R, cand), cand)
      && Worth(members, base, R, minRatio, cand)
      && IsPart(Kept(members, base, cand, R, false), base, R, minRatio, stay)
      && IsPart(Kept(members, base, cand, R, true), cand, R, minRatio, move)
  }

  /** Stars of fewer than two members are not looked at. */
  ghost predicate IsPart(members: seq<nat>, base: nat, R: Ratio, minRatio: real, t: Cut)
    decreases t, 1
  {
    if |members| >= 2 then IsCut(members, base, R, minRatio, t) else t == Whole
  }

  lemma ShareOf(gain: real, star: real, ratio: real)
    requires star > 0.0
    ensures gain / star >= ratio <==> gain >= ratio * star
  {
    assert gain / star * star == gain;
    assert (gain / star - ratio) * star == gain - ratio * star;
    if gain / star >= ratio {
      assert (gain / star - ratio) * star >= 0.0;
    } else {
      assert (ratio - gain / star) * star > 0.0;
    }
  }

  /** An opening is worth it if it saves something and at least its share of the star's cost. */
  lemma WorthMeans(members: seq<nat>, base: nat, R: Ratio, minRatio: real, m: nat)
    requires 1.0 + SumOf(members, Against(R, base)) >= 0.000000001
    ensures Worth(members, base, R, minRatio, m) <==>
      Gain(members, base, R, m) > 0.0
      && Gain(members, base, R, m) >= minRatio * (1.0 + SumOf(members, Against(R, base)))
  {
    ShareOf(Gain(members, base, R, m), 1.0 + SumOf(members, Against(R, base)), minRatio);
    hide Gain, SumOf;
  }

  /** Of the stars an opening leaves, one with a single member is left whole, whatever it would
      save to open that member. */
  lemma SmallPartsStay(members: seq<nat>, base: nat, R: Ratio, minRatio: real, t: Cut)
    requires t.Opened? && IsCut(members, base, R, minRatio, t)
    ensures |Kept(members, base, t.cand, R, false)| < 2 ==> t.stay == Whole
    ensures |Kept(members, base, t.cand, R, true)| < 2 ==> t.move == Whole
    ensures |Kept(members, base, t.cand, R, false)| >= 2 && t.stay == Whole ==>
      forall m | m in Kept(members, base, t.cand, R, false) ::
        !Worth(Kept(members, base, t.cand, R, false), base, R, minRatio, m)
    ensures |Kept(members, base, t.cand, R, true)| >= 2 && t.move == Whole ==>
      forall m | m in Kept(members, base, t.cand, R, true) ::
        !Worth(Kept(members, base, t.cand, R, true), t.cand, R, minRatio, m)
  {
    hide Worth, Kept, IsBest;
  }

  ghost function Openings(t: Cut): seq<nat> {
    match t
    case Whole => []
    case Opened(cand, stay, move) => [cand] + Openings(stay) + Openings(move)
  }

  /** The gain computed at each opening. */
  ghost function Gains(members: seq<nat>, base: nat, R: Ratio, t: Cut): seq<real>
    decreases t
  {
    match t
    case Whole => []
    case Opened(cand, stay, move) =>
      [Gain(members, base, R, cand)] + Gains(Kept(members, base, cand, R, false), base, R, stay)
      + Gains(Kept(members, base, cand, R, true), cand, R, move)
  }

  /** The base each member ends up with. */
  ghost function Homes(members: seq<nat>, base: nat, R: Ratio, t: Cut): map<nat, nat>
    decreases t
  {
    match t
    case Whole => map m | m in members :: base
    case Opened(cand, stay, move) =>
      Joined(cand, Homes(Kept(members, base, cand, R, false), base, R, stay),
             Homes(Kept(members, base, cand, R, true), cand, R, move))
  }

  lemma BestMeaning(members: seq<nat>, base: nat, R: Ratio, gain: real, best: int)
    requires base !in members && IsBest(members, base, R, |members|, gain, best)
    ensures best == -1 || best in members
    ensures best != -1 ==> best >= 0 && gain == Gain(members, base, R, best) > 0.0
    ensures best == -1 ==> forall m | m in members :: Gain(members, base, R, m) <= 0.0
  {
    hide Gain;
  }

  /** The openings of the recursion are distinct members, each with a positive gain, and the
      partition they induce costs the star less the sum of their gains. */
  lemma {:induction false} CutAccounts(members: seq<nat>, base: nat, R: Ratio, minRatio: real, t: Cut)
    requires Distinct(members) && base !in members && (t == Whole || IsCut(members, base, R, minRatio, t))
    ensures Houses(members, base, Openings(t), Homes(members, base, R, t))
    ensures Accounts(members, base, R, Openings(t), Homes(members, base, R, t), Gains(members, base, R, t))
    decreases t
  {
    hide Gain, Houses, Accounts, Kept, IsBest, Joined;
    StarHouses(members, base, R);
    if t.Opened? {
      BestMeaning(members, base, R, Gain(members, base, R, t.cand), t.cand);
      var stay, move := Kept(members, base, t.cand, R, false), Kept(members, base, t.cand, R, true);
      KeptMembers(members, base, t.cand, R, false);
      KeptMembers(members, base, t.cand, R, true);
      CutAccounts(stay, base, R, minRatio, t.stay);
      CutAccounts(move, t.cand, R, minRatio, t.move);
      var home0, home1 := Homes(stay, base, R, t.stay), Homes(move, t.cand, R, t.move);
      HousesJoin(members, base, R, t.cand, Openings(t.stay), home0, Openings(t.move), home1);
      AccountsJoin(members, base, R, t.cand, Openings(t.stay), home0, Gains(stay, base, R, t.stay),
        Openings(t.move), home1, Gains(move, t.cand, R, t.move));
    }
  }

  lemma BestUnique(members: seq<nat>, base: nat, R: Ratio, c: nat, d: nat)
    requires IsBest(members, base, R, |members|, Gain(members, base, R, c), c)
    requires IsBest(members, base, R, |members|, Gain(members, base, R, d), d)
    ensures c == d
  {
    hide Gain;
    var i :| 0 <= i < |members| && IsFirstBest(members, base, R, i, Gain(members, base, R, c), c);
    var j :| 0 <= j < |members| && IsFirstBest(members, base, R, j, Gain(members, base, R, d), d);
  }

  /** There is one such tree, so its openings and gains are those of the run. */
  lemma {:induction false} CutUnique(members: seq<nat>, base: nat, R: Ratio, minRatio: real, t: Cut, u: Cut)
    requires base !in members && Distinct(members)
    requires IsCut(members, base, R, minRatio, t) && IsCut(members, base, R, minRatio, u)
    ensures t == u
    decreases t
  {
    hide Gain, Kept, Worth, IsBest;
    if t.Opened? {
      BestMeaning(members, base, R, Gain(members, base, R, t.cand), t.cand);
    }
    if u.Opened? {
      BestMeaning(members, base, R, Gain(members, base, R, u.cand), u.cand);
    }
    if t.Opened? && u.Opened? {
      BestUnique(members, base, R, t.cand, u.cand);
      KeptMembers(members, base, t.cand, R, false);
      KeptMembers(members, base, t.cand, R, true);
      var stay, move := Kept(members, base, t.cand, R, false), Kept(members, base, t.cand, R, true);
      if |stay| >= 2 {
        CutUnique(stay, base, R, minRatio, t.stay, u.stay);
      }
      if |move| >= 2 {
        CutUnique(move, t.cand, R, minRatio, t.move, u.move);
      }
    }
  }

  /** If the best member is not worth opening, none is. */
  lemma BestDecides(members: seq<nat>, base: nat, R: Ratio, minRatio: real, gain: real, best: int)
    requires base !in members && IsBest(members, base, R, |members|, gain, best)
    requires best == -1 || gain / AtLeastTiny(1.0 + SumOf(members, Against(R, base))) < minRatio
    ensures IsCut(members, base, R, minRatio, Whole)
  {
    BestMeaning(members, base, R, gain, best);
    var star := AtLeastTiny(1.0 + SumOf(members, Against(R, base)));
    forall m | m in members ensures !Worth(members, base, R, minRatio, m) {
      var i :| 0 <= i < |members| && members[i] == m;
      assert Gain(members, base, R, members[i]) <= gain;
      QuotientGrows(Gain(members, base, R, m), gain, star);
    }
  }

  lemma WholeMeans(members: seq<nat>, base: nat, R: Ratio, minRatio: real)
    requires IsCut(members, base, R, minRatio, Whole)
    ensures minRatio <= 0.0 ==> forall m | m in members :: Gain(members, base, R, m) <= 0.0
  {
  }

  /** The recursive split of one star: it opens what the tree of openings says, and the
      partition costs the star's less the gains computed at the openings. */
  method Split(members: seq<nat>, base: nat, R: Ratio, minRatio: real) returns (raws: seq<nat>, ghost t: Cut)
    requires Distinct(members) && base !in members
    ensures IsCut(members, base, R, minRatio, t) && raws == Openings(t)
    ensures Houses(members, base, raws, Homes(members, base, R, t))
    ensures Accounts(members, base, R, raws, Homes(members, base, R, t), Gains(members, base, R, t))
    ensures minRatio <= 0.0 && raws == [] ==> forall m | m in members :: Gain(members, base, R, m) <= 0.0
    decreases |members|
  {
    hide Gain, Houses, Accounts, Kept, IsBest, Joined, AtLeastTiny;
    raws, t := [], Whole;
    StarHouses(members, base, R);
    if |members| < 1 {
      return;
    }
    var starCost := StarCost(members, base, R);
    var gain, best := BestOpen(members, base, R);
    BestMeaning(members, base, R, gain, best);
    if best == -1 || gain <= 0.0 || gain / AtLeastTiny(starCost) < minRatio {
      BestDecides(members, base, R, minRatio, gain, best);
      WholeMeans(members, base, R, minRatio);
      return;
    }
    var cand: nat := best;
    var stay, move := Partition(members, base, cand, R);
    KeptMembers(members, base, cand, R, false);
    KeptMembers(members, base, cand, R, true);
    ghost var t0, t1 := Whole, Whole;
    var raws0, raws1 := [], [];
    if |stay| >= 2 {
      raws0, t0 := Split(stay, base, R, minRatio);
    }
    if |move| >= 2 {
      raws1, t1 := Split(move, cand, R, minRatio);
    }
    raws, t := [cand] + raws0 + raws1, Opened(cand, t0, t1);
    CutAccounts(members, base, R, minRatio, t);
  }

  // ---- the two strategies compared

  ghost function LeastRatio(R: Ratio, bases: seq<nat>, m: nat): (r: real)
    requires bases != []
    ensures forall b | b in bases :: r <= R(m, b)
    ensures exists b | b in bases :: r == R(m, b)
  {
    var last := bases[|bases| - 1];
    if |bases| == 1 then R(m, last)
    else
      var r := LeastRatio(R, bases[..|bases| - 1], m);
      assert bases == bases[..|bases| - 1] + [last];
      if R(m, last) < r then R(m, last) else r
  }

  function UpTo(n: nat): (s: seq<nat>)
    ensures |s| == n && forall i | 0 <= i < n :: s[i] == i
  {
    seq(n, i => i)
  }

  /** What member `i` adds to the cost once the bases are paid for. */
  ghost function Nearest(R: Ratio, bases: seq<nat>): nat -> real
    requires bases != []
  {
    (m: nat) => if m in bases then 0.0 else LeastRatio(R, bases, m)
  }

  method NearestRatio(R: Ratio, bases: seq<nat>, m: nat) returns (r: real)
    requires bases != []
    ensures r == LeastRatio(R, bases, m)
  {
    r := R(m, bases[0]);
    for k := 1 to |bases|
      invariant r == LeastRatio(R, bases[..k], m)
    {
      assert bases[..k + 1][..k] == bases[..k];
      if R(m, bases[k]) < r {
        r := R(m, bases[k]);
      }
    }
    assert bases[..|bases|] == bases;
  }

  method StarFirst(R: Ratio, n: nat) returns (cost: real)
    ensures cost == 1.0 + SumOf(UpTo(n), (m: nat) => if m == 0 then 0.0 else R(m, 0))
  {
    cost := 1.0;
    ghost var term := (m: nat) => if m == 0 then 0.0 else R(m, 0);
    var i := 0;
    while i < n
      invariant i <= n && cost == 1.0 + SumOf(UpTo(i), term)
    {
      if i >= 1 {
        cost := cost + R(i, 0);
      }
      assert UpTo(i + 1) == UpTo(i) + [i];
      SumOfSnoc(UpTo(i), i, term);
      i := i + 1;
    }
  }

  /** Bases are priced as the set of them: tensor 0 and distinct others. */
  ghost predicate OpensOnce(n: nat, bases: seq<nat>) {
    bases != [] && bases[0] == 0 && Distinct(bases) && forall b | b in bases :: b == 0 || b < n
  }

  function RangeFrom1(n: nat): (s: seq<nat>)
    ensures |s| == (if n == 0 then 0 else n - 1) && forall i | 0 <= i < |s| :: s[i] == i + 1
  {
    seq(if n == 0 then 0 else n - 1, i => i + 1)
  }

  lemma PositiveGains(members: seq<nat>, R: Ratio, raws: seq<nat>, home: map<nat, nat>, gains: seq<real>)
    requires Accounts(members, 0, R, raws, home, gains)
    ensures |gains| == |raws| && forall k | 0 <= k < |gains| :: gains[k] > 0.0
  {
  }

  lemma BasesOnce(n: nat, raws: seq<nat>, home: map<nat, nat>)
    requires Houses(RangeFrom1(n), 0, raws, home)
    ensures OpensOnce(n, [0] + raws)
  {
    forall b | b in raws ensures 0 < b < n {
      var i :| 0 <= i < |RangeFrom1(n)| && RangeFrom1(n)[i] == b;
    }
    RawsJoin(0, raws, []);
    assert [0] + raws + [] == [0] + raws;
  }

  lemma OneMoreMember(R: Ratio, bases: seq<nat>, i: nat)
    requires bases != [] && bases[0] == 0
    ensures SumOf(RangeFrom1(0), Nearest(R, bases)) == 0.0
    ensures SumOf(RangeFrom1(i + 1), Nearest(R, bases))
      == SumOf(RangeFrom1(i), Nearest(R, bases)) + if i in bases then 0.0 else LeastRatio(R, bases, i)
  {
    if i > 0 {
      assert RangeFrom1(i + 1) == RangeFrom1(i) + [i];
      SumOfSnoc(RangeFrom1(i), i, Nearest(R, bases));
    }
  }

  lemma NearestAtMostHome(n: nat, R: Ratio, raws: seq<nat>, home: map<nat, nat>, gains: seq<real>)
    requires Houses(RangeFrom1(n), 0, raws, home)
    requires Accounts(RangeFrom1(n), 0, R, raws, home, gains)
    ensures |[0] + raws| as real + SumOf(RangeFrom1(n), Nearest(R, [0] + raws))
      <= 1.0 + SumOf(RangeFrom1(n), Against(R, 0)) - TotalGain(gains)
  {
    var bases := [0] + raws;
    forall m | m in RangeFrom1(n) ensures Nearest(R, bases)(m) <= Stored(R, home)(m) {
      assert home[m] in bases;
    }
    SumOfAtMost(RangeFrom1(n), Nearest(R, bases), Stored(R, home));
  }

  /** The split strategy. It opens tensor 0 and what the tree of openings says, and saves at
      least the gains computed there over the star around tensor 0. */
  method SplitStrategy(R: Ratio, n: nat, minRatio: real) returns (cost: real, bases: seq<nat>, ghost t: Cut)
    ensures IsCut(RangeFrom1(n), 0, R, minRatio, t) && bases == [0] + Openings(t)
    ensures OpensOnce(n, bases)
    ensures var gains := Gains(RangeFrom1(n), 0, R, t);
      && |gains| == |bases| - 1 && (forall k | 0 <= k < |gains| :: gains[k] > 0.0)
      && cost == |bases| as real + SumOf(RangeFrom1(n), Nearest(R, bases))
      && cost <= 1.0 + SumOf(RangeFrom1(n), Against(R, 0)) - TotalGain(gains)
  {
    hide SumOf, TotalGain, Nearest, Against, Houses, Accounts, IsCut, Openings, Gains, Homes;
    var members := RangeFrom1(n);
    var raws;
    raws, t := Split(members, 0, R, minRatio);
    ghost var home, gains := Homes(members, 0, R, t), Gains(members, 0, R, t);
    bases := [0] + raws;
    BasesOnce(n, raws, home);
    PositiveGains(members, R, raws, home, gains);
    cost := |bases| as real;
    var i := 0;
    OneMoreMember(R, bases, 0);
    while i < n
      invariant i <= n && cost == |bases| as real + SumOf(RangeFrom1(i), Nearest(R, bases))
    {
      OneMoreMember(R, bases, i);
      if i !in bases {
        var r := NearestRatio(R, bases, i);
        cost := cost + r;
      }
      i := i + 1;
    }
    NearestAtMostHome(n, R, raws, home, gains);
  }

  lemma {:induction false} StarTerms(R: Ratio, n: nat)
    ensures SumOf(UpTo(n), (m: nat) => if m == 0 then 0.0 else R(m, 0)) == SumOf(RangeFrom1(n), Against(R, 0))
  {
    var term := (m: nat) => if m == 0 then 0.0 else R(m, 0);
    if n > 0 {
      StarTerms(R, n - 1);
      assert UpTo(n) == UpTo(n - 1) + [n - 1];
      SumOfSnoc(UpTo(n - 1), n - 1, term);
      if n > 1 {
        assert RangeFrom1(n) == RangeFrom1(n - 1) + [n - 1];
        SumOfSnoc(RangeFrom1(n - 1), n - 1, Against(R, 0));
      }
    }
  }

  /** The split is never worse than the star around the first tensor, for any ratios and any
      threshold, and strictly better as soon as it opens a base. */
  method Compare(R: Ratio, n: nat, minRatio: real) returns (split: real, star: real, bases: seq<nat>)
    ensures exists t :: IsCut(RangeFrom1(n), 0, R, minRatio, t) && bases == [0] + Openings(t)
    ensures star == 1.0 + SumOf(RangeFrom1(n), Against(R, 0))
    ensures OpensOnce(n, bases)
    ensures split == |bases| as real + SumOf(RangeFrom1(n), Nearest(R, bases))
    ensures split <= star
    ensures |bases| > 1 ==> split < star
  {
    ghost var t;
    split, bases, t := SplitStrategy(R, n, minRatio);
    star := StarFirst(R, n);
    TotalGainPositive(Gains(RangeFrom1(n), 0, R, t));
    StarTerms(R, n);
  }
}
