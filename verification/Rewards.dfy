/**
 The reward pool of the game draw and the choice of a reward, after app/modules/game/gacha.py. Weights are
 exact reals here.
 */
module Rewards {
  import opened Common

  datatype Kind = Desk | Hideout | CatTree | Scratcher | Plant | Sofa | Bed | Rug | LitterBox

  /** A furniture entry of the static catalogue. */
  datatype Furniture = Furniture(key: string, kind: Kind)

  datatype Reward = Reward(key: string, isCat: bool, weight: real)

  const CATS: seq<Reward> :=
    [ Reward("ink", true, 0.05), Reward("tabby", true, 0.01), Reward("silver", true, 0.01),
      Reward("calico", true, 0.01), Reward("tuxedo", true, 0.01), Reward("fold", true, 0.01) ]

  /** Four groups of kinds share the rest of the chances. */
  function GroupOf(kind: Kind): nat {
    match kind
    case Desk | Hideout => 0
    case CatTree | Scratcher => 1
    case Plant => 2
    case Sofa | Bed | Rug | LitterBox => 3
  }

  function Budget(group: nat): real
    requires group < 4
  {
    if group == 0 then 0.10 else if group == 1 then 0.25 else if group == 2 then 0.30 else 0.25
  }

  function OfGroup(catalog: seq<Furniture>, group: nat): seq<Furniture> {
    if catalog == [] then []
    else (if GroupOf(catalog[0].kind) == group then [catalog[0]] else []) + OfGroup(catalog[1..], group)
  }

  function Shares(items: seq<Furniture>, weight: real): (r: seq<Reward>)
    ensures |r| == |items|
  {
    seq(|items|, i requires 0 <= i < |items| => Reward(items[i].key, false, weight))
  }

  /** The budget of a group is shared equally by its items. */
  function GroupRewards(catalog: seq<Furniture>, group: nat): seq<Reward>
    requires group < 4
  {
    var items := OfGroup(catalog, group);
    if items == [] then [] else Shares(items, Budget(group) / |items| as real)
  }

  function BuildRewards(catalog: seq<Furniture>): seq<Reward> {
    CATS + GroupRewards(catalog, 0) + GroupRewards(catalog, 1) + GroupRewards(catalog, 2) + GroupRewards(catalog, 3)
  }

  // ----- Choosing -----

  function Clamp(value: real): real {
    var floored := if value >= 0.0 then value else 0.0;
    if floored <= 0.999_999_999 then floored else 0.999_999_999
  }

  /** The sum of the weights. */
  function Total(pool: seq<Reward>): real {
    if pool == [] then 0.0 else Total(pool[..|pool| - 1]) + pool[|pool| - 1].weight
  }

  /** The first reward whose cumulative boundary is past the value; the last one if there is none. */
  function Choice(pool: seq<Reward>, bounded: real): nat
    requires pool != []
    ensures Choice(pool, bounded) < |pool|
  {
    FirstPast(pool, bounded, 0)
  }

  function FirstPast(pool: seq<Reward>, bounded: real, from: nat): (i: nat)
    requires from < |pool|
    ensures from <= i < |pool|
    decreases |pool| - from
  {
    if bounded < Total(pool[..from + 1]) || from == |pool| - 1 then from else FirstPast(pool, bounded, from + 1)
  }

  method DrawReward(pool: seq<Reward>, value: real) returns (reward: Reward)
    requires pool != []
    ensures reward == pool[Choice(pool, Clamp(value))]
  {
    var boundary := 0.0;
    var floored := if value >= 0.0 then value else 0.0;
    var bounded := if floored <= 0.999_999_999 then floored else 0.999_999_999;
    for i := 0 to |pool|
      invariant boundary == Total(pool[..i])
      invariant i < |pool| ==> Choice(pool, bounded) == FirstPast(pool, bounded, i)
      invariant i == |pool| ==> Choice(pool, bounded) == |pool| - 1
    {
      assert pool[..i + 1][..i] == pool[..i];
      boundary := boundary + pool[i].weight;
      if bounded < boundary {
        return pool[i];
      }
    }
    reward := pool[|pool| - 1];
  }

  // ----- Chances -----

  ghost predicate Positive(pool: seq<Reward>) {
    forall i :: 0 <= i < |pool| ==> pool[i].weight > 0.0
  }

  lemma {:induction false} TotalConcat(a: seq<Reward>, b: seq<Reward>)
    ensures Total(a + b) == Total(a) + Total(b)
  {
    if b == [] {
      assert a + b == a;
    } else {
      assert (a + b)[..|a + b| - 1] == a + b[..|b| - 1];
      TotalConcat(a, b[..|b| - 1]);
    }
  }

  lemma {:induction false} TotalGrows(pool: seq<Reward>, i: nat, j: nat)
    requires Positive(pool) && i <= j <= |pool|
    ensures Total(pool[..i]) <= Total(pool[..j])
    ensures i < j ==> Total(pool[..i]) < Total(pool[..j])
  {
    if i < j {
      TotalGrows(pool, i, j - 1);
      assert pool[..j][..j - 1] == pool[..j - 1];
    }
  }

  /** Reward i is chosen exactly when the value falls in its own share of the unit interval. */
  lemma {:induction false} ChosenExactly(pool: seq<Reward>, bounded: real, i: nat)
    requires Positive(pool) && i < |pool| && 0.0 <= bounded < Total(pool)
    ensures Choice(pool, bounded) == i <==> Total(pool[..i]) <= bounded < Total(pool[..i + 1])
    ensures Total(pool[..i + 1]) == Total(pool[..i]) + pool[i].weight
  {
    assert pool[..i + 1][..i] == pool[..i];
    assert pool[..|pool|] == pool;
    FirstPastExactly(pool, bounded, 0);
    var c := Choice(pool, bounded);
    if c < i {
      TotalGrows(pool, c + 1, i);
    } else if i < c {
      TotalGrows(pool, i + 1, c);
    }
  }

  lemma {:induction false} FirstPastExactly(pool: seq<Reward>, bounded: real, from: nat)
    requires from < |pool| && Total(pool[..from]) <= bounded < Total(pool)
    ensures Total(pool[..FirstPast(pool, bounded, from)]) <= bounded < Total(pool[..FirstPast(pool, bounded, from) + 1])
    decreases |pool| - from
  {
    assert pool[..|pool|] == pool;
    if !(bounded < Total(pool[..from + 1])) && from < |pool| - 1 {
      FirstPastExactly(pool, bounded, from + 1);
    }
  }

  lemma {:induction false} SharesTotal(items: seq<Furniture>, weight: real)
    ensures Total(Shares(items, weight)) == |items| as real * weight
  {
    if items != [] {
      var rest := items[..|items| - 1];
      assert Shares(items, weight)[..|items| - 1] == Shares(rest, weight);
      SharesTotal(rest, weight);
      OneMore(|rest|, weight);
    }
  }

  lemma {:induction false} OneMore(n: nat, w: real)
    ensures n as real * w + w == (n + 1) as real * w
  {
  }

  lemma {:induction false} GroupTotal(catalog: seq<Furniture>, group: nat)
    requires group < 4
    ensures Total(GroupRewards(catalog, group)) == if OfGroup(catalog, group) == [] then 0.0 else Budget(group)
    ensures Positive(GroupRewards(catalog, group))
    ensures forall r :: r in GroupRewards(catalog, group) ==> !r.isCat
  {
    var items := OfGroup(catalog, group);
    if items != [] {
      var weight := Budget(group) / |items| as real;
      SharesTotal(items, weight);
      ShareIsPositive(Budget(group), |items|);
    }
  }

  lemma {:induction false} ShareIsPositive(budget: real, n: nat)
    requires n > 0 && budget > 0.0
    ensures budget / n as real > 0.0
    ensures n as real * (budget / n as real) == budget
  {
  }

  lemma {:induction false} CatTotal()
    ensures Total(CATS) == 0.10 && Positive(CATS) && forall r :: r in CATS ==> r.isCat
  {
    var c := CATS;
    var s1 := [c[0]];
    var s2 := s1 + [c[1]];
    var s3 := s2 + [c[2]];
    var s4 := s3 + [c[3]];
    var s5 := s4 + [c[4]];
    assert c == s5 + [c[5]];
    OneTotal([], c[0]);
    assert [] + [c[0]] == s1;
    OneTotal(s1, c[1]);
    OneTotal(s2, c[2]);
    OneTotal(s3, c[3]);
    OneTotal(s4, c[4]);
    OneTotal(s5, c[5]);
  }

  lemma {:induction false} OneTotal(pool: seq<Reward>, r: Reward)
    ensures Total(pool + [r]) == Total(pool) + r.weight
  {
  }

  /** Every group has at least one item, as in the shipped catalogue. */
  ghost predicate AllGroupsFilled(catalog: seq<Furniture>) {
    forall group: nat :: group < 4 ==> OfGroup(catalog, group) != []
  }

  lemma {:induction false} PositiveConcat(a: seq<Reward>, b: seq<Reward>)
    requires Positive(a) && Positive(b)
    ensures Positive(a + b) && Total(a + b) == Total(a) + Total(b)
  {
    TotalConcat(a, b);
    hide Total;
  }

  /** The chances add up to one, so the fallback to the last reward is never needed for a clamped value. */
  lemma {:induction false} ChancesAddUp(catalog: seq<Furniture>)
    requires AllGroupsFilled(catalog)
    ensures Total(BuildRewards(catalog)) == 1.0 && Positive(BuildRewards(catalog))
  {
    CatTotal();
    GroupTotal(catalog, 0);
    GroupTotal(catalog, 1);
    GroupTotal(catalog, 2);
    GroupTotal(catalog, 3);
    var g0, g1, g2, g3 :=
        GroupRewards(catalog, 0), GroupRewards(catalog, 1), GroupRewards(catalog, 2), GroupRewards(catalog, 3);
    assert OfGroup(catalog, 0) != [] && OfGroup(catalog, 1) != [] && OfGroup(catalog, 2) != []
        && OfGroup(catalog, 3) != [];
    hide GroupRewards, OfGroup, Total, Positive, AllGroupsFilled;
    PositiveConcat(CATS, g0);
    PositiveConcat(CATS + g0, g1);
    PositiveConcat(CATS + g0 + g1, g2);
    PositiveConcat(CATS + g0 + g1 + g2, g3);
  }

  lemma {:induction false} PrefixChosen(a: seq<Reward>, b: seq<Reward>, bounded: real)
    requires Positive(a + b) && 0.0 <= bounded < Total(a + b) && a + b != []
    ensures Choice(a + b, bounded) < |a| <==> bounded < Total(a)
  {
    var i := Choice(a + b, bounded);
    ChosenExactly(a + b, bounded, i);
    assert (a + b)[..|a|] == a;
    hide Choice;
    if i < |a| {
      TotalGrows(a + b, i + 1, |a|);
    } else {
      TotalGrows(a + b, |a|, i);
    }
  }

  /** A draw gives a cat exactly when the value is below one tenth, whatever the furniture catalogue. */
  lemma {:induction false} CatOneInTen(catalog: seq<Furniture>, value: real)
    requires AllGroupsFilled(catalog)
    ensures BuildRewards(catalog)[Choice(BuildRewards(catalog), Clamp(value))].isCat <==> Clamp(value) < 0.10
  {
    var g0, g1, g2, g3 :=
        GroupRewards(catalog, 0), GroupRewards(catalog, 1), GroupRewards(catalog, 2), GroupRewards(catalog, 3);
    var others := g0 + (g1 + (g2 + g3));
    assert BuildRewards(catalog) == CATS + others;
    ChancesAddUp(catalog);
    CatTotal();
    PrefixChosen(CATS, others, Clamp(value));
    GroupTotal(catalog, 0);
    GroupTotal(catalog, 1);
    GroupTotal(catalog, 2);
    GroupTotal(catalog, 3);
    hide GroupRewards, BuildRewards, Choice, Total, Positive, AllGroupsFilled;
    var i := Choice(CATS + others, Clamp(value));
    if i < |CATS| {
      assert (CATS + others)[i] in CATS;
    } else {
      assert (CATS + others)[i] == others[i - |CATS|];
      assert others[i - |CATS|] in others;
    }
  }

  // ----- The chance of one item -----

  /** The kinds of furniture that share one budget. */
  predicate ShareBudget(a: Kind, b: Kind) {
    || a == b
    || (a in {Desk, Hideout} && b in {Desk, Hideout})
    || (a in {CatTree, Scratcher} && b in {CatTree, Scratcher})
    || (a in {Sofa, Bed, Rug, LitterBox} && b in {Sofa, Bed, Rug, LitterBox})
  }

  /** How many items of the catalogue share the budget of a kind. */
  function Sharing(catalog: seq<Furniture>, kind: Kind): nat {
    if catalog == [] then 0
    else (if ShareBudget(catalog[0].kind, kind) then 1 else 0) + Sharing(catalog[1..], kind)
  }

  lemma {:induction false} SharingIsGroup(catalog: seq<Furniture>, kind: Kind)
    ensures |OfGroup(catalog, GroupOf(kind))| == Sharing(catalog, kind)
  {
    if catalog != [] {
      SharingIsGroup(catalog[1..], kind);
    }
  }

  lemma {:induction false} InItsGroup(catalog: seq<Furniture>, f: Furniture)
    requires f in catalog
    ensures f in OfGroup(catalog, GroupOf(f.kind))
  {
    hide GroupOf;
    if catalog[0] != f {
      InItsGroup(catalog[1..], f);
    }
  }

  /**
   Every item of the catalogue is in the pool with its chance: its kinds' budget, one tenth, a quarter,
   three tenths and a quarter again, shared equally by all the items of these kinds.
   */
  lemma {:induction false} OddsOf(catalog: seq<Furniture>, f: Furniture)
    requires f in catalog
    ensures var budget := if f.kind in {Desk, Hideout} then 0.10 else if f.kind == Plant then 0.30 else 0.25;
            && Sharing(catalog, f.kind) > 0
            && Reward(f.key, false, budget / Sharing(catalog, f.kind) as real) in BuildRewards(catalog)
  {
    var group := GroupOf(f.kind);
    SharingIsGroup(catalog, f.kind);
    InItsGroup(catalog, f);
    var items := OfGroup(catalog, group);
    var k :| 0 <= k < |items| && items[k] == f;
    var share := GroupRewards(catalog, group)[k];
    assert share in GroupRewards(catalog, group);
    InPool(catalog, group, share);
    hide OfGroup, BuildRewards;
  }

  lemma {:induction false} InPool(catalog: seq<Furniture>, group: nat, r: Reward)
    requires group < 4 && r in GroupRewards(catalog, group)
    ensures r in BuildRewards(catalog)
  {
    hide GroupRewards;
  }

  /** Every reward of the pool is one of the six cats, ink five times as likely as each other, or an item. */
  lemma {:induction false} PoolHolds(catalog: seq<Furniture>, r: Reward)
    requires r in BuildRewards(catalog)
    ensures r.isCat ==> if r.key == "ink" then r.weight == 0.05
                        else r.key in {"tabby", "silver", "calico", "tuxedo", "fold"} && r.weight == 0.01
    ensures !r.isCat ==> exists f :: f in catalog && f.key == r.key
  {
    if r !in CATS {
      var group :| 0 <= group < 4 && r in GroupRewards(catalog, group);
      hide BuildRewards;
      FromGroup(catalog, group, r);
    }
  }

  lemma {:induction false} FromGroup(catalog: seq<Furniture>, group: nat, r: Reward)
    requires group < 4 && r in GroupRewards(catalog, group)
    ensures !r.isCat && exists f :: f in catalog && f.key == r.key
  {
    var items := OfGroup(catalog, group);
    OfGroupFrom(catalog, group);
    var k :| 0 <= k < |items| && items[k].key == r.key;
    assert items[k] in items;
  }

  lemma {:induction false} OfGroupFrom(catalog: seq<Furniture>, group: nat)
    ensures forall f :: f in OfGroup(catalog, group) ==> f in catalog
  {
    if catalog != [] {
      OfGroupFrom(catalog[1..], group);
    }
  }
}
