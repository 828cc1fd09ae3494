/**
 * Grouping teams into championship tiers. The two tier functions of the source,
 * `getChampionshipTiers` in src/services/seasonService.js and `championshipTiers` in
 * src/composables/useChampionshipData.js, end in the same grouping code, modelled here once.
 * Counts are in half-titles, so a tier key such as 1.5 titles is 3.
 */
module Tiering {
  import opened Common
  import Sorting

  datatype TierTeam = TierTeam(name: string, appearances: int)
  datatype Tier = Tier(count: int, teams: seq<TierTeam>)

  /** The row pushed for team `k`: `{ name: k, appearances: apps[k] || 0 }`. */
  function Row(apps: Dict<string, int>, k: string): TierTeam {
    TierTeam(k, Get(apps, k, 0))
  }

  /** Rows the first loop pushes into `tiers[c]` while visiting the keys `ks` of `champ`. */
  function ChampRows(ks: seq<string>, champ: Dict<string, int>, apps: Dict<string, int>, c: int): seq<TierTeam> {
    if ks == [] then []
    else
      var last := ks[|ks| - 1];
      ChampRows(ks[..|ks| - 1], champ, apps, c) + (if Get(champ, last, 0) == c then [Row(apps, last)] else [])
  }

  /** Rows the second loop pushes into `tiers[0]` while visiting the keys `ks` of `apps`. */
  function ZeroRows(ks: seq<string>, champ: Dict<string, int>, apps: Dict<string, int>): seq<TierTeam> {
    if ks == [] then []
    else
      var last := ks[|ks| - 1];
      ZeroRows(ks[..|ks| - 1], champ, apps) + (if Get(champ, last, 0) == 0 then [Row(apps, last)] else [])
  }

  /** Everything pushed into `tiers[c]`, in push order. */
  function Group(champ: Dict<string, int>, apps: Dict<string, int>, c: int): seq<TierTeam> {
    ChampRows(champ.keys, champ, apps, c) + (if c == 0 then ZeroRows(apps.keys, champ, apps) else [])
  }

  /** Every count that receives a row. */
  function AllCounts(champ: Dict<string, int>, apps: Dict<string, int>): seq<int> {
    seq(|champ.keys|, i requires 0 <= i < |champ.keys| => Get(champ, champ.keys[i], 0))
    + (if ZeroRows(apps.keys, champ, apps) != [] then [0] else [])
  }

  function ByAppearances(): TierTeam -> int {
    (t: TierTeam) => t.appearances
  }

  /** The tier for count `c`: its rows sorted by appearances, most first. */
  function TierOf(champ: Dict<string, int>, apps: Dict<string, int>, c: int): Tier {
    Tier(c, Sorting.SortDesc(Group(champ, apps, c), ByAppearances()))
  }

  /** The tier array: one tier per count, in ascending order of count. */
  function Tiers(champ: Dict<string, int>, apps: Dict<string, int>): seq<Tier> {
    var cs := Sorting.SortedDistinct(AllCounts(champ, apps));
    seq(|cs|, i requires 0 <= i < |cs| => TierOf(champ, apps, cs[i]))
  }

  /** The `tiers` object after the first loop has visited the keys `ks` of `champCounts`. */
  function ChampBuckets(ks: seq<string>, champ: Dict<string, int>, apps: Dict<string, int>): Dict<int, seq<TierTeam>> {
    if ks == [] then EmptyDict()
    else
      var last := ks[|ks| - 1];
      Append(ChampBuckets(ks[..|ks| - 1], champ, apps), Get(champ, last, 0), Row(apps, last))
  }

  /** The `tiers` object after the second loop has visited the keys `ks` of `appearances`, starting from `d`. */
  function ZeroBuckets(ks: seq<string>, champ: Dict<string, int>, apps: Dict<string, int>, d: Dict<int, seq<TierTeam>>): Dict<int, seq<TierTeam>> {
    if ks == [] then d
    else
      var last := ks[|ks| - 1];
      var prev := ZeroBuckets(ks[..|ks| - 1], champ, apps, d);
      if Get(champ, last, 0) == 0 then Append(prev, 0, Row(apps, last)) else prev
  }

  /** The bucket fold files under each count exactly the rows of that count, and nothing under an empty count. */
  lemma {:induction false} ChampBucketsRows(ks: seq<string>, champ: Dict<string, int>, apps: Dict<string, int>)
    ensures ChampBuckets(ks, champ, apps).Valid()
    ensures forall c :: Get(ChampBuckets(ks, champ, apps), c, []) == ChampRows(ks, champ, apps, c)
    ensures forall c :: c in ChampBuckets(ks, champ, apps).vals <==> ChampRows(ks, champ, apps, c) != []
  {
    if ks != [] {
      ChampBucketsRows(ks[..|ks| - 1], champ, apps);
    }
  }

  lemma {:induction false} ZeroBucketsRows(ks: seq<string>, champ: Dict<string, int>, apps: Dict<string, int>, d: Dict<int, seq<TierTeam>>)
    requires d.Valid()
    ensures ZeroBuckets(ks, champ, apps, d).Valid()
    ensures forall c :: c != 0 ==> Get(ZeroBuckets(ks, champ, apps, d), c, []) == Get(d, c, [])
    ensures Get(ZeroBuckets(ks, champ, apps, d), 0, []) == Get(d, 0, []) + ZeroRows(ks, champ, apps)
    ensures forall c :: c in ZeroBuckets(ks, champ, apps, d).vals <==> c in d.vals || (c == 0 && ZeroRows(ks, champ, apps) != [])
  {
    if ks != [] {
      ZeroBucketsRows(ks[..|ks| - 1], champ, apps, d);
    }
  }

  /** The first loop: `Object.entries(champCounts).forEach` pushing each team into `tiers[count]`. */
  method GroupChampions(champ: Dict<string, int>, apps: Dict<string, int>) returns (tiers: Dict<int, seq<TierTeam>>)
    ensures tiers == ChampBuckets(champ.keys, champ, apps)
  {
    tiers := EmptyDict();
    var i := 0;
    while i < |champ.keys|
      invariant 0 <= i <= |champ.keys|
      invariant tiers == ChampBuckets(champ.keys[..i], champ, apps)
    {
      var k := champ.keys[i];
      assert champ.keys[..i + 1][..i] == champ.keys[..i];
      tiers := Append(tiers, Get(champ, k, 0), Row(apps, k));
      i := i + 1;
    }
    assert champ.keys[..i] == champ.keys;
  }

  /** The second loop: every key of `appearances` without a title is pushed into `tiers[0]`. */
  method GroupZero(champ: Dict<string, int>, apps: Dict<string, int>, tiers0: Dict<int, seq<TierTeam>>)
    returns (tiers: Dict<int, seq<TierTeam>>)
    ensures tiers == ZeroBuckets(apps.keys, champ, apps, tiers0)
  {
    tiers := tiers0;
    var j := 0;
    while j < |apps.keys|
      invariant 0 <= j <= |apps.keys|
      invariant tiers == ZeroBuckets(apps.keys[..j], champ, apps, tiers0)
    {
      var k := apps.keys[j];
      assert apps.keys[..j + 1][..j] == apps.keys[..j];
      if Get(champ, k, 0) == 0 {
        tiers := Append(tiers, 0, Row(apps, k));
      }
      j := j + 1;
    }
    assert apps.keys[..j] == apps.keys;
  }

  /**
   * The two grouping loops and the final sorts. The order in which `tiers` gains its
   * keys does not matter: the final sort by count puts them in one order, and no count
   * is a key twice.
   */
  method GroupTiers(champ: Dict<string, int>, apps: Dict<string, int>) returns (tiers: seq<Tier>)
    ensures tiers == Tiers(champ, apps)
  {
    var byCount := GroupChampions(champ, apps);
    byCount := GroupZero(champ, apps, byCount);
    BucketsAreGroups(champ, apps);
    BucketKeysSorted(champ, apps);
    var cs := Sorting.SortedDistinct(byCount.keys);
    tiers := seq(|cs|, i requires 0 <= i < |cs| => Tier(cs[i], Sorting.SortDesc(Get(byCount, cs[i], []), ByAppearances())));
  }

  lemma {:induction false} ChampRowsNonEmpty(ks: seq<string>, champ: Dict<string, int>, apps: Dict<string, int>, c: int)
    ensures ChampRows(ks, champ, apps, c) != [] <==> exists i :: 0 <= i < |ks| && Get(champ, ks[i], 0) == c
  {
    if ks != [] {
      var n := |ks| - 1;
      ChampRowsNonEmpty(ks[..n], champ, apps, c);
      if exists i :: 0 <= i < |ks| && Get(champ, ks[i], 0) == c {
        var i :| 0 <= i < |ks| && Get(champ, ks[i], 0) == c;
        if i < n {
          assert ks[..n][i] == ks[i];
        }
      }
      if exists i :: 0 <= i < n && Get(champ, ks[..n][i], 0) == c {
        var i :| 0 <= i < n && Get(champ, ks[..n][i], 0) == c;
        assert ks[..n][i] == ks[i];
      }
    }
  }

  /** A count is a key of the tier object exactly when it is one of `AllCounts`. */
  lemma GroupNonEmpty(champ: Dict<string, int>, apps: Dict<string, int>, c: int)
    ensures Group(champ, apps, c) != [] <==> c in AllCounts(champ, apps)
  {
    ChampRowsNonEmpty(champ.keys, champ, apps, c);
    var vs := seq(|champ.keys|, i requires 0 <= i < |champ.keys| => Get(champ, champ.keys[i], 0));
    assert AllCounts(champ, apps) == vs + (if ZeroRows(apps.keys, champ, apps) != [] then [0] else []);
    if exists i :: 0 <= i < |champ.keys| && Get(champ, champ.keys[i], 0) == c {
      var i :| 0 <= i < |champ.keys| && Get(champ, champ.keys[i], 0) == c;
      assert vs[i] == c;
    }
    if c in vs {
      var i :| 0 <= i < |vs| && vs[i] == c;
      assert Get(champ, champ.keys[i], 0) == c;
    }
  }

  /** The tier object after both loops. */
  function Buckets(champ: Dict<string, int>, apps: Dict<string, int>): Dict<int, seq<TierTeam>> {
    ZeroBuckets(apps.keys, champ, apps, ChampBuckets(champ.keys, champ, apps))
  }

  /** After both loops, `tiers[c]` holds exactly `Group(c)`, and `c` is a key exactly when that is non-empty. */
  lemma BucketsAreGroups(champ: Dict<string, int>, apps: Dict<string, int>)
    ensures Buckets(champ, apps).Valid()
    ensures forall c :: Get(Buckets(champ, apps), c, []) == Group(champ, apps, c)
    ensures forall c :: c in Buckets(champ, apps).keys <==> Group(champ, apps, c) != []
  {
    var first := ChampBuckets(champ.keys, champ, apps);
    ChampBucketsRows(champ.keys, champ, apps);
    ZeroBucketsRows(apps.keys, champ, apps, first);
  }

  /** Sorting the keys of the tier object gives the sorted distinct counts. */
  lemma BucketKeysSorted(champ: Dict<string, int>, apps: Dict<string, int>)
    ensures Sorting.SortedDistinct(Buckets(champ, apps).keys) == Sorting.SortedDistinct(AllCounts(champ, apps))
  {
    var b := Buckets(champ, apps);
    BucketsAreGroups(champ, apps);
    forall c ensures c in b.keys <==> c in AllCounts(champ, apps) {
      GroupNonEmpty(champ, apps, c);
    }
    SortedUnique(Sorting.SortedDistinct(b.keys), Sorting.SortedDistinct(AllCounts(champ, apps)));
  }

  /** Two strictly ascending sequences with the same elements are equal. */
  lemma {:induction false} SortedUnique(a: seq<int>, b: seq<int>)
    requires forall i, j :: 0 <= i < j < |a| ==> a[i] < a[j]
    requires forall i, j :: 0 <= i < j < |b| ==> b[i] < b[j]
    requires forall x :: x in a <==> x in b
    ensures a == b
  {
    assert a != [] ==> a[0] in a && a[0] in b;
    assert b != [] ==> b[0] in b && b[0] in a;
    if a != [] {
      assert a[0] == b[0] by {
        var j :| 0 <= j < |b| && b[j] == a[0];
        var i :| 0 <= i < |a| && a[i] == b[0];
        assert b[0] <= b[j] && a[0] <= a[i];
      }
      StrictTail(a);
      StrictTail(b);
      SortedUnique(a[1..], b[1..]);
      assert a == [a[0]] + a[1..] && b == [b[0]] + b[1..];
    }
  }

  /** The tail of a strictly ascending sequence is the sequence without its first element. */
  lemma StrictTail(a: seq<int>)
    requires a != []
    requires forall i, j :: 0 <= i < j < |a| ==> a[i] < a[j]
    ensures forall x :: x in a[1..] <==> x in a && x != a[0]
    ensures forall i, j :: 0 <= i < j < |a[1..]| ==> a[1..][i] < a[1..][j]
  {
    assert a == [a[0]] + a[1..];
    forall x | x in a[1..] ensures x != a[0] {
      var i :| 0 <= i < |a[1..]| && a[1..][i] == x;
      assert x == a[i + 1];
    }
  }

  /** The rows pushed for a count are the teams holding that count, each with its appearances. */
  lemma {:induction false} ChampRowsMember(ks: seq<string>, champ: Dict<string, int>, apps: Dict<string, int>, c: int, t: TierTeam)
    ensures t in ChampRows(ks, champ, apps, c) <==> t.name in ks && Get(champ, t.name, 0) == c && t == Row(apps, t.name)
  {
    if ks != [] {
      var n := |ks| - 1;
      ChampRowsMember(ks[..n], champ, apps, c, t);
      assert ks == ks[..n] + [ks[n]];
    }
  }

  lemma {:induction false} ZeroRowsMember(ks: seq<string>, champ: Dict<string, int>, apps: Dict<string, int>, t: TierTeam)
    ensures t in ZeroRows(ks, champ, apps) <==> t.name in ks && Get(champ, t.name, 0) == 0 && t == Row(apps, t.name)
  {
    if ks != [] {
      var n := |ks| - 1;
      ZeroRowsMember(ks[..n], champ, apps, t);
      assert ks == ks[..n] + [ks[n]];
    }
  }

  lemma {:induction false} ChampRowsDistinct(ks: seq<string>, champ: Dict<string, int>, apps: Dict<string, int>, c: int)
    requires Distinct(ks)
    ensures Distinct(ChampRows(ks, champ, apps, c))
  {
    if ks != [] {
      var n := |ks| - 1;
      assert Distinct(ks[..n]);
      ChampRowsDistinct(ks[..n], champ, apps, c);
      if Get(champ, ks[n], 0) == c {
        ChampRowsMember(ks[..n], champ, apps, c, Row(apps, ks[n]));
        assert ks[n] !in ks[..n];
        DistinctAppend(ChampRows(ks[..n], champ, apps, c), Row(apps, ks[n]));
      }
    }
  }

  lemma {:induction false} ZeroRowsDistinct(ks: seq<string>, champ: Dict<string, int>, apps: Dict<string, int>)
    requires Distinct(ks)
    ensures Distinct(ZeroRows(ks, champ, apps))
  {
    if ks != [] {
      var n := |ks| - 1;
      assert Distinct(ks[..n]);
      ZeroRowsDistinct(ks[..n], champ, apps);
      if Get(champ, ks[n], 0) == 0 {
        ZeroRowsMember(ks[..n], champ, apps, Row(apps, ks[n]));
        assert ks[n] !in ks[..n];
        DistinctAppend(ZeroRows(ks[..n], champ, apps), Row(apps, ks[n]));
      }
    }
  }

  /**
   * A team sits in the tier of its own title count, with its own appearance count: in
   * the tier of a count it has from `champCounts`, or in tier 0 when it has appearances
   * and no title.
   */
  lemma GroupMember(champ: Dict<string, int>, apps: Dict<string, int>, c: int, t: TierTeam)
    ensures t in Group(champ, apps, c) <==>
      && t == Row(apps, t.name)
      && Get(champ, t.name, 0) == c
      && (t.name in champ.keys || (c == 0 && t.name in apps.keys))
  {
    ChampRowsMember(champ.keys, champ, apps, c, t);
    ZeroRowsMember(apps.keys, champ, apps, t);
  }

  /**
   * The tier array: counts strictly ascending, no tier empty, each tier's teams in
   * non-increasing order of appearances, each team in the tier of its own count, and
   * every team of either tally placed.
   */
  lemma TiersSpec(champ: Dict<string, int>, apps: Dict<string, int>)
    requires champ.Valid()
    ensures var ts := Tiers(champ, apps);
      && (forall i, j :: 0 <= i < j < |ts| ==> ts[i].count < ts[j].count)
      && (forall i :: 0 <= i < |ts| ==> ts[i].teams != [] && Sorting.SortedDesc(ts[i].teams, ByAppearances()))
      && (forall i, t :: 0 <= i < |ts| && t in ts[i].teams ==>
            t == Row(apps, t.name) && Get(champ, t.name, 0) == ts[i].count)
      && (forall name :: name in champ.keys || name in apps.keys ==>
            exists i :: 0 <= i < |ts| && ts[i].count == Get(champ, name, 0) && Row(apps, name) in ts[i].teams)
  {
    var ts := Tiers(champ, apps);
    var cs := Sorting.SortedDistinct(AllCounts(champ, apps));
    forall i | 0 <= i < |ts| ensures ts[i].teams != [] {
      GroupNonEmpty(champ, apps, cs[i]);
    }
    forall i, t | 0 <= i < |ts| && t in ts[i].teams
      ensures t == Row(apps, t.name) && Get(champ, t.name, 0) == ts[i].count
    {
      assert t in multiset(Group(champ, apps, cs[i]));
      GroupMember(champ, apps, cs[i], t);
    }
    forall name | name in champ.keys || name in apps.keys
      ensures exists i :: 0 <= i < |ts| && ts[i].count == Get(champ, name, 0) && Row(apps, name) in ts[i].teams
    {
      TierOfName(champ, apps, name);
    }
  }

  /** A key of either tally has a tier: the one of its count, holding its row. */
  lemma TierOfName(champ: Dict<string, int>, apps: Dict<string, int>, name: string)
    requires champ.Valid()
    requires name in champ.keys || name in apps.keys
    ensures exists i :: (0 <= i < |Tiers(champ, apps)| && Tiers(champ, apps)[i].count == Get(champ, name, 0)
      && Row(apps, name) in Tiers(champ, apps)[i].teams)
  {
    var ts := Tiers(champ, apps);
    var cs := Sorting.SortedDistinct(AllCounts(champ, apps));
    var c := Get(champ, name, 0);
    GroupMember(champ, apps, c, Row(apps, name));
    GroupNonEmpty(champ, apps, c);
    var i :| 0 <= i < |cs| && cs[i] == c;
    assert Row(apps, name) in multiset(ts[i].teams);
  }

  /** With positive counts no titled team falls into tier 0, so every group is free of repeats. */
  lemma GroupDistinct(champ: Dict<string, int>, apps: Dict<string, int>, c: int)
    requires champ.Valid() && apps.Valid() && Positive(champ)
    ensures Distinct(Group(champ, apps, c))
  {
    ChampRowsDistinct(champ.keys, champ, apps, c);
    if c == 0 {
      ZeroRowsDistinct(apps.keys, champ, apps);
      var rows := ChampRows(champ.keys, champ, apps, 0);
      if rows != [] {
        ChampRowsMember(champ.keys, champ, apps, 0, rows[0]);
        assert false;
      }
    }
  }

  /** No team appears twice in the tier array. */
  lemma TiersDistinct(champ: Dict<string, int>, apps: Dict<string, int>)
    requires champ.Valid() && apps.Valid() && Positive(champ)
    ensures var ts := Tiers(champ, apps);
      forall i, j, a, b :: (0 <= i < |ts| && 0 <= j < |ts| && 0 <= a < |ts[i].teams| && 0 <= b < |ts[j].teams|
        && ts[i].teams[a].name == ts[j].teams[b].name) ==> i == j && a == b
  {
    var ts := Tiers(champ, apps);
    var cs := Sorting.SortedDistinct(AllCounts(champ, apps));
    TiersSpec(champ, apps);
    forall i | 0 <= i < |ts| ensures Distinct(ts[i].teams) {
      GroupDistinct(champ, apps, cs[i]);
      DistinctPermutation(Group(champ, apps, cs[i]), ts[i].teams);
    }
    forall i, j, a, b | (0 <= i < |ts| && 0 <= j < |ts| && 0 <= a < |ts[i].teams| && 0 <= b < |ts[j].teams|
        && ts[i].teams[a].name == ts[j].teams[b].name)
      ensures i == j && a == b
    {
      assert ts[i].teams[a] in ts[i].teams && ts[j].teams[b] in ts[j].teams;
      assert ts[i].count == ts[j].count;
    }
  }

  /** The teams of a tier are the rows grouped under its count, reordered. */
  lemma TierTeamsAreGroup(champ: Dict<string, int>, apps: Dict<string, int>, i: int, t: TierTeam)
    requires 0 <= i < |Tiers(champ, apps)|
    ensures t in Tiers(champ, apps)[i].teams <==> t in Group(champ, apps, Tiers(champ, apps)[i].count)
  {
    var tier := Tiers(champ, apps)[i];
    assert multiset(tier.teams) == multiset(Group(champ, apps, tier.count));
    assert t in tier.teams <==> t in multiset(tier.teams);
  }
}
