/** Choosing what to compact: four readers of one size tier that follow one another, where
    readers whose file cannot be found are passed over. */
module Selection {
  import opened ByteStrings
  import opened Store

  const MB: nat := 1024 * 1024

  function Tier(size: nat): nat {
    if size < 10 * MB then 0
    else if size < 50 * MB then 1
    else if size < 250 * MB then 2
    else if size < 1024 * MB then 3
    else 4
  }

  /** The file sizes of the readers in list order; None where the file is not found. */
  type Sizes = seq<Option<nat>>

  predicate InTier(sizes: Sizes, i: nat, tier: nat) {
    i < |sizes| && sizes[i].Some? && Tier(sizes[i].value) == tier
  }

  /** Four readers of one tier with nothing but missing files between them. */
  ghost predicate IsGroup(sizes: Sizes, picked: seq<nat>, tier: nat) {
    && |picked| == COMPACTION_THRESHOLD && Increasing(picked, |sizes|)
    && (forall i :: 0 <= i < |picked| ==> InTier(sizes, picked[i], tier))
    && NoneBetween(sizes, picked, picked[0], picked[|picked| - 1])
  }

  ghost predicate NoneBetween(sizes: Sizes, picked: seq<nat>, from: nat, to: nat) {
    forall r :: from <= r <= to && r < |sizes| && sizes[r].Some? ==> r in picked
  }

  // ---------- the same without the name of a tier ----------

  /** The sizes lie on the same side of 10, 50, 250 and 1024 MiB. */
  predicate SameSides(a: nat, b: nat) {
    && (a < 10 * 0x10_0000 <==> b < 10 * 0x10_0000) && (a < 50 * 0x10_0000 <==> b < 50 * 0x10_0000)
    && (a < 250 * 0x10_0000 <==> b < 250 * 0x10_0000) && (a < 1024 * 0x10_0000 <==> b < 1024 * 0x10_0000)
  }

  /** How many of these bounds a size reaches. */
  function BoundsReached(size: nat): nat {
    (if size >= 10 * 0x10_0000 then 1 else 0) + (if size >= 50 * 0x10_0000 then 1 else 0)
    + (if size >= 250 * 0x10_0000 then 1 else 0) + (if size >= 1024 * 0x10_0000 then 1 else 0)
  }

  lemma TierIs(a: nat, b: nat)
    ensures Tier(a) == BoundsReached(a) && (Tier(a) == Tier(b) <==> SameSides(a, b))
  {
  }

  /** Four positions in list order whose files are there, of like sizes, with only missing files
      between them. */
  ghost predicate FourAlike(sizes: Sizes, picked: seq<nat>) {
    && |picked| == 4 && picked[0] < picked[1] < picked[2] < picked[3] < |sizes|
    && (forall i :: 0 <= i < 4 ==> sizes[picked[i]].Some?)
    && (forall i, j :: 0 <= i < 4 && 0 <= j < 4 ==> SameSides(sizes[picked[i]].value, sizes[picked[j]].value))
    && (forall r :: picked[0] <= r <= picked[3] && r !in picked ==> sizes[r].None?)
  }

  /** These are the groups, and their tier is the number of bounds that they reach. */
  lemma GroupIsFourAlike(sizes: Sizes, picked: seq<nat>, tier: nat)
    ensures IsGroup(sizes, picked, tier) <==> FourAlike(sizes, picked) && tier == BoundsReached(sizes[picked[0]].value)
  {
    hide Tier, SameSides, BoundsReached;
    if IsGroup(sizes, picked, tier) || FourAlike(sizes, picked) {
      forall i, j | 0 <= i < 4 && 0 <= j < 4 && sizes[picked[i]].Some? && sizes[picked[j]].Some?
        ensures Tier(sizes[picked[i]].value) == Tier(sizes[picked[j]].value) <==> SameSides(sizes[picked[i]].value, sizes[picked[j]].value)
        ensures Tier(sizes[picked[i]].value) == BoundsReached(sizes[picked[i]].value)
      {
        TierIs(sizes[picked[i]].value, sizes[picked[j]].value);
      }
      assert InTier(sizes, picked[0], tier) ==> Tier(sizes[picked[0]].value) == tier;
    }
  }

  lemma AllGroups(sizes: Sizes)
    ensures forall g, t: nat :: IsGroup(sizes, g, t) <==> FourAlike(sizes, g) && t == BoundsReached(sizes[g[0]].value)
    ensures (forall g, t :: !IsGroup(sizes, g, t)) <==> forall g :: !FourAlike(sizes, g)
  {
    hide IsGroup, SameSides, BoundsReached;
    forall g, t: nat ensures IsGroup(sizes, g, t) <==> FourAlike(sizes, g) && t == BoundsReached(sizes[g[0]].value) {
      GroupIsFourAlike(sizes, g, t);
    }
    if g :| FourAlike(sizes, g) {
      assert IsGroup(sizes, g, BoundsReached(sizes[g[0]].value));
    }
  }

  /** The state of the search after the first n readers: the group holds the readers at the
      end that are of one tier; before them comes a reader of another tier, if any. */
  ghost predicate Trailing(sizes: Sizes, n: nat, group: seq<nat>, tier: int) {
    && n <= |sizes| && Increasing(group, n)
    && (group == [] ==> tier == -1)
    && (group != [] ==> tier >= 0)
    && (forall i :: 0 <= i < |group| ==> InTier(sizes, group[i], tier))
    && (forall r :: 0 <= r < n && sizes[r].Some? ==> r in group || Cut(sizes, r, group, tier))
  }

  /** Some reader from r on, before the group, is of another tier. */
  ghost predicate Cut(sizes: Sizes, r: nat, group: seq<nat>, tier: int) {
    group != [] && exists q :: r <= q < group[0] && q < |sizes| && sizes[q].Some? && Tier(sizes[q].value) != tier
  }

  /** Missing files leave the search as it is. */
  lemma PassedOver(sizes: Sizes, n: nat, group: seq<nat>, tier: int)
    requires Trailing(sizes, n, group, tier) && n < |sizes| && sizes[n].None?
    ensures Trailing(sizes, n + 1, group, tier)
  {
  }

  lemma SameTier(sizes: Sizes, n: nat, group: seq<nat>, tier: int)
    requires Trailing(sizes, n, group, tier) && n < |sizes| && sizes[n].Some? && Tier(sizes[n].value) == tier
    ensures Trailing(sizes, n + 1, group + [n], tier)
  {
    var group' := group + [n];
    forall r | 0 <= r < n + 1 && sizes[r].Some? ensures r in group' || Cut(sizes, r, group', tier) {
      if r < n && r !in group {
        assert Cut(sizes, r, group, tier);
        assert group'[0] == group[0];
      }
    }
  }

  lemma OtherTier(sizes: Sizes, n: nat, group: seq<nat>, tier: int)
    requires Trailing(sizes, n, group, tier) && n < |sizes| && sizes[n].Some? && Tier(sizes[n].value) != tier
    ensures Trailing(sizes, n + 1, [n], Tier(sizes[n].value))
  {
    var t := Tier(sizes[n].value);
    forall r | 0 <= r < n + 1 && sizes[r].Some? ensures r in [n] || Cut(sizes, r, [n], t) {
      if r < n {
        assert group != [];
        var last := group[|group| - 1];
        assert InTier(sizes, last, tier);
        if r > last {
          assert r in group || Cut(sizes, r, group, tier);
          LastOfGroup(group, n, r);
        }
        assert r <= last < [n][0];
      }
    }
  }

  lemma LastOfGroup(group: seq<nat>, n: nat, r: nat)
    requires Increasing(group, n) && group != [] && r > group[|group| - 1]
    ensures r !in group && r > group[0]
  {
    assert group[0] <= group[|group| - 1];
  }

  /** Inside a group only its own tier occurs. */
  lemma WithinGroup(sizes: Sizes, picked: seq<nat>, tier: nat, q: nat)
    requires IsGroup(sizes, picked, tier) && picked[0] <= q <= picked[|picked| - 1]
    requires q < |sizes| && sizes[q].Some?
    ensures Tier(sizes[q].value) == tier
  {
    assert q in picked;
    var j :| 0 <= j < |picked| && picked[j] == q;
    assert InTier(sizes, picked[j], tier);
  }

  /** A group that ends with the last reader seen lies in the trailing group. */
  lemma GroupIsTrailing(sizes: Sizes, n: nat, group: seq<nat>, tier: int, picked: seq<nat>, t: nat)
    requires Trailing(sizes, n, group, tier) && IsGroup(sizes, picked, t) && picked[|picked| - 1] == n - 1
    ensures tier == t && |group| >= COMPACTION_THRESHOLD
  {
    var last := picked[|picked| - 1];
    assert InTier(sizes, last, t);
    assert group != [] ==> group[0] < n;
    assert last in group || Cut(sizes, last, group, tier);
    var k :| 0 <= k < |group| && group[k] == last;
    assert InTier(sizes, group[k], tier);
    assert group[0] <= group[k];
    forall i | 0 <= i < |picked| ensures picked[i] in group {
      assert InTier(sizes, picked[i], t);
      assert picked[0] <= picked[i] <= last;
      forall q | picked[i] <= q < group[0] && q < |sizes| && sizes[q].Some? ensures Tier(sizes[q].value) == tier {
        WithinGroup(sizes, picked, t, q);
      }
      assert picked[i] in group || Cut(sizes, picked[i], group, tier);
    }
    Embedded(picked, group);
  }

  lemma {:induction false} Embedded(a: seq<nat>, b: seq<nat>)
    requires forall i, j :: 0 <= i < j < |a| ==> a[i] < a[j]
    requires forall i, j :: 0 <= i < j < |b| ==> b[i] < b[j]
    requires forall i :: 0 <= i < |a| ==> a[i] in b
    ensures |a| <= |b|
  {
    if a != [] {
      var n := |a| - 1;
      var k :| 0 <= k < |b| && b[k] == a[n];
      forall i | 0 <= i < n ensures a[..n][i] in b[..k] {
        var j :| 0 <= j < |b| && b[j] == a[i];
        assert b[..k][j] == a[i];
      }
      Embedded(a[..n], b[..k]);
    }
  }

  /** No group ends among the first n readers. */
  ghost predicate NoGroupYet(sizes: Sizes, n: nat) {
    forall picked, tier :: IsGroup(sizes, picked, tier) ==> picked[|picked| - 1] >= n
  }

  /** A trailing group of fewer than four has no complete group before it. */
  lemma StillNoGroup(sizes: Sizes, n: nat, group: seq<nat>, tier: int)
    requires NoGroupYet(sizes, n) && Trailing(sizes, n + 1, group, tier) && |group| < COMPACTION_THRESHOLD
    ensures NoGroupYet(sizes, n + 1)
  {
    forall picked, t | IsGroup(sizes, picked, t) ensures picked[|picked| - 1] >= n + 1 {
      if picked[|picked| - 1] == n {
        GroupIsTrailing(sizes, n + 1, group, tier, picked, t);
      }
    }
  }

  /** A trailing group of exactly four, the last reader included, is a group. */
  lemma GroupComplete(sizes: Sizes, n: nat, group: seq<nat>, tier: int)
    requires Trailing(sizes, n + 1, group, tier) && |group| == COMPACTION_THRESHOLD && group[|group| - 1] == n
    ensures tier >= 0 && IsGroup(sizes, group, tier)
  {
    forall r | group[0] <= r <= n && r < |sizes| && sizes[r].Some? ensures r in group {
      assert r in group || Cut(sizes, r, group, tier);
    }
  }

  /** The group that ends first, in these terms. */
  lemma FirstToEnd(sizes: Sizes, picked: seq<nat>, tier: nat)
    requires IsGroup(sizes, picked, tier)
    requires forall g, t :: IsGroup(sizes, g, t) ==> g[|g| - 1] >= picked[|picked| - 1]
    ensures FourAlike(sizes, picked) && tier == BoundsReached(sizes[picked[0]].value)
    ensures forall g :: FourAlike(sizes, g) ==> g[3] >= picked[3]
  {
    hide IsGroup, SameSides, BoundsReached;
    GroupIsFourAlike(sizes, picked, tier);
    forall g | FourAlike(sizes, g) ensures g[3] >= picked[3] {
      GroupIsFourAlike(sizes, g, BoundsReached(sizes[g[0]].value));
    }
  }

  /** The search over the readers. It returns the group that ends first, and no group exactly
      when there is none. */
  method SelectFiles(sizes: Sizes) returns (picked: seq<nat>, tier: int)
    ensures picked == [] <==> tier == -1
    ensures picked == [] ==> forall g, t :: !IsGroup(sizes, g, t)
    ensures picked != [] ==> tier >= 0 && IsGroup(sizes, picked, tier)
    ensures picked != [] ==> forall g, t :: IsGroup(sizes, g, t) ==> g[|g| - 1] >= picked[|picked| - 1]
    ensures picked == [] <==> forall g :: !FourAlike(sizes, g)
    ensures picked != [] ==> FourAlike(sizes, picked) && tier == BoundsReached(sizes[picked[0]].value)
    ensures picked != [] ==> forall g :: FourAlike(sizes, g) ==> g[3] >= picked[3]
  {
    hide IsGroup, Trailing, FourAlike, BoundsReached;
    AllGroups(sizes);
    var currentTier: int := -1;
    var currentGroup: seq<nat> := [];
    SearchStart(sizes);
    var i := 0;
    while i < |sizes|
      invariant i <= |sizes| && Trailing(sizes, i, currentGroup, currentTier) && NoGroupYet(sizes, i)
      invariant |currentGroup| < COMPACTION_THRESHOLD
    {
      if sizes[i] == None {
        PassedOver(sizes, i, currentGroup, currentTier);
      } else {
        var t := Tier(sizes[i].value);
        if t == currentTier {
          SameTier(sizes, i, currentGroup, currentTier);
          currentGroup := currentGroup + [i];
          if |currentGroup| == COMPACTION_THRESHOLD {
            GroupComplete(sizes, i, currentGroup, currentTier);
            FirstToEnd(sizes, currentGroup, currentTier);
            return currentGroup, currentTier;
          }
        } else {
          OtherTier(sizes, i, currentGroup, currentTier);
          currentTier := t;
          currentGroup := [i];
        }
      }
      StillNoGroup(sizes, i, currentGroup, currentTier);
      i := i + 1;
    }
    GroupsEndWithin(sizes);
    return [], -1;
  }

  lemma SearchStart(sizes: Sizes)
    ensures Trailing(sizes, 0, [], -1) && NoGroupYet(sizes, 0)
  {
  }

  lemma GroupsEndWithin(sizes: Sizes)
    ensures forall g, t :: IsGroup(sizes, g, t) ==> g != [] && g[|g| - 1] < |sizes|
  {
  }

  /** No file between the first and the last of the group is missing. */
  ghost predicate NoneMissing(sizes: Sizes, picked: seq<nat>)
    requires picked != []
  {
    forall r :: picked[0] <= r <= picked[|picked| - 1] && r < |sizes| ==> sizes[r].Some?
  }

  /** A group is four neighbours if and only if no file within it is missing. */
  lemma GroupContiguousIff(sizes: Sizes, picked: seq<nat>, tier: nat)
    requires IsGroup(sizes, picked, tier)
    ensures Contiguous(picked) <==> NoneMissing(sizes, picked)
  {
    if NoneMissing(sizes, picked) {
      forall i | 0 <= i < |picked| ensures picked[i] == picked[0] + i {
        GroupStep(sizes, picked, tier, i);
      }
    }
    if Contiguous(picked) {
      forall r | picked[0] <= r <= picked[|picked| - 1] ensures sizes[r].Some? {
        assert picked[r - picked[0]] == r;
        assert InTier(sizes, picked[r - picked[0]], tier);
      }
    }
  }

  lemma {:induction false} GroupStep(sizes: Sizes, picked: seq<nat>, tier: nat, i: nat)
    requires IsGroup(sizes, picked, tier) && NoneMissing(sizes, picked) && i < |picked|
    ensures picked[i] == picked[0] + i
  {
    if i > 0 {
      GroupStep(sizes, picked, tier, i - 1);
      var r := picked[i - 1] + 1;
      assert picked[i] <= picked[|picked| - 1] < |sizes|;
      assert r in picked;
      var j :| 0 <= j < |picked| && picked[j] == r;
      assert j >= i by {
        assert j <= i - 1 || j >= i;
      }
      assert picked[i] <= picked[j];
    }
  }
}
