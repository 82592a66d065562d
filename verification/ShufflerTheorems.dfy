/** What the candidate's seed can and cannot change. */
module ShufflerTheorems {
  import opened Prelude
  import opened Sorting
  import opened Strings
  import opened Shuffler

  // ---- Hash classes of one segment ----

  ghost function Hashes(sha: string -> string, s: seq<Item>): set<string> {
    set i | 0 <= i < |s| :: ContentHash(sha, s[i])
  }

  lemma HashesAppend(sha: string -> string, a: seq<Item>, b: seq<Item>)
    ensures Hashes(sha, a + b) == Hashes(sha, a) + Hashes(sha, b)
  {
    hide ContentHash;
    forall h | h in Hashes(sha, a) + Hashes(sha, b)
      ensures h in Hashes(sha, a + b)
    {
      if h in Hashes(sha, a) {
        var i :| 0 <= i < |a| && h == ContentHash(sha, a[i]);
        assert (a + b)[i] == a[i];
      } else {
        var i :| 0 <= i < |b| && h == ContentHash(sha, b[i]);
        assert (a + b)[|a| + i] == b[i];
      }
    }
  }

  /** Rows of one question carry one content, as rows joined to the question table do. */
  ghost predicate ContentById(items: seq<Item>) {
    forall i, j :: 0 <= i < |items| && 0 <= j < |items| && items[i].questionId == items[j].questionId ==>
      items[i].content == items[j].content
  }

  lemma HashesSnoc(sha: string -> string, s: seq<Item>, x: Item)
    ensures Hashes(sha, s + [x]) == Hashes(sha, s) + {ContentHash(sha, x)}
  {
    hide ContentHash;
    HashesAppend(sha, s, [x]);
    assert [x][0] == x;
  }

  /** The entries whose hash is new, in order. */
  ghost function Fresh(sha: string -> string, used: set<string>, s: seq<Item>): seq<Item> {
    if s == [] then []
    else
      var t, x := s[..|s| - 1], s[|s| - 1];
      Fresh(sha, used, t) + if ContentHash(sha, x) in Hashes(sha, t) + used then [] else [x]
  }

  ghost predicate Within(s: seq<Item>, all: seq<Item>) {
    forall i :: 0 <= i < |s| ==> s[i] in all
  }

  /** What holds of the running state: selected hashes are marked used and come from one module. */
  ghost predicate Consistent(sha: string -> string, p: Picked, all: seq<Item>, m: string) {
    && Within(p.selected, all)
    && (forall i :: 0 <= i < |p.selected| ==>
          p.selected[i].moduleType == m && ContentHash(sha, p.selected[i]) in p.used)
  }

  /** Picking takes the fresh entries and marks every hash; the question-id test adds nothing. */
  lemma {:induction false} PickIsFresh(sha: string -> string, p: Picked, s: seq<Item>, all: seq<Item>, m: string)
    requires ContentById(all) && Consistent(sha, p, all, m) && Within(s, all)
    requires forall i :: 0 <= i < |s| ==> s[i].moduleType == m
    ensures Pick(sha, p, s) == Picked(p.used + Hashes(sha, s), p.selected + Fresh(sha, p.used, s))
    ensures Consistent(sha, Pick(sha, p, s), all, m)
  {
    hide ContentHash, Hashes;
    if s == [] {
      assert Hashes(sha, []) == {} by {
        EmptyHashes(sha);
      }
    } else {
      var t, x := s[..|s| - 1], s[|s| - 1];
      PickIsFresh(sha, p, t, all, m);
      assert s == t + [x];
      HashesSnoc(sha, t, x);
      assert x in all && x.moduleType == m;
      SameIdSameHash(sha, Pick(sha, p, t), x, all, m);
    }
  }

  lemma EmptyHashes(sha: string -> string)
    ensures Hashes(sha, []) == {}
  {
  }

  lemma SameIdSameHash(sha: string -> string, q: Picked, x: Item, all: seq<Item>, m: string)
    requires ContentById(all) && Consistent(sha, q, all, m) && x in all && x.moduleType == m
    ensures IdTaken(q.selected, x.questionId) ==> ContentHash(sha, x) in q.used
  {
  }

  lemma AddNew(a: set<string>, used: set<string>, h: string)
    requires h !in a + used
    ensures (a + {h}) - used == (a - used) + {h}
    ensures |(a + {h}) - used| == |a - used| + 1
  {
    assert (a + {h}) - used == (a - used) + {h};
  }

  /** Fresh entries carry each new hash exactly once. */
  lemma {:induction false} FreshHashes(sha: string -> string, used: set<string>, s: seq<Item>)
    ensures Hashes(sha, Fresh(sha, used, s)) == Hashes(sha, s) - used
    ensures |Fresh(sha, used, s)| == |Hashes(sha, s) - used|
  {
    hide ContentHash, Hashes;
    if s == [] {
      EmptyHashes(sha);
      assert Fresh(sha, used, s) == [];
      assert Hashes(sha, s) - used == {};
    } else {
      var t, x := s[..|s| - 1], s[|s| - 1];
      FreshHashes(sha, used, t);
      assert s == t + [x];
      HashesSnoc(sha, t, x);
      HashesSnoc(sha, Fresh(sha, used, t), x);
      var h := ContentHash(sha, x);
      if h in Hashes(sha, t) + used {
        assert Fresh(sha, used, s) == Fresh(sha, used, t);
        assert Hashes(sha, s) - used == Hashes(sha, t) - used;
      } else {
        AddNew(Hashes(sha, t), used, h);
      }
    }
  }

  // ---- One module ----

  lemma {:induction false} FilterSound(p: Item -> bool, s: seq<Item>)
    ensures forall i :: 0 <= i < |Filter(p, s)| ==> Filter(p, s)[i] in s && p(Filter(p, s)[i])
  {
    if s != [] {
      FilterSound(p, s[..|s| - 1]);
      assert s == s[..|s| - 1] + [s[|s| - 1]];
    }
  }

  lemma {:induction false} FilterComplete(p: Item -> bool, s: seq<Item>, x: Item)
    requires x in s && p(x)
    ensures x in Filter(p, s)
  {
    var t := s[..|s| - 1];
    if x != s[|s| - 1] {
      assert s == t + [s[|s| - 1]];
      FilterComplete(p, t, x);
    }
  }

  lemma PoolSound(items: seq<Item>, m: string, d: nat)
    ensures Within(Pool(items, m, d), items)
    ensures forall i :: 0 <= i < |Pool(items, m, d)| ==> Pool(items, m, d)[i].moduleType == m
  {
    hide Filter;
    FilterSound(OfModule(m), items);
    FilterSound(OfLevel(d), Filter(OfModule(m), items));
  }

  /** All hashes of a module's first `levels` difficulty segments. */
  ghost function LevelHashes(sha: string -> string, items: seq<Item>, m: string, levels: nat): set<string> {
    if levels == 0 then {} else LevelHashes(sha, items, m, levels - 1) + Hashes(sha, Pool(items, m, levels - 1))
  }

  lemma RotateKeeps(sha: string -> string, pool: seq<Item>, offset: nat)
    requires offset <= |pool|
    ensures Hashes(sha, Rotate(pool, offset)) == Hashes(sha, pool)
    ensures multiset(Rotate(pool, offset)) == multiset(pool)
  {
    hide ContentHash, Hashes;
    assert pool == pool[..offset] + pool[offset..];
    HashesAppend(sha, pool[..offset], pool[offset..]);
    HashesAppend(sha, pool[offset..], pool[..offset]);
  }

  /** One segment: the hashes it adds are those of its pool that were not used, each once, for every seed. */
  lemma PickLevelAdds(sha: string -> string, items: seq<Item>, m: string, seed: nat, k: nat, d: nat, p: Picked)
    requires ContentById(items) && Consistent(sha, p, items, m)
    ensures var pool := Pool(items, m, d);
            var q := PickLevel(sha, pool, seed, k, d, p);
            && p.selected <= q.selected
            && Hashes(sha, q.selected[|p.selected|..]) == Hashes(sha, pool) - p.used
            && |q.selected| - |p.selected| == |Hashes(sha, pool) - p.used|
            && q.used == p.used + Hashes(sha, pool)
            && Consistent(sha, q, items, m)
  {
    hide ContentHash, Hashes, Pool, Offset, Pick, Fresh;
    var pool := Pool(items, m, d);
    PoolSound(items, m, d);
    EmptyHashes(sha);
    if pool == [] {
      assert p.selected[|p.selected|..] == [];
      assert Hashes(sha, pool) - p.used == {};
    } else {
      var r := Rotate(pool, Offset(seed, k, d, |pool|));
      RotateKeeps(sha, pool, Offset(seed, k, d, |pool|));
      PickIsFresh(sha, p, r, items, m);
      FreshHashes(sha, p.used, r);
      var added := Fresh(sha, p.used, r);
      assert (p.selected + added)[|p.selected|..] == added;
    }
  }

  lemma SplitNew(used: set<string>, a: set<string>, b: set<string>)
    ensures (a + b) - used == (a - used) + (b - (used + a))
    ensures |(a + b) - used| == |a - used| + |b - (used + a)|
    ensures used + (a + b) == used + a + b
    ensures |used + a| == |used| + |a - used|
  {
  }

  lemma LevelState(sha: string -> string, before: seq<Item>, after: seq<Item>, used: set<string>,
                   known: set<string>, more: set<string>)
    requires before <= after
    requires Hashes(sha, before) == known - used && |before| == |known - used|
    requires Hashes(sha, after[|before|..]) == more - (used + known) && |after| - |before| == |more - (used + known)|
    ensures Hashes(sha, after) == (known + more) - used
    ensures |after| == |(known + more) - used|
    ensures used + known + more == used + (known + more)
  {
    hide ContentHash, Hashes;
    assert after == before + after[|before|..];
    HashesAppend(sha, before, after[|before|..]);
    SplitNew(used, known, more);
  }

  lemma {:induction false} ModuleState(sha: string -> string, items: seq<Item>, m: string, seed: nat, k: nat,
                                       used: set<string>, levels: nat)
    requires ContentById(items)
    ensures var p := PickModule(sha, items, m, seed, k, used, levels);
            && Consistent(sha, p, items, m)
            && p.used == used + LevelHashes(sha, items, m, levels)
            && Hashes(sha, p.selected) == LevelHashes(sha, items, m, levels) - used
            && |p.selected| == |LevelHashes(sha, items, m, levels) - used|
  {
    hide ContentHash, Hashes, Pool, PickLevel;
    if levels == 0 {
      EmptyHashes(sha);
      assert {} - used == {};
    } else {
      ModuleState(sha, items, m, seed, k, used, levels - 1);
      var p := PickModule(sha, items, m, seed, k, used, levels - 1);
      var pool := Pool(items, m, levels - 1);
      PickLevelAdds(sha, items, m, seed, k, levels - 1, p);
      var q := PickModule(sha, items, m, seed, k, used, levels);
      LevelState(sha, p.selected, q.selected, used, LevelHashes(sha, items, m, levels - 1), Hashes(sha, pool));
    }
  }

  // ---- All modules ----

  /** The hashes of all segments of the first k modules: no seed appears. */
  ghost function Earlier(sha: string -> string, items: seq<Item>, mods: seq<string>, k: nat): set<string>
    requires k <= |mods|
  {
    if k == 0 then {} else Earlier(sha, items, mods, k - 1) + LevelHashes(sha, items, mods[k - 1], 3)
  }

  /**
   * The segment of module k and difficulty d holds exactly the hashes of its pool that no earlier
   * segment has, each once, whatever the seed.
   */
  lemma SegmentHashes(sha: string -> string, items: seq<Item>, mods: seq<string>, seed: nat, k: nat, d: nat)
    requires ContentById(items) && k < |mods| && d < 3
    ensures var used := Allocate(sha, items, mods, seed, k).used;
            var before := PickModule(sha, items, mods[k], seed, k, used, d).selected;
            var after := PickModule(sha, items, mods[k], seed, k, used, d + 1).selected;
            var added := Hashes(sha, Pool(items, mods[k], d))
                         - (Earlier(sha, items, mods, k) + LevelHashes(sha, items, mods[k], d));
            && before <= after
            && Hashes(sha, after[|before|..]) == added
            && |after| - |before| == |added|
  {
    hide ContentHash, Hashes, Pool, PickLevel, LevelHashes, Earlier, Allocate;
    AllocationState(sha, items, mods, seed, k);
    var used := Allocate(sha, items, mods, seed, k).used;
    ModuleState(sha, items, mods[k], seed, k, used, d);
    PickLevelAdds(sha, items, mods[k], seed, k, d, PickModule(sha, items, mods[k], seed, k, used, d));
  }

  function ItemsOf(out: seq<Allocated>): seq<Item> {
    Map((a: Allocated) => a.item, out)
  }

  lemma IndexedItems(sha: string -> string, selected: seq<Item>)
    ensures ItemsOf(Indexed(sha, selected)) == selected
  {
    hide ContentHash, Map;
  }

  lemma ItemsOfAppend(a: seq<Allocated>, b: seq<Allocated>)
    ensures ItemsOf(a + b) == ItemsOf(a) + ItemsOf(b)
  {
  }

  lemma BlockState(sha: string -> string, out: seq<Allocated>, used: set<string>, selected: seq<Item>,
                   more: set<string>)
    requires Hashes(sha, ItemsOf(out)) == used && |out| == |used|
    requires Hashes(sha, selected) == more - used && |selected| == |more - used|
    ensures var out' := out + Indexed(sha, selected);
            && Hashes(sha, ItemsOf(out')) == used + more
            && |out'| == |used + more|
            && ItemsOf(out') == ItemsOf(out) + selected
  {
    hide ContentHash, Hashes, ItemsOf, Indexed;
    IndexedItems(sha, selected);
    ItemsOfAppend(out, Indexed(sha, selected));
    HashesAppend(sha, ItemsOf(out), selected);
    SplitNew(used, more, {});
    assert used + more == used + (more - used);
  }

  lemma {:induction false} AllocationState(sha: string -> string, items: seq<Item>, mods: seq<string>, seed: nat,
                                           k: nat)
    requires ContentById(items) && k <= |mods|
    ensures var a := Allocate(sha, items, mods, seed, k);
            && a.used == Earlier(sha, items, mods, k)
            && Hashes(sha, ItemsOf(a.out)) == Earlier(sha, items, mods, k)
            && |a.out| == |Earlier(sha, items, mods, k)|
            && Within(ItemsOf(a.out), items)
  {
    hide ContentHash, Hashes, LevelHashes, PickModule, Indexed, Map;
    if k == 0 {
      EmptyHashes(sha);
      assert ItemsOf([]) == [];
    } else {
      hide ItemsOf;
      AllocationState(sha, items, mods, seed, k - 1);
      var before := Allocate(sha, items, mods, seed, k - 1);
      ModuleState(sha, items, mods[k - 1], seed, k - 1, before.used, 3);
      var p := PickModule(sha, items, mods[k - 1], seed, k - 1, before.used, 3);
      BlockState(sha, before.out, before.used, p.selected, LevelHashes(sha, items, mods[k - 1], 3));
    }
  }

  /** Each allocated question carries the hash of its content. */
  ghost predicate HashesRecorded(sha: string -> string, out: seq<Allocated>) {
    forall i :: 0 <= i < |out| ==> out[i].contentHash == ContentHash(sha, out[i].item)
  }

  lemma {:induction false} AllocationHashes(sha: string -> string, items: seq<Item>, mods: seq<string>, seed: nat,
                                            k: nat)
    requires k <= |mods|
    ensures HashesRecorded(sha, Allocate(sha, items, mods, seed, k).out)
  {
    hide ContentHash, PickModule;
    if k > 0 {
      AllocationHashes(sha, items, mods, seed, k - 1);
    }
  }

  lemma {:induction false} TypesCover(items: seq<Item>)
    ensures forall i :: 0 <= i < |items| ==> items[i].moduleType in Types(items)
    ensures forall i, j :: 0 <= i < j < |Types(items)| ==> Types(items)[i] != Types(items)[j]
  {
    if items != [] {
      TypesCover(items[..|items| - 1]);
    }
  }

  lemma {:induction false} EarlierHas(sha: string -> string, items: seq<Item>, mods: seq<string>, k: nat, i: nat)
    requires i < k <= |mods|
    ensures LevelHashes(sha, items, mods[i], 3) <= Earlier(sha, items, mods, k)
  {
    hide LevelHashes;
    if i < k - 1 {
      EarlierHas(sha, items, mods, k - 1, i);
    }
  }

  lemma {:induction false} EarlierWithin(sha: string -> string, items: seq<Item>, mods: seq<string>, k: nat)
    requires k <= |mods|
    ensures Earlier(sha, items, mods, k) <= Hashes(sha, items)
  {
    hide ContentHash, Pool;
    if k > 0 {
      EarlierWithin(sha, items, mods, k - 1);
      var m := mods[k - 1];
      PoolHashes(sha, items, m, 0);
      PoolHashes(sha, items, m, 1);
      PoolHashes(sha, items, m, 2);
      assert LevelHashes(sha, items, m, 1) == Hashes(sha, Pool(items, m, 0));
      assert LevelHashes(sha, items, m, 2) == LevelHashes(sha, items, m, 1) + Hashes(sha, Pool(items, m, 1));
    }
  }

  lemma PoolHashes(sha: string -> string, items: seq<Item>, m: string, d: nat)
    ensures Hashes(sha, Pool(items, m, d)) <= Hashes(sha, items)
  {
    hide ContentHash, Pool;
    PoolSound(items, m, d);
    var s := Pool(items, m, d);
    forall h | h in Hashes(sha, s)
      ensures h in Hashes(sha, items)
    {
      var i :| 0 <= i < |s| && h == ContentHash(sha, s[i]);
      assert s[i] in items;
      var j :| 0 <= j < |items| && items[j] == s[i];
    }
  }

  /** Between them the segments hold every hash of the drive. */
  lemma EarlierIsAll(sha: string -> string, items: seq<Item>)
    ensures Earlier(sha, items, Modules(items), |Modules(items)|) == Hashes(sha, items)
  {
    hide ContentHash, Earlier, Sort;
    var mods := Modules(items);
    EarlierWithin(sha, items, mods, |mods|);
    TypesCover(items);
    SortKeeps(Types(items), STR_LEQ);
    forall h | h in Hashes(sha, items)
      ensures h in Earlier(sha, items, mods, |mods|)
    {
      var i :| 0 <= i < |items| && h == ContentHash(sha, items[i]);
      assert items[i].moduleType in multiset(Types(items));
      assert items[i].moduleType in multiset(mods);
      var k :| 0 <= k < |mods| && mods[k] == items[i].moduleType;
      ItemInLevels(sha, items, items[i]);
      EarlierHas(sha, items, mods, |mods|, k);
    }
  }

  lemma ItemInLevels(sha: string -> string, items: seq<Item>, x: Item)
    requires x in items
    ensures ContentHash(sha, x) in LevelHashes(sha, items, x.moduleType, 3)
  {
    hide ContentHash, Filter;
    var m, d := x.moduleType, Level(x);
    FilterComplete(OfModule(m), items, x);
    FilterComplete(OfLevel(d), Filter(OfModule(m), items), x);
    var pool := Pool(items, m, d);
    var i :| 0 <= i < |pool| && pool[i] == x;
    assert ContentHash(sha, x) in Hashes(sha, pool);
    hide Pool, Hashes;
    assert LevelHashes(sha, items, m, 1) == LevelHashes(sha, items, m, 0) + Hashes(sha, Pool(items, m, 0));
    assert LevelHashes(sha, items, m, 2) == LevelHashes(sha, items, m, 1) + Hashes(sha, Pool(items, m, 1));
  }

  /** Every candidate gets one question per distinct content hash of the drive, and no hash twice. */
  lemma ShuffleCoversHashes(sha: string -> string, items: seq<Item>, seed: nat)
    requires ContentById(items)
    ensures var out := Shuffled(sha, items, seed);
            && Hashes(sha, ItemsOf(out)) == Hashes(sha, items)
            && |out| == |Hashes(sha, items)|
            && (forall i, j :: 0 <= i < j < |out| ==> out[i].contentHash != out[j].contentHash)
            && Within(ItemsOf(out), items)
  {
    hide ContentHash, Hashes, Earlier, Allocate, Map;
    AllocationState(sha, items, Modules(items), seed, |Modules(items)|);
    AllocationHashes(sha, items, Modules(items), seed, |Modules(items)|);
    EarlierIsAll(sha, items);
    var out := Shuffled(sha, items, seed);
    FullHashesDistinct(sha, ItemsOf(out));
    forall i, j | 0 <= i < j < |out|
      ensures out[i].contentHash != out[j].contentHash
    {
      assert ItemsOf(out)[i] == out[i].item && ItemsOf(out)[j] == out[j].item;
    }
  }

  /** Any two candidates of a drive get the same number of questions and the same set of hashes. */
  lemma SeedsAgree(sha: string -> string, items: seq<Item>, seed1: nat, seed2: nat)
    requires ContentById(items)
    ensures |Shuffled(sha, items, seed1)| == |Shuffled(sha, items, seed2)|
    ensures Hashes(sha, ItemsOf(Shuffled(sha, items, seed1))) == Hashes(sha, ItemsOf(Shuffled(sha, items, seed2)))
  {
    hide Shuffled, Hashes, ItemsOf;
    ShuffleCoversHashes(sha, items, seed1);
    ShuffleCoversHashes(sha, items, seed2);
  }

  /** As many hashes as entries means no hash twice. */
  lemma {:induction false} FullHashesDistinct(sha: string -> string, s: seq<Item>)
    ensures |Hashes(sha, s)| <= |s|
    ensures |Hashes(sha, s)| == |s| <==>
            (forall i, j :: 0 <= i < j < |s| ==> ContentHash(sha, s[i]) != ContentHash(sha, s[j]))
  {
    hide ContentHash;
    if s == [] {
      EmptyHashes(sha);
    } else {
      var t, x := s[..|s| - 1], s[|s| - 1];
      FullHashesDistinct(sha, t);
      assert s == t + [x];
      HashesSnoc(sha, t, x);
      if ContentHash(sha, x) in Hashes(sha, t) {
        assert Hashes(sha, s) == Hashes(sha, t);
        var i :| 0 <= i < |t| && ContentHash(sha, t[i]) == ContentHash(sha, x);
        assert s[i] == t[i];
      } else {
        assert forall i :: 0 <= i < |t| ==> ContentHash(sha, s[i]) in Hashes(sha, t);
      }
    }
  }

  lemma {:induction false} NoDuplicatesBag(s: seq<Item>, x: Item)
    requires forall i, j :: 0 <= i < j < |s| ==> s[i] != s[j]
    ensures multiset(s)[x] == if x in s then 1 else 0
  {
    if s != [] {
      var t, y := s[..|s| - 1], s[|s| - 1];
      NoDuplicatesBag(t, x);
      assert s == t + [y];
    }
  }

  ghost predicate DistinctHashes(sha: string -> string, items: seq<Item>) {
    forall i, j :: 0 <= i < j < |items| ==> ContentHash(sha, items[i]) != ContentHash(sha, items[j])
  }

  /** Every candidate gets a permutation of the drive's questions exactly when their hashes are distinct. */
  lemma DistinctHashesPermute(sha: string -> string, items: seq<Item>, seed: nat)
    requires ContentById(items)
    ensures multiset(ItemsOf(Shuffled(sha, items, seed))) == multiset(items) <==> DistinctHashes(sha, items)
  {
    hide ContentHash, Shuffled, Map, Hashes;
    var out := ItemsOf(Shuffled(sha, items, seed));
    ShuffleCoversHashes(sha, items, seed);
    FullHashesDistinct(sha, items);
    FullHashesDistinct(sha, out);
    if DistinctHashes(sha, items) {
      SameHashesPermute(sha, items, out);
    } else {
      assert |multiset(out)| == |out| && |multiset(items)| == |items|;
    }
  }

  lemma SameHashesPermute(sha: string -> string, items: seq<Item>, out: seq<Item>)
    requires DistinctHashes(sha, items) && DistinctHashes(sha, out)
    requires Within(out, items) && Hashes(sha, out) == Hashes(sha, items)
    ensures multiset(out) == multiset(items)
  {
    hide ContentHash;
    forall x: Item
      ensures multiset(out)[x] == multiset(items)[x]
    {
      NoDuplicatesBag(out, x);
      NoDuplicatesBag(items, x);
      if x in items {
        var i :| 0 <= i < |items| && items[i] == x;
        assert ContentHash(sha, x) in Hashes(sha, out);
        var j :| 0 <= j < |out| && ContentHash(sha, out[j]) == ContentHash(sha, x);
        assert out[j] in items;
        var l :| 0 <= l < |items| && items[l] == out[j];
        assert l == i;
      } else {
        WithinHas(out, items, x);
      }
    }
  }

  lemma WithinHas(s: seq<Item>, all: seq<Item>, x: Item)
    requires Within(s, all)
    ensures x in s ==> x in all
  {
  }

  // ---- Module indexes ----

  function CountType(out: seq<Allocated>, m: string): nat {
    if out == [] then 0
    else CountType(out[..|out| - 1], m) + if out[|out| - 1].item.moduleType == m then 1 else 0
  }

  lemma {:induction false} CountTypeAppend(a: seq<Allocated>, b: seq<Allocated>, m: string)
    ensures CountType(a + b, m) == CountType(a, m) + CountType(b, m)
  {
    if b == [] {
      assert a + b == a;
    } else {
      assert (a + b)[..|a + b| - 1] == a + b[..|b| - 1];
      CountTypeAppend(a, b[..|b| - 1], m);
    }
  }

  lemma {:induction false} CountTypeUniform(a: seq<Allocated>, t: string, m: string)
    requires forall i :: 0 <= i < |a| ==> a[i].item.moduleType == t
    ensures CountType(a, m) == if m == t then |a| else 0
  {
    if a != [] {
      CountTypeUniform(a[..|a| - 1], t, m);
    }
  }

  /** Each question is numbered by how many of its module type come before it: 0, 1, 2, ... */
  ghost predicate IndexedByType(out: seq<Allocated>) {
    forall i :: 0 <= i < |out| ==> out[i].moduleIndex == CountType(out[..i], out[i].item.moduleType)
  }

  lemma BlockKeepsIndexes(sha: string -> string, out: seq<Allocated>, selected: seq<Item>, m: string)
    requires IndexedByType(out) && CountType(out, m) == 0
    requires forall i :: 0 <= i < |selected| ==> selected[i].moduleType == m
    ensures IndexedByType(out + Indexed(sha, selected))
  {
    hide ContentHash, CountType;
    var block := Indexed(sha, selected);
    forall i | 0 <= i < |out + block|
      ensures (out + block)[i].moduleIndex == CountType((out + block)[..i], (out + block)[i].item.moduleType)
    {
      if i < |out| {
        assert (out + block)[..i] == out[..i];
      } else {
        var j := i - |out|;
        assert (out + block)[..i] == out + block[..j];
        CountTypeAppend(out, block[..j], m);
        CountTypeUniform(block[..j], m, m);
      }
    }
  }

  lemma NoModules(sha: string -> string, items: seq<Item>, mods: seq<string>, seed: nat)
    ensures Allocate(sha, items, mods, seed, 0).out == []
  {
  }

  predicate OfType(s: seq<Item>, m: string) {
    forall i :: 0 <= i < |s| ==> s[i].moduleType == m
  }

  lemma {:induction false} PickTypes(sha: string -> string, p: Picked, s: seq<Item>, m: string)
    requires OfType(p.selected, m) && OfType(s, m)
    ensures OfType(Pick(sha, p, s).selected, m)
  {
    hide ContentHash;
    if s != [] {
      PickTypes(sha, p, s[..|s| - 1], m);
    }
  }

  lemma {:induction false} ModuleTypes(sha: string -> string, items: seq<Item>, m: string, seed: nat, k: nat,
                                       used: set<string>, levels: nat)
    ensures OfType(PickModule(sha, items, m, seed, k, used, levels).selected, m)
  {
    hide ContentHash, Pool, Pick;
    if levels > 0 {
      ModuleTypes(sha, items, m, seed, k, used, levels - 1);
      var p := PickModule(sha, items, m, seed, k, used, levels - 1);
      var pool := Pool(items, m, levels - 1);
      PoolSound(items, m, levels - 1);
      if pool != [] {
        PickTypes(sha, p, Rotate(pool, Offset(seed, k, levels - 1, |pool|)), m);
      }
    }
  }

  /** One more module appends a block of its own items only. */
  lemma AllocateStep(sha: string -> string, items: seq<Item>, mods: seq<string>, seed: nat, k: nat)
    returns (selected: seq<Item>)
    requires 0 < k <= |mods|
    ensures Allocate(sha, items, mods, seed, k).out
            == Allocate(sha, items, mods, seed, k - 1).out + Indexed(sha, selected)
    ensures OfType(selected, mods[k - 1])
  {
    hide ContentHash, PickModule, Indexed;
    var before := Allocate(sha, items, mods, seed, k - 1);
    ModuleTypes(sha, items, mods[k - 1], seed, k - 1, before.used, 3);
    selected := PickModule(sha, items, mods[k - 1], seed, k - 1, before.used, 3).selected;
  }

  lemma {:induction false} AllocationIndexes(sha: string -> string, items: seq<Item>, mods: seq<string>, seed: nat,
                                             k: nat)
    requires k <= |mods|
    requires forall i, j :: 0 <= i < j < |mods| ==> mods[i] != mods[j]
    ensures var out := Allocate(sha, items, mods, seed, k).out;
            && IndexedByType(out)
            && (forall i :: k <= i < |mods| ==> CountType(out, mods[i]) == 0)
  {
    hide ContentHash, Allocate, CountType, IndexedByType, Indexed;
    if k == 0 {
      NothingAllocated();
      NoModules(sha, items, mods, seed);
    } else {
      AllocationIndexes(sha, items, mods, seed, k - 1);
      var out := Allocate(sha, items, mods, seed, k - 1).out;
      var selected := AllocateStep(sha, items, mods, seed, k);
      BlockKeepsIndexes(sha, out, selected, mods[k - 1]);
      forall i | k <= i < |mods|
        ensures CountType(out + Indexed(sha, selected), mods[i]) == 0
      {
        CountTypeAppend(out, Indexed(sha, selected), mods[i]);
        CountTypeUniform(Indexed(sha, selected), mods[k - 1], mods[i]);
      }
    }
  }

  lemma NothingAllocated()
    ensures IndexedByType([]) && forall m :: CountType([], m) == 0
  {
  }

  /** Within each module type the indexes are 0, 1, 2, ..., for any drive. */
  lemma ModuleIndexesCountUp(sha: string -> string, items: seq<Item>, seed: nat)
    ensures IndexedByType(Shuffled(sha, items, seed))
  {
    hide ContentHash, Allocate, IndexedByType, Sort;
    TypesCover(items);
    SortKeeps(Types(items), STR_LEQ);
    BagKeepsDistinct(Types(items), Modules(items));
    AllocationIndexes(sha, items, Modules(items), seed, |Modules(items)|);
  }

  // ---- The hash pre-image ----

  /** Equal bags of normalised options, or no options and the same query and code. */
  ghost predicate SameExtras(a: Content, b: Content) {
    if a.options.Some? && b.options.Some?
    then multiset(Map(NORMAL_OPTION, a.options.value)) == multiset(Map(NORMAL_OPTION, b.options.value))
    else a.options.None? && b.options.None? && a.expectedQuery == b.expectedQuery && a.starterCode == b.starterCode
  }

  lemma SameExtrasAlike(a: Content, b: Content)
    requires SameExtras(a, b)
    ensures Extra(a) == Extra(b)
  {
    hide Collapse, Trim, Map, Sort, Join;
    if a.options.Some? {
      StrLeqIsTotalOrder();
      SortCanonical(Map(NORMAL_OPTION, a.options.value), Map(NORMAL_OPTION, b.options.value), STR_LEQ);
    }
  }

  /** Letter case, white-space runs in the prompt and the order of the options never reach the hash. */
  lemma PreImageInvariant(m: string, a: Content, b: Content)
    requires Words(ToLower(a.prompt)) == Words(ToLower(b.prompt)) && SameExtras(a, b)
    ensures PreImage(m, a) == PreImage(m, b)
  {
    hide Words, ToLower, Collapse, Trim, Extra, SameExtras;
    CollapsedTextIff(ToLower(a.prompt), ToLower(b.prompt));
    SameExtrasAlike(a, b);
  }

  /** A permutation of the option list is covered: mapping respects bags. */
  lemma ReorderedOptions(m: string, c: Content, options: seq<string>)
    requires c.options.Some? && multiset(options) == multiset(c.options.value)
    ensures PreImage(m, c.(options := Some(options))) == PreImage(m, c)
  {
    hide Map, PreImage, Words;
    MapBag(NORMAL_OPTION, options, c.options.value);
    PreImageInvariant(m, c.(options := Some(options)), c);
  }

  lemma PrefixCancels(prefix: string, a: string, b: string)
    ensures prefix + a == prefix + b <==> a == b
  {
    assert (prefix + a)[|prefix|..] == a && (prefix + b)[|prefix|..] == b;
  }

  // ---- When two pre-images are equal ----

  /** q continues p at a colon, and the rest of q, a colon and y make up x. */
  predicate SpillsOver(p: string, x: string, q: string, y: string) {
    |p| < |q| && q[..|p|] == p && q[|p|] == ':' && x == q[|p| + 1..] + ":" + y
  }

  lemma ColonAlikeIff(p: string, x: string, q: string, y: string)
    requires |p| <= |q|
    ensures p + ":" + x == q + ":" + y <==> (p == q && x == y) || SpillsOver(p, x, q, y)
  {
    var s, t := p + ":" + x, q + ":" + y;
    assert s[..|p|] == p && s[|p|] == ':' && s[|p| + 1..] == x;
    assert t[..|q|] == q && t[|q|] == ':' && t[|q| + 1..] == y;
    if |p| < |q| {
      assert t[..|p|] == q[..|p|] && t[|p|] == q[|p|] && t[|p| + 1..] == q[|p| + 1..] + ":" + y;
      if SpillsOver(p, x, q, y) {
        assert s == s[..|p|] + [s[|p|]] + s[|p| + 1..];
        assert t == t[..|p|] + [t[|p|]] + t[|p| + 1..];
      }
    }
  }

  /** Two questions of a module: alike, or the longer prompt continues the shorter at a colon into the extras. */
  lemma PreImagesAlikeIff(m: string, a: Content, b: Content)
    requires |NormalText(a.prompt)| <= |NormalText(b.prompt)|
    ensures PreImage(m, a) == PreImage(m, b) <==>
            || (Words(ToLower(a.prompt)) == Words(ToLower(b.prompt)) && Extra(a) == Extra(b))
            || SpillsOver(NormalText(a.prompt), Extra(a), NormalText(b.prompt), Extra(b))
  {
    hide Words, ToLower, Collapse, Trim, Extra, SpillsOver;
    CollapsedTextIff(ToLower(a.prompt), ToLower(b.prompt));
    var p, q := NormalText(a.prompt), NormalText(b.prompt);
    ColonAlikeIff(p, Extra(a), q, Extra(b));
    assert PreImage(m, a) == (m + ":") + (p + ":" + Extra(a));
    assert PreImage(m, b) == (m + ":") + (q + ":" + Extra(b));
    PrefixCancels(m + ":", p + ":" + Extra(a), q + ":" + Extra(b));
  }

  lemma ColonFreeCancels(p: string, x: string, q: string, y: string)
    requires ':' !in p && ':' !in q
    ensures p + ":" + x == q + ":" + y <==> p == q && x == y
  {
    if |p| <= |q| {
      ColonAlikeIff(p, x, q, y);
    } else {
      ColonAlikeIff(q, y, p, x);
    }
  }

  /** Without colons in module names and prompts, the module, the prompt's words and the extras are all read back. */
  lemma PreImageSeparates(m: string, n: string, a: Content, b: Content)
    requires ':' !in m && ':' !in n && ':' !in NormalText(a.prompt) && ':' !in NormalText(b.prompt)
    ensures PreImage(m, a) == PreImage(n, b) <==>
            m == n && Words(ToLower(a.prompt)) == Words(ToLower(b.prompt)) && Extra(a) == Extra(b)
  {
    hide Words, ToLower, Collapse, Trim, Extra;
    CollapsedTextIff(ToLower(a.prompt), ToLower(b.prompt));
    var p, q := NormalText(a.prompt), NormalText(b.prompt);
    assert PreImage(m, a) == m + ":" + (p + ":" + Extra(a));
    assert PreImage(n, b) == n + ":" + (q + ":" + Extra(b));
    ColonFreeCancels(m, p + ":" + Extra(a), n, q + ":" + Extra(b));
    ColonFreeCancels(p, Extra(a), q, Extra(b));
  }

  /** Two option lists read alike exactly when their sorted options, cut again at the bars, are the same pieces. */
  lemma OptionsAlikeIff(a: Content, b: Content)
    requires a.options.Some? && b.options.Some?
    ensures Extra(a) == Extra(b) <==>
            Pieces(Sort(Map(NORMAL_OPTION, a.options.value), STR_LEQ), '|')
            == Pieces(Sort(Map(NORMAL_OPTION, b.options.value), STR_LEQ), '|')
  {
    hide Sort, Map, Join, Pieces;
    JoinedAlikeIff(Sort(Map(NORMAL_OPTION, a.options.value), STR_LEQ),
                   Sort(Map(NORMAL_OPTION, b.options.value), STR_LEQ), '|');
  }

  /** The words of a text, run together: its characters without the white space. */
  lemma {:induction false} WithoutSpacesIsWords(s: string)
    ensures WithoutSpaces(s) == Join(Words(s), "")
    decreases |s|
  {
    hide Join;
    var t := TrimLeft(s);
    TrimLeftShrinks(s);
    TrimLeftStart(s);
    LeadingSpaces(s);
    if t == "" {
      JoinNothing();
    } else {
      var n := WordLength(t);
      WithoutSpacesIsWords(t[n..]);
      WordFirst(t, n);
      JoinCons(t[..n], Words(t[n..]));
    }
  }

  lemma JoinNothing()
    ensures Join([], "") == "" && WithoutSpaces("") == ""
  {
  }

  lemma JoinCons(w: string, rest: seq<string>)
    ensures Join([w] + rest, "") == w + Join(rest, "")
  {
    assert ([w] + rest)[1..] == rest;
    if rest == [] {
      assert w + "" == w;
    } else {
      assert w + "" + Join(rest, "") == w + Join(rest, "");
    }
  }

  lemma {:induction false} LeadingSpaces(s: string)
    ensures WithoutSpaces(TrimLeft(s)) == WithoutSpaces(s)
  {
    if s != "" && IsSpace(s[0]) {
      LeadingSpaces(s[1..]);
      assert WithoutSpaces(s) == "" + WithoutSpaces(s[1..]);
    }
  }

  lemma {:induction false} WordFirst(s: string, n: nat)
    requires n <= |s| && forall i :: 0 <= i < n ==> !IsSpace(s[i])
    ensures WithoutSpaces(s) == s[..n] + WithoutSpaces(s[n..])
  {
    if n > 0 {
      WordFirst(s[1..], n - 1);
      assert s[1..][..n - 1] == s[1..n] && s[1..][n - 1..] == s[n..];
      assert [s[0]] + s[1..n] == s[..n];
    }
  }

  /** Neither options nor a query: the starter code is what is read. */
  predicate IsCode(c: Content) {
    c.options.None? && c.expectedQuery == "" && c.starterCode != ""
  }

  predicate IsQuery(c: Content) {
    c.options.None? && c.expectedQuery != ""
  }

  /** Two starter codes read alike exactly when their lower-case words, run together, are the same text. */
  lemma CodesAlikeIff(a: Content, b: Content)
    requires IsCode(a) && IsCode(b)
    ensures Extra(a) == Extra(b) <==>
            Join(Words(ToLower(a.starterCode)), "") == Join(Words(ToLower(b.starterCode)), "")
  {
    hide Words, ToLower, Trim, Join, WithoutSpaces;
    CodeIsWords(a);
    CodeIsWords(b);
  }

  lemma CodeIsWords(c: Content)
    requires IsCode(c)
    ensures Extra(c) == Join(Words(ToLower(c.starterCode)), "")
  {
    hide Words, ToLower, Trim, Join, WithoutSpaces;
    WithoutSpacesIsWords(Trim(ToLower(c.starterCode)));
    WordsTrim(ToLower(c.starterCode));
  }

  /** Two expected queries read alike exactly when their lower-case words are the same, string literals included. */
  lemma QueriesAlikeIff(a: Content, b: Content)
    requires IsQuery(a) && IsQuery(b)
    ensures Extra(a) == Extra(b) <==> Words(ToLower(a.expectedQuery)) == Words(ToLower(b.expectedQuery))
  {
    hide Words, ToLower, Trim, Collapse;
    CollapsedTextIff(ToLower(a.expectedQuery), ToLower(b.expectedQuery));
  }

  predicate BarFree(options: seq<string>) {
    options != [] && forall i :: 0 <= i < |options| ==> '|' !in NORMAL_OPTION(options[i])
  }

  lemma SortedBarFree(options: seq<string>)
    requires BarFree(options)
    ensures var s := Sort(Map(NORMAL_OPTION, options), STR_LEQ);
            s != [] && forall i :: 0 <= i < |s| ==> '|' !in s[i]
  {
    hide Sort, Map;
    var mapped := Map(NORMAL_OPTION, options);
    var s := Sort(mapped, STR_LEQ);
    SortKeeps(mapped, STR_LEQ);
    forall i | 0 <= i < |s|
      ensures '|' !in s[i]
    {
      assert s[i] in multiset(mapped);
      assert s[i] in mapped;
    }
  }

  lemma BarFreeOptions(a: Content, b: Content)
    requires a.options.Some? && b.options.Some?
    requires BarFree(a.options.value) && BarFree(b.options.value)
    ensures Extra(a) == Extra(b) <==> SameExtras(a, b)
  {
    hide BarFree, Sort, Map, Join, Split;
    var x, y := Map(NORMAL_OPTION, a.options.value), Map(NORMAL_OPTION, b.options.value);
    StrLeqIsTotalOrder();
    SortCanonical(x, y, STR_LEQ);
    SortedBarFree(a.options.value);
    SortedBarFree(b.options.value);
    SplitJoin(Sort(x, STR_LEQ), '|');
    SplitJoin(Sort(y, STR_LEQ), '|');
  }

  /** Without colons in prompts and bars in options, questions read alike exactly for equal words and option bags. */
  lemma PreImageSeparatesOptions(m: string, n: string, a: Content, b: Content)
    requires ':' !in m && ':' !in n && ':' !in NormalText(a.prompt) && ':' !in NormalText(b.prompt)
    requires a.options.Some? && b.options.Some?
    requires BarFree(a.options.value) && BarFree(b.options.value)
    ensures PreImage(m, a) == PreImage(n, b) <==>
            && m == n
            && Words(ToLower(a.prompt)) == Words(ToLower(b.prompt))
            && multiset(Map(NORMAL_OPTION, a.options.value)) == multiset(Map(NORMAL_OPTION, b.options.value))
  {
    hide PreImage, Extra, Map, BarFree, NormalText, Words, ToLower;
    PreImageSeparates(m, n, a, b);
    BarFreeOptions(a, b);
  }

  // ---- Collisions ----

  /** Without capitals and white space, so that normalising changes nothing. */
  predicate Plain(s: string) {
    forall i :: 0 <= i < |s| ==> !('A' <= s[i] <= 'Z') && !IsSpace(s[i])
  }

  lemma {:induction false} LowerFixed(s: string)
    requires Plain(s)
    ensures ToLower(s) == s
  {
    if s != "" {
      LowerFixed(s[1..]);
      assert s == [s[0]] + s[1..];
    }
  }

  lemma PlainFixed(s: string)
    requires Plain(s)
    ensures NORMAL_OPTION(s) == s && NormalText(s) == s
  {
    hide ToLower, Trim, Collapse;
    LowerFixed(s);
    TrimmedIsFixed(s);
    CollapseWord(s, "");
    assert s + "" == s && Collapse("") == "" by { CollapseNothing(); }
  }

  lemma CollapseNothing()
    ensures Collapse("") == ""
  {
  }

  lemma PlainJoined(x: string, sep: char, y: string)
    requires Plain(x) && Plain(y) && sep in {':', '|'}
    ensures Plain(x + [sep] + y)
  {
  }

  lemma OrderedOptions(prompt: string, x: string, y: string)
    requires Plain(x) && Plain(y) && StrLe(x, y)
    ensures Extra(Content(prompt, Some([x, y]), "", "")) == x + "|" + y
  {
    hide StrLe;
    PlainFixed(x);
    PlainFixed(y);
    var two := [x, y];
    assert Map(NORMAL_OPTION, two) == two;
    assert two[1..] == [y];
    SortSingle(y, STR_LEQ);
    JoinPair(x, y);
  }

  lemma JoinPair(x: string, y: string)
    ensures Join([x, y], "|") == x + "|" + y
  {
    assert [x, y][1..] == [y];
  }

  lemma ColonsAndBarAssociate(m: string, x: string, y: string, z: string, w: string)
    ensures m + ":" + (x + ":" + y) + ":" + (z + "|" + w) == m + ":" + x + ":" + (y + ":" + z + "|" + w)
  {
  }

  /** A colon in the prompt: x:y with the options z, w reads like x with the options y:z, w, without a bar in any. */
  lemma ColonCollision(m: string, x: string, y: string, z: string, w: string)
    requires Plain(x) && Plain(y) && Plain(z) && Plain(w) && StrLe(z, w) && StrLe(y + ":" + z, w)
    ensures PreImage(m, Content(x + ":" + y, Some([z, w]), "", ""))
            == PreImage(m, Content(x, Some([y + ":" + z, w]), "", ""))
  {
    hide Extra, NormalText, Plain, StrLe;
    PlainJoined(x, ':', y);
    PlainJoined(y, ':', z);
    PlainFixed(x);
    PlainFixed(x + ":" + y);
    OrderedOptions(x + ":" + y, z, w);
    OrderedOptions(x, y + ":" + z, w);
    ColonsAndBarAssociate(m, x, y, z, w);
  }

  /** Two different questions with one pre-image: a candidate gets only one of them. */
  lemma CollisionDropsQuestion(sha: string -> string, a: Item, b: Item, seed: nat)
    requires a.questionId != b.questionId && a.moduleType == b.moduleType
    requires PreImage(a.moduleType, a.content) == PreImage(b.moduleType, b.content)
    ensures |Shuffled(sha, [a, b], seed)| == 1
  {
    hide PreImage, Shuffled;
    ShuffleCoversHashes(sha, [a, b], seed);
    assert [a, b] == [] + [a] + [b];
    HashesSnoc(sha, [], a);
    HashesSnoc(sha, [a], b);
    EmptyHashes(sha);
    assert [] + [a] == [a] && [a] + [b] == [a, b];
    assert Hashes(sha, [a, b]) == {ContentHash(sha, a)};
  }

  lemma {:induction false} WithoutSpacesAppend(x: string, y: string)
    ensures WithoutSpaces(x + y) == WithoutSpaces(x) + WithoutSpaces(y)
  {
    if x == "" {
      assert "" + y == y;
    } else {
      assert (x + y)[1..] == x[1..] + y;
      WithoutSpacesAppend(x[1..], y);
    }
  }

  lemma {:induction false} LowerAppend(x: string, y: string)
    ensures ToLower(x + y) == ToLower(x) + ToLower(y)
  {
    if x == "" {
      assert "" + y == y;
    } else {
      assert (x + y)[1..] == x[1..] + y;
      LowerAppend(x[1..], y);
    }
  }

  lemma CodeText(c: Content)
    requires IsCode(c)
    ensures Extra(c) == WithoutSpaces(ToLower(c.starterCode))
  {
    hide Words, ToLower, Trim, Join, WithoutSpaces;
    CodeIsWords(c);
    WithoutSpacesIsWords(ToLower(c.starterCode));
  }

  /** White space in starter code: a token cut in two reads like the token. */
  lemma CodeCollision(m: string, prompt: string, x: string, y: string)
    requires x != ""
    ensures PreImage(m, Content(prompt, None, "", x + " " + y)) == PreImage(m, Content(prompt, None, "", x + y))
  {
    hide Heading, Extra, ToLower, WithoutSpaces;
    CodeText(Content(prompt, None, "", x + " " + y));
    CodeText(Content(prompt, None, "", x + y));
    LowerAppend(x + " ", y);
    LowerAppend(x, " ");
    LowerAppend(x, y);
    WithoutSpacesAppend(ToLower(x) + ToLower(" "), ToLower(y));
    WithoutSpacesAppend(ToLower(x), ToLower(" "));
    WithoutSpacesAppend(ToLower(x), ToLower(y));
    SpaceVanishes();
    assert WithoutSpaces(ToLower(x)) + "" == WithoutSpaces(ToLower(x));
  }

  lemma SpaceVanishes()
    ensures WithoutSpaces(ToLower(" ")) == ""
  {
    assert ToLower(" ") == " ";
  }

  /** Letter case in an expected query: two queries that differ in nothing else read alike. */
  lemma QueryCollision(m: string, prompt: string, x: string, y: string)
    requires x != "" && y != "" && ToLower(x) == ToLower(y)
    ensures PreImage(m, Content(prompt, None, x, "")) == PreImage(m, Content(prompt, None, y, ""))
  {
    hide Heading, Words, ToLower, Trim, Collapse;
    QueriesAlikeIff(Content(prompt, None, x, ""), Content(prompt, None, y, ""));
  }

  /** A bar in an option: the options x|y, z read like x, y|z. */
  lemma BarCollision(m: string, prompt: string, x: string, y: string, z: string)
    requires Plain(x) && Plain(y) && Plain(z) && StrLe(x + "|" + y, z) && StrLe(x, y + "|" + z)
    ensures PreImage(m, Content(prompt, Some([x + "|" + y, z]), "", ""))
            == PreImage(m, Content(prompt, Some([x, y + "|" + z]), "", ""))
  {
    hide Heading, Extra, Plain, StrLe;
    PlainJoined(x, '|', y);
    PlainJoined(y, '|', z);
    OrderedOptions(prompt, x + "|" + y, z);
    OrderedOptions(prompt, x, y + "|" + z);
    assert x + "|" + y + "|" + z == x + "|" + (y + "|" + z);
  }
}
