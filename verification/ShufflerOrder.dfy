/** The order in which a candidate meets the questions: modules, difficulties, and the seeded rotation. */
module ShufflerOrder {
  import opened Sorting
  import opened Strings
  import opened Shuffler
  import opened ShufflerTheorems

  // ---- Difficulties ----

  /** The difficulty text in lower case, a missing one being medium. */
  function Difficulty(x: Item): string {
    if x.difficulty == "" then "medium" else ToLower(x.difficulty)
  }

  /** The three pools hold the items called easy, those called neither easy nor hard, and those called hard. */
  lemma PoolIs(items: seq<Item>, m: string, x: Item)
    ensures x in Pool(items, m, 0) <==> x in items && x.moduleType == m && Difficulty(x) == "easy"
    ensures x in Pool(items, m, 1) <==> x in items && x.moduleType == m && Difficulty(x) !in {"easy", "hard"}
    ensures x in Pool(items, m, 2) <==> x in items && x.moduleType == m && Difficulty(x) == "hard"
  {
    hide ToLower, Filter;
    assert ToLower("medium") == "medium" by { MediumLower(); }
    InPool(items, m, 0, x);
    InPool(items, m, 1, x);
    InPool(items, m, 2, x);
  }

  lemma MediumLower()
    ensures ToLower("medium") == "medium"
  {
    assert Plain("medium");
    LowerFixed("medium");
  }

  lemma InPool(items: seq<Item>, m: string, d: nat, x: Item)
    ensures x in Pool(items, m, d) <==> x in items && x.moduleType == m && Level(x) == d
  {
    hide Filter, Level;
    var inner := Filter(OfModule(m), items);
    FilterSound(OfModule(m), items);
    FilterSound(OfLevel(d), inner);
    if x in items && x.moduleType == m && Level(x) == d {
      FilterComplete(OfModule(m), items, x);
      FilterComplete(OfLevel(d), inner, x);
    }
  }

  // ---- The rotation ----

  /** Where the seed makes a segment of n items start: module number k, difficulty d. */
  function Start(seed: nat, k: nat, d: nat, n: nat): nat
    requires n > 0
  {
    ((seed + 1009 * k) % 10007 + 37 * d) % n
  }

  lemma ModOnce(a: nat, n: nat)
    requires n > 0
    ensures a < n ==> a % n == a
    ensures n <= a < 2 * n ==> a % n == a - n
  {
  }

  lemma RotatedAt(pool: seq<Item>, offset: nat, i: nat)
    requires offset < |pool| && i < |pool|
    ensures Rotate(pool, offset)[i] == pool[(offset + i) % |pool|]
  {
    ModOnce(offset + i, |pool|);
    RotatedBy(pool, offset, i);
  }

  lemma RotatedBy(pool: seq<Item>, offset: nat, i: nat)
    requires offset < |pool| && i < |pool|
    ensures Rotate(pool, offset)[i] == pool[if offset + i < |pool| then offset + i else offset + i - |pool|]
  {
  }

  /** One segment of a module, started by the seed. */
  function Segment(items: seq<Item>, m: string, seed: nat, k: nat, d: nat): seq<Item> {
    var pool := Pool(items, m, d);
    if pool == [] then [] else seq(|pool|, (i: nat) => pool[(Start(seed, k, d, |pool|) + i) % |pool|])
  }

  lemma OffsetIsStart(seed: nat, k: nat, d: nat, n: nat)
    requires n > 0
    ensures Offset(seed, k, d, n) == Start(seed, k, d, n) < n
  {
  }

  lemma SegmentIsRotation(items: seq<Item>, m: string, seed: nat, k: nat, d: nat)
    requires Pool(items, m, d) != []
    ensures Rotate(Pool(items, m, d), Offset(seed, k, d, |Pool(items, m, d)|)) == Segment(items, m, seed, k, d)
  {
    hide Pool, Rotate, Start, Offset;
    var pool := Pool(items, m, d);
    var offset := Offset(seed, k, d, |pool|);
    OffsetIsStart(seed, k, d, |pool|);
    RotationIsPool(pool, offset);
    forall i | 0 <= i < |pool|
      ensures Rotate(pool, offset)[i] == Segment(items, m, seed, k, d)[i]
    {
      RotatedAt(pool, offset, i);
    }
  }

  /** Pairwise distinct hashes, none of them used. */
  ghost predicate AllNew(sha: string -> string, pool: seq<Item>, used: set<string>) {
    DistinctHashes(sha, pool) && forall i :: 0 <= i < |pool| ==> ContentHash(sha, pool[i]) !in used
  }

  lemma RotationIsNew(sha: string -> string, pool: seq<Item>, offset: nat, used: set<string>)
    requires offset < |pool| && AllNew(sha, pool, used)
    ensures AllNew(sha, Rotate(pool, offset), used)
  {
    hide ContentHash;
  }

  lemma {:induction false} FreshIsAll(sha: string -> string, used: set<string>, s: seq<Item>)
    requires AllNew(sha, s, used)
    ensures Fresh(sha, used, s) == s
  {
    hide ContentHash;
    if s != [] {
      FreshIsAll(sha, used, s[..|s| - 1]);
    }
  }

  lemma RotationIsPool(pool: seq<Item>, offset: nat)
    requires offset < |pool|
    ensures |Rotate(pool, offset)| == |pool|
    ensures forall i :: 0 <= i < |pool| ==> Rotate(pool, offset)[i] in pool
  {
  }

  lemma SegmentAppended(sha: string -> string, items: seq<Item>, m: string, seed: nat, k: nat, d: nat, p: Picked)
    requires ContentById(items) && Consistent(sha, p, items, m)
    requires AllNew(sha, Pool(items, m, d), p.used)
    ensures PickLevel(sha, Pool(items, m, d), seed, k, d, p).selected == p.selected + Segment(items, m, seed, k, d)
  {
    hide ContentHash, Pool, Pick, Fresh, Rotate, Offset, AllNew, Consistent;
    var pool := Pool(items, m, d);
    PoolSound(items, m, d);
    if pool == [] {
      assert Segment(items, m, seed, k, d) == [];
    } else {
      hide Segment;
      var offset := Offset(seed, k, d, |pool|);
      OffsetIsStart(seed, k, d, |pool|);
      RotationIsPool(pool, offset);
      RotationIsNew(sha, pool, offset, p.used);
      PickIsFresh(sha, p, Rotate(pool, offset), items, m);
      FreshIsAll(sha, p.used, Rotate(pool, offset));
      SegmentIsRotation(items, m, seed, k, d);
    }
  }

  /**
   * A segment of n new hashes is added in its pool's order from the seeded start on:
   * its i-th item is pool[((((seed + 1009 k) mod 10007) + 37 d) mod n + i) mod n].
   */
  lemma SegmentOrder(sha: string -> string, items: seq<Item>, m: string, seed: nat, k: nat, d: nat, p: Picked)
    requires ContentById(items) && Consistent(sha, p, items, m)
    requires AllNew(sha, Pool(items, m, d), p.used)
    ensures var pool := Pool(items, m, d);
            var n, first, q := |pool|, |p.selected|, PickLevel(sha, pool, seed, k, d, p);
            && |q.selected| == first + n && p.selected <= q.selected
            && forall j :: first <= j < first + n ==>
                 q.selected[j] == pool[(((seed + 1009 * k) % 10007 + 37 * d) % n + (j - first)) % n]
  {
    hide ContentHash, Pool, PickLevel, AllNew, Consistent;
    SegmentAppended(sha, items, m, seed, k, d, p);
  }

  // ---- The whole order ----

  /** Easy, medium, hard. */
  function ModuleOrder(items: seq<Item>, m: string, seed: nat, k: nat): seq<Item> {
    Segment(items, m, seed, k, 0) + Segment(items, m, seed, k, 1) + Segment(items, m, seed, k, 2)
  }

  /** The modules in turn. */
  function OrderOf(items: seq<Item>, mods: seq<string>, seed: nat, k: nat): seq<Item>
    requires k <= |mods|
  {
    if k == 0 then [] else OrderOf(items, mods, seed, k - 1) + ModuleOrder(items, mods[k - 1], seed, k - 1)
  }

  lemma {:induction false} FilterDistinct(sha: string -> string, p: Item -> bool, s: seq<Item>)
    requires DistinctHashes(sha, s)
    ensures DistinctHashes(sha, Filter(p, s))
  {
    hide ContentHash;
    if s != [] {
      var t, x := s[..|s| - 1], s[|s| - 1];
      FilterDistinct(sha, p, t);
      FilterSound(p, t);
      forall i | 0 <= i < |Filter(p, t)|
        ensures ContentHash(sha, Filter(p, t)[i]) != ContentHash(sha, x)
      {
        assert Filter(p, t)[i] in t;
        var j :| 0 <= j < |t| && t[j] == Filter(p, t)[i];
        assert s[j] == t[j];
      }
    }
  }

  /** Items of a drive with distinct hashes are told apart by their hashes. */
  lemma HashTellsItem(sha: string -> string, items: seq<Item>, x: Item, y: Item)
    requires DistinctHashes(sha, items) && x in items && y in items && ContentHash(sha, x) == ContentHash(sha, y)
    ensures x == y
  {
    hide ContentHash;
    var i :| 0 <= i < |items| && items[i] == x;
    var j :| 0 <= j < |items| && items[j] == y;
  }

  /** A hash among those of other segments is not in this pool. */
  lemma PoolIsNew(sha: string -> string, items: seq<Item>, m: string, d: nat, used: set<string>)
    requires DistinctHashes(sha, items)
    requires forall x :: x in items && ContentHash(sha, x) in used ==> x.moduleType != m || Level(x) < d
    ensures AllNew(sha, Pool(items, m, d), used)
  {
    hide ContentHash, Level, Filter;
    FilterDistinct(sha, OfModule(m), items);
    FilterDistinct(sha, OfLevel(d), Filter(OfModule(m), items));
    var pool := Pool(items, m, d);
    forall i | 0 <= i < |pool|
      ensures ContentHash(sha, pool[i]) !in used
    {
      InPool(items, m, d, pool[i]);
    }
  }

  /** Whose hashes are used after the first k modules and the first `levels` segments of module k. */
  ghost predicate UsedIs(sha: string -> string, items: seq<Item>, mods: seq<string>, k: nat, levels: nat,
                         used: set<string>)
    requires k <= |mods|
  {
    forall x :: x in items && ContentHash(sha, x) in used ==>
      x.moduleType in mods[..k] || (k < |mods| && x.moduleType == mods[k] && Level(x) < levels)
  }

  lemma LevelIsUsed(sha: string -> string, items: seq<Item>, mods: seq<string>, k: nat, d: nat, used: set<string>)
    requires DistinctHashes(sha, items) && k < |mods| && UsedIs(sha, items, mods, k, d, used)
    ensures UsedIs(sha, items, mods, k, d + 1, used + Hashes(sha, Pool(items, mods[k], d)))
  {
    hide ContentHash, Level, Pool;
    var pool := Pool(items, mods[k], d);
    forall x | x in items && ContentHash(sha, x) in used + Hashes(sha, pool)
      ensures x.moduleType in mods[..k] || (x.moduleType == mods[k] && Level(x) < d + 1)
    {
      if ContentHash(sha, x) !in used {
        var y :| y in pool && ContentHash(sha, y) == ContentHash(sha, x);
        InPool(items, mods[k], d, y);
        HashTellsItem(sha, items, x, y);
      }
    }
  }

  lemma ModuleIsUsed(sha: string -> string, items: seq<Item>, mods: seq<string>, k: nat, levels: nat, used: set<string>)
    requires k < |mods| && UsedIs(sha, items, mods, k, levels, used)
    ensures UsedIs(sha, items, mods, k + 1, 0, used)
  {
    hide ContentHash, Level;
    assert mods[..k + 1] == mods[..k] + [mods[k]];
  }

  ghost predicate DistinctTypes(mods: seq<string>) {
    forall i, j :: 0 <= i < j < |mods| ==> mods[i] != mods[j]
  }

  /** The first `levels` segments of module k. */
  function LevelsOf(items: seq<Item>, m: string, seed: nat, k: nat, levels: nat): seq<Item> {
    if levels == 0 then [] else LevelsOf(items, m, seed, k, levels - 1) + Segment(items, m, seed, k, levels - 1)
  }

  lemma {:induction false} LevelsInOrder(sha: string -> string, items: seq<Item>, mods: seq<string>, seed: nat, k: nat,
                                         used: set<string>, levels: nat)
    requires ContentById(items) && DistinctHashes(sha, items) && DistinctTypes(mods) && k < |mods|
    requires UsedIs(sha, items, mods, k, 0, used)
    ensures var p := PickModule(sha, items, mods[k], seed, k, used, levels);
            && p.selected == LevelsOf(items, mods[k], seed, k, levels)
            && UsedIs(sha, items, mods, k, levels, p.used)
  {
    hide ContentHash, Pool, PickLevel, Segment, UsedIs, Hashes, DistinctHashes;
    if levels > 0 {
      var d, m := levels - 1, mods[k];
      LevelsInOrder(sha, items, mods, seed, k, used, d);
      var p := PickModule(sha, items, m, seed, k, used, d);
      ModuleState(sha, items, m, seed, k, used, d);
      NewFromUsed(sha, items, mods, k, d, p.used);
      SegmentAppended(sha, items, m, seed, k, d, p);
      PickLevelAdds(sha, items, m, seed, k, d, p);
      LevelIsUsed(sha, items, mods, k, d, p.used);
    }
  }

  lemma NewFromUsed(sha: string -> string, items: seq<Item>, mods: seq<string>, k: nat, d: nat, used: set<string>)
    requires DistinctHashes(sha, items) && DistinctTypes(mods) && k < |mods| && UsedIs(sha, items, mods, k, d, used)
    ensures AllNew(sha, Pool(items, mods[k], d), used)
  {
    hide ContentHash, Level, Pool;
    forall x | x in items && ContentHash(sha, x) in used
      ensures x.moduleType != mods[k] || Level(x) < d
    {
    }
    PoolIsNew(sha, items, mods[k], d, used);
  }

  lemma {:induction false} ModulesInOrder(sha: string -> string, items: seq<Item>, mods: seq<string>, seed: nat, k: nat)
    requires ContentById(items) && DistinctHashes(sha, items) && DistinctTypes(mods) && k <= |mods|
    ensures var a := Allocate(sha, items, mods, seed, k);
            && ItemsOf(a.out) == OrderOf(items, mods, seed, k)
            && UsedIs(sha, items, mods, k, 0, a.used)
  {
    hide ContentHash, PickModule, UsedIs, DistinctHashes, Indexed, Segment, ItemsOf;
    if k == 0 {
      NothingUsed(sha, items, mods);
    } else {
      ModulesInOrder(sha, items, mods, seed, k - 1);
      var before := Allocate(sha, items, mods, seed, k - 1);
      LevelsInOrder(sha, items, mods, seed, k - 1, before.used, 3);
      var p := PickModule(sha, items, mods[k - 1], seed, k - 1, before.used, 3);
      ModuleIsUsed(sha, items, mods, k - 1, 3, p.used);
      ThreeLevels(items, mods[k - 1], seed, k - 1);
      IndexedItems(sha, p.selected);
      ItemsOfAppend(before.out, Indexed(sha, p.selected));
    }
  }

  lemma NothingUsed(sha: string -> string, items: seq<Item>, mods: seq<string>)
    ensures UsedIs(sha, items, mods, 0, 0, {}) && ItemsOf([]) == []
  {
  }

  lemma ThreeLevels(items: seq<Item>, m: string, seed: nat, k: nat)
    ensures LevelsOf(items, m, seed, k, 3) == ModuleOrder(items, m, seed, k)
  {
    hide Segment;
    assert LevelsOf(items, m, seed, k, 1) == [] + Segment(items, m, seed, k, 0);
  }

  /**
   * A drive with distinct hashes reaches a candidate module by module in the order of the module names,
   * each with its easy, medium and hard segment, each segment from its seeded start on.
   */
  lemma ShuffleOrder(sha: string -> string, items: seq<Item>, seed: nat)
    requires ContentById(items) && DistinctHashes(sha, items)
    ensures ItemsOf(Shuffled(sha, items, seed)) == OrderOf(items, Modules(items), seed, |Modules(items)|)
    ensures Sorted(Modules(items), STR_LEQ) && DistinctTypes(Modules(items))
    ensures forall m :: m in Modules(items) <==> exists i :: 0 <= i < |items| && items[i].moduleType == m
  {
    hide ContentHash, DistinctHashes, ContentById, Allocate, OrderOf, Sort, ItemsOf;
    TypesCover(items);
    TypesAre(items);
    SortKeeps(Types(items), STR_LEQ);
    StrLeqIsTotalOrder();
    SortSorts(Types(items), STR_LEQ);
    BagKeepsDistinct(Types(items), Modules(items));
    forall m
      ensures m in Modules(items) <==> m in Types(items)
    {
      assert m in Modules(items) <==> m in multiset(Modules(items));
    }
    ModulesInOrder(sha, items, Modules(items), seed, |Modules(items)|);
  }

  lemma {:induction false} TypesAre(items: seq<Item>)
    ensures forall m :: m in Types(items) ==> exists i :: 0 <= i < |items| && items[i].moduleType == m
  {
    if items != [] {
      var n := |items| - 1;
      TypesAre(items[..n]);
      forall m | m in Types(items)
        ensures exists i :: 0 <= i < |items| && items[i].moduleType == m
      {
        if m in Types(items[..n]) {
          var i :| 0 <= i < n && items[..n][i].moduleType == m;
          assert items[i].moduleType == m;
        } else {
          assert items[n].moduleType == m;
        }
      }
    }
  }

  /** Two easy questions of one module: an even seed keeps their order, an odd one reverses it. */
  lemma SeedMatters(sha: string -> string, a: Item, b: Item, seed: nat)
    requires a.moduleType == b.moduleType && a.difficulty == b.difficulty == "easy" && seed < 10007
    requires a.questionId != b.questionId && ContentHash(sha, a) != ContentHash(sha, b)
    ensures ItemsOf(Shuffled(sha, [a, b], seed)) == if seed % 2 == 0 then [a, b] else [b, a]
  {
    hide ContentHash, Shuffled, ItemsOf, Level, Sort, Segment;
    var items, m := [a, b], a.moduleType;
    ShuffleOrder(sha, items, seed);
    OneModule(a, b);
    TwoEasySegments(a, b, seed);
    assert OrderOf(items, [m], seed, 1) == [] + ModuleOrder(items, m, seed, 0);
  }

  lemma TwoEasySegments(a: Item, b: Item, seed: nat)
    requires a.moduleType == b.moduleType && a.difficulty == b.difficulty == "easy" && seed < 10007
    ensures Segment([a, b], a.moduleType, seed, 0, 0) == if seed % 2 == 0 then [a, b] else [b, a]
    ensures Segment([a, b], a.moduleType, seed, 0, 1) == [] && Segment([a, b], a.moduleType, seed, 0, 2) == []
  {
    hide Pool, Start;
    TwoEasy(a, b);
    StartOfTwo(seed);
  }

  lemma StartOfTwo(seed: nat)
    requires seed < 10007
    ensures Start(seed, 0, 0, 2) == seed % 2
  {
  }

  lemma OneModule(a: Item, b: Item)
    requires a.moduleType == b.moduleType
    ensures Modules([a, b]) == [a.moduleType]
  {
    hide Sort;
    assert [a, b][..1] == [a] && [a][..0] == [];
    assert Types([a]) == [a.moduleType];
    SortSingle(a.moduleType, STR_LEQ);
  }

  lemma TwoEasy(a: Item, b: Item)
    requires a.moduleType == b.moduleType && a.difficulty == b.difficulty == "easy"
    ensures Pool([a, b], a.moduleType, 0) == [a, b]
    ensures Pool([a, b], a.moduleType, 1) == [] && Pool([a, b], a.moduleType, 2) == []
  {
    hide Level, Filter;
    EasyLevel(a);
    EasyLevel(b);
    FilterTwo(OfModule(a.moduleType), a, b);
    FilterTwo(OfLevel(0), a, b);
    FilterTwo(OfLevel(1), a, b);
    FilterTwo(OfLevel(2), a, b);
    assert [a] + [b] == [a, b];
    assert Filter(OfModule(a.moduleType), [a, b]) == [a, b];
  }

  lemma EasyLevel(x: Item)
    requires x.difficulty == "easy"
    ensures Level(x) == 0
  {
    hide ToLower;
    assert Plain("easy");
    LowerFixed("easy");
  }

  lemma FilterTwo(p: Item -> bool, a: Item, b: Item)
    ensures Filter(p, [a, b]) == (if p(a) then [a] else []) + (if p(b) then [b] else [])
  {
    assert [a, b][..1] == [a] && [a][..0] == [];
    assert Filter(p, [a]) == [] + if p(a) then [a] else [];
  }
}
