/** The seeded question shuffler with content-hash deduplication. */
module Shuffler {
  import opened Prelude
  import opened Sorting
  import opened Strings

  /**
   * What the hash reads of a question: the prompt (or title, or text), the option texts, the expected
   * query and the starter code; an empty string stands for an absent field.
   */
  datatype Content = Content(prompt: string, options: Option<seq<string>>, expectedQuery: string, starterCode: string)

  datatype Item = Item(questionId: string, moduleType: string, content: Content, difficulty: string)

  datatype Allocated = Allocated(item: Item, moduleIndex: nat, contentHash: string)

  // ---- The hash pre-image ----

  function NormalText(s: string): string {
    Collapse(Trim(ToLower(s)))
  }

  function WithoutSpaces(s: string): string {
    if s == "" then "" else (if IsSpace(s[0]) then "" else [s[0]]) + WithoutSpaces(s[1..])
  }

  const NORMAL_OPTION: string -> string := o => Trim(ToLower(o))

  function Extra(c: Content): string {
    if c.options.Some? then Join(Sort(Map(NORMAL_OPTION, c.options.value), STR_LEQ), "|")
    else if c.expectedQuery != "" then NormalText(c.expectedQuery)
    else if c.starterCode != "" then WithoutSpaces(Trim(ToLower(c.starterCode)))
    else ""
  }

  function Heading(moduleType: string, prompt: string): string {
    moduleType + ":" + NormalText(prompt) + ":"
  }

  function PreImage(moduleType: string, c: Content): string {
    Heading(moduleType, c.prompt) + Extra(c)
  }

  /** sha stands for the hex SHA-256 digest. */
  function ContentHash(sha: string -> string, item: Item): string {
    sha(PreImage(item.moduleType, item.content))
  }

  // ---- Pools ----

  function Filter(p: Item -> bool, s: seq<Item>): seq<Item> {
    if s == [] then []
    else Filter(p, s[..|s| - 1]) + if p(s[|s| - 1]) then [s[|s| - 1]] else []
  }

  function OfModule(m: string): Item -> bool {
    (x: Item) => x.moduleType == m
  }

  /** 0 easy, 1 medium, 2 hard; anything else counts as medium. */
  function Level(item: Item): nat {
    var d := ToLower(if item.difficulty == "" then "medium" else item.difficulty);
    if d == "easy" then 0 else if d == "hard" then 2 else 1
  }

  function OfLevel(d: nat): Item -> bool {
    (x: Item) => Level(x) == d
  }

  function Pool(items: seq<Item>, m: string, d: nat): seq<Item> {
    Filter(OfLevel(d), Filter(OfModule(m), items))
  }

  function Rotate(s: seq<Item>, offset: nat): seq<Item>
    requires offset <= |s|
  {
    s[offset..] + s[..offset]
  }

  /** Module types in order of first appearance. */
  function Types(items: seq<Item>): seq<string> {
    if items == [] then []
    else
      var ts := Types(items[..|items| - 1]);
      var m := items[|items| - 1].moduleType;
      if m in ts then ts else ts + [m]
  }

  function Modules(items: seq<Item>): seq<string> {
    Sort(Types(items), STR_LEQ)
  }

  // ---- Selection ----

  datatype Picked = Picked(used: set<string>, selected: seq<Item>)

  predicate IdTaken(selected: seq<Item>, id: string) {
    exists i :: 0 <= i < |selected| && selected[i].questionId == id
  }

  function PickOne(sha: string -> string, p: Picked, item: Item): Picked {
    var h := ContentHash(sha, item);
    if !IdTaken(p.selected, item.questionId) && h !in p.used
    then Picked(p.used + {h}, p.selected + [item])
    else p
  }

  function Pick(sha: string -> string, p: Picked, s: seq<Item>): Picked {
    if s == [] then p else PickOne(sha, Pick(sha, p, s[..|s| - 1]), s[|s| - 1])
  }

  function Offset(seed: nat, k: nat, d: nat, size: nat): (r: nat)
    requires size > 0
    ensures r < size
  {
    ((seed + k * 1009) % 10007 + d * 37) % size
  }

  function PickLevel(sha: string -> string, pool: seq<Item>, seed: nat, k: nat, d: nat, p: Picked): Picked {
    if pool == [] then p else Pick(sha, p, Rotate(pool, Offset(seed, k, d, |pool|)))
  }

  /** The state of module number k after its first `levels` difficulty segments. */
  function PickModule(sha: string -> string, items: seq<Item>, m: string, seed: nat, k: nat, used: set<string>,
                      levels: nat): Picked {
    if levels == 0 then Picked(used, [])
    else
      PickLevel(sha, Pool(items, m, levels - 1), seed, k, levels - 1,
                PickModule(sha, items, m, seed, k, used, levels - 1))
  }

  function Indexed(sha: string -> string, selected: seq<Item>): (out: seq<Allocated>)
    ensures |out| == |selected|
    ensures forall i :: 0 <= i < |out| ==> out[i] == Allocated(selected[i], i, ContentHash(sha, selected[i]))
  {
    seq(|selected|, i requires 0 <= i < |selected| => Allocated(selected[i], i, ContentHash(sha, selected[i])))
  }

  datatype Allocation = Allocation(used: set<string>, out: seq<Allocated>)

  /** The allocation after the first k modules. */
  function Allocate(sha: string -> string, items: seq<Item>, mods: seq<string>, seed: nat, k: nat): Allocation
    requires k <= |mods|
  {
    if k == 0 then Allocation({}, [])
    else
      var before := Allocate(sha, items, mods, seed, k - 1);
      var p := PickModule(sha, items, mods[k - 1], seed, k - 1, before.used, 3);
      Allocation(p.used, before.out + Indexed(sha, p.selected))
  }

  function Shuffled(sha: string -> string, items: seq<Item>, seed: nat): seq<Allocated> {
    Allocate(sha, items, Modules(items), seed, |Modules(items)|).out
  }

  // ---- The loops ----

  method GroupByModule(items: seq<Item>) returns (types: seq<string>, byModule: map<string, seq<Item>>)
    ensures types == Types(items)
    ensures byModule.Keys == set m | m in types
    ensures forall m :: m in types ==> byModule[m] == Filter(OfModule(m), items)
  {
    types, byModule := [], map[];
    for i := 0 to |items|
      invariant types == Types(items[..i])
      invariant byModule.Keys == set m | m in types
      invariant forall m :: m in types ==> byModule[m] == Filter(OfModule(m), items[..i])
      invariant forall m :: m !in types ==> Filter(OfModule(m), items[..i]) == []
    {
      assert items[..i + 1][..i] == items[..i];
      var type_ := items[i].moduleType;
      if type_ !in byModule {
        byModule := byModule[type_ := []];
        types := types + [type_];
      }
      byModule := byModule[type_ := byModule[type_] + [items[i]]];
    }
    assert items[..|items|] == items;
  }

  method GroupByLevel(pool: seq<Item>) returns (easy: seq<Item>, medium: seq<Item>, hard: seq<Item>)
    ensures easy == Filter(OfLevel(0), pool)
    ensures medium == Filter(OfLevel(1), pool)
    ensures hard == Filter(OfLevel(2), pool)
  {
    easy, medium, hard := [], [], [];
    for i := 0 to |pool|
      invariant easy == Filter(OfLevel(0), pool[..i])
      invariant medium == Filter(OfLevel(1), pool[..i])
      invariant hard == Filter(OfLevel(2), pool[..i])
    {
      assert pool[..i + 1][..i] == pool[..i];
      var level := Level(pool[i]);
      if level == 0 {
        easy := easy + [pool[i]];
      } else if level == 2 {
        hard := hard + [pool[i]];
      } else {
        medium := medium + [pool[i]];
      }
    }
    assert pool[..|pool|] == pool;
  }

  /** The inner loop: keep an item unless its question id or its content hash was already taken. */
  method SelectNew(sha: string -> string, rotated: seq<Item>, start: Picked) returns (p: Picked)
    ensures p == Pick(sha, start, rotated)
  {
    hide ContentHash;
    p := start;
    for i := 0 to |rotated|
      invariant p == Pick(sha, start, rotated[..i])
    {
      assert rotated[..i + 1][..i] == rotated[..i];
      var item := rotated[i];
      var hash := ContentHash(sha, item);
      if !(exists x :: 0 <= x < |p.selected| && p.selected[x].questionId == item.questionId) && hash !in p.used {
        p := Picked(p.used + {hash}, p.selected + [item]);
      }
    }
    assert rotated[..|rotated|] == rotated;
  }

  method SelectLevel(sha: string -> string, pool: seq<Item>, seed: nat, k: nat, d: nat, start: Picked)
    returns (p: Picked)
    ensures p == PickLevel(sha, pool, seed, k, d, start)
  {
    hide Pick;
    p := start;
    if |pool| == 0 {
      return;
    }
    var moduleSeed := (seed + k * 1009) % 10007;
    var offset := (moduleSeed + d * 37) % |pool|;
    p := SelectNew(sha, pool[offset..] + pool[..offset], start);
  }

  method ShuffleQuestionsForCandidate(sha: string -> string, items: seq<Item>, seed: nat)
    returns (out: seq<Allocated>)
    ensures out == Shuffled(sha, items, seed)
  {
    hide ContentHash, Filter, Sort, PickLevel, Indexed;
    var types, byModule := GroupByModule(items);
    var mods := Sort(types, STR_LEQ);
    SortKeeps(types, STR_LEQ);
    var used: set<string> := {};
    out := [];
    for k := 0 to |mods|
      invariant Allocation(used, out) == Allocate(sha, items, mods, seed, k)
    {
      assert mods[k] in multiset(mods);
      var pool := byModule[mods[k]];
      var easy, medium, hard := GroupByLevel(pool);
      var p0 := SelectLevel(sha, easy, seed, k, 0, Picked(used, []));
      var p1 := SelectLevel(sha, medium, seed, k, 1, p0);
      var p2 := SelectLevel(sha, hard, seed, k, 2, p1);
      assert p0 == PickModule(sha, items, mods[k], seed, k, used, 1);
      assert p1 == PickModule(sha, items, mods[k], seed, k, used, 2);
      assert p2 == PickModule(sha, items, mods[k], seed, k, used, 3);
      used := p2.used;
      out := out + Indexed(sha, p2.selected);
    }
  }
}
