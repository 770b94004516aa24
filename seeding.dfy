/**
 * Seeding the catalogue (EcoWorld/utils.py): `createItemsInDb` fetches or creates the five
 * rarities and the seventeen cards by title, and `createPacksInDb` creates the three packs or
 * updates their cost and image by title. Both can be run again without adding or changing rows.
 */
module Seeding {
  import opened Basics

  /** A `card` row; the rarity is named by its title. */
  datatype CardRow = CardRow(title: string, description: string, rarity: string, image: string)

  /** A `pack` row as seeding writes it: the listed probabilities are not stored. */
  datatype PackRow = PackRow(title: string, cost: int, image: string)

  const RarityTitles: seq<string> := ["common", "rare", "epic", "legendary", "mythic"]

  const CardsData: seq<CardRow> := [
    CardRow("Ancient Tree", "Mythical Card forged from legendary cards", "mythic", "cards/ancienttree.png"),
    CardRow("Bush", "A humble common bush", "common", "cards/bush.png"),
    CardRow("Cactus", "A spiky cactus straight from the desert", "rare", "cards/cactus.png"),
    CardRow("Cherry Blossom", "A blooming cherry blossom tree from the Sakura forest", "legendary", "cards/cherryBlossom.png"),
    CardRow("Dandelion Patch", "A patch of common dandelions", "common", "cards/dandelion.png"),
    CardRow("Golden Tree", "The legendary Golden tree", "legendary", "cards/goldenTree.png"),
    CardRow("Maple Tree", "Found around Canada", "legendary", "cards/mapleTree.png"),
    CardRow("Oak Tree", "A simple but gracious oak tree", "epic", "cards/oakTree.png"),
    CardRow("Orange Tree", "Filled with plenty of ripe fruit", "epic", "cards/orangeTree.png"),
    CardRow("Rainbow Flower", "Something you wish was actually real", "rare", "cards/rainbowflower.png"),
    CardRow("Scarecrow", "Just a casual field scarecrow", "epic", "cards/scarecrow.png"),
    CardRow("Starry Tree", "Straight from the milky way", "epic", "cards/starryTree.png"),
    CardRow("Statue", "A head bust of an important historical recycler", "epic", "cards/statue.png"),
    CardRow("Sunflower", "Shines bright in the fields", "rare", "cards/sunflower.png"),
    CardRow("Tulip Patch", "A simple patch of tulips", "rare", "cards/tulip.png"),
    CardRow("Log", "From a long lost oak tree", "common", "cards/log.png"),
    CardRow("Olive Tree", "From the fields of ancient greece", "epic", "cards/olivetree.png")
  ]

  const PackData: seq<PackRow> := [
    PackRow("Basic Pack", 20, "packs/basicpack.png"),
    PackRow("Rare Pack", 45, "packs/rarepack.png"),
    PackRow("Icon Pack", 100, "packs/iconpack.png")
  ]

  function RarityTitle(t: string): string { t }
  function CardTitle(c: CardRow): string { c.title }
  function PackTitle(p: PackRow): string { p.title }

  /** No two rows share a title. */
  predicate UniqueKeys<T>(rows: seq<T>, key: T -> string)
  {
    forall i, j :: 0 <= i < j < |rows| ==> key(rows[i]) != key(rows[j])
  }

  /** The position of the first row with title k, as a lookup by title finds it. */
  function Find<T>(rows: seq<T>, key: T -> string, k: string): (r: Option<nat>)
    ensures r.Some? ==> r.value < |rows| && key(rows[r.value]) == k
    ensures r.Some? ==> forall i :: 0 <= i < r.value ==> key(rows[i]) != k
    ensures r.None? ==> forall i :: 0 <= i < |rows| ==> key(rows[i]) != k
  {
    if rows == [] then None
    else if key(rows[0]) == k then Some(0)
    else match Find(rows[1..], key, k)
      case None => None
      case Some(j) => Some(j + 1)
  }

  /** With unique titles, the row the lookup finds is the only row with that title. */
  lemma FindUnique<T>(rows: seq<T>, key: T -> string, k: string, i: nat)
    requires UniqueKeys(rows, key)
    requires i < |rows| && key(rows[i]) == k
    ensures Find(rows, key, k) == Some(i)
  {
  }

  /**
   * `get_or_create` (replace false) or `update_or_create` (replace true) keyed on the title:
   * a row with x's title is kept, or overwritten by x; otherwise x is appended.
   */
  function Upsert<T>(rows: seq<T>, key: T -> string, x: T, replace: bool): seq<T>
  {
    match Find(rows, key, key(x))
    case None => rows + [x]
    case Some(i) => if replace then rows[i := x] else rows
  }

  /**
   * Upserting adds x's title and no other, keeps titles unique, appends x when its title is
   * new, leaves the rows alone when it is not and nothing is replaced, and otherwise puts x in
   * place of the row with its title and changes no other row.
   */
  lemma UpsertFacts<T>(rows: seq<T>, key: T -> string, x: T, replace: bool)
    ensures var r := Upsert(rows, key, x, replace);
      (forall k :: Find(r, key, k).Some? <==> Find(rows, key, k).Some? || k == key(x)) &&
      (UniqueKeys(rows, key) ==> UniqueKeys(r, key)) &&
      |rows| <= |r| &&
      (Find(rows, key, key(x)).None? ==> r == rows + [x]) &&
      (Find(rows, key, key(x)).Some? && !replace ==> r == rows) &&
      (replace ==> Find(r, key, key(x)).Some? && r[Find(r, key, key(x)).value] == x) &&
      (replace && Find(rows, key, key(x)).Some? ==>
         |r| == |rows| && forall i :: 0 <= i < |rows| && key(rows[i]) != key(x) ==> r[i] == rows[i])
  {
    var r := Upsert(rows, key, x, replace);
    match Find(rows, key, key(x))
    case None =>
      assert r[..|rows|] == rows;
      forall k | Find(rows, key, k).Some? ensures Find(r, key, k).Some? {
        assert key(r[Find(rows, key, k).value]) == k;
      }
      forall k | Find(r, key, k).Some? && k != key(x) ensures Find(rows, key, k).Some? {
        assert Find(r, key, k).value < |rows|;
      }
      assert key(r[|rows|]) == key(x);
    case Some(i) =>
      if replace {
        forall k | Find(rows, key, k).Some? ensures Find(r, key, k).Some? {
          var j := Find(rows, key, k).value;
          assert key(r[j]) == k;
        }
        forall k | Find(r, key, k).Some? ensures Find(rows, key, k).Some? {
          var j := Find(r, key, k).value;
          assert key(rows[j]) == k;
        }
        assert key(r[i]) == key(x);
        assert Find(r, key, key(x)) == Some(i);
      }
  }

  /** One `*_or_create` call per entry of xs, in order. */
  function UpsertAll<T>(rows: seq<T>, key: T -> string, xs: seq<T>, replace: bool): seq<T>
    decreases |xs|
  {
    if xs == [] then rows else UpsertAll(Upsert(rows, key, xs[0], replace), key, xs[1..], replace)
  }

  lemma {:induction false} UpsertAllSnoc<T>(rows: seq<T>, key: T -> string, xs: seq<T>, x: T, replace: bool)
    ensures UpsertAll(rows, key, xs + [x], replace) == Upsert(UpsertAll(rows, key, xs, replace), key, x, replace)
    decreases |xs|
  {
    if xs == [] {
      assert [x][1..] == [];
    } else {
      assert (xs + [x])[1..] == xs[1..] + [x];
      UpsertAllSnoc(Upsert(rows, key, xs[0], replace), key, xs[1..], x, replace);
    }
  }

  /** One more iteration of a seeding loop is one more upsert. */
  lemma SeedStep<T>(start: seq<T>, key: T -> string, data: seq<T>, i: nat, replace: bool)
    requires i < |data|
    ensures UpsertAll(start, key, data[..i + 1], replace) == Upsert(UpsertAll(start, key, data[..i], replace), key, data[i], replace)
  {
    UpsertAllSnoc(start, key, data[..i], data[i], replace);
    assert data[..i + 1] == data[..i] + [data[i]];
  }

  /** Seeding keeps titles unique, and afterwards every seeded title has a row. */
  lemma {:induction false} UpsertAllCovers<T>(rows: seq<T>, key: T -> string, xs: seq<T>, replace: bool)
    ensures UniqueKeys(rows, key) ==> UniqueKeys(UpsertAll(rows, key, xs, replace), key)
    ensures forall k :: Find(UpsertAll(rows, key, xs, replace), key, k).Some? <==>
                        Find(rows, key, k).Some? || exists x :: x in xs && key(x) == k
    decreases |xs|
  {
    if xs != [] {
      UpsertFacts(rows, key, xs[0], replace);
      UpsertAllCovers(Upsert(rows, key, xs[0], replace), key, xs[1..], replace);
      assert xs == [xs[0]] + xs[1..];
    }
  }

  /** `get_or_create` seeding never changes or removes an existing row: the old rows are a prefix. */
  lemma {:induction false} GetOrCreateKeepsRows<T>(rows: seq<T>, key: T -> string, xs: seq<T>)
    ensures |rows| <= |UpsertAll(rows, key, xs, false)|
    ensures UpsertAll(rows, key, xs, false)[..|rows|] == rows
    decreases |xs|
  {
    if xs != [] {
      var next := Upsert(rows, key, xs[0], false);
      UpsertFacts(rows, key, xs[0], false);
      GetOrCreateKeepsRows(next, key, xs[1..]);
      assert next[..|rows|] == rows;
    }
  }

  /** Running `get_or_create` seeding when every seeded title already has a row changes nothing. */
  lemma {:induction false} GetOrCreatePresent<T>(rows: seq<T>, key: T -> string, xs: seq<T>)
    requires forall x :: x in xs ==> Find(rows, key, key(x)).Some?
    ensures UpsertAll(rows, key, xs, false) == rows
    decreases |xs|
  {
    if xs != [] {
      assert xs[0] in xs;
      UpsertFacts(rows, key, xs[0], false);
      GetOrCreatePresent(rows, key, xs[1..]);
    }
  }

  /** Running `get_or_create` seeding twice is the same as running it once. */
  lemma GetOrCreateIdempotent<T>(rows: seq<T>, key: T -> string, xs: seq<T>)
    ensures UpsertAll(UpsertAll(rows, key, xs, false), key, xs, false) == UpsertAll(rows, key, xs, false)
  {
    UpsertAllCovers(rows, key, xs, false);
    GetOrCreatePresent(UpsertAll(rows, key, xs, false), key, xs);
  }

  /** The row titled key(x) is x and is not overwritten by later entries with other titles. */
  ghost predicate RowIs<T>(rows: seq<T>, key: T -> string, x: T)
  {
    Find(rows, key, key(x)).Some? && rows[Find(rows, key, key(x)).value] == x
  }

  lemma UpsertKeepsRow<T>(rows: seq<T>, key: T -> string, x: T, y: T)
    requires UniqueKeys(rows, key)
    requires RowIs(rows, key, y) && key(x) != key(y)
    ensures RowIs(Upsert(rows, key, x, true), key, y)
  {
    var r := Upsert(rows, key, x, true);
    UpsertFacts(rows, key, x, true);
    var j := Find(rows, key, key(y)).value;
    assert r[j] == y;
  }

  /** After `update_or_create` seeding with distinct titles, each seeded title's row is exactly the seeded row. */
  lemma {:induction false} UpdateOrCreateSets<T>(rows: seq<T>, key: T -> string, xs: seq<T>)
    requires UniqueKeys(rows, key) && UniqueKeys(xs, key)
    ensures forall x :: x in xs ==> RowIs(UpsertAll(rows, key, xs, true), key, x)
    decreases |xs|
  {
    if xs != [] {
      var next := Upsert(rows, key, xs[0], true);
      UpsertFacts(rows, key, xs[0], true);
      assert UniqueKeys(xs[1..], key);
      UpdateOrCreateSets(next, key, xs[1..]);
      KeepRowThrough(next, key, xs[1..], xs[0]);
      forall x | x in xs ensures RowIs(UpsertAll(rows, key, xs, true), key, x) {
        if x != xs[0] {
          var i :| 0 <= i < |xs| && xs[i] == x;
          assert xs[1..][i - 1] == x;
        }
      }
    }
  }

  lemma {:induction false} KeepRowThrough<T>(rows: seq<T>, key: T -> string, xs: seq<T>, y: T)
    requires UniqueKeys(rows, key) && RowIs(rows, key, y)
    requires forall x :: x in xs ==> key(x) != key(y)
    ensures RowIs(UpsertAll(rows, key, xs, true), key, y)
    decreases |xs|
  {
    if xs != [] {
      assert xs[0] in xs;
      UpsertKeepsRow(rows, key, xs[0], y);
      UpsertFacts(rows, key, xs[0], true);
      KeepRowThrough(Upsert(rows, key, xs[0], true), key, xs[1..], y);
    }
  }

  /** Overwriting rows that already hold the seeded values changes nothing. */
  lemma {:induction false} UpdateOrCreateStable<T>(rows: seq<T>, key: T -> string, xs: seq<T>)
    requires forall x :: x in xs ==> RowIs(rows, key, x)
    ensures UpsertAll(rows, key, xs, true) == rows
    decreases |xs|
  {
    if xs != [] {
      assert xs[0] in xs;
      var i := Find(rows, key, key(xs[0])).value;
      assert rows[i := xs[0]] == rows;
      UpdateOrCreateStable(rows, key, xs[1..]);
    }
  }

  /** Running `update_or_create` seeding with distinct titles twice is the same as running it once. */
  lemma UpdateOrCreateIdempotent<T>(rows: seq<T>, key: T -> string, xs: seq<T>)
    requires UniqueKeys(rows, key) && UniqueKeys(xs, key)
    ensures UpsertAll(UpsertAll(rows, key, xs, true), key, xs, true) == UpsertAll(rows, key, xs, true)
  {
    UpdateOrCreateSets(rows, key, xs);
    UpdateOrCreateStable(UpsertAll(rows, key, xs, true), key, xs);
  }

  /** The catalogue tables. */
  class Catalog {
    var rarities: seq<string>
    var cards: seq<CardRow>
    var packs: seq<PackRow>

    ghost predicate Valid()
      reads this
    {
      UniqueKeys(rarities, RarityTitle) && UniqueKeys(cards, CardTitle) && UniqueKeys(packs, PackTitle)
    }

    constructor ()
      ensures Valid() && rarities == [] && cards == [] && packs == []
    {
      rarities, cards, packs := [], [], [];
    }

    /** `createItemsInDb`. */
    method CreateItems()
      requires Valid()
      modifies this
      ensures Valid()
      ensures rarities == UpsertAll(old(rarities), RarityTitle, RarityTitles, false)
      ensures cards == UpsertAll(old(cards), CardTitle, CardsData, false)
      ensures packs == old(packs)
    {
      SeedRarities(RarityTitles);
      SeedCards(CardsData);
    }

    /** The `get_or_create` calls of `createItemsInDb` for the rarity titles. */
    method SeedRarities(titles: seq<string>)
      requires UniqueKeys(rarities, RarityTitle)
      modifies this
      ensures UniqueKeys(rarities, RarityTitle)
      ensures rarities == UpsertAll(old(rarities), RarityTitle, titles, false)
      ensures cards == old(cards) && packs == old(packs)
    {
      UpsertAllCovers(rarities, RarityTitle, titles, false);
      rarities := UpsertAll(rarities, RarityTitle, titles, false);
    }

    /** The loop of `createItemsInDb` over the card data. */
    method SeedCards(data: seq<CardRow>)
      requires UniqueKeys(cards, CardTitle)
      modifies this
      ensures UniqueKeys(cards, CardTitle)
      ensures cards == UpsertAll(old(cards), CardTitle, data, false)
      ensures rarities == old(rarities) && packs == old(packs)
    {
      ghost var start := cards;
      for i := 0 to |data|
        invariant cards == UpsertAll(start, CardTitle, data[..i], false)
        invariant rarities == old(rarities) && packs == old(packs)
      {
        SeedStep(start, CardTitle, data, i, false);
        cards := Upsert(cards, CardTitle, data[i], false);
      }
      assert data[..|data|] == data;
      UpsertAllCovers(start, CardTitle, data, false);
    }

    /** `createPacksInDb`. */
    method CreatePacks()
      requires Valid()
      modifies this
      ensures Valid()
      ensures packs == UpsertAll(old(packs), PackTitle, PackData, true)
      ensures rarities == old(rarities) && cards == old(cards)
    {
      SeedPacks(PackData);
    }

    /** The loop of `createPacksInDb` over the pack data. */
    method SeedPacks(data: seq<PackRow>)
      requires UniqueKeys(packs, PackTitle)
      modifies this
      ensures UniqueKeys(packs, PackTitle)
      ensures packs == UpsertAll(old(packs), PackTitle, data, true)
      ensures rarities == old(rarities) && cards == old(cards)
    {
      ghost var start := packs;
      for i := 0 to |data|
        invariant packs == UpsertAll(start, PackTitle, data[..i], true)
        invariant rarities == old(rarities) && cards == old(cards)
      {
        SeedStep(start, PackTitle, data, i, true);
        packs := Upsert(packs, PackTitle, data[i], true);
      }
      assert data[..|data|] == data;
      UpsertAllCovers(start, PackTitle, data, true);
    }
  }

  /** After `createPacksInDb`, the three packs exist with costs 20, 45 and 100, whatever was stored before. */
  lemma SeededPackCosts(rows: seq<PackRow>)
    requires UniqueKeys(rows, PackTitle)
    ensures RowIs(UpsertAll(rows, PackTitle, PackData, true), PackTitle, PackRow("Basic Pack", 20, "packs/basicpack.png"))
    ensures RowIs(UpsertAll(rows, PackTitle, PackData, true), PackTitle, PackRow("Rare Pack", 45, "packs/rarepack.png"))
    ensures RowIs(UpsertAll(rows, PackTitle, PackData, true), PackTitle, PackRow("Icon Pack", 100, "packs/iconpack.png"))
  {
    assert UniqueKeys(PackData, PackTitle);
    UpdateOrCreateSets(rows, PackTitle, PackData);
    assert PackData[0] in PackData && PackData[1] in PackData && PackData[2] in PackData;
  }
}
