/** The fixed movie catalog: twenty titles with ids 1 to 20 in order. */
module Catalog {

  datatype Movie = Movie(id: nat, title: string)

  const Movies: seq<Movie> := [
    Movie(1, "Bruce Almighty"),
    Movie(2, "Gladiator"),
    Movie(3, "The Life of Chuck"),
    Movie(4, "Groundhog Day"),
    Movie(5, "George of the Jungle"),
    Movie(6, "Knives Out"),
    Movie(7, "Rush"),
    Movie(8, "The Dark Knight"),
    Movie(9, "The Green Mile"),
    Movie(10, "Leon"),
    Movie(11, "A Man Called Otto"),
    Movie(12, "Self/less"),
    Movie(13, "Night Hunter"),
    Movie(14, "Die My Love"),
    Movie(15, "Roofman"),
    Movie(16, "For Richer or Poorer"),
    Movie(17, "The Pink Panther 2"),
    Movie(18, "57 Seconds"),
    Movie(19, "The Scorpion King"),
    Movie(20, "The Irishman")
  ]

  /** `movies.length`, the number of pairs needed to finish the game. */
  const CatalogSize: nat := |Movies|

  /** The ids the catalog hands out: 1 up to the catalog length. */
  predicate IsCatalogId(id: nat) {
    1 <= id <= CatalogSize
  }

  /** The catalog holds twenty movies, the i-th with id i + 1, so its ids are exactly 1..20 and distinct. */
  lemma CatalogShape()
    ensures CatalogSize == 20
    ensures forall i :: 0 <= i < |Movies| ==> Movies[i].id == i + 1
    ensures forall id: nat :: IsCatalogId(id) <==> exists i :: 0 <= i < |Movies| && Movies[i].id == id
  {
    forall id: nat | IsCatalogId(id)
      ensures exists i :: 0 <= i < |Movies| && Movies[i].id == id
    {
      assert Movies[id - 1].id == id;
    }
  }

  predicate NoDuplicates(s: seq<nat>) {
    forall i, j :: 0 <= i < j < |s| ==> s[i] != s[j]
  }

  predicate AllCatalogIds(s: seq<nat>) {
    forall k :: 0 <= k < |s| ==> IsCatalogId(s[k])
  }

  ghost function Elements(s: seq<nat>): set<nat> {
    set x | x in s
  }

  /** The ids 1..n as a set. */
  ghost function IdRange(n: nat): (r: set<nat>)
    ensures |r| == n
    ensures forall id: nat :: id in r <==> 1 <= id <= n
  {
    if n == 0 then {} else IdRange(n - 1) + {n}
  }

  /** A list without repeats has as many distinct elements as entries. */
  lemma {:induction false} DistinctSize(s: seq<nat>)
    requires NoDuplicates(s)
    ensures |Elements(s)| == |s|
  {
    if s == [] {
      assert Elements(s) == {};
    } else {
      var init := s[..|s| - 1];
      DistinctSize(init);
      assert Elements(s) == Elements(init) + {s[|s| - 1]};
      forall k | 0 <= k < |init| ensures init[k] != s[|s| - 1] {
        assert init[k] == s[k];
      }
    }
  }

  lemma SubsetSize(a: set<nat>, b: set<nat>)
    requires a <= b
    ensures |a| <= |b|
    ensures |a| == |b| ==> a == b
  {
    assert b == a + (b - a);
    assert |b| == |a| + |b - a|;
    if |a| == |b| {
      assert |b - a| == 0;
    }
  }

  /** A repeat-free list of catalog ids is never longer than the catalog, and it has the
      catalog's length exactly when it contains every catalog id. */
  lemma {:induction false} CoversCatalog(s: seq<nat>)
    requires NoDuplicates(s) && AllCatalogIds(s)
    ensures |s| <= CatalogSize
    ensures |s| == CatalogSize <==> forall id: nat :: IsCatalogId(id) ==> id in s
  {
    DistinctSize(s);
    assert Elements(s) <= IdRange(CatalogSize);
    SubsetSize(Elements(s), IdRange(CatalogSize));
    if |s| == CatalogSize {
      forall id: nat | IsCatalogId(id) ensures id in s {
        assert id in IdRange(CatalogSize);
      }
    }
    if forall id: nat :: IsCatalogId(id) ==> id in s {
      assert IdRange(CatalogSize) <= Elements(s);
      SubsetSize(IdRange(CatalogSize), Elements(s));
    }
  }
}
