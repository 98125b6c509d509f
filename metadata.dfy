/**
 * The category and tag helpers of the admin editor: the sorted distinct
 * categories and tags of a product list, the tags of one category, and the
 * case-insensitive check whether a typed category or tag is new.
 */
module Metadata {
  import opened Wrappers
  import opened Text
  import opened StringOrder
  import opened Products

  /** `ps.map(p => p.category)`. */
  function Categories(ps: seq<Product>): (r: seq<string>)
    ensures forall v :: v in r <==> exists i :: 0 <= i < |ps| && ps[i].category == v
  {
    var r := seq(|ps|, i requires 0 <= i < |ps| => ps[i].category);
    assert forall i :: 0 <= i < |ps| ==> r[i] == ps[i].category;
    r
  }

  /** `ps.flatMap(p => p.tags)`. */
  function AllTags(ps: seq<Product>): seq<string>
    decreases |ps|
  {
    if ps == [] then [] else ps[0].tags + AllTags(ps[1..])
  }

  /** A value is among the flattened tags exactly when some product lists it. */
  lemma {:induction false} AllTagsMembership(ps: seq<Product>)
    ensures forall v :: v in AllTags(ps) <==> exists i :: 0 <= i < |ps| && v in ps[i].tags
    decreases |ps|
  {
    if ps != [] {
      AllTagsMembership(ps[1..]);
      forall v | v in AllTags(ps) ensures exists i :: 0 <= i < |ps| && v in ps[i].tags {
        if v !in ps[0].tags {
          assert v in AllTags(ps[1..]);
          var i :| 0 <= i < |ps[1..]| && v in ps[1..][i].tags;
          assert v in ps[i + 1].tags;
        }
      }
      forall v | exists i :: 0 <= i < |ps| && v in ps[i].tags ensures v in AllTags(ps) {
        var i :| 0 <= i < |ps| && v in ps[i].tags;
        if i > 0 {
          assert v in ps[1..][i - 1].tags;
        }
      }
    }
  }

  /** `ps.filter(p => p.category === category)`. */
  function InCategory(ps: seq<Product>, category: string): (r: seq<Product>)
    ensures forall p :: p in r <==> p in ps && p.category == category
    decreases |ps|
  {
    if ps == [] then []
    else
      assert ps == [ps[0]] + ps[1..];
      (if ps[0].category == category then [ps[0]] else []) + InCategory(ps[1..], category)
  }

  /** The distinct categories, strictly ascending: exactly the categories of the products. */
  function ExtractUniqueCategories(ps: seq<Product>): (r: seq<string>)
    ensures StrictlyAscending(r)
    ensures forall v :: v in r <==> exists i :: 0 <= i < |ps| && ps[i].category == v
  {
    SortedUnique(Categories(ps))
  }

  /** The distinct tags, strictly ascending: exactly the tags some product lists. */
  function ExtractUniqueTags(ps: seq<Product>): (r: seq<string>)
    ensures StrictlyAscending(r)
    ensures forall v :: v in r <==> exists i :: 0 <= i < |ps| && v in ps[i].tags
  {
    AllTagsMembership(ps);
    SortedUnique(AllTags(ps))
  }

  /** A tag is among the tags of a category's products exactly when a product of that category lists it. */
  lemma CategoryTagsMembership(ps: seq<Product>, category: string)
    ensures forall v :: v in AllTags(InCategory(ps, category)) <==>
                        exists i :: 0 <= i < |ps| && ps[i].category == category && v in ps[i].tags
  {
    var members := InCategory(ps, category);
    AllTagsMembership(members);
    forall v | v in AllTags(members) ensures exists i :: 0 <= i < |ps| && ps[i].category == category && v in ps[i].tags {
      var j :| 0 <= j < |members| && v in members[j].tags;
      assert members[j] in ps;
    }
    forall v | exists i :: 0 <= i < |ps| && ps[i].category == category && v in ps[i].tags ensures v in AllTags(members) {
      var i :| 0 <= i < |ps| && ps[i].category == category && v in ps[i].tags;
      assert ps[i] in members;
      var j :| 0 <= j < |members| && members[j] == ps[i];
    }
  }

  /** The distinct tags of the products of one category, strictly ascending. */
  function GetTagsByCategory(ps: seq<Product>, category: string): (r: seq<string>)
    ensures StrictlyAscending(r)
    ensures forall v :: v in r <==> exists i :: 0 <= i < |ps| && ps[i].category == category && v in ps[i].tags
  {
    CategoryTagsMembership(ps, category);
    SortedUnique(AllTags(InCategory(ps, category)))
  }

  /** The tags of one category are among all tags, and a category no product has has none. */
  lemma TagsByCategoryWithinAllTags(ps: seq<Product>, category: string)
    ensures forall v :: v in GetTagsByCategory(ps, category) ==> v in ExtractUniqueTags(ps)
    ensures (forall i :: 0 <= i < |ps| ==> ps[i].category != category) ==> GetTagsByCategory(ps, category) == []
  {
    var r := GetTagsByCategory(ps, category);
    if r != [] {
      assert r[0] in r;
    }
  }

  /** `existing.some(x => x.toLowerCase() === t.toLowerCase())`. */
  predicate SomeEqualIgnoringCase(existing: seq<string>, t: string) {
    exists i :: 0 <= i < |existing| && ToLower(existing[i]) == ToLower(t)
  }

  /**
   * The trimmed category when no existing category equals it ignoring case;
   * none otherwise.
   */
  function AddNewCategory(ps: seq<Product>, newCategory: string): (r: Option<string>)
    ensures r.None? <==> exists i :: 0 <= i < |ps| && ToLower(ps[i].category) == ToLower(Trim(newCategory))
    ensures r.Some? ==> r.value == Trim(newCategory)
  {
    var trimmedCategory := Trim(newCategory);
    var existingCategories := ExtractUniqueCategories(ps);
    var categoryExists := SomeEqualIgnoringCase(existingCategories, trimmedCategory);
    if categoryExists then
      var k :| 0 <= k < |existingCategories| && ToLower(existingCategories[k]) == ToLower(trimmedCategory);
      assert existingCategories[k] in existingCategories;
      None
    else
      assert forall i :: 0 <= i < |ps| ==> ps[i].category in existingCategories;
      Some(trimmedCategory)
  }

  /**
   * The trimmed tag when no tag of any product equals it ignoring case; none
   * otherwise. The selected category plays no part.
   */
  function AddNewTag(ps: seq<Product>, newTag: string, selectedCategory: Option<string>): (r: Option<string>)
    ensures r.None? <==> exists i, j :: 0 <= i < |ps| && 0 <= j < |ps[i].tags| &&
                                        ToLower(ps[i].tags[j]) == ToLower(Trim(newTag))
    ensures r.Some? ==> r.value == Trim(newTag)
  {
    var trimmedTag := Trim(newTag);
    var existingTags := ExtractUniqueTags(ps);
    var tagExists := SomeEqualIgnoringCase(existingTags, trimmedTag);
    if tagExists then
      var k :| 0 <= k < |existingTags| && ToLower(existingTags[k]) == ToLower(trimmedTag);
      assert existingTags[k] in existingTags;
      var i :| 0 <= i < |ps| && existingTags[k] in ps[i].tags;
      var j :| 0 <= j < |ps[i].tags| && ps[i].tags[j] == existingTags[k];
      None
    else
      assert forall i, j :: 0 <= i < |ps| && 0 <= j < |ps[i].tags| ==> ps[i].tags[j] in existingTags;
      Some(trimmedTag)
  }

  /**
   * Input that is only white space is accepted as the empty category unless
   * some product already has the empty category.
   */
  lemma BlankCategory(ps: seq<Product>, newCategory: string)
    requires AllWhitespace(newCategory)
    ensures AddNewCategory(ps, newCategory) == if exists i :: 0 <= i < |ps| && ps[i].category == "" then None else Some("")
  {
    TrimAllWhitespace(newCategory);
    forall i | 0 <= i < |ps| ensures ToLower(ps[i].category) == "" <==> ps[i].category == "" {
    }
  }

  /** The same for tags: only an existing empty tag turns blank input away. */
  lemma BlankTag(ps: seq<Product>, newTag: string, selectedCategory: Option<string>)
    requires AllWhitespace(newTag)
    ensures AddNewTag(ps, newTag, selectedCategory) ==
      if exists i, j :: 0 <= i < |ps| && 0 <= j < |ps[i].tags| && ps[i].tags[j] == "" then None else Some("")
  {
    TrimAllWhitespace(newTag);
    forall i, j | 0 <= i < |ps| && 0 <= j < |ps[i].tags| ensures ToLower(ps[i].tags[j]) == "" <==> ps[i].tags[j] == "" {
    }
  }
}
