/** The inventory list page: which items are shown for a search term and a
    selected type, and the labels around the list. */
module ViewItems {
  import opened Wrappers
  import opened Text
  import opened Inventory

  /** The choices of the type drop-down, in display order. */
  const ItemTypes: seq<string> :=
    ["All", "Shirt", "Pant", "Shoes", "Sports Gear", "Accessories", "Electronics", "Books", "Home & Garden", "Other"]

  /** The value an option puts into `selectedType`: "All" stands for no type. */
  function OptionValue(option: string): (value: string) {
    if option == "All" then "" else option
  }

  /** The lower-cased name or description contains the lower-cased term. */
  predicate MatchesSearch(item: Item, term: string) {
    Contains(ToLower(item.name), ToLower(term)) || Contains(ToLower(item.description), ToLower(term))
  }

  /** No type selected, "All" selected, or exactly the selected type. */
  predicate MatchesType(item: Item, selectedType: string) {
    selectedType == "" || selectedType == "All" || item.itemType == selectedType
  }

  predicate Keep(item: Item, term: string, selectedType: string) {
    MatchesSearch(item, term) && MatchesType(item, selectedType)
  }

  /** `items.filter(...)`. */
  function FilterItems(items: seq<Item>, term: string, selectedType: string): (r: seq<Item>)
    ensures |r| <= |items|
  {
    if items == [] then []
    else (if Keep(items[0], term, selectedType) then [items[0]] else []) + FilterItems(items[1..], term, selectedType)
  }

  /** `a` is `b` with some elements left out, the rest in the same order:
      either both start with the same element and the rests match, or the
      first element of `b` is left out. */
  predicate IsSubsequence(a: seq<Item>, b: seq<Item>)
    decreases |b|
  {
    a == [] ||
    (b != [] && ((a[0] == b[0] && IsSubsequence(a[1..], b[1..])) || IsSubsequence(a, b[1..])))
  }

  /** The shown list keeps the order of the loaded list and only leaves items
      out. */
  lemma {:induction false} FilterIsSubsequence(items: seq<Item>, term: string, selectedType: string)
    ensures IsSubsequence(FilterItems(items, term, selectedType), items)
    decreases |items|
  {
    if items != [] {
      var r := FilterItems(items, term, selectedType);
      var rest := FilterItems(items[1..], term, selectedType);
      FilterIsSubsequence(items[1..], term, selectedType);
      if Keep(items[0], term, selectedType) {
        assert r == [items[0]] + rest;
        assert r[1..] == rest;
      } else {
        assert r == rest;
      }
    }
  }

  /** An item is shown as often as it is loaded when it matches, and not at
      all otherwise. */
  lemma {:induction false} FilterCounts(items: seq<Item>, term: string, selectedType: string, x: Item)
    ensures multiset(FilterItems(items, term, selectedType))[x] ==
      if Keep(x, term, selectedType) then multiset(items)[x] else 0
    decreases |items|
  {
    if items != [] {
      FilterCounts(items[1..], term, selectedType, x);
      assert items == [items[0]] + items[1..];
      assert multiset(items) == multiset([items[0]]) + multiset(items[1..]);
    }
  }

  /** An item is shown exactly when it is loaded and matches both criteria. */
  lemma FilterMembership(items: seq<Item>, term: string, selectedType: string, x: Item)
    ensures x in FilterItems(items, term, selectedType) <==> x in items && Keep(x, term, selectedType)
  {
    FilterCounts(items, term, selectedType, x);
    assert x in FilterItems(items, term, selectedType) <==> multiset(FilterItems(items, term, selectedType))[x] > 0;
    assert x in items <==> multiset(items)[x] > 0;
  }

  /** Filtering the shown list again with the same criteria changes nothing. */
  lemma {:induction false} FilterIdempotent(items: seq<Item>, term: string, selectedType: string)
    ensures FilterItems(FilterItems(items, term, selectedType), term, selectedType) ==
      FilterItems(items, term, selectedType)
    decreases |items|
  {
    if items != [] {
      var rest := FilterItems(items[1..], term, selectedType);
      FilterIdempotent(items[1..], term, selectedType);
      if Keep(items[0], term, selectedType) {
        var r := [items[0]] + rest;
        assert FilterItems(items, term, selectedType) == r;
        assert r[0] == items[0] && r[1..] == rest;
        assert FilterItems(r, term, selectedType) == [items[0]] + FilterItems(rest, term, selectedType);
      } else {
        assert FilterItems(items, term, selectedType) == [] + rest;
        assert [] + rest == rest;
      }
    }
  }

  /** Every string contains the empty string, so an empty term matches every
      item. */
  lemma EmptyTermMatches(item: Item)
    ensures MatchesSearch(item, "")
  {
    assert ToLower("") == "";
    assert IsPrefix("", ToLower(item.name));
  }

  /** With no term and no type, or "All", every loaded item is shown. */
  lemma {:induction false} NoCriteriaShowsAll(items: seq<Item>, selectedType: string)
    requires selectedType == "" || selectedType == "All"
    ensures FilterItems(items, "", selectedType) == items
    decreases |items|
  {
    if items != [] {
      EmptyTermMatches(items[0]);
      NoCriteriaShowsAll(items[1..], selectedType);
      assert [items[0]] + items[1..] == items;
    }
  }

  /** Two terms that differ only in ASCII letter case show the same items. */
  lemma {:induction false} SearchIgnoresCase(items: seq<Item>, t1: string, t2: string, selectedType: string)
    requires ToLower(t1) == ToLower(t2)
    ensures FilterItems(items, t1, selectedType) == FilterItems(items, t2, selectedType)
    decreases |items|
  {
    if items != [] {
      SearchIgnoresCase(items[1..], t1, t2, selectedType);
    }
  }

  /** Selecting "All" shows the same items as selecting no type. */
  lemma {:induction false} AllIsNoType(items: seq<Item>, term: string)
    ensures FilterItems(items, term, "All") == FilterItems(items, term, "")
    decreases |items|
  {
    if items != [] {
      AllIsNoType(items[1..], term);
    }
  }

  /** A real type is matched exactly: every shown item has that type, and
      every loaded item of that type that matches the term is shown. */
  lemma TypeIsMatchedExactly(items: seq<Item>, term: string, selectedType: string)
    requires selectedType != "" && selectedType != "All"
    ensures forall x :: x in FilterItems(items, term, selectedType) ==> x.itemType == selectedType
    ensures forall x :: x in items && x.itemType == selectedType && MatchesSearch(x, term) ==>
      x in FilterItems(items, term, selectedType)
  {
    forall x | x in FilterItems(items, term, selectedType) ensures x.itemType == selectedType {
      FilterMembership(items, term, selectedType, x);
    }
    forall x | x in items && x.itemType == selectedType && MatchesSearch(x, term)
      ensures x in FilterItems(items, term, selectedType)
    {
      FilterMembership(items, term, selectedType, x);
    }
  }

  /** The first option clears the type filter; every other option selects
      its own label. */
  lemma OptionValues(k: nat)
    requires k < |ItemTypes|
    ensures k == 0 ==> OptionValue(ItemTypes[k]) == ""
    ensures k > 0 ==> OptionValue(ItemTypes[k]) == ItemTypes[k] && ItemTypes[k] != ""
  {
  }

  // ---------------------------------------------------------------------
  // labels
  // ---------------------------------------------------------------------

  /** "<n> item(s) in your inventory", counting the loaded items: the
      singular word for exactly one item, the plural otherwise. */
  function CountLabel(items: seq<Item>): (caption: string) {
    Decimal(|items|) + (if |items| == 1 then " item in your inventory" else " items in your inventory")
  }

  /** The heading shown in place of an empty list, or None when the list has
      items. */
  function EmptyHeading(items: seq<Item>, shown: seq<Item>): (heading: Option<string>) {
    if |shown| != 0 then None
    else if |items| == 0 then Some("No items yet")
    else Some("No items found")
  }

  /** The count label reads "1 item in your inventory" for exactly one
      loaded item, and "<n> items in your inventory" for any other count. */
  lemma CountLabelCases(items: seq<Item>)
    ensures |items| == 1 ==> Decimal(|items|) == "1"
    ensures CountLabel(items) == Decimal(|items|) + " item in your inventory" <==> |items| == 1
    ensures |items| != 1 ==> CountLabel(items) == Decimal(|items|) + " items in your inventory"
  {
    if |items| != 1 {
      var d := Decimal(|items|);
      assert |d + " items in your inventory"| != |d + " item in your inventory"|;
    }
  }

  /** The page says "No items yet" exactly when nothing is loaded, "No items
      found" exactly when items are loaded but none is shown, and no heading
      when some item is shown. */
  lemma EmptyHeadingCases(items: seq<Item>, term: string, selectedType: string)
    ensures var shown := FilterItems(items, term, selectedType);
      (EmptyHeading(items, shown) == Some("No items yet") <==> items == []) &&
      (EmptyHeading(items, shown) == Some("No items found") <==> items != [] && shown == []) &&
      (EmptyHeading(items, shown).None? <==> shown != [])
  {
  }
}
