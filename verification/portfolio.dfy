/**
 * The portfolio filter's click handler (script.js:134-153). The filter
 * buttons and the portfolio items are the page's node lists; the model keeps
 * each button's `active` class as an array of flags and each item's
 * `style.display` as an array of Display values, with the `data-filter` and
 * `data-category` attributes alongside (None when the attribute is absent,
 * as `getAttribute` then gives null).
 */
module Portfolio {
  import opened Wrappers

  /** An item's `style.display`: never set, `block` or `none`. */
  datatype Display = Unset | Block | Hidden

  /** The handler's condition for showing an item: the `all` button shows
      every item, any other button exactly the items whose category equals
      its filter value. Two absent attributes
      compare equal (null === null), so an item without a category is shown
      by a button without a filter value. */
  predicate Shows(filter: Option<string>, category: Option<string>) {
    filter == Some("all") || category == filter
  }

  /** A click on button `clicked`: every button loses `active`, the clicked
      one gains it, and each item is shown or hidden by the clicked button's
      filter value. */
  method FilterClick(filters: seq<Option<string>>, active: array<bool>,
                     categories: seq<Option<string>>, display: array<Display>, clicked: nat)
    requires active.Length == |filters| && display.Length == |categories|
    requires clicked < |filters|
    modifies active, display
    ensures forall b :: 0 <= b < active.Length ==> active[b] == (b == clicked)
    ensures forall k :: 0 <= k < display.Length ==>
      display[k] == (if Shows(filters[clicked], categories[k]) then Block else Hidden)
  {
    for b := 0 to active.Length
      invariant forall c :: 0 <= c < b ==> !active[c]
    {
      active[b] := false;
    }
    active[clicked] := true;
    var filterValue := filters[clicked];
    for k := 0 to display.Length
      invariant forall c :: 0 <= c < active.Length ==> active[c] == (c == clicked)
      invariant forall j :: 0 <= j < k ==>
        display[j] == (if Shows(filterValue, categories[j]) then Block else Hidden)
    {
      if filterValue == Some("all") || categories[k] == filterValue {
        display[k] := Block;
      } else {
        display[k] := Hidden;
      }
    }
  }

  /** The number of set flags. */
  function CountActive(flags: seq<bool>): nat {
    if flags == [] then 0 else (if flags[0] then 1 else 0) + CountActive(flags[1..])
  }

  /** After a click exactly one button is active. */
  lemma {:induction false} ExactlyOneActive(flags: seq<bool>, clicked: nat)
    requires clicked < |flags|
    requires forall b :: 0 <= b < |flags| ==> flags[b] == (b == clicked)
    ensures CountActive(flags) == 1
  {
    if clicked == 0 {
      NoneActive(flags[1..]);
    } else {
      ExactlyOneActive(flags[1..], clicked - 1);
    }
  }

  lemma {:induction false} NoneActive(flags: seq<bool>)
    requires forall b :: 0 <= b < |flags| ==> !flags[b]
    ensures CountActive(flags) == 0
  {
    if flags != [] {
      NoneActive(flags[1..]);
    }
  }

  /** The number of items a click shows: all of them under `all`, and under
      any other filter value the number of items carrying that category. */
  function CountShown(filter: Option<string>, categories: seq<Option<string>>): nat {
    if categories == [] then 0
    else (if Shows(filter, categories[0]) then 1 else 0) + CountShown(filter, categories[1..])
  }

  lemma {:induction false} AllShowsEverything(categories: seq<Option<string>>)
    ensures CountShown(Some("all"), categories) == |categories|
  {
    if categories != [] {
      AllShowsEverything(categories[1..]);
    }
  }

  lemma {:induction false} FilterShowsItsCategory(filter: Option<string>,
      categories: seq<Option<string>>)
    requires filter != Some("all")
    ensures CountShown(filter, categories) == multiset(categories)[filter]
  {
    if categories != [] {
      FilterShowsItsCategory(filter, categories[1..]);
      assert categories == [categories[0]] + categories[1..];
      assert multiset(categories) == multiset{categories[0]} + multiset(categories[1..]);
    }
  }
}
