/**
 * The category bar (src/components/CategoryNav.tsx): one button per
 * distinct category, the selected one highlighted, all of them disabled
 * when no change handler is given.
 */
module CategoryNav {
  import opened Wrappers
  import opened Lists

  const AllLabel := "All"

  /** `ALL_CATEGORIES`: "All" followed by the configured article
      categories. */
  function AllCategories(articleCategories: seq<string>): (r: seq<string>)
    ensures |r| == |articleCategories| + 1
    ensures r[0] == AllLabel && r[1..] == articleCategories
  {
    [AllLabel] + articleCategories
  }

  /** The list the bar starts from: the supplied categories when there are
      any, `ALL_CATEGORIES` otherwise. */
  function SourceList(categories: Option<seq<string>>, articleCategories: seq<string>): (r: seq<string>)
    ensures r != []
    ensures categories.Some? && categories.value != [] ==> r == categories.value
    ensures categories.None? || categories.value == [] ==> r == AllCategories(articleCategories)
  {
    if categories.Some? && |categories.value| > 0 then categories.value
    else AllCategories(articleCategories)
  }

  /** `items`: the first occurrence of each category of the source list,
      in order; the same categories, none twice. */
  function Items(categories: Option<seq<string>>, articleCategories: seq<string>): (items: seq<string>)
    ensures Distinct(items) && items != []
    ensures forall c :: c in items <==> c in SourceList(categories, articleCategories)
  {
    var src := SourceList(categories, articleCategories);
    assert src[0] in Dedup(src);
    Dedup(src)
  }

  /** The order is that of first appearance: a category that appears again
      later adds no button, a new one adds a button at the end. */
  lemma ItemsFirstOccurrence(list: seq<string>, c: string, articleCategories: seq<string>)
    requires list != []
    ensures Items(Some(list + [c]), articleCategories)
         == if c in list then Items(Some(list), articleCategories)
            else Items(Some(list), articleCategories) + [c]
  {
    DedupSnoc(list, c);
  }

  /** A list without repeats is shown as it is. */
  lemma ItemsOfDistinct(list: seq<string>, articleCategories: seq<string>)
    requires list != [] && Distinct(list)
    ensures Items(Some(list), articleCategories) == list
  {
    DedupOfDistinct(list);
  }

  /** One button of the bar. */
  datatype Button = Button(category: string, selected: bool, disabled: bool)

  /** `selectedCategory`, defaulting to "All" when not given. */
  function Selected(selectedCategory: Option<string>): (s: string)
    ensures selectedCategory.None? ==> s == AllLabel
    ensures selectedCategory.Some? ==> s == selectedCategory.value
  {
    match selectedCategory
    case None => AllLabel
    case Some(c) => c
  }

  function MakeButton(category: string, selectedCategory: Option<string>, hasHandler: bool): Button {
    Button(category, Selected(selectedCategory) == category, !hasHandler)
  }

  /** The rendered bar. */
  function Buttons(categories: Option<seq<string>>, articleCategories: seq<string>,
                   selectedCategory: Option<string>, hasHandler: bool): (bs: seq<Button>)
    ensures |bs| == |Items(categories, articleCategories)|
    ensures forall i :: 0 <= i < |bs| ==> bs[i].category == Items(categories, articleCategories)[i]
    ensures forall i :: 0 <= i < |bs| ==> (bs[i].selected <==> bs[i].category == Selected(selectedCategory))
    ensures forall i :: 0 <= i < |bs| ==> (bs[i].disabled <==> !hasHandler)
  {
    var items := Items(categories, articleCategories);
    seq(|items|, i requires 0 <= i < |items| => MakeButton(items[i], selectedCategory, hasHandler))
  }

  /** At most one button is highlighted, and one is exactly when the
      selected category is among the items. */
  lemma AtMostOneSelected(categories: Option<seq<string>>, articleCategories: seq<string>,
                          selectedCategory: Option<string>, hasHandler: bool)
    ensures var bs := Buttons(categories, articleCategories, selectedCategory, hasHandler);
      && (forall i, j :: 0 <= i < j < |bs| ==> !(bs[i].selected && bs[j].selected))
      && ((exists i :: 0 <= i < |bs| && bs[i].selected) <==> Selected(selectedCategory) in Items(categories, articleCategories))
  {
    var items := Items(categories, articleCategories);
    var bs := Buttons(categories, articleCategories, selectedCategory, hasHandler);
    if Selected(selectedCategory) in items {
      var k :| 0 <= k < |items| && items[k] == Selected(selectedCategory);
      assert bs[k].selected;
    }
  }

  /** A click calls the handler with the button's category; without a
      handler the button is disabled and nothing happens. */
  function Click(b: Button, onCategoryChange: bool): (called: Option<string>)
    ensures called.Some? <==> !b.disabled && onCategoryChange
    ensures called.Some? ==> called.value == b.category
  {
    if onCategoryChange && !b.disabled then Some(b.category) else None
  }
}
