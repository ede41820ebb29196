/** The portfolio tab filter: clicking a tab button makes it the only active
    button and hides every portfolio item not tagged with its category. */
module PortfolioTabs {
  import opened Values
  import opened Strings
  import opened Flags

  /** The filter rule: an item whose `data-categories` is `categories` is shown
      for button category `category` (`null` when the button has no
      `data-category`) iff the category is `all` or is one of the comma-split
      tags, compared exactly, without trimming. */
  predicate Shown(category: Option<string>, categories: string)
  {
    category == Some("all") || (category.Some? && category.value in Split(categories, ','))
  }

  /** Over an item tagged with a comma-joined list of tags, the rule shows
      exactly the items carrying the selected tag (or every item for `all`). */
  lemma ShownIffTagged(category: string, tags: seq<string>)
    requires |tags| >= 1
    requires forall t :: t in tags ==> ',' !in t
    ensures Shown(Some(category), Join(tags, ',')) <==> category == "all" || category in tags
  {
    SplitJoin(tags, ',');
  }

  /** A button without `data-category` shows nothing, and a category that
      itself contains a comma can only match through `all`. */
  lemma UnmatchableCategories(category: string, categories: string)
    ensures !Shown(None, categories)
    ensures ',' in category && category != "all" ==> !Shown(Some(category), categories)
  {
    SplitPiecesFree(categories, ',');
  }

  /** The index of the first item without `data-categories`: there
      `getAttribute` returns null, `.split` throws, and the loop is abandoned. */
  function FirstMissing(cats: seq<Option<string>>): (k: nat)
    ensures k <= |cats|
    ensures forall j :: 0 <= j < k ==> cats[j].Some?
    ensures k < |cats| ==> cats[k].None?
  {
    if cats == [] || cats[0].None? then 0 else 1 + FirstMissing(cats[1..])
  }

  /** The `hidden` flags after one run of the item loop. */
  function Filtered(hidden: seq<bool>, category: Option<string>, cats: seq<Option<string>>): (r: seq<bool>)
    requires |hidden| == |cats|
  {
    var stop := FirstMissing(cats);
    seq(|hidden|, j requires 0 <= j < |hidden| =>
      if j < stop then !Shown(category, cats[j].value) else hidden[j])
  }

  /** Selecting `all` shows every item when all of them are tagged. */
  lemma AllShowsEverything(hidden: seq<bool>, cats: seq<Option<string>>)
    requires |hidden| == |cats|
    requires forall j :: 0 <= j < |cats| ==> cats[j].Some?
    ensures forall j :: 0 <= j < |cats| ==> !Filtered(hidden, Some("all"), cats)[j]
  {
    assert FirstMissing(cats) == |cats|;
  }

  /** The first position of `x` in `s`, or `|s|`: `querySelector` in document order. */
  function FirstIndex(s: seq<Option<string>>, x: Option<string>): (k: nat)
    ensures k <= |s|
    ensures forall j :: 0 <= j < k ==> s[j] != x
    ensures k < |s| ==> s[k] == x
  {
    if s == [] || s[0] == x then 0 else 1 + FirstIndex(s[1..], x)
  }

  /** The elements `initPortfolioTabs` works on. */
  class PortfolioTabs {
    /** `data-category` of each `.tab-btn`. */
    const buttonCategories: seq<Option<string>>
    /** `data-categories` of each `.portfolio-item`. */
    const itemCategories: seq<Option<string>>
    /** The `active` class of each button. */
    const buttonActive: array<bool>
    /** The `hidden` class of each item. */
    const itemHidden: array<bool>

    ghost predicate Valid()
      reads this
    {
      && buttonActive != itemHidden
      && buttonActive.Length == |buttonCategories|
      && itemHidden.Length == |itemCategories|
    }

    /** `initPortfolioTabs`: with no buttons nothing happens; otherwise the
        first button whose `data-category` is `all`, if any, is clicked. */
    constructor Init(buttonCategories: seq<Option<string>>, itemCategories: seq<Option<string>>,
                     buttonActive: array<bool>, itemHidden: array<bool>)
      requires buttonActive != itemHidden
      requires buttonActive.Length == |buttonCategories|
      requires itemHidden.Length == |itemCategories|
      modifies buttonActive, itemHidden
      ensures Valid()
      ensures this.buttonCategories == buttonCategories && this.itemCategories == itemCategories
      ensures this.buttonActive == buttonActive && this.itemHidden == itemHidden
      ensures FirstIndex(buttonCategories, Some("all")) == |buttonCategories| ==>
        unchanged(buttonActive) && unchanged(itemHidden)
      ensures FirstIndex(buttonCategories, Some("all")) < |buttonCategories| ==>
        buttonActive[..] == OnlyAt(|buttonCategories|, FirstIndex(buttonCategories, Some("all"))) &&
        itemHidden[..] == Filtered(old(itemHidden[..]), Some("all"), itemCategories)
    {
      this.buttonCategories := buttonCategories;
      this.itemCategories := itemCategories;
      this.buttonActive := buttonActive;
      this.itemHidden := itemHidden;
      new;
      var all := FirstIndex(buttonCategories, Some("all"));
      if all < |buttonCategories| {
        var _ := Click(all);
      }
    }

    /** The click handler of button `b`. `completed` is false when an item
        without `data-categories` made the handler throw part-way. */
    method Click(b: nat) returns (completed: bool)
      requires Valid()
      requires b < |buttonCategories|
      modifies buttonActive, itemHidden
      ensures buttonActive[..] == OnlyAt(|buttonCategories|, b)
      ensures itemHidden[..] == Filtered(old(itemHidden[..]), buttonCategories[b], itemCategories)
      ensures completed <==> forall j :: 0 <= j < |itemCategories| ==> itemCategories[j].Some?
    {
      var category := buttonCategories[b];
      var i := 0;
      while i < buttonActive.Length
        invariant 0 <= i <= buttonActive.Length
        invariant forall k :: 0 <= k < i ==> !buttonActive[k]
        modifies buttonActive
      {
        buttonActive[i] := false;
        i := i + 1;
      }
      buttonActive[b] := true;
      ghost var before := itemHidden[..];
      var stop := FirstMissing(itemCategories);
      i := 0;
      completed := true;
      while i < itemHidden.Length
        invariant 0 <= i <= itemHidden.Length
        invariant i <= stop
        invariant forall k :: 0 <= k < i ==> itemHidden[k] == !Shown(category, itemCategories[k].value)
        invariant forall k :: i <= k < itemHidden.Length ==> itemHidden[k] == before[k]
        invariant buttonActive[..] == OnlyAt(|buttonCategories|, b)
        invariant completed
      {
        if itemCategories[i].None? {
          completed := false;
          break;
        }
        itemHidden[i] := !Shown(category, itemCategories[i].value);
        i := i + 1;
      }
      assert i == stop;
      assert itemHidden[..] == Filtered(before, category, itemCategories);
    }
  }
}
