/**
 * The menu presenter's state and its transitions: `MenuManager` of
 * js/menu.js. The one fetch of the catalog is given to the constructor as
 * its outcome; each navigation link is given as its label and whether the
 * page was served with its list item marked `active`. The `active` class
 * on each link's list item is one flag of an array.
 */
module Presenter {
  import opened Wrappers
  import opened JsText
  import opened Menu

  /** What the single fetch of data/menu.json produced. */
  datatype LoadOutcome =
    | Loaded(catalog: Catalog)
    | Failed(reason: string)   // network error, non-success HTTP status, or a body that is not JSON

  /** The message `loadMenuData` shows when the fetch fails. */
  const LoadErrorMessage := "Não foi possível carregar o cardápio. Tente novamente mais tarde."

  class MenuManager {
    /** The catalog, once a load has succeeded. */
    var menuData: Option<Catalog>
    var currentCategory: string
    /** What the `menu-container` element shows. */
    var display: Display
    /** Whether `setupEventListeners` has attached the click handlers. */
    var listening: bool
    /** The text of each navigation link, in document order (trimmed when a click reads it). */
    const navLabels: seq<string>
    /** Whether each navigation link's list item carries the `active` class. */
    const active: array<bool>

    ghost predicate Valid()
      reads this
    {
      && active.Length == |navLabels|
      && (menuData.Some? ==> DistinctKeys(menuData.value))
    }

    /**
     * `new MenuManager()`: starts with no catalog and "todos" selected, then
     * runs `init` to the end (the fetch is its only await). Start-up does not
     * touch the `active` classes: they stay as the page was served.
     */
    constructor (links: seq<(string, bool)>, outcome: LoadOutcome)
      requires outcome.Loaded? ==> DistinctKeys(outcome.catalog)
      ensures Valid() && fresh(active) && listening
      ensures |navLabels| == |links| && currentCategory == AllKey
      ensures forall k :: 0 <= k < |links| ==> navLabels[k] == links[k].0 && active[k] == links[k].1
      ensures menuData == if outcome.Loaded? then Some(outcome.catalog) else None
      ensures display == Render(menuData, AllKey)
      ensures outcome.Failed? ==> display == Loading
    {
      navLabels := seq(|links|, k requires 0 <= k < |links| => links[k].0);
      active := new bool[|links|](k requires 0 <= k < |links| => links[k].1);
      menuData := None;
      currentCategory := AllKey;
      display := Initial;
      listening := false;
      new;
      Init(outcome);
    }

    /** `init`: load, attach the handlers, render "todos". */
    method Init(outcome: LoadOutcome)
      requires Valid() && menuData.None?
      requires outcome.Loaded? ==> DistinctKeys(outcome.catalog)
      modifies this
      ensures Valid() && listening
      ensures menuData == if outcome.Loaded? then Some(outcome.catalog) else None
      ensures display == Render(menuData, AllKey)
      ensures currentCategory == old(currentCategory)
      ensures forall k :: 0 <= k < active.Length ==> active[k] == old(active[k])
    {
      LoadMenuData(outcome);
      SetupEventListeners();
      RenderMenu(AllKey);
    }

    /**
     * `loadMenuData`: a successful fetch stores the catalog; a failed one
     * leaves the catalog as it was and shows the error panel.
     */
    method LoadMenuData(outcome: LoadOutcome)
      requires Valid()
      requires outcome.Loaded? ==> DistinctKeys(outcome.catalog)
      modifies this`menuData, this`display
      ensures Valid()
      ensures outcome.Loaded? ==> menuData == Some(outcome.catalog) && display == old(display)
      ensures outcome.Failed? ==> menuData == old(menuData) && display == ErrorPanel(LoadErrorMessage)
    {
      match outcome
      case Loaded(catalog) =>
        menuData := Some(catalog);
      case Failed(_) =>
        ShowError(LoadErrorMessage);
    }

    /** `setupEventListeners`: from now on a click on a navigation link runs `Click`. */
    method SetupEventListeners()
      modifies this`listening
      ensures listening
    {
      listening := true;
    }

    /** `showError(message)`: the container shows the error panel with `message`. */
    method ShowError(message: string)
      modifies this`display
      ensures display == ErrorPanel(message)
    {
      display := ErrorPanel(message);
    }

    /** `renderMenu(category)`: replaces the container's content and changes nothing else. */
    method RenderMenu(category: string)
      modifies this`display
      ensures display == Render(menuData, category)
    {
      if menuData.None? {
        display := Loading;
        return;
      }
      var items := ItemsToShow(menuData.value, category);
      if |items| == 0 {
        display := EmptyState;
        return;
      }
      display := Grid(CardsOf(items));
    }

    /**
     * The click handler of navigation link `i`: clears `active` from every
     * link, sets it on link `i`, selects the category its trimmed label
     * resolves to, and renders that category.
     */
    method Click(i: int)
      requires Valid() && listening && 0 <= i < active.Length
      modifies this`currentCategory, this`display, active
      ensures Valid() && listening
      ensures forall k :: 0 <= k < active.Length ==> active[k] == (k == i)
      ensures currentCategory == CategoryFromText(Trim(navLabels[i]))
      ensures display == Render(menuData, currentCategory)
      ensures menuData == old(menuData)
    {
      for k := 0 to active.Length
        invariant forall m :: 0 <= m < k ==> !active[m]
      {
        active[k] := false;
      }
      active[i] := true;
      var category := CategoryFromText(Trim(navLabels[i]));
      currentCategory := category;
      RenderMenu(category);
    }
  }
}
