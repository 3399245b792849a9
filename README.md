# Restaurant menu presenter: a Dafny model

This project models `MenuManager`, the client-side presenter of a café's menu
page. On start-up the presenter fetches a catalog of menu items grouped by
category. It keeps the catalog in memory and renders the "todos" (all
categories) view into the menu container. Each click on a navigation link
marks the link's list item as active and clears the mark from every other
link's list item. It then resolves the link's label to a category key and
re-renders the container from the held catalog.

Files:

- `wrappers.dfy`: `Option`, the value read where something may be missing.
- `js_text.dfy` (module `JsText`): the JavaScript built-ins the presenter
  relies on. These are `String.prototype.trim` and the price text
  `preco.toFixed(2).replace('.', ',')`, with a parser that reads the text back.
- `menu.dfy` (module `Menu`): the pure part of the presenter. It holds the
  label→key and tag→class tables, the catalog and the items a category
  selects, the cards and tag badges, and `Render`, the one display a render
  produces. It also holds `ItemsToShow`, the loop that builds the list of
  items to show.
- `presenter.dfy` (module `Presenter`): the class `MenuManager`. Its fields
  are `menuData`, `currentCategory`, the container's `display`, whether the
  click handlers are attached, and one `active` flag per navigation link. The
  flags start as the page was served; only a click changes them.

The container's content is a datatype, not HTML. It is one of: `Initial`
(the markup the page was served with), `Loading`, `EmptyState`,
`ErrorPanel(message)`, or `Grid(cards)`. The catalog is a sequence of
`(key, items)` pairs in insertion order, which is the order `Object.values`
visits them in. Prices are whole centavos.

Three points where the code's behaviour is easy to misread:

- A failed load shows the error panel. `init` then renders "todos" at once.
  With no catalog held, that render shows the loading placeholder. So the
  display after a failed start-up is `Loading`, not the error panel (the
  constructor's contract states this).
- There is no embedded fallback catalog. Nothing in the code substitutes one.
- A category key missing from the catalog is not an error. It selects an
  empty list and shows the empty-state panel.

## Model

| member | source | states |
|---|---|---|
| `Menu.CategoryFromText` | js/menu.js:52-64 | the key a label resolves to is always one of the seven category keys |
| `Menu.KnownLabels` | js/menu.js:53-61 | each of the seven navigation labels resolves to its own key |
| `Menu.ResolvesToAll` | js/menu.js:52-64 | a label resolves to "todos" exactly when it is "Todos" or not in the table (both directions) |
| `Menu.CategoryMapInjective` | js/menu.js:53-61 | two different labels of the table select two different categories |
| `Menu.UnknownLabelShowsAll` | js/menu.js:45-47 | choosing a label the table lacks displays exactly what choosing "Todos" displays |
| `Menu.TagClass` | js/menu.js:128-140 | a badge's class is one of the seven table classes or "tag-default" |
| `Menu.KnownTagClasses` | js/menu.js:129-137 | each of the seven known tags gets its own mapped class |
| `Menu.DefaultClassExactlyForUnknownTags` | js/menu.js:128-140 | a tag gets "tag-default" exactly when the table lacks it (both directions) |
| `Menu.BadgesShowTags` | js/menu.js:116-126 | an item gets one badge per tag, in tag order; badge k shows tag k, with that tag's class |
| `Menu.CardShowsItem` | js/menu.js:101-121 | a card shows its item's image, name, description and tags (one badge each, with the tag's class), and a price text that reads back as the item's exact price |
| `Menu.LookupFinds` | js/menu.js:81 | in a catalog with distinct keys, looking up a category's key yields that category's list |
| `Menu.LookupMisses` | js/menu.js:81 | looking up a key yields nothing exactly when no category carries that key (both directions) |
| `Menu.AllItemsCount` | js/menu.js:76-79 | the "todos" list is as long as the per-category counts added up |
| `Menu.AllItemsPlacesCategory` | js/menu.js:76-79 | in the "todos" list, each category's items appear whole and in order, right after the items of the categories before it |
| `Menu.ItemsToShow` | js/menu.js:74-82 | the loop that appends each category's list in turn builds exactly the selection: the concatenation of all lists for "todos", otherwise the key's list or the empty list |
| `Menu.Render` | js/menu.js:66-98 | the loading placeholder is shown exactly when no catalog is held; a render never shows the error panel; a grid has one card per selected item and is never empty |
| `Menu.RenderAll` | js/menu.js:76-98 | "todos" shows the empty-state panel when every category is empty; otherwise it shows a grid with one card per item of every category, each category's cards forming one block in its own order, in catalog order |
| `Menu.RenderCategory` | js/menu.js:80-98 | a category of the catalog shows exactly its own list, card k for item k, or the empty-state panel if that list is empty |
| `Menu.RenderUnknownKey` | js/menu.js:80-92 | a key that is neither "todos" nor in the catalog shows the empty-state panel, never a grid |
| `JsText.TrimWith` | js/menu.js:45 | the trimmed label is the input with a maximal run of white space removed from each end; the result neither starts nor ends with white space |
| `JsText.TrimIdempotent` | js/menu.js:45 | trimming an already trimmed label changes nothing |
| `JsText.PriceTextShape` | js/menu.js:111 | the price text is the reais in decimal without leading zeros, a comma, and exactly two centavo digits |
| `JsText.PriceRoundTrip` | js/menu.js:111 | the price text reads back as exactly the item's price |
| `JsText.PriceExamples` | js/menu.js:111 | 22.90 is shown as "22,90" and 5.00 as "5,00" |
| `Presenter.MenuManager.constructor` | js/menu.js:3-13 | after start-up the catalog is the loaded one (or none after a failure), "todos" is selected, every link's `active` flag is as the page was served, and the display is the "todos" render, which is the loading placeholder after a failed load |
| `Presenter.MenuManager.Init` | js/menu.js:9-13 | load, attach the handlers, then display the "todos" render of whatever catalog the load left |
| `Presenter.MenuManager.LoadMenuData` | js/menu.js:15-28 | a successful load stores the catalog and leaves the display alone; a failed one leaves the catalog unset and shows the error panel with the fixed message |
| `Presenter.MenuManager.SetupEventListeners` | js/menu.js:30-50 | after it, clicks on the navigation links are handled |
| `Presenter.MenuManager.ShowError` | js/menu.js:142-150 | the container shows the error panel with the given message |
| `Presenter.MenuManager.RenderMenu` | js/menu.js:66-98 | the display becomes `Render` of the held catalog and the category; nothing else changes, so rendering again gives the same display |
| `Presenter.MenuManager.Click` | js/menu.js:34-48 | after a click exactly one link is active, the clicked one; the selected category is the resolution of its trimmed label; the display is that category's render; the catalog is unchanged |

`Presenter.MenuManager.Valid` is kept by every transition. It says that
there is one flag per link and that the held catalog has distinct keys.
Before the first click any number of links may carry the mark, as served;
after any click exactly one does. The
catalog is written only by `LoadMenuData`, which only `Init` calls, and
`Init` requires that no catalog is held yet. So the catalog is set at most
once.

## Left out

- Fetching `../data/menu.json`, the HTTP status check and `response.json()`. A load is given to the constructor as its outcome: a catalog or a failure. A body that parses to something other than an object of item lists (an array, `null`, a number) is not modelled.
- `console.error` logging of a failed load: it has no effect the page shows.
- The DOM wiring: `querySelectorAll`, `addEventListener`, `preventDefault` and the `DOMContentLoaded` bootstrap. The links are given as their labels, and a click as the index of the clicked link.
- The asynchrony of `init`. Its only await is treated as sequential, so no click can arrive before the handlers are attached (`Click` requires `listening`).
- Floating-point prices. `preco` is held as exact centavos, so neither the rounding of `toFixed(2)` nor its exponent form for huge values nor negative prices are modelled.
- The image `onerror` placeholder, the injected CSS block, and the literal HTML markup. Values are interpolated into the markup unescaped, and the model does not capture what markup characters in a name or tag would do.
- JavaScript prototype-chain lookups in the two tables (a label such as "constructor"). Both tables are finite maps.
- The ordering `Object.values` gives integer-like keys (ascending, before all other keys). The catalog's categories are visited in insertion order.
- Duplicate keys. A parsed JavaScript object holds each key once, so the held catalog is required to have distinct keys.
- Items whose fields are missing or of the wrong type. The code would throw inside `renderMenu`: `item.tags.map` on an item without `tags`, `item.preco.toFixed` on a missing or non-numeric price. A click has by then already moved the `active` mark and `currentCategory`, and the container keeps its old content. Every modelled item carries a (possibly empty) tag list and a price.
- Two links under one list item. The `active` class is set on each link's parent element, so such links would share one mark. Each link is assumed to have its own list item, which gets its own flag.
