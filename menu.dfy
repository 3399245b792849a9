/**
 * The pure logic of the restaurant menu's presenter (`MenuManager` in
 * js/menu.js): the label-to-category table, the tag-to-class table, the
 * catalog held after loading, which items a category shows, the card built
 * for each item, and the one display a render produces.
 */
module Menu {
  import opened Wrappers
  import opened JsText

  // ---------------------------------------------------------------------------
  // Catalog
  // ---------------------------------------------------------------------------

  /**
   * One record of data/menu.json. The fields keep the file's names:
   * `nome` (name), `descricao` (description), `preco` (price, held here as
   * whole centavos), `imagem` (image path) and `tags`.
   */
  datatype Item = Item(id: int, nome: string, descricao: string, preco: nat, imagem: string, tags: seq<string>)

  /** The parsed catalog object: its categories in insertion order, each with its list of items. */
  type Catalog = seq<(string, seq<Item>)>

  /** A JavaScript object holds each key once. */
  predicate DistinctKeys(c: Catalog) {
    forall i, j :: 0 <= i < j < |c| ==> c[i].0 != c[j].0
  }

  /** The pseudo-category meaning "every category". */
  const AllKey := "todos"

  /** `menuData[key]`: the list stored under `key`, if there is one. */
  function Lookup(c: Catalog, key: string): Option<seq<Item>> {
    if c == [] then None
    else if c[0].0 == key then Some(c[0].1)
    else Lookup(c[1..], key)
  }

  /** The concatenation of every category's list, in catalog order (the fold over `Object.values`). */
  function AllItems(c: Catalog): seq<Item> {
    if c == [] then [] else AllItems(c[..|c| - 1]) + c[|c| - 1].1
  }

  /** The sum of the per-category counts. */
  function TotalCount(c: Catalog): nat {
    if c == [] then 0 else |c[0].1| + TotalCount(c[1..])
  }

  /** The items `renderMenu(category)` shows once a catalog is held. */
  function Selection(c: Catalog, category: string): seq<Item> {
    if category == AllKey then AllItems(c) else Lookup(c, category).GetOr([])
  }

  lemma {:induction false} LookupFinds(c: Catalog, key: string, j: int)
    requires DistinctKeys(c) && 0 <= j < |c| && c[j].0 == key
    ensures Lookup(c, key) == Some(c[j].1)
  {
    if j > 0 {
      assert c[0].0 != key;
      assert DistinctKeys(c[1..]) by {
        forall a, b | 0 <= a < b < |c| - 1 ensures c[1..][a].0 != c[1..][b].0 {
          assert c[1..][a] == c[a + 1] && c[1..][b] == c[b + 1];
        }
      }
      LookupFinds(c[1..], key, j - 1);
    }
  }

  /** A key has no list exactly when no category of the catalog carries it. */
  lemma {:induction false} LookupMisses(c: Catalog, key: string)
    ensures Lookup(c, key).None? <==> forall j :: 0 <= j < |c| ==> c[j].0 != key
  {
    if c != [] {
      LookupMisses(c[1..], key);
      assert forall j :: 1 <= j < |c| ==> c[j] == c[1..][j - 1];
    }
  }

  lemma {:induction false} TotalCountSnoc(c: Catalog)
    requires c != []
    ensures TotalCount(c) == TotalCount(c[..|c| - 1]) + |c[|c| - 1].1|
  {
    if |c| > 1 {
      assert c[1..][..|c| - 2] == c[..|c| - 1][1..];
      TotalCountSnoc(c[1..]);
    }
  }

  /** "todos" shows as many items as all categories hold together. */
  lemma {:induction false} AllItemsCount(c: Catalog)
    ensures |AllItems(c)| == TotalCount(c)
  {
    if c != [] {
      AllItemsCount(c[..|c| - 1]);
      TotalCountSnoc(c);
    }
  }

  lemma {:induction false} AllItemsAppend(a: Catalog, b: Catalog)
    ensures AllItems(a + b) == AllItems(a) + AllItems(b)
  {
    if b != [] {
      assert (a + b)[..|a + b| - 1] == a + b[..|b| - 1];
      assert (a + b)[|a + b| - 1] == b[|b| - 1];
      AllItemsAppend(a, b[..|b| - 1]);
    } else {
      assert a + b == a;
    }
  }

  /**
   * Within the "todos" list, category `j`'s items appear whole, in their
   * own order, right after the items of the categories before it.
   */
  lemma AllItemsPlacesCategory(c: Catalog, j: int)
    requires 0 <= j < |c|
    ensures TotalCount(c[..j]) + |c[j].1| <= |AllItems(c)|
    ensures AllItems(c)[TotalCount(c[..j])..TotalCount(c[..j]) + |c[j].1|] == c[j].1
  {
    assert c == c[..j] + ([c[j]] + c[j + 1..]);
    AllItemsAppend(c[..j], [c[j]] + c[j + 1..]);
    AllItemsAppend([c[j]], c[j + 1..]);
    assert AllItems([c[j]]) == c[j].1 by {
      assert [c[j]][..0] == [];
    }
    AllItemsCount(c[..j]);
  }

  // ---------------------------------------------------------------------------
  // Label -> category key (getCategoryFromText)
  // ---------------------------------------------------------------------------

  /** The navigation labels and the category keys they select. */
  const CategoryMap: map<string, string> := map[
    "Todos" := "todos",
    "Cappuccinos" := "cappuccinos",
    "Espressos" := "espressos",
    "Chocolate Quente" := "chocolate-quente",
    "Bebidas Geladas" := "bebidas-geladas",
    "Pratos Principais" := "pratos-principais",
    "Sobremesas" := "sobremesas"
  ]

  /** The seven keys a label can resolve to. */
  const CategoryKeys: set<string> :=
    {"todos", "cappuccinos", "espressos", "chocolate-quente", "bebidas-geladas",
     "pratos-principais", "sobremesas"}

  /** `getCategoryFromText(text)`: the label's key, or "todos" for a label the table lacks. */
  function CategoryFromText(text: string): (key: string)
    ensures key in CategoryKeys
  {
    if text in CategoryMap then CategoryMap[text] else AllKey
  }

  /** Each of the seven labels resolves to its own key. */
  lemma KnownLabels()
    ensures CategoryFromText("Todos") == "todos"
    ensures CategoryFromText("Cappuccinos") == "cappuccinos"
    ensures CategoryFromText("Espressos") == "espressos"
    ensures CategoryFromText("Chocolate Quente") == "chocolate-quente"
    ensures CategoryFromText("Bebidas Geladas") == "bebidas-geladas"
    ensures CategoryFromText("Pratos Principais") == "pratos-principais"
    ensures CategoryFromText("Sobremesas") == "sobremesas"
  {
  }

  /** A label resolves to "todos" exactly when it is "Todos" or not in the table. */
  lemma ResolvesToAll(text: string)
    ensures CategoryFromText(text) == AllKey <==> text == "Todos" || text !in CategoryMap
  {
  }

  /** Different labels of the table select different categories. */
  lemma CategoryMapInjective(a: string, b: string)
    requires a in CategoryMap && b in CategoryMap && a != b
    ensures CategoryFromText(a) != CategoryFromText(b)
  {
  }

  // ---------------------------------------------------------------------------
  // Tag -> badge class (getTagClass, createTag)
  // ---------------------------------------------------------------------------

  const TagClassMap: map<string, string> := map[
    "Pratos Principais" := "tag-pratos-principais",
    "Sobremesas" := "tag-sobremesas",
    "Bebidas" := "tag-bebidas",
    "Cappuccinos" := "tag-cappuccinos",
    "Espressos" := "tag-espressos",
    "Chocolate Quente" := "tag-chocolate",
    "Bebidas Geladas" := "tag-bebidas-geladas"
  ]

  const DefaultTagClass := "tag-default"

  /** The classes a badge can carry besides the default. */
  const TagClasses: set<string> :=
    {"tag-pratos-principais", "tag-sobremesas", "tag-bebidas", "tag-cappuccinos",
     "tag-espressos", "tag-chocolate", "tag-bebidas-geladas"}

  /** `getTagClass(tag)`: the tag's class, or the default class for a tag the table lacks. */
  function TagClass(tag: string): (cls: string)
    ensures cls in TagClasses || cls == DefaultTagClass
  {
    if tag in TagClassMap then TagClassMap[tag] else DefaultTagClass
  }

  /** Each of the seven known tags gets its own class. */
  lemma KnownTagClasses()
    ensures TagClass("Pratos Principais") == "tag-pratos-principais"
    ensures TagClass("Sobremesas") == "tag-sobremesas"
    ensures TagClass("Bebidas") == "tag-bebidas"
    ensures TagClass("Cappuccinos") == "tag-cappuccinos"
    ensures TagClass("Espressos") == "tag-espressos"
    ensures TagClass("Chocolate Quente") == "tag-chocolate"
    ensures TagClass("Bebidas Geladas") == "tag-bebidas-geladas"
  {
  }

  /** A tag gets the default class exactly when the table lacks it. */
  lemma DefaultClassExactlyForUnknownTags(tag: string)
    ensures TagClass(tag) == DefaultTagClass <==> tag !in TagClassMap
  {
  }

  /** A badge: the `tag` span with its class and the tag's text. */
  datatype Badge = Badge(cssClass: string, text: string)

  /** `createTag(tag)`. */
  function CreateTag(tag: string): Badge {
    Badge(TagClass(tag), tag)
  }

  /** `tags.map(createTag)`. */
  function TagBadges(tags: seq<string>): seq<Badge> {
    seq(|tags|, k requires 0 <= k < |tags| => CreateTag(tags[k]))
  }

  /** The texts the badges display, in order. */
  function BadgeTexts(badges: seq<Badge>): seq<string> {
    seq(|badges|, k requires 0 <= k < |badges| => badges[k].text)
  }

  /** One badge per tag, in tag order, each showing its tag with that tag's class. */
  lemma BadgesShowTags(tags: seq<string>)
    ensures |TagBadges(tags)| == |tags|
    ensures BadgeTexts(TagBadges(tags)) == tags
    ensures forall k :: 0 <= k < |tags| ==> TagBadges(tags)[k].cssClass == TagClass(tags[k])
  {
  }

  // ---------------------------------------------------------------------------
  // Cards (createMenuItemCard)
  // ---------------------------------------------------------------------------

  /** The currency symbol printed beside every price. */
  const PriceSymbol := "R$"

  /** One `menu-card`: the image, the title, the price, the description and the badges. */
  datatype Card = Card(
    imageSrc: string,
    imageAlt: string,
    title: string,
    priceSymbol: string,
    price: string,
    description: string,
    badges: seq<Badge>)

  /** `createMenuItemCard(item)`. */
  function CreateMenuItemCard(item: Item): Card {
    Card(item.imagem, item.nome, item.nome, PriceSymbol, PriceText(item.preco), item.descricao,
         TagBadges(item.tags))
  }

  /**
   * A card shows everything a customer sees of its item: the image and the
   * name, the price (which reads back as the same amount), the description,
   * and one badge per tag.
   */
  lemma CardShowsItem(item: Item)
    ensures var card := CreateMenuItemCard(item);
            card.imageSrc == item.imagem && card.imageAlt == item.nome && card.title == item.nome
            && card.priceSymbol == PriceSymbol && ParsePrice(card.price) == Some(item.preco)
            && card.description == item.descricao
            && BadgeTexts(card.badges) == item.tags
            && |card.badges| == |item.tags|
            && forall k :: 0 <= k < |item.tags| ==> card.badges[k].cssClass == TagClass(item.tags[k])
  {
    PriceRoundTrip(item.preco);
    BadgesShowTags(item.tags);
  }

  /** `items.map(createMenuItemCard)`. */
  function CardsOf(items: seq<Item>): seq<Card> {
    seq(|items|, k requires 0 <= k < |items| => CreateMenuItemCard(items[k]))
  }

  // ---------------------------------------------------------------------------
  // Display (renderMenu, showError)
  // ---------------------------------------------------------------------------

  /**
   * What the menu container shows. `Initial` is the markup the page was
   * served with, before the presenter first writes to it.
   */
  datatype Display =
    | Initial
    | Loading
    | EmptyState
    | ErrorPanel(message: string)
    | Grid(cards: seq<Card>)

  /** The display `renderMenu(category)` writes, given the held catalog (`None` before a load succeeds). */
  function Render(data: Option<Catalog>, category: string): (d: Display)
    ensures d.Loading? <==> data.None?
    ensures !d.ErrorPanel? && !d.Initial?
    ensures d.Grid? ==> d.cards != [] && data.Some? && |d.cards| == |Selection(data.value, category)|
  {
    match data
    case None => Loading
    case Some(c) =>
      var items := Selection(c, category);
      if items == [] then EmptyState else Grid(CardsOf(items))
  }

  /** Mapping items to cards commutes with taking a slice. */
  lemma CardsOfSlice(items: seq<Item>, lo: int, hi: int)
    requires 0 <= lo <= hi <= |items|
    ensures CardsOf(items)[lo..hi] == CardsOf(items[lo..hi])
  {
  }

  /**
   * "todos" shows the empty-state panel when no category holds an item, and
   * otherwise one card per item of every category: as many cards as the
   * per-category counts add up to, with category `j`'s cards forming one
   * block, in its own order, right after those of the categories before it.
   */
  lemma RenderAll(c: Catalog)
    ensures var d := Render(Some(c), AllKey);
            (TotalCount(c) == 0 ==> d == EmptyState)
            && (TotalCount(c) > 0 ==>
                  d.Grid? && |d.cards| == TotalCount(c)
                  && forall j :: 0 <= j < |c| ==>
                       TotalCount(c[..j]) + |c[j].1| <= |d.cards|
                       && d.cards[TotalCount(c[..j])..TotalCount(c[..j]) + |c[j].1|] == CardsOf(c[j].1))
  {
    AllItemsCount(c);
    var items := AllItems(c);
    forall j | 0 <= j < |c|
      ensures TotalCount(c[..j]) + |c[j].1| <= |items|
      ensures CardsOf(items)[TotalCount(c[..j])..TotalCount(c[..j]) + |c[j].1|] == CardsOf(c[j].1)
    {
      AllItemsPlacesCategory(c, j);
      CardsOfSlice(items, TotalCount(c[..j]), TotalCount(c[..j]) + |c[j].1|);
    }
  }

  /**
   * A category of the catalog shows exactly its own list, card for item in
   * the same order, or the empty-state panel when that list is empty.
   */
  lemma RenderCategory(c: Catalog, j: int)
    requires DistinctKeys(c) && 0 <= j < |c| && c[j].0 != AllKey
    ensures var d := Render(Some(c), c[j].0);
            (c[j].1 == [] ==> d == EmptyState)
            && (c[j].1 != [] ==>
                  d.Grid? && |d.cards| == |c[j].1|
                  && forall k :: 0 <= k < |c[j].1| ==> d.cards[k] == CreateMenuItemCard(c[j].1[k]))
  {
    LookupFinds(c, c[j].0, j);
  }

  /** A key that is neither "todos" nor in the catalog shows the empty-state panel, never a grid. */
  lemma RenderUnknownKey(c: Catalog, key: string)
    requires key != AllKey && forall j :: 0 <= j < |c| ==> c[j].0 != key
    ensures Render(Some(c), key) == EmptyState
  {
    LookupMisses(c, key);
  }

  /** Choosing a label the table lacks displays what choosing "Todos" displays. */
  lemma UnknownLabelShowsAll(data: Option<Catalog>, text: string)
    requires text !in CategoryMap
    ensures Render(data, CategoryFromText(text)) == Render(data, CategoryFromText("Todos"))
  {
  }

  // ---------------------------------------------------------------------------
  // The selection loop of renderMenu
  // ---------------------------------------------------------------------------

  /** Builds `itemsToShow` as `renderMenu` does: for "todos" by appending each category's list in turn. */
  method ItemsToShow(c: Catalog, category: string) returns (items: seq<Item>)
    ensures items == Selection(c, category)
  {
    items := [];
    if category == AllKey {
      for j := 0 to |c|
        invariant items == AllItems(c[..j])
      {
        assert c[..j + 1][..j] == c[..j];
        items := items + c[j].1;
      }
      assert c[..|c|] == c;
    } else {
      items := Lookup(c, category).GetOr([]);
    }
  }
}
