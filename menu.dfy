/**
 * The Messenger "generic template" carousel that send_menu builds for one
 * catalog node: a fixed header card, one card per catalog product whose id
 * belongs to the node (in catalog order), and a fixed trailer card with the
 * category shortcuts.
 */
module Menu {
  import opened Common

  /** A postback button; every button the menu emits is of the postback type. */
  datatype Button = Button(title: string, payload: string)

  /** One element of the generic template. */
  datatype Card = Card(title: string, imageUrl: string, subtitle: string, buttons: seq<Button>)

  /**
   * The fields of a catalog product record that the menu reads: its id, its
   * name, the RUB price amount, the optional description and the file id of
   * its main image.
   */
  datatype Product = Product(id: string, name: string, amount: int, description: Option<string>, mainImage: string)

  const HeaderTitle: string := "Меню"
  const CartPayload: string := "CART"
  const PromotionPayload: string := "PROMOTION"
  const OrderPayload: string := "ORDER"

  /** The first card of every menu: branding and the cart / promotions / order actions. */
  const Header: Card := Card(
    HeaderTitle,
    "https://starburger-serg.store/images/logo-pizza.png",
    "Здесь вы можете выбрать один из товаров",
    [Button("Корзина", CartPayload), Button("Акции", PromotionPayload), Button("Сделать заказ", OrderPayload)])

  const SpecialNode: string := "07f5eb2c-815e-41c9-be78-a41b985dd430"
  const HeartyNode: string := "18557b54-9f75-4ce3-92e1-637c402100aa"
  const SpicyNode: string := "6111eb37-d408-40aa-a7d1-87cfbc17e044"

  /** The category shortcuts of the trailer card: label and catalog node id. */
  const Shortcuts: seq<Button> := [Button("Особые", SpecialNode), Button("Сытные", HeartyNode), Button("Острые", SpicyNode)]

  /** The last card of every menu: "browse another category". */
  const Trailer: Card := Card(
    "Не нашли нужную пиццу?",
    "https://starburger-serg.store/images/finaly-pizza.jpg",
    "Остальные можно посмотреть в одной из категорий",
    Shortcuts)

  const AddToCart: string := "Добавить в корзину"

  // ---------------------------------------------------------------------------
  // Decimal rendering of the price amount (Python's str of an int)
  // ---------------------------------------------------------------------------

  function DigitChar(d: nat): (c: char)
    requires d < 10
    ensures '0' <= c <= '9'
  {
    ('0' as int + d) as char
  }

  function DigitValue(c: char): nat
  {
    if '0' <= c <= '9' then c as int - '0' as int else 0
  }

  /** The decimal digits of n, most significant first, without leading zeros. */
  function Digits(n: nat): (s: string)
    ensures |s| >= 1
    decreases n
  {
    if n < 10 then [DigitChar(n)] else Digits(n / 10) + [DigitChar(n % 10)]
  }

  /** How Python prints an int: an optional minus sign, then the digits. */
  function Decimal(n: int): string
  {
    if n < 0 then "-" + Digits(-n) else Digits(n)
  }

  function ParseDigits(s: string): nat
    decreases |s|
  {
    if s == [] then 0 else ParseDigits(s[..|s| - 1]) * 10 + DigitValue(s[|s| - 1])
  }

  function ParseDecimal(s: string): int
  {
    if |s| > 0 && s[0] == '-' then -(ParseDigits(s[1..]) as int) else ParseDigits(s)
  }

  lemma {:induction false} DigitsRoundTrip(n: nat)
    ensures ParseDigits(Digits(n)) == n
    ensures forall k :: 0 <= k < |Digits(n)| ==> '0' <= Digits(n)[k] <= '9'
    decreases n
  {
    if n >= 10 {
      DigitsRoundTrip(n / 10);
      var s := Digits(n);
      assert s[..|s| - 1] == Digits(n / 10);
    }
  }

  /** The amount printed in a product title reads back as the same amount. */
  lemma DecimalRoundTrip(n: int)
    ensures ParseDecimal(Decimal(n)) == n
  {
    if n < 0 {
      DigitsRoundTrip(-n);
      assert Decimal(n)[1..] == Digits(-n);
    } else {
      DigitsRoundTrip(n);
    }
  }

  // ---------------------------------------------------------------------------
  // Product cards
  // ---------------------------------------------------------------------------

  /** "<name> (<amount> р.)" */
  function ProductTitle(p: Product): string
  {
    p.name + " (" + Decimal(p.amount) + " р.)"
  }

  /** The description, or the empty string when the record has none. */
  function Subtitle(p: Product): string
  {
    match p.description
    case Some(d) => d
    case None => ""
  }

  /** The card of one product, given the URL its main image resolved to. */
  function ProductCard(p: Product, url: string): Card
  {
    Card(ProductTitle(p), url, Subtitle(p), [Button(AddToCart, p.id)])
  }

  /** How many products of the list belong to the node. */
  function CountMembers(ps: seq<Product>, ids: seq<string>): nat
    decreases |ps|
  {
    if ps == [] then 0
    else CountMembers(ps[..|ps| - 1], ids) + (if ps[|ps| - 1].id in ids then 1 else 0)
  }

  /** Every product of the node has an image that resolves. */
  ghost predicate ImagesResolve(ps: seq<Product>, ids: seq<string>, resolve: string -> Option<string>)
  {
    forall i :: 0 <= i < |ps| && ps[i].id in ids ==> resolve(ps[i].mainImage).Some?
  }

  /**
   * The cards of the products of the node, in catalog order; None when an
   * image lookup fails (the lookup raises and no menu is sent).
   */
  function ProductCards(ps: seq<Product>, ids: seq<string>, resolve: string -> Option<string>): Option<seq<Card>>
    decreases |ps|
  {
    if ps == [] then Some([])
    else
      var p := ps[|ps| - 1];
      match ProductCards(ps[..|ps| - 1], ids, resolve)
      case None => None
      case Some(cards) =>
        if p.id !in ids then Some(cards)
        else match resolve(p.mainImage)
          case None => None
          case Some(url) => Some(cards + [ProductCard(p, url)])
  }

  lemma {:induction false} ProductCardsDefined(ps: seq<Product>, ids: seq<string>, resolve: string -> Option<string>)
    ensures ProductCards(ps, ids, resolve).Some? <==> ImagesResolve(ps, ids, resolve)
    ensures ProductCards(ps, ids, resolve).Some? ==> |ProductCards(ps, ids, resolve).value| == CountMembers(ps, ids)
    decreases |ps|
  {
    if ps != [] {
      var init := ps[..|ps| - 1];
      ProductCardsDefined(init, ids, resolve);
      var last := ps[|ps| - 1];
      var lastResolves := last.id in ids ==> resolve(last.mainImage).Some?;
      assert forall i :: 0 <= i < |init| ==> init[i] == ps[i];
      assert ImagesResolve(ps, ids, resolve) <==> ImagesResolve(init, ids, resolve) && lastResolves;
    }
  }

  /** The product at catalog index i, if it belongs to the node, has its card at position CountMembers(ps[..i]). */
  lemma {:induction false} ProductCardsAt(ps: seq<Product>, ids: seq<string>, resolve: string -> Option<string>, i: int)
    requires ProductCards(ps, ids, resolve).Some?
    requires 0 <= i < |ps| && ps[i].id in ids
    ensures resolve(ps[i].mainImage).Some?
    ensures CountMembers(ps[..i], ids) < |ProductCards(ps, ids, resolve).value|
    ensures ProductCards(ps, ids, resolve).value[CountMembers(ps[..i], ids)]
         == ProductCard(ps[i], resolve(ps[i].mainImage).value)
    decreases |ps|
  {
    var init := ps[..|ps| - 1];
    ProductCardsDefined(init, ids, resolve);
    if i == |ps| - 1 {
      assert ps[..i] == init;
    } else {
      assert init[i] == ps[i];
      assert init[..i] == ps[..i];
      ProductCardsAt(init, ids, resolve, i);
    }
  }

  /** Card k of the product cards comes from some product of the node, at the position ProductCardsAt gives it. */
  lemma {:induction false} ProductCardsFrom(ps: seq<Product>, ids: seq<string>, resolve: string -> Option<string>, k: int)
    requires ProductCards(ps, ids, resolve).Some?
    requires 0 <= k < |ProductCards(ps, ids, resolve).value|
    ensures exists i :: 0 <= i < |ps| && ps[i].id in ids && CountMembers(ps[..i], ids) == k
    decreases |ps|
  {
    var init := ps[..|ps| - 1];
    ProductCardsDefined(init, ids, resolve);
    var n := |ProductCards(init, ids, resolve).value|;
    if k < n {
      ProductCardsFrom(init, ids, resolve, k);
      var i :| 0 <= i < |init| && init[i].id in ids && CountMembers(init[..i], ids) == k;
      assert init[i] == ps[i] && init[..i] == ps[..i];
    } else {
      assert ps[..|ps| - 1] == init;
    }
  }

  lemma {:induction false} CountMembersPrefix(ps: seq<Product>, ids: seq<string>, i: int, j: int)
    requires 0 <= i <= j <= |ps|
    ensures CountMembers(ps[..i], ids) <= CountMembers(ps[..j], ids)
    ensures i < j && ps[i].id in ids ==> CountMembers(ps[..i], ids) < CountMembers(ps[..j], ids)
    decreases j - i
  {
    if i < j {
      CountMembersPrefix(ps, ids, i, j - 1);
      assert ps[..j][..j - 1] == ps[..j - 1];
      if i == j - 1 {
        assert ps[..j][j - 1] == ps[i];
      }
    }
  }

  lemma {:induction false} ProductCardsMembershipOnly(ps: seq<Product>, ids1: seq<string>, ids2: seq<string>, resolve: string -> Option<string>)
    requires forall x :: x in ids1 <==> x in ids2
    ensures ProductCards(ps, ids1, resolve) == ProductCards(ps, ids2, resolve)
    ensures CountMembers(ps, ids1) == CountMembers(ps, ids2)
    decreases |ps|
  {
    if ps != [] {
      ProductCardsMembershipOnly(ps[..|ps| - 1], ids1, ids2, resolve);
    }
  }

  // ---------------------------------------------------------------------------
  // The rendered element list
  // ---------------------------------------------------------------------------

  /**
   * The element list send_menu posts for a node whose product ids are `ids`,
   * given the catalog `ps` and the image resolver; None when an image lookup
   * of a product of the node fails.
   */
  function Render(ps: seq<Product>, ids: seq<string>, resolve: string -> Option<string>): (r: Option<seq<Card>>)
    ensures r.Some? <==> ImagesResolve(ps, ids, resolve)
    ensures r.Some? ==> |r.value| == CountMembers(ps, ids) + 2
    ensures r.Some? ==> r.value[0] == Header && r.value[|r.value| - 1] == Trailer
  {
    ProductCardsDefined(ps, ids, resolve);
    match ProductCards(ps, ids, resolve)
    case None => None
    case Some(cards) => Some([Header] + cards + [Trailer])
  }

  /** The header card: titled "Меню", buttons with payloads CART, PROMOTION, ORDER in that order. */
  lemma StartsWithHeader(ps: seq<Product>, ids: seq<string>, resolve: string -> Option<string>, elements: seq<Card>)
    requires Render(ps, ids, resolve) == Some(elements)
    ensures |elements| >= 2
    ensures elements[0].title == "Меню"
    ensures |elements[0].buttons| == 3
    ensures elements[0].buttons[0].payload == "CART"
    ensures elements[0].buttons[1].payload == "PROMOTION"
    ensures elements[0].buttons[2].payload == "ORDER"
  {
  }

  /** The trailer card: three category shortcuts Особые, Сытные, Острые with their node ids. */
  lemma EndsWithTrailer(ps: seq<Product>, ids: seq<string>, resolve: string -> Option<string>, elements: seq<Card>)
    requires Render(ps, ids, resolve) == Some(elements)
    ensures |elements| >= 2
    ensures elements[|elements| - 1].buttons
         == [Button("Особые", "07f5eb2c-815e-41c9-be78-a41b985dd430"),
             Button("Сытные", "18557b54-9f75-4ce3-92e1-637c402100aa"),
             Button("Острые", "6111eb37-d408-40aa-a7d1-87cfbc17e044")]
  {
  }

  /** A node without products still gets a menu: exactly header and trailer. */
  lemma EmptyMembership(ps: seq<Product>, resolve: string -> Option<string>)
    ensures Render(ps, [], resolve) == Some([Header, Trailer])
  {
    NoMembersCountZero(ps);
    ProductCardsDefined(ps, [], resolve);
    var cards := ProductCards(ps, [], resolve).value;
    assert cards == [];
    assert [Header] + cards + [Trailer] == [Header, Trailer];
  }

  lemma {:induction false} NoMembersCountZero(ps: seq<Product>)
    ensures CountMembers(ps, []) == 0
    decreases |ps|
  {
    if ps != [] {
      NoMembersCountZero(ps[..|ps| - 1]);
    }
  }

  /**
   * Product i of the catalog, when it belongs to the node, has the card at
   * position 1 + (number of node products before it): title
   * "<name> (<amount> р.)", the resolved image, the description or "", and
   * one "Добавить в корзину" button whose payload is the product id.
   */
  lemma CardOfMember(ps: seq<Product>, ids: seq<string>, resolve: string -> Option<string>, elements: seq<Card>, i: int)
    requires Render(ps, ids, resolve) == Some(elements)
    requires 0 <= i < |ps| && ps[i].id in ids
    ensures resolve(ps[i].mainImage).Some?
    ensures 0 < 1 + CountMembers(ps[..i], ids) < |elements| - 1
    ensures var c := elements[1 + CountMembers(ps[..i], ids)];
      && c.title == ps[i].name + " (" + Decimal(ps[i].amount) + " р.)"
      && c.imageUrl == resolve(ps[i].mainImage).value
      && c.subtitle == (if ps[i].description.Some? then ps[i].description.value else "")
      && c.buttons == [Button("Добавить в корзину", ps[i].id)]
  {
    ProductCardsDefined(ps, ids, resolve);
    ProductCardsAt(ps, ids, resolve, i);
  }

  /**
   * Every element strictly between header and trailer is the card of a
   * product of the node: it has one "add to cart" button whose payload is an
   * id of the node list, and it sits at the position CardOfMember gives.
   */
  lemma CardComesFromMember(ps: seq<Product>, ids: seq<string>, resolve: string -> Option<string>, elements: seq<Card>, k: int)
    requires Render(ps, ids, resolve) == Some(elements)
    requires 0 < k < |elements| - 1
    ensures exists i :: 0 <= i < |ps| && ps[i].id in ids && 1 + CountMembers(ps[..i], ids) == k
                        && resolve(ps[i].mainImage).Some?
                        && elements[k] == ProductCard(ps[i], resolve(ps[i].mainImage).value)
    ensures |elements[k].buttons| == 1
    ensures elements[k].buttons[0].title == "Добавить в корзину"
    ensures elements[k].buttons[0].payload in ids
  {
    ProductCardsDefined(ps, ids, resolve);
    ProductCardsFrom(ps, ids, resolve, k - 1);
    var i :| 0 <= i < |ps| && ps[i].id in ids && CountMembers(ps[..i], ids) == k - 1;
    ProductCardsAt(ps, ids, resolve, i);
  }

  /** Cards of two node products appear in the order of the catalog. */
  lemma CatalogOrderKept(ps: seq<Product>, ids: seq<string>, resolve: string -> Option<string>, elements: seq<Card>,
                         i: int, j: int)
    requires Render(ps, ids, resolve) == Some(elements)
    requires 0 <= i < j < |ps| && ps[i].id in ids && ps[j].id in ids
    ensures resolve(ps[i].mainImage).Some? && resolve(ps[j].mainImage).Some?
    ensures exists ki, kj :: 0 < ki < kj < |elements| - 1
                          && elements[ki] == ProductCard(ps[i], resolve(ps[i].mainImage).value)
                          && elements[kj] == ProductCard(ps[j], resolve(ps[j].mainImage).value)
  {
    CountMembersPrefix(ps, ids, i, j);
    CardOfMember(ps, ids, resolve, elements, i);
    CardOfMember(ps, ids, resolve, elements, j);
    var ki, kj := 1 + CountMembers(ps[..i], ids), 1 + CountMembers(ps[..j], ids);
    assert elements[ki] == ProductCard(ps[i], resolve(ps[i].mainImage).value);
    assert elements[kj] == ProductCard(ps[j], resolve(ps[j].mainImage).value);
  }

  /** Catalog product ids are pairwise different. */
  ghost predicate DistinctIds(ps: seq<Product>)
  {
    forall i, j :: 0 <= i < j < |ps| ==> ps[i].id != ps[j].id
  }

  /**
   * With distinct catalog ids, a product of the node has exactly one card
   * between header and trailer whose button payload is its id.
   */
  lemma ExactlyOneCardPerMember(ps: seq<Product>, ids: seq<string>, resolve: string -> Option<string>, elements: seq<Card>, i: int)
    requires Render(ps, ids, resolve) == Some(elements)
    requires DistinctIds(ps)
    requires 0 <= i < |ps| && ps[i].id in ids
    ensures forall k :: 0 <= k < |elements| ==>
      (Button(AddToCart, ps[i].id) in elements[k].buttons <==> k == 1 + CountMembers(ps[..i], ids))
  {
    CardOfMember(ps, ids, resolve, elements, i);
    var own := 1 + CountMembers(ps[..i], ids);
    StartsWithHeader(ps, ids, resolve, elements);
    EndsWithTrailer(ps, ids, resolve, elements);
    forall k | 0 < k < |elements| - 1
      ensures Button(AddToCart, ps[i].id) in elements[k].buttons <==> k == own
    {
      CardComesFromMember(ps, ids, resolve, elements, k);
      var j :| 0 <= j < |ps| && ps[j].id in ids && 1 + CountMembers(ps[..j], ids) == k
               && elements[k].buttons == [Button(AddToCart, ps[j].id)];
      if j < i {
        CountMembersPrefix(ps, ids, j, i);
        assert ps[j].id != ps[i].id;
      } else if i < j {
        CountMembersPrefix(ps, ids, i, j);
        assert ps[i].id != ps[j].id;
      }
    }
  }

  /** A product whose id is not in the node list has no card. */
  lemma NoCardForNonMember(ps: seq<Product>, ids: seq<string>, resolve: string -> Option<string>, elements: seq<Card>, id: string)
    requires Render(ps, ids, resolve) == Some(elements)
    requires id !in ids
    ensures forall k :: 0 <= k < |elements| ==> Button(AddToCart, id) !in elements[k].buttons
  {
    forall k | 0 < k < |elements| - 1 ensures Button(AddToCart, id) !in elements[k].buttons {
      CardComesFromMember(ps, ids, resolve, elements, k);
    }
  }

  /** Only membership matters: repeating an id in the node list never repeats a card. */
  lemma RepeatedIdsIgnored(ps: seq<Product>, ids: seq<string>, resolve: string -> Option<string>, id: string)
    requires id in ids
    ensures Render(ps, ids + [id], resolve) == Render(ps, ids, resolve)
  {
    ProductCardsMembershipOnly(ps, ids + [id], ids, resolve);
  }

  /** The platform allows at most three buttons per card; the menu never exceeds it. */
  lemma AtMostThreeButtons(ps: seq<Product>, ids: seq<string>, resolve: string -> Option<string>, elements: seq<Card>)
    requires Render(ps, ids, resolve) == Some(elements)
    ensures forall k :: 0 <= k < |elements| ==> 1 <= |elements[k].buttons| <= 3
  {
    forall k | 0 <= k < |elements| ensures 1 <= |elements[k].buttons| <= 3 {
      if 0 < k < |elements| - 1 {
        CardComesFromMember(ps, ids, resolve, elements, k);
      }
    }
  }

  // ---------------------------------------------------------------------------
  // The imperative construction
  // ---------------------------------------------------------------------------

  lemma {:induction false} FailedPrefixFails(ps: seq<Product>, ids: seq<string>, resolve: string -> Option<string>, n: int)
    requires 0 <= n <= |ps|
    requires ProductCards(ps[..n], ids, resolve).None?
    ensures ProductCards(ps, ids, resolve).None?
    decreases |ps| - n
  {
    if n < |ps| {
      assert ps[..n + 1][..n] == ps[..n];
      FailedPrefixFails(ps, ids, resolve, n + 1);
    } else {
      assert ps[..n] == ps;
    }
  }

  /** A product record of a node, of which the menu reads only the id. */
  datatype NodeProduct = NodeProduct(id: string)

  /** The ids of the node's product records, in their order. */
  function NodeProductIds(nodeProducts: seq<NodeProduct>): (ids: seq<string>)
    ensures |ids| == |nodeProducts|
    ensures forall x :: x in ids <==> exists q :: q in nodeProducts && q.id == x
  {
    if nodeProducts == [] then []
    else
      var ids := [nodeProducts[0].id] + NodeProductIds(nodeProducts[1..]);
      assert forall q :: q in nodeProducts ==> q == nodeProducts[0] || q in nodeProducts[1..];
      ids
  }

  /**
   * send_menu without the network: the header, then a card for each catalog
   * product whose id is among the node's products (looking up its image),
   * then the trailer. None when an image lookup fails.
   */
  method SendMenu(products: seq<Product>, nodeProducts: seq<NodeProduct>, resolve: string -> Option<string>)
    returns (elements: Option<seq<Card>>)
    ensures elements == Render(products, NodeProductIds(nodeProducts), resolve)
  {
    var ids := NodeProductIds(nodeProducts);
    var list := [Header];
    var i := 0;
    assert products[..0] == [] && list[1..] == [];
    while i < |products|
      invariant 0 <= i <= |products|
      invariant |list| >= 1 && list[0] == Header
      invariant ProductCards(products[..i], ids, resolve) == Some(list[1..])
    {
      var p := products[i];
      assert products[..i + 1][..i] == products[..i];
      if p.id in ids {
        var link := resolve(p.mainImage);
        if link.None? {
          assert ProductCards(products[..i + 1], ids, resolve).None?;
          FailedPrefixFails(products, ids, resolve, i + 1);
          return None;
        }
        assert (list + [ProductCard(p, link.value)])[1..] == list[1..] + [ProductCard(p, link.value)];
        list := list + [ProductCard(p, link.value)];
      }
      i := i + 1;
    }
    assert products[..i] == products;
    assert list == [Header] + list[1..];
    list := list + [Trailer];
    elements := Some(list);
  }
}
