/** The shopper's side of service/UserService.java: the logged-in user, the cart of
    `CartItem`s, and the operations that move stock between the store and the cart.
    Console input arrives as parameters. */
module Shop {
  import opened Wrappers
  import opened JavaInt
  import opened Strings
  import opened Slices
  import opened TxtFormat
  import opened Catalog
  import opened Users

  /** A cart line: a good held by reference and the quantity put in the cart. */
  class CartItem {
    const good: Good
    var quantity: int

    constructor (good: Good, quantity: int)
      ensures this.good == good && this.quantity == quantity
    {
      this.good := good;
      this.quantity := quantity;
    }

    /** `reduceStock`: lowers the quantity only when it is at least `quantity`. */
    method ReduceStock(quantity: int)
      modifies this
      ensures this.quantity == ReducedStock(old(this.quantity), quantity)
    {
      if quantity <= this.quantity {
        this.quantity := Sub(this.quantity, quantity);
      }
    }

    /** `addStock`: raises the quantity only when `quantity` is at least the quantity held
        (the guard of the source, kept as written). */
    method AddStock(quantity: int)
      modifies this
      ensures this.quantity == AddedStock(old(this.quantity), quantity)
    {
      if quantity >= this.quantity {
        this.quantity := Add(this.quantity, quantity);
      }
    }
  }

  /** What a cart line shows of itself: the identifier of its good and its quantity. */
  datatype Entry = Entry(id: string, quantity: int)

  /** The goods the items refer to. */
  function Shelf(items: seq<CartItem>): set<Good> {
    set i | 0 <= i < |items| :: items[i].good
  }

  function Entries(items: seq<CartItem>): (r: seq<Entry>)
    reads items, Shelf(items)
    ensures |r| == |items|
    ensures forall i :: 0 <= i < |items| ==> r[i] == Entry(items[i].good.id, items[i].quantity)
  {
    seq(|items|, i requires 0 <= i < |items| reads items, Shelf(items) =>
      Entry(items[i].good.id, items[i].quantity))
  }

  /** The first line whose good has identifier `id`, as `getGoodCtId` finds it. */
  function FirstEntry(es: seq<Entry>, id: string): (r: Option<nat>)
    ensures r.None? <==> forall i :: 0 <= i < |es| ==> es[i].id != id
    ensures r.Some? ==> r.value < |es| && es[r.value].id == id
    ensures r.Some? ==> forall j :: 0 <= j < r.value ==> es[j].id != id
  {
    if es == [] then None
    else if es[0].id == id then Some(0)
    else match FirstEntry(es[1..], id)
      case None => None
      case Some(k) => Some(k + 1)
  }

  /** The `cartQuantity` of `modifyGoodOfCart`: the quantity of the LAST line with
      identifier `id`, or 0 when there is none. */
  function LastQuantity(es: seq<Entry>, id: string): int {
    if es == [] then 0
    else if es[|es| - 1].id == id then es[|es| - 1].quantity
    else LastQuantity(es[..|es| - 1], id)
  }

  /** What `modifyGoodOfCart(id, quantity)` does to a cart showing `es`. */
  datatype Step =
    | Keep                 // nothing changes
    | Drop(k: nat)         // the `k`-th item leaves the cart
    | Lower(k: nat, d: int) // the `k`-th item gives `d` back to the store
    | Raise(k: nat, d: int) // the `k`-th item takes `d` more from the store

  /** The decision of `modifyGoodOfCart`: the first item for `id` is the one edited, the
      last one's quantity is what the new quantity is compared with. */
  function Plan(es: seq<Entry>, id: string, quantity: int): (p: Step)
    ensures !p.Keep? ==> FirstEntry(es, id) == Some(p.k) && quantity >= 0
    ensures p.Drop? <==> FirstEntry(es, id).Some? && quantity == 0
  {
    match FirstEntry(es, id)
    case None => Keep
    case Some(k) =>
      var held := LastQuantity(es, id);
      if quantity < 0 then Keep
      else if quantity == 0 then Drop(k)
      else if quantity < held then Lower(k, Sub(held, quantity))
      else if quantity > held then Raise(k, Sub(quantity, held))
      else Keep
  }

  /** The quantity of the last line for `id`, when one line alone has it, is that line's. */
  lemma {:induction false} OnlyEntryIsLast(es: seq<Entry>, id: string, k: nat)
    requires k < |es| && es[k].id == id
    requires forall j :: 0 <= j < |es| && j != k ==> es[j].id != id
    ensures LastQuantity(es, id) == es[k].quantity
  {
    var n := |es|;
    if n - 1 != k {
      TakeTake(es, k, n - 1);
      OnlyEntryIsLast(es[..n - 1], id, k);
    }
  }

  /** With one line alone for `id`, holding a non-negative quantity: a positive quantity
      below the one held is set exactly; one above it only when it is at least twice the
      quantity held, since otherwise the item's `addStock` refuses and nothing is added;
      the same quantity, or a negative one, changes nothing. */
  lemma SingleEntryModify(es: seq<Entry>, id: string, k: nat, quantity: int)
    requires k < |es| && es[k].id == id
    requires forall j :: 0 <= j < |es| && j != k ==> es[j].id != id
    requires IsInt(quantity) && IsInt(es[k].quantity) && es[k].quantity >= 0
    ensures match Plan(es, id, quantity)
      case Keep => quantity < 0 || quantity == es[k].quantity
      case Drop(j) => j == k
      case Lower(j, d) => j == k && ReducedStock(es[k].quantity, d) == quantity
      case Raise(j, d) =>
        j == k && (AddedStock(es[k].quantity, d) == quantity <==> quantity >= 2 * es[k].quantity)
  {
    OnlyEntryIsLast(es, id, k);
  }

  /** The lines `checkout` appends for `username`, one per cart line in order. */
  function Receipt(username: string, es: seq<Entry>): (r: seq<string>)
    ensures |r| == |es|
  {
    if es == [] then []
    else Receipt(username, es[..|es| - 1]) + [PurchaseLine(username, es[|es| - 1].id, es[|es| - 1].quantity)]
  }

  /** The purchases the receipt records. */
  function Bought(es: seq<Entry>): (r: seq<Purchase>)
    ensures |r| == |es|
  {
    if es == [] then []
    else Bought(es[..|es| - 1]) + [Purchase(es[|es| - 1].id, es[|es| - 1].quantity)]
  }

  /** After a checkout the user's purchase history ends with the cart, line by line, and
      no other user's history changes, provided no name holds a comma. */
  lemma {:induction false} CheckoutThenRead(lines: seq<string>, username: string, es: seq<Entry>, other: string)
    requires NoComma(username) && other != username
    requires forall i :: 0 <= i < |es| ==> NoComma(es[i].id) && IsInt(es[i].quantity)
    ensures PurchasesOf(lines + Receipt(username, es), username) ==
            Both(PurchasesOf(lines, username), Some(Bought(es)))
    ensures PurchasesOf(lines + Receipt(username, es), other) == PurchasesOf(lines, other)
  {
    if es == [] {
      AppendNothing(lines);
      if PurchasesOf(lines, username).Some? {
        AppendNothing(PurchasesOf(lines, username).value);
      }
    } else {
      var n := |es|;
      var front := es[..n - 1];
      var last := es[n - 1];
      CheckoutThenRead(lines, username, front, other);
      var line := PurchaseLine(username, last.id, last.quantity);
      AppendAssoc(lines, Receipt(username, front), [line]);
      PurchaseLineRoundTrip(lines + Receipt(username, front), username, last.id, last.quantity, other);
      var before := PurchasesOf(lines, username);
      if before.Some? {
        AppendAssoc(before.value, Bought(front), [Purchase(last.id, last.quantity)]);
      }
    }
  }

  /** Java's `equalsIgnoreCase("y")`. */
  predicate IsYes(answer: string) {
    answer == "y" || answer == "Y"
  }

  /** The text Java's string concatenation writes for a user name that may be `null`. */
  function NameText(username: Option<string>): string {
    match username
    case Some(u) => u
    case None => "null"
  }

  /** The cached good with identifier `id` that `getGoodById` returns, or `null`. */
  function Lookup(goods: seq<Good>, id: string): (g: Good?)
    reads goods
    ensures g != null ==> g in goods && g.id == id
    ensures g == null <==> FindById(Values(goods), id).None?
  {
    match FindById(Values(goods), id)
    case None => null
    case Some(k) => goods[k]
  }

  /** The quantity of the last line for `goodId`, read in one pass as the source does. */
  method HeldQuantity(items: seq<CartItem>, ghost es: seq<Entry>, goodId: string) returns (held: int)
    requires es == Entries(items)
    ensures held == LastQuantity(es, goodId)
  {
    held := 0;
    for i := 0 to |items|
      invariant held == LastQuantity(es[..i], goodId)
    {
      TakeTake(es, i, i + 1);
      if items[i].good.id == goodId {
        held := items[i].quantity;
      }
    }
    TakeAll(es);
  }

  /** The session of one shopper: who logged in (`null` until someone does) and the cart. */
  class UserService {
    var loggedInUsername: Option<string>
    var cart: seq<CartItem>

    /** No item is in the cart twice, and every quantity is a Java `int`. */
    ghost predicate Valid()
      reads this, cart
    {
      && (forall i, j :: 0 <= i < j < |cart| ==> cart[i] != cart[j])
      && (forall i :: 0 <= i < |cart| ==> IsInt(cart[i].quantity))
    }

    constructor ()
      ensures Valid()
      ensures loggedInUsername == None && cart == []
    {
      loggedInUsername := None;
      cart := [];
    }

    /** `getGoodCtId`: the first cart item whose good has identifier `id`, or `null`. */
    method GetGoodCtId(id: string) returns (item: CartItem?)
      ensures match FirstEntry(Entries(cart), id)
        case None => item == null
        case Some(k) => item == cart[k]
    {
      for i := 0 to |cart|
        invariant forall j :: 0 <= j < i ==> cart[j].good.id != id
      {
        if cart[i].good.id == id {
          return cart[i];
        }
      }
      return null;
    }

    /** `login`: remembers the user name when a stored user has this name and password. */
    method Login(username: string, password: string, users: UserUtil) returns (ok: bool)
      modifies this
      ensures ok <==> HasLogin(ReadUsers(users.usersFile), username, password)
      ensures loggedInUsername == if ok then Some(username) else old(loggedInUsername)
      ensures cart == old(cart)
    {
      ok := users.ValidateUser(username, password);
      if ok {
        loggedInUsername := Some(username);
      }
    }

    /** `cart.add(new CartItem(good, quantity))`. */
    method Append(good: Good, quantity: int) returns (item: CartItem)
      requires Valid() && IsInt(quantity)
      modifies this
      ensures Valid() && loggedInUsername == old(loggedInUsername)
      ensures fresh(item) && item.good == good && item.quantity == quantity
      ensures cart == old(cart) + [item]
    {
      item := new CartItem(good, quantity);
      cart := cart + [item];
    }

    /** `addGoodToCart`: for a cached good, a positive quantity and enough stock, appends a
        new cart item holding that good and lowers the good's stock through the store;
        otherwise changes nothing. `stored` is false when the store's rewrite threw. */
    method AddGoodToCart(goodId: string, quantity: int, store: TxtUtil) returns (added: bool, stored: bool)
      requires Valid() && IsInt(quantity)
      modifies this, store, store.goodsList
      ensures Valid() && loggedInUsername == old(loggedInUsername)
      ensures var g := old(Lookup(store.goodsList, goodId));
        added <==> g != null && quantity > 0 && old(g.stock) >= quantity
      ensures !added ==> cart == old(cart) && unchanged(store) && unchanged(old(store.goodsList))
      ensures added ==>
        var g := old(Lookup(store.goodsList, goodId));
        && |cart| == |old(cart)| + 1 && cart[..|old(cart)|] == old(cart)
        && fresh(cart[|old(cart)|])
        && cart[|old(cart)|].good == g && cart[|old(cart)|].quantity == quantity
        && g.id == goodId
        && g.Value() == old(g.Value()).(stock := Sub(old(g.stock), quantity))
        && (forall h :: h in old(store.goodsList) && h != g ==> unchanged(h))
        && store.Rewrote(UpdatedGoodsFile(old(store.goodsFile), g.Value()), stored)
    {
      var good := Lookup(store.goodsList, goodId);
      if good == null || quantity <= 0 || good.stock < quantity {
        return false, true;
      }
      var item := Append(good, quantity);
      stored := good.ReduceStock(quantity, store);
      added := true;
    }

    /** `cart.remove(item)`: drops the item where it stands. */
    method Remove(item: CartItem)
      requires Valid() && item in cart
      modifies this
      ensures Valid() && loggedInUsername == old(loggedInUsername)
      ensures forall k :: 0 <= k < |old(cart)| && old(cart)[k] == item ==>
        cart == old(cart)[..k] + old(cart)[k + 1..]
    {
      var k := 0;
      while cart[k] != item
        invariant 0 <= k < |cart| && item in cart[k..]
        decreases |cart| - k
      {
        k := k + 1;
      }
      cart := cart[..k] + cart[k + 1..];
    }

    /** `modifyGoodOfCart`: edits the FIRST item for `goodId`, comparing the new quantity
        with that of the LAST item for it. Zero removes the item without giving its stock
        back; a smaller quantity lowers the item by the difference and raises the good's
        stock by it; a larger one raises the item and lowers the good's stock; a negative
        or equal one, or an identifier not in the cart, changes nothing. Each step keeps
        the guards of the cart item's and the good's own stock updates. */
    method ModifyGoodOfCart(goodId: string, quantity: int, store: TxtUtil) returns (stored: bool)
      requires Valid() && IsInt(quantity)
      modifies this, store, cart, Shelf(cart)
      ensures Valid() && loggedInUsername == old(loggedInUsername)
      ensures match Plan(old(Entries(cart)), goodId, quantity)
        case Keep =>
          cart == old(cart) && unchanged(store) && unchanged(cart) && unchanged(Shelf(cart))
        case Drop(k) =>
          k < |old(cart)| && cart == old(cart[..k] + cart[k + 1..]) && unchanged(store)
          && unchanged(old(cart)) && unchanged(old(Shelf(cart)))
        case Lower(k, d) => k < |old(cart)| && Returned(old(cart), k, d, store, stored)
        case Raise(k, d) => k < |old(cart)| && Taken(old(cart), k, d, store, stored)
    {
      var es := Entries(cart);
      var found := FirstEntry(es, goodId);
      if found.None? || quantity < 0 {
        return true;
      }
      var k := found.value;
      var item := cart[k];
      var held := LastQuantity(es, goodId);
      if quantity == 0 {
        assert Plan(es, goodId, quantity) == Drop(k);
        Remove(item);
        stored := true;
      } else if quantity < held {
        assert Plan(es, goodId, quantity) == Lower(k, Sub(held, quantity));
        stored := GiveBack(item, k, Sub(held, quantity), store);
      } else if quantity > held {
        assert Plan(es, goodId, quantity) == Raise(k, Sub(quantity, held));
        stored := TakeMore(item, k, Sub(quantity, held), store);
      } else {
        stored := true;
      }
    }

    /** `checkout`: with items in the cart and the answer `y` (in either case), appends
        one purchase line per item, in cart order, for the logged-in user, then empties the
        cart; otherwise changes nothing. Prices, the discount and its random rate are only
        printed, so they are left out. */
    method Checkout(answer: string, store: TxtUtil) returns (checkedOut: bool)
      requires Valid()
      modifies this, store
      ensures Valid() && loggedInUsername == old(loggedInUsername)
      ensures checkedOut <==> old(cart) != [] && IsYes(answer)
      ensures checkedOut ==>
        && cart == []
        && store.purchasesFile == old(store.purchasesFile) + Receipt(NameText(loggedInUsername), old(Entries(cart)))
        && store.goodsFile == old(store.goodsFile) && store.goodsList == old(store.goodsList)
      ensures !checkedOut ==> cart == old(cart) && unchanged(store)
    {
      if cart == [] || !IsYes(answer) {
        return false;
      }
      var es := Entries(cart);
      var name := NameText(loggedInUsername);
      for i := 0 to |cart|
        invariant cart == old(cart) && loggedInUsername == old(loggedInUsername)
        invariant store.purchasesFile == old(store.purchasesFile) + Receipt(name, es[..i])
        invariant store.goodsFile == old(store.goodsFile) && store.goodsList == old(store.goodsList)
        invariant forall j :: 0 <= j < |cart| ==> es[j] == Entry(cart[j].good.id, cart[j].quantity)
      {
        TakeTake(es, i, i + 1);
        AppendAssoc(old(store.purchasesFile), Receipt(name, es[..i]), [PurchaseLine(name, es[i].id, es[i].quantity)]);
        store.AddPurchasedGoodForUser(name, cart[i].good, cart[i].quantity);
      }
      TakeAll(es);
      cart := [];
      checkedOut := true;
    }

    /** The downward step of `modifyGoodOfCart` on the `k`-th item: the item gives `d`
        back, then its good takes `d` into stock. */
    method GiveBack(item: CartItem, ghost k: nat, d: int, store: TxtUtil) returns (stored: bool)
      requires Valid() && k < |cart| && cart[k] == item
      modifies item, item.good, store
      ensures Valid()
      ensures Returned(old(cart), k, d, store, stored)
    {
      item.ReduceStock(d);
      stored := item.good.AddStock(d, store);
      assert forall i :: 0 <= i < |cart| && i != k ==> cart[i].quantity == old(cart[i].quantity);
    }

    /** The upward step of `modifyGoodOfCart` on the `k`-th item: the item takes `d` more,
        then its good gives `d` out of stock. */
    method TakeMore(item: CartItem, ghost k: nat, d: int, store: TxtUtil) returns (stored: bool)
      requires Valid() && k < |cart| && cart[k] == item
      modifies item, item.good, store
      ensures Valid()
      ensures Taken(old(cart), k, d, store, stored)
    {
      item.AddStock(d);
      stored := item.good.ReduceStock(d, store);
      assert forall i :: 0 <= i < |cart| && i != k ==> cart[i].quantity == old(cart[i].quantity);
    }

    /** The items stay; the `k`-th gives `d` back: its quantity and its good's stock follow
        their own updates, the store is rewritten when the good's update went through, and
        every other item and good is as it was. */
    twostate predicate Returned(items: seq<CartItem>, k: nat, d: int, store: TxtUtil, stored: bool)
      requires k < |items|
      reads this, store, store.goodsList, items, Shelf(items)
    {
      var item := items[k];
      var good := item.good;
      && cart == items
      && item.quantity == ReducedStock(old(item.quantity), d)
      && good.Value() == old(good.Value()).(stock := AddedStock(old(good.stock), d))
      && (d >= old(good.stock) ==> store.Rewrote(UpdatedGoodsFile(old(store.goodsFile), good.Value()), stored))
      && (d < old(good.stock) ==> unchanged(store))
      && (forall i :: 0 <= i < |items| && i != k ==> unchanged(items[i]))
      && (forall i :: 0 <= i < |items| && items[i].good != good ==> unchanged(items[i].good))
    }

    /** The items stay; the `k`-th takes `d` more: as `Returned`, with the two updates the
        other way round. */
    twostate predicate Taken(items: seq<CartItem>, k: nat, d: int, store: TxtUtil, stored: bool)
      requires k < |items|
      reads this, store, store.goodsList, items, Shelf(items)
    {
      var item := items[k];
      var good := item.good;
      && cart == items
      && item.quantity == AddedStock(old(item.quantity), d)
      && good.Value() == old(good.Value()).(stock := ReducedStock(old(good.stock), d))
      && (d <= old(good.stock) ==> store.Rewrote(UpdatedGoodsFile(old(store.goodsFile), good.Value()), stored))
      && (d > old(good.stock) ==> unchanged(store))
      && (forall i :: 0 <= i < |items| && i != k ==> unchanged(items[i]))
      && (forall i :: 0 <= i < |items| && items[i].good != good ==> unchanged(items[i].good))
    }
  }
}
