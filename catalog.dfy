/** The catalog: the `Good` entity of model/Good.java, whose stock updates persist
    themselves, and the goods and purchases store of util/TxtUtil.java, which holds both
    files as lists of lines and the cached list of `Good` objects read from the goods file. */
module Catalog {
  import opened Wrappers
  import opened JavaInt
  import opened Strings
  import opened TxtFormat
  import opened Slices

  /** The field values of a list of goods, in list order. */
  function Values(gs: seq<Good>): (r: seq<GoodRecord>)
    reads gs
    ensures |r| == |gs|
    ensures forall i :: 0 <= i < |gs| ==> r[i] == gs[i].Value()
  {
    seq(|gs|, i requires 0 <= i < |gs| reads gs => gs[i].Value())
  }

  /** The stock left by `reduceStock(quantity)`: lowered only when there is enough. */
  function ReducedStock(stock: int, quantity: int): int {
    if quantity <= stock then Sub(stock, quantity) else stock
  }

  /** The stock left by `addStock(quantity)`: raised only when `quantity >= stock`. */
  function AddedStock(stock: int, quantity: int): int {
    if quantity >= stock then Add(stock, quantity) else stock
  }

  /** Both stock updates keep a non-negative stock non-negative, unless the Java `int`
      arithmetic overflows. */
  lemma StockStaysNonNegative(stock: int, quantity: int)
    requires IsInt(stock) && IsInt(quantity) && stock >= 0
    ensures IsInt(stock - quantity) ==> ReducedStock(stock, quantity) >= 0
    ensures IsInt(stock + quantity) ==> AddedStock(stock, quantity) >= 0
  {
  }

  /** The overflow: adding a large quantity turns a positive stock negative. */
  lemma AddStockOverflows()
    ensures AddedStock(1, MAX_INT) == MIN_INT
  {
  }

  /** Reducing by a quantity of at most the stock lowers it by exactly that quantity; a
      larger one leaves it as it was. */
  lemma ReducedStockExact(stock: int, quantity: int)
    requires IsInt(stock) && 0 <= quantity
    ensures quantity <= stock ==> ReducedStock(stock, quantity) == stock - quantity
    ensures quantity > stock ==> ReducedStock(stock, quantity) == stock
  {
  }

  class Good {
    var id: string
    var name: string
    var description: string
    var price: int
    var stock: int
    var category: string

    function Value(): GoodRecord
      reads this
    {
      GoodRecord(id, name, description, price, stock, category)
    }

    constructor (id: string, name: string, description: string, price: int, stock: int, category: string)
      ensures Value() == GoodRecord(id, name, description, price, stock, category)
    {
      this.id := id;
      this.name := name;
      this.description := description;
      this.price := price;
      this.stock := stock;
      this.category := category;
    }

    method SetId(id: string)
      modifies this
      ensures Value() == old(Value()).(id := id)
    {
      this.id := id;
    }

    method SetName(name: string)
      modifies this
      ensures Value() == old(Value()).(name := name)
    {
      this.name := name;
    }

    method SetDescription(description: string)
      modifies this
      ensures Value() == old(Value()).(description := description)
    {
      this.description := description;
    }

    method SetPrice(price: int)
      modifies this
      ensures Value() == old(Value()).(price := price)
    {
      this.price := price;
    }

    method SetStock(stock: int)
      modifies this
      ensures Value() == old(Value()).(stock := stock)
    {
      this.stock := stock;
    }

    method SetCategory(category: string)
      modifies this
      ensures Value() == old(Value()).(category := category)
    {
      this.category := category;
    }

    /** `reduceStock`: with enough stock, lowers it and rewrites this good into the goods
        file; otherwise changes nothing. `ok` is false when the rewrite threw. */
    method ReduceStock(quantity: int, store: TxtUtil) returns (ok: bool)
      modifies this, store
      ensures Value() == old(Value()).(stock := ReducedStock(old(stock), quantity))
      ensures quantity <= old(stock) ==>
        store.Rewrote(UpdatedGoodsFile(old(store.goodsFile), Value()), ok)
      ensures quantity > old(stock) ==> unchanged(store) && ok
    {
      if quantity <= stock {
        stock := Sub(stock, quantity);
        ok := store.UpdateGoodInTxt(this);
      } else {
        ok := true;
      }
    }

    /** `addStock`: raises the stock and rewrites this good only when `quantity >= stock`
        (the guard of the source, kept as written); otherwise changes nothing. */
    method AddStock(quantity: int, store: TxtUtil) returns (ok: bool)
      modifies this, store
      ensures Value() == old(Value()).(stock := AddedStock(old(stock), quantity))
      ensures quantity >= old(stock) ==>
        store.Rewrote(UpdatedGoodsFile(old(store.goodsFile), Value()), ok)
      ensures quantity < old(stock) ==> unchanged(store) && ok
    {
      if quantity >= stock {
        stock := Add(stock, quantity);
        ok := store.UpdateGoodInTxt(this);
      } else {
        ok := true;
      }
    }
  }

  /** Every line of `lines` parsed in turn, stopping at the first that throws. */
  method ParseGoodsFrom(lines: seq<string>) returns (r: Option<seq<GoodRecord>>)
    ensures r == ParseGoodLines(lines)
  {
    var goods: seq<GoodRecord> := [];
    for i := 0 to |lines|
      invariant ParseGoodLines(lines[..i]) == Some(goods)
    {
      var g := ParseGoodLine(lines[i]);
      if g.None? {
        PrefixFails(lines, i);
        return None;
      }
      ParseLinesAppend(lines[..i], lines[i]);
      TakeOneMore(lines, i);
      goods := goods + [g.value];
    }
    TakeAll(lines);
    r := Some(goods);
  }

  /** A line that throws makes the whole read throw. */
  lemma {:induction false} PrefixFails(lines: seq<string>, i: nat)
    requires i < |lines| && ParseGoodLine(lines[i]).None?
    ensures ParseGoodLines(lines).None?
  {
    if i > 0 {
      PrefixFails(lines[1..], i - 1);
    }
  }

  /** One fresh `Good` object per record, in order. */
  method NewGoods(records: seq<GoodRecord>) returns (goods: seq<Good>)
    ensures Values(goods) == records
    ensures forall g :: g in goods ==> fresh(g)
  {
    goods := [];
    for i := 0 to |records|
      invariant |goods| == i
      invariant forall j :: 0 <= j < i ==> goods[j].Value() == records[j]
      invariant forall g :: g in goods ==> fresh(g)
    {
      var r := records[i];
      var g := new Good(r.id, r.name, r.description, r.price, r.stock, r.category);
      goods := goods + [g];
    }
  }

  /** The lines the update writes: the header, then each good read, replaced by the updated
      good where the identifiers match. */
  method ReplacedLines(goods: seq<Good>, updated: Good) returns (lines: seq<string>)
    ensures lines == GoodsFile(ReplaceById(Values(goods), updated.Value()))
  {
    ghost var records := Values(goods);
    lines := [GOODS_HEADER];
    for i := 0 to |goods|
      invariant lines == GoodsFile(ReplaceById(records[..i], updated.Value()))
    {
      TakeOneMore(records, i);
      ReplaceByIdAppend(records[..i], records[i], updated.Value());
      var g := if goods[i].id == updated.id then updated.Value() else goods[i].Value();
      GoodsLinesAppend(ReplaceById(records[..i], updated.Value()), g);
      lines := lines + [GoodLine(g)];
    }
    TakeAll(records);
  }

  /** The lines the delete writes: the header, then each good read whose identifier is not
      `id`. */
  method RemainingLines(goods: seq<Good>, id: string) returns (lines: seq<string>)
    ensures lines == GoodsFile(RemoveById(Values(goods), id))
  {
    ghost var records := Values(goods);
    lines := [GOODS_HEADER];
    for i := 0 to |goods|
      invariant lines == GoodsFile(RemoveById(records[..i], id))
    {
      TakeOneMore(records, i);
      RemoveByIdAppend(records[..i], [records[i]], id);
      RemoveByIdOne(records[i], id);
      if goods[i].id != id {
        GoodsLinesAppend(RemoveById(records[..i], id), records[i]);
        lines := lines + [GoodLine(goods[i].Value())];
      } else {
        AppendNothing(RemoveById(records[..i], id));
      }
    }
    TakeAll(records);
  }

  /** The static state of `TxtUtil`: the goods file, the purchases file and `goodsList`, the
      cache of goods last loaded from the goods file. */
  class TxtUtil {
    var goodsFile: seq<string>
    var purchasesFile: seq<string>
    var goodsList: seq<Good>

    constructor (goodsFile: seq<string>, purchasesFile: seq<string>)
      ensures this.goodsFile == goodsFile && this.purchasesFile == purchasesFile
      ensures goodsList == []
    {
      this.goodsFile := goodsFile;
      this.purchasesFile := purchasesFile;
      goodsList := [];
    }

    /** The store after `loadGoods` read the goods file as it stands: `ok` is false when the
        read threw, and then the old cache stays; otherwise the cache holds fresh objects
        carrying the values read. Neither file changes. */
    twostate predicate Reloaded(ok: bool)
      reads this, goodsList
    {
      && goodsFile == old(goodsFile) && purchasesFile == old(purchasesFile)
      && ok == ReadGoods(goodsFile).Some?
      && (ok ==> Values(goodsList) == ReadGoods(goodsFile).value)
      && (ok ==> forall g :: g in goodsList ==> fresh(g))
      && (!ok ==> goodsList == old(goodsList))
    }

    /** The store after `addGoodToTxt(line)`: the reload ran while the line was still in the
        writer's buffer, so the cache holds the goods of the file as it was before; closing
        the writer then appended the line, also when the reload threw (`ok` false, old cache
        kept). */
    twostate predicate Appended(new line: string, ok: bool)
      reads this, goodsList
    {
      && purchasesFile == old(purchasesFile)
      && goodsFile == old(goodsFile) + [line]
      && ok == ReadGoods(old(goodsFile)).Some?
      && (ok ==> Values(goodsList) == ReadGoods(old(goodsFile)).value)
      && (ok ==> forall g :: g in goodsList ==> fresh(g))
      && (!ok ==> goodsList == old(goodsList))
    }

    /** The store after a rewrite of the goods file with `newFile`. `None`: the read before
        the write threw, and nothing changed. `Some`: opening the writer emptied the file,
        the reload read that empty file while the new lines were still in the writer's
        buffer, so the cache is empty; closing the writer then wrote the lines. */
    twostate predicate Rewrote(new newFile: Option<seq<string>>, ok: bool)
      reads this
    {
      && purchasesFile == old(purchasesFile)
      && match newFile
         case None => !ok && goodsFile == old(goodsFile) && goodsList == old(goodsList)
         case Some(f) => ok && goodsFile == f && goodsList == []
    }

    /** `readGoodsFromTxt`: fresh goods for every line after the first, sorted by price. */
    method ReadGoodsFromTxt() returns (goods: seq<Good>, ok: bool)
      ensures ok == ReadGoods(goodsFile).Some?
      ensures ok ==> Values(goods) == ReadGoods(goodsFile).value
      ensures forall g :: g in goods ==> fresh(g)
    {
      if goodsFile == [] {
        return [], true;
      }
      var parsed := ParseGoodsFrom(goodsFile[1..]);
      if parsed.None? {
        return [], false;
      }
      goods := NewGoods(SortByPrice(parsed.value));
      ok := true;
    }

    /** `loadGoods`: replaces the cache with what the goods file holds now. */
    method LoadGoods() returns (ok: bool)
      modifies this
      ensures Reloaded(ok)
    {
      var goods;
      goods, ok := ReadGoodsFromTxt();
      if ok {
        goodsList := goods;
      }
    }

    /** `getGoodById`: the first cached good with identifier `id`, or `null`. */
    method GetGoodById(id: string) returns (good: Good?)
      ensures match FindById(Values(goodsList), id)
        case None => good == null
        case Some(i) => good == goodsList[i]
    {
      for i := 0 to |goodsList|
        invariant forall j :: 0 <= j < i ==> goodsList[j].id != id
      {
        if goodsList[i].id == id {
          return goodsList[i];
        }
      }
      return null;
    }

    /** `addGoodToTxt`: writes the good's line to the appending writer, reloads the cache
        while the line is still buffered, and closes the writer, which appends the line. */
    method AddGoodToTxt(good: Good) returns (ok: bool)
      modifies this
      ensures Appended(GoodLine(good.Value()), ok)
    {
      var line := GoodLine(good.Value());
      ok := LoadGoods();
      goodsFile := goodsFile + [line];
    }

    /** `updateGoodInTxt`: reads the goods, opens the writer (which empties the file), writes
        the header and then every good read, the ones sharing the updated good's identifier
        replaced by it, reloads the cache from the still empty file, and closes the writer,
        which writes the lines. */
    method UpdateGoodInTxt(updated: Good) returns (ok: bool)
      modifies this
      ensures Rewrote(UpdatedGoodsFile(old(goodsFile), updated.Value()), ok)
    {
      var goods, read := ReadGoodsFromTxt();
      if !read {
        return false;
      }
      var lines := ReplacedLines(goods, updated);
      goodsFile := [];
      ok := LoadGoods();
      goodsFile := lines;
    }

    /** `deleteGoodFromTxt`: reads the goods, opens the writer (which empties the file),
        writes the header and then every good whose identifier differs, reloads the cache
        from the still empty file, and closes the writer, which writes the lines. */
    method DeleteGoodFromTxt(id: string) returns (ok: bool)
      modifies this
      ensures Rewrote(DeletedGoodsFile(old(goodsFile), id), ok)
    {
      var goods, read := ReadGoodsFromTxt();
      if !read {
        return false;
      }
      var lines := RemainingLines(goods, id);
      goodsFile := [];
      ok := LoadGoods();
      goodsFile := lines;
    }

    /** `addPurchasedGoodForUser`: appends one line `username,goodId,quantity`. */
    method AddPurchasedGoodForUser(username: string, good: Good, quantity: int)
      modifies this
      ensures purchasesFile == old(purchasesFile) + [PurchaseLine(username, good.id, quantity)]
      ensures goodsFile == old(goodsFile) && goodsList == old(goodsList)
    {
      purchasesFile := purchasesFile + [PurchaseLine(username, good.id, quantity)];
    }

    /** `getPurchasedGoodsByUser`: the user's purchases in file order; `None` where a
        quantity does not parse. */
    method GetPurchasedGoodsByUser(username: string) returns (r: Option<seq<Purchase>>)
      ensures r == PurchasesOf(purchasesFile, username)
    {
      var purchased: seq<Purchase> := [];
      for i := 0 to |purchasesFile|
        invariant PurchasesOf(purchasesFile[..i], username) == Some(purchased)
      {
        var line := purchasesFile[i];
        PurchasesStep(purchasesFile, i, username);
        var values := Split(line);
        if |values| >= 3 && values[0] == username {
          var quantity := ParseInt(values[2]);
          if quantity.None? {
            PurchasesFailLater(purchasesFile, i + 1, username);
            return None;
          }
          purchased := purchased + [Purchase(values[1], quantity.value)];
        } else {
          AppendNothing(purchased);
        }
      }
      TakeAll(purchasesFile);
      r := Some(purchased);
    }

    /** `getGoodsList`: a new list holding the same cached `Good` objects, in order. */
    method GetGoodsList() returns (goods: seq<Good>)
      ensures goods == goodsList
    {
      goods := goodsList;
    }
  }

  /** Reading one more line of the purchases file adds what that line contributes. */
  lemma PurchasesStep(lines: seq<string>, i: int, username: string)
    requires 0 <= i < |lines|
    ensures PurchasesOf(lines[..i + 1], username) ==
            Both(PurchasesOf(lines[..i], username), LinePurchases(lines[i], username))
  {
    TakeOneMore(lines, i);
    PurchasesOfAppend(lines[..i], [lines[i]], username);
    PurchasesOfOne(lines[i], username);
  }

  /** A prefix whose reading throws makes the reading of the whole file throw. */
  lemma PurchasesFailLater(lines: seq<string>, j: int, username: string)
    requires 0 <= j <= |lines| && PurchasesOf(lines[..j], username).None?
    ensures PurchasesOf(lines, username).None?
  {
    var k :| 0 <= k < j && LinePurchases(lines[..j][k], username).None?;
    assert lines[..j][k] == lines[k];
  }

  lemma {:induction false} ReplaceByIdAppend(gs: seq<GoodRecord>, g: GoodRecord, updated: GoodRecord)
    ensures ReplaceById(gs + [g], updated) ==
            ReplaceById(gs, updated) + [if g.id == updated.id then updated else g]
  {
    var r := ReplaceById(gs + [g], updated);
    var s := ReplaceById(gs, updated) + [if g.id == updated.id then updated else g];
    assert |r| == |s|;
    forall i | 0 <= i < |r|
      ensures r[i] == s[i]
    {
      if i < |gs| {
        assert (gs + [g])[i] == gs[i];
      }
    }
  }

  lemma GoodsLinesAppend(gs: seq<GoodRecord>, g: GoodRecord)
    ensures GoodsFile(gs + [g]) == GoodsFile(gs) + [GoodLine(g)]
  {
    assert GoodsLines(gs + [g]) == GoodsLines(gs) + [GoodLine(g)];
  }

  lemma RemoveByIdOne(g: GoodRecord, id: string)
    ensures RemoveById([g], id) == if g.id != id then [g] else []
  {
    assert [g][1..] == [];
  }
}
