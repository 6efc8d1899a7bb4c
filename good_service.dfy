/** The administrator's goods operations of service/GoodService.java: each checks its
    input and only then writes through the store. Console input arrives as parameters;
    the price as the whole number typed, the stock as the text `Integer.parseInt` reads. */
module GoodServices {
  import opened Wrappers
  import opened JavaInt
  import opened Strings
  import opened TxtFormat
  import opened Catalog

  /** The check of `validateGoodData` that failed first. */
  datatype GoodError = BlankId | BlankName | NegativePrice | NegativeStock

  /** `validateGoodData`: the identifier, then the name must not be blank; then the price,
      then the stock must not be negative. The first failure is the error thrown. */
  function ValidateGoodData(id: string, name: string, price: int, stock: int): (r: Option<GoodError>)
    ensures r == None <==> !IsBlank(id) && !IsBlank(name) && price >= 0 && stock >= 0
    ensures r == Some(BlankId) <==> IsBlank(id)
    ensures r == Some(BlankName) <==> !IsBlank(id) && IsBlank(name)
    ensures r == Some(NegativePrice) <==> !IsBlank(id) && !IsBlank(name) && price < 0
  {
    if IsBlank(id) then Some(BlankId)
    else if IsBlank(name) then Some(BlankName)
    else if price < 0 then Some(NegativePrice)
    else if stock < 0 then Some(NegativeStock)
    else None
  }

  /** The checks do not look at the category: a good that passes them but has an empty
      category is written as a line that makes every later read of the goods file throw. */
  lemma ValidGoodMayBreakTheFile(g: GoodRecord)
    requires ValidateGoodData(g.id, g.name, g.price, g.stock).None?
    requires NoComma(g.id) && NoComma(g.name) && NoComma(g.description)
    requires g.category == ""
    ensures ParseGoodLine(GoodLine(g)).None?
  {
    EmptyCategoryUnreadable(g);
  }

  /** A good that passes the checks, has a category and no comma in its text fields is
      read back from the file as written. */
  lemma ValidGoodIsStored(g: GoodRecord)
    requires ValidateGoodData(g.id, g.name, g.price, g.stock).None?
    requires NoComma(g.id) && NoComma(g.name) && NoComma(g.description) && NoComma(g.category)
    requires g.category != "" && IsInt(g.stock)
    ensures ParseGoodLine(GoodLine(g)) == Some(g)
    ensures g.price >= 0 && g.stock >= 0
  {
    GoodLineRoundTrip(g);
  }

  /** How an add or a modify ended. */
  datatype Outcome =
    | NotFound              // modify: no cached good has the identifier
    | NotANumber            // the stock text does not parse (caught and reported)
    | Rejected(e: GoodError) // a check failed (thrown)
    | Written(ok: bool)     // the store was written; `ok` is false when its reload threw

  /** `addGood`: parses the stock, checks the data, and only then appends the good. */
  method AddGood(store: TxtUtil, id: string, name: string, description: string, price: int,
                 stockText: string, category: string) returns (r: Outcome)
    modifies store
    ensures ParseInt(stockText).None? ==> r == NotANumber && unchanged(store)
    ensures ParseInt(stockText).Some? ==>
      var stock := ParseInt(stockText).value;
      match ValidateGoodData(id, name, price, stock)
      case Some(e) => r == Rejected(e) && unchanged(store)
      case None =>
        r.Written? &&
        store.Appended(GoodLine(GoodRecord(id, name, description, price, stock, category)), r.ok)
  {
    var stock := ParseInt(stockText);
    if stock.None? {
      return NotANumber;
    }
    var error := ValidateGoodData(id, name, price, stock.value);
    if error.Some? {
      return Rejected(error.value);
    }
    var ok := Add(store, GoodRecord(id, name, description, price, stock.value, category));
    r := Written(ok);
  }

  /** Builds the good and has the store append it to the goods file. */
  method Add(store: TxtUtil, g: GoodRecord) returns (ok: bool)
    modifies store
    ensures store.Appended(GoodLine(g), ok)
  {
    var good := new Good(g.id, g.name, g.description, g.price, g.stock, g.category);
    ok := store.AddGoodToTxt(good);
  }

  /** The part of `modifyGood` after the good was found: parses the stock, checks the
      data, and only then rewrites the goods with that identifier. */
  method ReplaceGood(store: TxtUtil, id: string, name: string, description: string, price: int,
                     stockText: string, category: string) returns (r: Outcome)
    modifies store
    ensures ParseInt(stockText).None? ==> r == NotANumber && unchanged(store)
    ensures ParseInt(stockText).Some? ==>
      var stock := ParseInt(stockText).value;
      match ValidateGoodData(id, name, price, stock)
      case Some(e) => r == Rejected(e) && unchanged(store)
      case None =>
        r.Written? &&
        store.Rewrote(UpdatedGoodsFile(old(store.goodsFile), GoodRecord(id, name, description, price, stock, category)), r.ok)
  {
    var stock := ParseInt(stockText);
    if stock.None? {
      return NotANumber;
    }
    var error := ValidateGoodData(id, name, price, stock.value);
    if error.Some? {
      return Rejected(error.value);
    }
    var ok := Replace(store, GoodRecord(id, name, description, price, stock.value, category));
    r := Written(ok);
  }

  /** Builds the good and has the store rewrite the goods file with it. */
  method Replace(store: TxtUtil, g: GoodRecord) returns (ok: bool)
    modifies store
    ensures store.Rewrote(UpdatedGoodsFile(old(store.goodsFile), g), ok)
  {
    var good := new Good(g.id, g.name, g.description, g.price, g.stock, g.category);
    ok := store.UpdateGoodInTxt(good);
  }

  /** `modifyGood`: looks the identifier up in the cache; when found, parses the stock,
      checks the data, and only then rewrites the goods file with the new values. */
  method ModifyGood(store: TxtUtil, id: string, name: string, description: string, price: int,
                    stockText: string, category: string) returns (r: Outcome)
    modifies store
    ensures FindById(Values(old(store.goodsList)), id).None? ==> r == NotFound && unchanged(store)
    ensures FindById(Values(old(store.goodsList)), id).Some? && ParseInt(stockText).None? ==>
      r == NotANumber && unchanged(store)
    ensures FindById(Values(old(store.goodsList)), id).Some? && ParseInt(stockText).Some? ==>
      var stock := ParseInt(stockText).value;
      match ValidateGoodData(id, name, price, stock)
      case Some(e) => r == Rejected(e) && unchanged(store)
      case None =>
        r.Written? &&
        store.Rewrote(UpdatedGoodsFile(old(store.goodsFile), GoodRecord(id, name, description, price, stock, category)), r.ok)
  {
    var found := store.GetGoodById(id);
    if found == null {
      return NotFound;
    }
    r := ReplaceGood(store, id, name, description, price, stockText, category);
  }

  /** `deleteGood`: deletes unconditionally; success is reported whenever the store did not
      throw, whether or not a good had the identifier. */
  method DeleteGood(store: TxtUtil, id: string) returns (reported: bool)
    modifies store
    ensures store.Rewrote(DeletedGoodsFile(old(store.goodsFile), id), reported)
  {
    reported := store.DeleteGoodFromTxt(id);
  }
}
