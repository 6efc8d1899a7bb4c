/** The two files of util/TxtUtil.java as values: the goods file (a header line, then one
    comma-joined line per good) and the append-only purchases file, with the whole-list
    transforms that update and delete perform on the goods. */
module TxtFormat {
  import opened Wrappers
  import opened JavaInt
  import opened Strings
  import opened Slices

  /** The six fields of a good. The price, a `double` in the source, is kept as a whole
      number written and read in decimal. */
  datatype GoodRecord = GoodRecord(
    id: string, name: string, description: string, price: int, stock: int, category: string)

  /** The line written before the goods whenever the file is rewritten. */
  const GOODS_HEADER: string := "id,name,description,price,stock,category"

  // ---------------------------------------------------------------- one line

  function GoodFields(g: GoodRecord): seq<string> {
    [g.id, g.name, g.description, IntToString(g.price), IntToString(g.stock), g.category]
  }

  /** `id,name,description,price,stock,category`, as every writer of the file emits it. */
  function GoodLine(g: GoodRecord): string {
    Join(GoodFields(g))
  }

  /** A good whose line reads back as itself: no field holds a comma, the category (the last
      field) is not empty, and the stock fits in an `int`. */
  predicate Writable(g: GoodRecord) {
    && NoComma(g.id) && NoComma(g.name) && NoComma(g.description) && NoComma(g.category)
    && g.category != "" && IsInt(g.stock)
  }

  /** One good from one line: fields 0 to 5 of `split(",")`. `None` where the reader throws:
      fewer than six fields, or a price or stock that does not parse. */
  function ParseGoodLine(line: string): (r: Option<GoodRecord>)
    ensures r.Some? ==> IsInt(r.value.stock)
    ensures r.Some? && r.value.category != "" ==> Writable(r.value)
  {
    var values := Split(line);
    if |values| < 6 then None
    else match (ParseDecimal(values[3]), ParseInt(values[4]))
      case (Some(price), Some(stock)) =>
        Some(GoodRecord(values[0], values[1], values[2], price, stock, values[5]))
      case _ => None
  }

  lemma GoodFieldsNoComma(g: GoodRecord)
    requires NoComma(g.id) && NoComma(g.name) && NoComma(g.description) && NoComma(g.category)
    ensures AllNoComma(GoodFields(g))
  {
    DecimalRoundTrip(g.price);
    DecimalRoundTrip(g.stock);
  }

  /** A writable good survives being written and read back. */
  lemma GoodLineRoundTrip(g: GoodRecord)
    requires Writable(g)
    ensures ParseGoodLine(GoodLine(g)) == Some(g)
  {
    GoodFieldsNoComma(g);
    SplitJoin(GoodFields(g));
    DecimalRoundTrip(g.price);
    DecimalRoundTrip(g.stock);
  }

  /** A good with an empty category is written with a trailing comma, which `split` drops:
      the line then has five fields and reading it throws. */
  lemma EmptyCategoryUnreadable(g: GoodRecord)
    requires NoComma(g.id) && NoComma(g.name) && NoComma(g.description)
    requires g.category == ""
    ensures ParseGoodLine(GoodLine(g)) == None
  {
    GoodFieldsNoComma(g);
    DecimalRoundTrip(g.stock);
    SplitJoinEmptyLast(GoodFields(g));
  }

  // ---------------------------------------------------------------- reading the file

  /** Every line parsed in order; `None` as soon as one line makes the reader throw. */
  function ParseGoodLines(lines: seq<string>): (r: Option<seq<GoodRecord>>)
    ensures r.Some? ==> |r.value| == |lines|
    ensures r.Some? ==> forall i :: 0 <= i < |lines| ==> ParseGoodLine(lines[i]) == Some(r.value[i])
  {
    if lines == [] then Some([])
    else match ParseGoodLine(lines[0])
      case None => None
      case Some(g) =>
        match ParseGoodLines(lines[1..])
        case None => None
        case Some(rest) => Some([g] + rest)
  }

  /** Reading throws only because of some line that does not parse. */
  lemma {:induction false} ParseGoodLinesFails(lines: seq<string>)
    requires ParseGoodLines(lines).None?
    ensures exists i :: 0 <= i < |lines| && ParseGoodLine(lines[i]).None?
  {
    if ParseGoodLine(lines[0]).Some? {
      ParseGoodLinesFails(lines[1..]);
      var i :| 0 <= i < |lines[1..]| && ParseGoodLine(lines[1..][i]).None?;
      assert lines[i + 1] == lines[1..][i];
    }
  }

  predicate SortedByPrice(gs: seq<GoodRecord>) {
    forall i, j :: 0 <= i < j < |gs| ==> gs[i].price <= gs[j].price
  }

  /** Puts `g` in front of the first good that costs at least as much. */
  function InsertByPrice(g: GoodRecord, gs: seq<GoodRecord>): (r: seq<GoodRecord>)
    ensures multiset(r) == multiset(gs) + multiset{g}
  {
    if gs == [] || g.price <= gs[0].price then [g] + gs
    else
      assert gs == [gs[0]] + gs[1..];
      [gs[0]] + InsertByPrice(g, gs[1..])
  }

  /** A good in front of sorted goods that cost at least as much stays sorted. */
  lemma SortedCons(g: GoodRecord, gs: seq<GoodRecord>)
    requires SortedByPrice(gs)
    requires forall i :: 0 <= i < |gs| ==> g.price <= gs[i].price
    ensures SortedByPrice([g] + gs)
  {
    var r := [g] + gs;
    forall i, j | 0 <= i < j < |r|
      ensures r[i].price <= r[j].price
    {
      assert r[j] == gs[j - 1];
      if i > 0 {
        assert r[i] == gs[i - 1];
      }
    }
  }

  /** Inserting keeps every price at least `p` when all were. */
  lemma {:induction false} InsertAbove(g: GoodRecord, gs: seq<GoodRecord>, p: int)
    requires g.price >= p
    requires forall i :: 0 <= i < |gs| ==> gs[i].price >= p
    ensures forall i :: 0 <= i < |InsertByPrice(g, gs)| ==> InsertByPrice(g, gs)[i].price >= p
  {
    var r := InsertByPrice(g, gs);
    if gs == [] || g.price <= gs[0].price {
      forall i | 0 <= i < |r|
        ensures r[i].price >= p
      {
        if i > 0 {
          assert r[i] == gs[i - 1];
        }
      }
    } else {
      InsertAbove(g, gs[1..], p);
      var rest := InsertByPrice(g, gs[1..]);
      assert r == [gs[0]] + rest;
      forall i | 0 <= i < |r|
        ensures r[i].price >= p
      {
        if i > 0 {
          assert r[i] == rest[i - 1];
          assert rest[i - 1].price >= p;
        }
      }
    }
  }

  lemma {:induction false} InsertKeepsSorted(g: GoodRecord, gs: seq<GoodRecord>)
    requires SortedByPrice(gs)
    ensures SortedByPrice(InsertByPrice(g, gs))
  {
    if gs == [] || g.price <= gs[0].price {
      SortedCons(g, gs);
    } else {
      var tail := gs[1..];
      assert SortedByPrice(tail);
      InsertKeepsSorted(g, tail);
      assert forall i :: 0 <= i < |tail| ==> tail[i] == gs[i + 1];
      InsertAbove(g, tail, gs[0].price);
      var rest := InsertByPrice(g, tail);
      assert forall i :: 0 <= i < |rest| ==> gs[0].price <= rest[i].price;
      SortedCons(gs[0], rest);
    }
  }

  /** `goods.sort(Comparator.comparingDouble(Good::getPrice))`: a stable sort by price. */
  function SortByPrice(gs: seq<GoodRecord>): (r: seq<GoodRecord>)
    ensures SortedByPrice(r)
    ensures multiset(r) == multiset(gs)
  {
    if gs == [] then []
    else
      assert gs == [gs[0]] + gs[1..];
      InsertKeepsSorted(gs[0], SortByPrice(gs[1..]));
      InsertByPrice(gs[0], SortByPrice(gs[1..]))
  }

  /** The goods that cost exactly `price`, in list order. */
  function AtPrice(gs: seq<GoodRecord>, price: int): seq<GoodRecord> {
    if gs == [] then []
    else (if gs[0].price == price then [gs[0]] else []) + AtPrice(gs[1..], price)
  }

  lemma AtPriceCons(g: GoodRecord, gs: seq<GoodRecord>, price: int)
    ensures AtPrice([g] + gs, price) == (if g.price == price then [g] else []) + AtPrice(gs, price)
  {
    assert ([g] + gs)[1..] == gs;
  }

  lemma {:induction false} InsertKeepsTies(g: GoodRecord, gs: seq<GoodRecord>, price: int)
    ensures AtPrice(InsertByPrice(g, gs), price) ==
            (if g.price == price then [g] else []) + AtPrice(gs, price)
  {
    if gs == [] || g.price <= gs[0].price {
      AtPriceCons(g, gs, price);
    } else {
      var rest := InsertByPrice(g, gs[1..]);
      InsertKeepsTies(g, gs[1..], price);
      AtPriceCons(gs[0], rest, price);
      assert gs == [gs[0]] + gs[1..];
      AtPriceCons(gs[0], gs[1..], price);
      var mine := if g.price == price then [g] else [];
      var first := if gs[0].price == price then [gs[0]] else [];
      assert mine == [] || first == [];
      AppendAssoc(first, mine, AtPrice(gs[1..], price));
      AppendAssoc(mine, first, AtPrice(gs[1..], price));
    }
  }

  /** The sort is stable: goods of equal price keep their relative order. */
  lemma {:induction false} SortIsStable(gs: seq<GoodRecord>, price: int)
    ensures AtPrice(SortByPrice(gs), price) == AtPrice(gs, price)
  {
    if gs != [] {
      SortIsStable(gs[1..], price);
      InsertKeepsTies(gs[0], SortByPrice(gs[1..]), price);
    }
  }

  /** `readGoodsFromTxt`: the first line is skipped, every other line becomes one good, and
      the list is sorted by price. `None` where a line makes it throw. */
  function ReadGoods(lines: seq<string>): (r: Option<seq<GoodRecord>>)
  {
    if lines == [] then Some([])
    else match ParseGoodLines(lines[1..])
      case Some(gs) => Some(SortByPrice(gs))
      case None => None
  }

  /** What a successful read returns: one good per line after the first, parsed from that
      line, in ascending price order. */
  lemma ReadGoodsShape(lines: seq<string>)
    requires lines != [] && ReadGoods(lines).Some?
    ensures var gs := ParseGoodLines(lines[1..]);
      && gs.Some?
      && |ReadGoods(lines).value| == |lines| - 1
      && SortedByPrice(ReadGoods(lines).value)
      && multiset(ReadGoods(lines).value) == multiset(gs.value)
  {
    var gs := ParseGoodLines(lines[1..]).value;
    assert |multiset(SortByPrice(gs))| == |multiset(gs)|;
  }

  // ---------------------------------------------------------------- lookup

  /** Index of the first good with identifier `id`. */
  function FindById(gs: seq<GoodRecord>, id: string): (r: Option<nat>)
    ensures r.None? <==> forall i :: 0 <= i < |gs| ==> gs[i].id != id
    ensures r.Some? ==> r.value < |gs| && gs[r.value].id == id
    ensures r.Some? ==> forall j :: 0 <= j < r.value ==> gs[j].id != id
  {
    if gs == [] then None
    else if gs[0].id == id then Some(0)
    else match FindById(gs[1..], id)
      case None => None
      case Some(k) => Some(k + 1)
  }

  // ---------------------------------------------------------------- whole-file rewrites

  function GoodsLines(gs: seq<GoodRecord>): (r: seq<string>)
    ensures |r| == |gs|
    ensures forall i :: 0 <= i < |gs| ==> r[i] == GoodLine(gs[i])
  {
    if gs == [] then [] else [GoodLine(gs[0])] + GoodsLines(gs[1..])
  }

  /** The file as `updateGoodInTxt` and `deleteGoodFromTxt` write it: header, then goods. */
  function GoodsFile(gs: seq<GoodRecord>): seq<string> {
    [GOODS_HEADER] + GoodsLines(gs)
  }

  /** Every good with the updated good's identifier is replaced by it. */
  function ReplaceById(gs: seq<GoodRecord>, updated: GoodRecord): (r: seq<GoodRecord>)
    ensures |r| == |gs|
    ensures forall i :: 0 <= i < |gs| ==> r[i] == (if gs[i].id == updated.id then updated else gs[i])
  {
    if gs == [] then []
    else [if gs[0].id == updated.id then updated else gs[0]] + ReplaceById(gs[1..], updated)
  }

  /** The goods whose identifier differs from `id`, in their order. */
  function RemoveById(gs: seq<GoodRecord>, id: string): (r: seq<GoodRecord>)
    ensures |r| <= |gs|
    ensures forall g :: g in r <==> g in gs && g.id != id
  {
    if gs == [] then []
    else (if gs[0].id != id then [gs[0]] else []) + RemoveById(gs[1..], id)
  }

  /** Removal works line by line: it distributes over concatenation, so order is kept. */
  lemma {:induction false} RemoveByIdAppend(a: seq<GoodRecord>, b: seq<GoodRecord>, id: string)
    ensures RemoveById(a + b, id) == RemoveById(a, id) + RemoveById(b, id)
  {
    if a == [] {
      assert a + b == b;
    } else {
      assert (a + b)[0] == a[0];
      assert (a + b)[1..] == a[1..] + b;
      RemoveByIdAppend(a[1..], b, id);
    }
  }

  /** Removing an identifier that no good has changes nothing. */
  lemma {:induction false} RemoveAbsentId(gs: seq<GoodRecord>, id: string)
    requires FindById(gs, id).None?
    ensures RemoveById(gs, id) == gs
  {
    if gs != [] {
      RemoveAbsentId(gs[1..], id);
    }
  }

  /** What `updateGoodInTxt(updated)` writes over `lines`; `None` where reading throws. */
  function UpdatedGoodsFile(lines: seq<string>, updated: GoodRecord): Option<seq<string>> {
    match ReadGoods(lines)
    case Some(gs) => Some(GoodsFile(ReplaceById(gs, updated)))
    case None => None
  }

  /** What `deleteGoodFromTxt(id)` writes over `lines`; `None` where reading throws. */
  function DeletedGoodsFile(lines: seq<string>, id: string): Option<seq<string>> {
    match ReadGoods(lines)
    case Some(gs) => Some(GoodsFile(RemoveById(gs, id)))
    case None => None
  }

  // ---------------------------------------------------------------- round trips

  predicate AllWritable(gs: seq<GoodRecord>) {
    forall i :: 0 <= i < |gs| ==> Writable(gs[i])
  }

  lemma {:induction false} ParseGoodsLines(gs: seq<GoodRecord>)
    requires AllWritable(gs)
    ensures ParseGoodLines(GoodsLines(gs)) == Some(gs)
  {
    if gs != [] {
      GoodLineRoundTrip(gs[0]);
      ParseGoodsLines(gs[1..]);
      ParseGoodLinesCons(GoodLine(gs[0]), GoodsLines(gs[1..]), gs[0], gs[1..]);
      assert GoodsLines(gs) == [GoodLine(gs[0])] + GoodsLines(gs[1..]);
      assert gs == [gs[0]] + gs[1..];
    }
  }

  /** One parsed line in front of parsed lines. */
  lemma ParseGoodLinesCons(line: string, rest: seq<string>, g: GoodRecord, gs: seq<GoodRecord>)
    requires ParseGoodLine(line) == Some(g) && ParseGoodLines(rest) == Some(gs)
    ensures ParseGoodLines([line] + rest) == Some([g] + gs)
  {
    assert ([line] + rest)[0] == line;
    assert ([line] + rest)[1..] == rest;
  }

  /** A rewritten file of writable goods reads back as those goods, sorted by price. */
  lemma GoodsFileRoundTrip(gs: seq<GoodRecord>)
    requires AllWritable(gs)
    ensures ReadGoods(GoodsFile(gs)) == Some(SortByPrice(gs))
  {
    ParseGoodsLines(gs);
    assert GoodsFile(gs)[1..] == GoodsLines(gs);
  }

  /** A line appended by `addGoodToTxt` is read back as one more good, provided the file
      already has its header line. */
  lemma AppendedGoodIsRead(lines: seq<string>, g: GoodRecord)
    requires lines != [] && Writable(g)
    requires ParseGoodLines(lines[1..]).Some?
    ensures ReadGoods(lines + [GoodLine(g)]) ==
            Some(SortByPrice(ParseGoodLines(lines[1..]).value + [g]))
  {
    var longer := lines + [GoodLine(g)];
    assert longer[1..] == lines[1..] + [GoodLine(g)];
    GoodLineRoundTrip(g);
    ParseLinesAppend(lines[1..], GoodLine(g));
    assert ParseGoodLines(longer[1..]) == Some(ParseGoodLines(lines[1..]).value + [g]);
  }

  lemma {:induction false} ParseLinesAppend(lines: seq<string>, line: string)
    requires ParseGoodLines(lines).Some? && ParseGoodLine(line).Some?
    ensures ParseGoodLines(lines + [line]) == Some(ParseGoodLines(lines).value + [ParseGoodLine(line).value])
  {
    var x := ParseGoodLine(line).value;
    if lines == [] {
      AppendNothing([line]);
      AppendNothing([x]);
      ParseGoodLinesCons(line, [], x, []);
      assert lines + [line] == [line];
      assert ParseGoodLines(lines).value + [x] == [x];
    } else {
      var g := ParseGoodLine(lines[0]).value;
      var rest := ParseGoodLines(lines[1..]).value;
      ParseLinesAppend(lines[1..], line);
      ParseGoodLinesCons(lines[0], lines[1..] + [line], g, rest + [x]);
      SplitFirst(lines);
      AppendAssoc([lines[0]], lines[1..], [line]);
      AppendAssoc([g], rest, [x]);
    }
  }

  /** On a file with no line at all, the first good appended becomes the skipped header. */
  lemma FirstLineIsNeverAGood(g: GoodRecord)
    ensures ReadGoods([GoodLine(g)]) == Some([])
  {
  }

  /** Adding a good with a fresh identifier and reading the file again, the lookup by that
      identifier finds exactly the good that was added. */
  lemma AddThenFind(lines: seq<string>, g: GoodRecord)
    requires lines != [] && Writable(g)
    requires ReadGoods(lines).Some? && FindById(ReadGoods(lines).value, g.id).None?
    ensures ReadGoods(lines + [GoodLine(g)]).Some?
    ensures var r := ReadGoods(lines + [GoodLine(g)]).value;
      FindById(r, g.id).Some? && r[FindById(r, g.id).value] == g
  {
    var before := ParseGoodLines(lines[1..]).value;
    AppendedGoodIsRead(lines, g);
    var r := SortByPrice(before + [g]);
    assert multiset(r) == multiset(before) + multiset{g};
    assert g in multiset(r);
    assert g in r;
    var k := FindById(r, g.id).value;
    var old_ := ReadGoods(lines).value;
    assert multiset(old_) == multiset(before);
    assert forall x :: x in before ==> x in multiset(old_) && x.id != g.id;
    assert r[k] in multiset(before) + multiset{g};
  }

  /** Sorting keeps the goods and their number. */
  lemma SortKeepsMembers(gs: seq<GoodRecord>)
    ensures |SortByPrice(gs)| == |gs|
    ensures forall g :: g in SortByPrice(gs) <==> g in gs
  {
    var r := SortByPrice(gs);
    assert |multiset(r)| == |multiset(gs)|;
    forall g
      ensures g in r <==> g in gs
    {
      assert g in r <==> g in multiset(r);
      assert g in gs <==> g in multiset(gs);
    }
  }

  /** Once the updated identifier is present, the sorted replacement holds the updated good
      under that identifier, first and every time. */
  lemma ReplaceThenSortFinds(gs: seq<GoodRecord>, updated: GoodRecord)
    requires FindById(gs, updated.id).Some?
    ensures var after := SortByPrice(ReplaceById(gs, updated));
      FindById(after, updated.id).Some? && after[FindById(after, updated.id).value] == updated
  {
    var replaced := ReplaceById(gs, updated);
    var after := SortByPrice(replaced);
    SortKeepsMembers(replaced);
    var k := FindById(gs, updated.id).value;
    assert replaced[k] == updated;
    assert updated in after;
    var j := FindById(after, updated.id).value;
    assert after[j] in replaced;
  }

  /** After an update of writable goods, reading the file again gives as many goods as
      before, and the lookup by the updated identifier finds the updated good exactly when
      that identifier was there before. */
  lemma UpdateThenRead(lines: seq<string>, updated: GoodRecord)
    requires ReadGoods(lines).Some? && AllWritable(ReadGoods(lines).value) && Writable(updated)
    ensures UpdatedGoodsFile(lines, updated).Some?
    ensures var after := ReadGoods(UpdatedGoodsFile(lines, updated).value);
      && after.Some?
      && |after.value| == |ReadGoods(lines).value|
      && (FindById(ReadGoods(lines).value, updated.id).Some? ==>
            FindById(after.value, updated.id).Some? &&
            after.value[FindById(after.value, updated.id).value] == updated)
  {
    var gs := ReadGoods(lines).value;
    var replaced := ReplaceById(gs, updated);
    assert AllWritable(replaced);
    GoodsFileRoundTrip(replaced);
    SortKeepsMembers(replaced);
    if FindById(gs, updated.id).Some? {
      ReplaceThenSortFinds(gs, updated);
    }
  }

  /** After a delete, reading the file again gives exactly the goods with another
      identifier; none has the deleted one. */
  lemma DeleteThenRead(lines: seq<string>, id: string)
    requires ReadGoods(lines).Some? && AllWritable(ReadGoods(lines).value)
    ensures DeletedGoodsFile(lines, id).Some?
    ensures var after := ReadGoods(DeletedGoodsFile(lines, id).value);
      && after.Some?
      && FindById(after.value, id).None?
      && forall g :: g in after.value <==> g in ReadGoods(lines).value && g.id != id
  {
    var gs := ReadGoods(lines).value;
    var kept := RemoveById(gs, id);
    forall i | 0 <= i < |kept|
      ensures Writable(kept[i])
    {
      assert kept[i] in gs;
    }
    GoodsFileRoundTrip(kept);
    SortKeepsMembers(kept);
  }

  // ---------------------------------------------------------------- purchases

  /** One purchase as `getPurchasedGoodsByUser` reports it. */
  datatype Purchase = Purchase(goodId: string, quantity: int)

  /** `username,goodId,quantity`, as `addPurchasedGoodForUser` appends it. */
  function PurchaseLine(username: string, goodId: string, quantity: int): string {
    Join([username, goodId, IntToString(quantity)])
  }

  /** The purchase on one line when it belongs to `username`: at least three fields and
      the first equal to the user name. */
  predicate IsPurchaseOf(line: string, username: string) {
    var values := Split(line);
    |values| >= 3 && values[0] == username
  }

  /** Both lists, one after the other; `None` if either read threw. */
  function Both(a: Option<seq<Purchase>>, b: Option<seq<Purchase>>): Option<seq<Purchase>> {
    if a.Some? && b.Some? then Some(a.value + b.value) else None
  }

  /** What one line contributes: its purchase when it is the user's, nothing otherwise;
      `None` when the quantity does not parse and `Integer.parseInt` throws. */
  function LinePurchases(line: string, username: string): Option<seq<Purchase>> {
    var values := Split(line);
    if IsPurchaseOf(line, username) then
      match ParseInt(values[2])
      case Some(q) => Some([Purchase(values[1], q)])
      case None => None
    else Some([])
  }

  /** `getPurchasedGoodsByUser`: the user's purchases in file order. It throws exactly when
      one of the user's lines has a quantity that does not parse; otherwise every purchase
      reported is the purchase of one of the lines. */
  function PurchasesOf(lines: seq<string>, username: string): (r: Option<seq<Purchase>>)
    ensures r.None? <==> exists i :: 0 <= i < |lines| && LinePurchases(lines[i], username).None?
    ensures r.Some? ==> |r.value| <= |lines|
    ensures r.Some? ==> forall p :: p in r.value ==>
      exists i :: 0 <= i < |lines| && LinePurchases(lines[i], username) == Some([p])
  {
    if lines == [] then Some([])
    else
      var tail := PurchasesOf(lines[1..], username);
      assert forall j :: 0 <= j < |lines| - 1 ==> lines[1..][j] == lines[j + 1];
      Both(LinePurchases(lines[0], username), tail)
  }

  lemma BothAssociates(a: Option<seq<Purchase>>, b: Option<seq<Purchase>>, c: Option<seq<Purchase>>)
    ensures Both(a, Both(b, c)) == Both(Both(a, b), c)
  {
    if a.Some? && b.Some? && c.Some? {
      assert a.value + (b.value + c.value) == (a.value + b.value) + c.value;
    }
  }

  lemma {:induction false} PurchasesOfAppend(lines: seq<string>, more: seq<string>, username: string)
    ensures PurchasesOf(lines + more, username) ==
            Both(PurchasesOf(lines, username), PurchasesOf(more, username))
  {
    if lines == [] {
      assert lines + more == more;
      if PurchasesOf(more, username).Some? {
        assert [] + PurchasesOf(more, username).value == PurchasesOf(more, username).value;
      }
    } else {
      var first := LinePurchases(lines[0], username);
      assert (lines + more)[0] == lines[0];
      assert (lines + more)[1..] == lines[1..] + more;
      assert PurchasesOf(lines + more, username) == Both(first, PurchasesOf(lines[1..] + more, username));
      PurchasesOfAppend(lines[1..], more, username);
      BothAssociates(first, PurchasesOf(lines[1..], username), PurchasesOf(more, username));
    }
  }

  /** A file of one line holds what that line contributes. */
  lemma PurchasesOfOne(line: string, username: string)
    ensures PurchasesOf([line], username) == LinePurchases(line, username)
  {
    assert [line][1..] == [];
    match LinePurchases(line, username)
    case Some(ps) => assert ps + [] == ps;
    case None =>
  }

  /** An appended purchase line is reported to its user as the last purchase, and to no
      other user. */
  lemma PurchaseLineRoundTrip(lines: seq<string>, username: string, goodId: string, quantity: int, other: string)
    requires NoComma(username) && NoComma(goodId) && IsInt(quantity)
    requires other != username
    ensures PurchasesOf(lines + [PurchaseLine(username, goodId, quantity)], username) ==
            Both(PurchasesOf(lines, username), Some([Purchase(goodId, quantity)]))
    ensures PurchasesOf(lines + [PurchaseLine(username, goodId, quantity)], other) ==
            PurchasesOf(lines, other)
  {
    var fields := [username, goodId, IntToString(quantity)];
    DecimalRoundTrip(quantity);
    SplitJoin(fields);
    var line := PurchaseLine(username, goodId, quantity);
    PurchasesOfAppend(lines, [line], username);
    PurchasesOfAppend(lines, [line], other);
    assert [line][1..] == [];
    assert LinePurchases(line, other) == Some([]);
    assert LinePurchases(line, username) == Some([Purchase(goodId, quantity)]);
    assert PurchasesOf([line], username) == Some([Purchase(goodId, quantity)] + []);
    assert [Purchase(goodId, quantity)] + [] == [Purchase(goodId, quantity)];
    if PurchasesOf(lines, other).Some? {
      assert PurchasesOf(lines, other).value + [] == PurchasesOf(lines, other).value;
    }
  }
}
