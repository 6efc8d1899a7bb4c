# Console shop: inventory, cart and flat-file stores

A Dafny model of the core of a Java console shop: the goods catalogue with its stock
counters, the shopper's session cart, and the three comma-separated text files the shop keeps
(goods, users and administrators, plus the purchase log), with the validators that guard them
and the hexadecimal encoder of the user model.

Each file of the model follows one Java class:

| Dafny file | Java source | form |
|---|---|---|
| `catalog.dfy` | `model/Good.java`, `util/TxtUtil.java` | classes `Good` (fields updated in place) and `TxtUtil` (the goods file, the purchases file and the `goodsList` cache as fields) |
| `txt_format.dfy` | `util/TxtUtil.java` | the goods and purchases line formats, the price sort, and the whole-file transforms, as functions with lemmas |
| `user.dfy` | `model/User.java` | class `User`; `bytesToHex` as a method filling an array, proved equal to the encoding `Hex` |
| `user_util.dfy` | `util/UserUtil.java` | the users file as a field of class `UserUtil`; reads, lookups and rewrites as methods with loops, each proved against a function on records |
| `admin_util.dfy` | `util/AdminUtil.java` | the administrators file as a field of class `AdminUtil` |
| `good_service.dfy` | `service/GoodService.java` | `validateGoodData`, and `addGood`/`modifyGood`/`deleteGood` as methods on the store |
| `user_service.dfy` | `service/UserService.java` | classes `UserService` (logged-in user and cart) and `CartItem` |
| `strings.dfy`, `java_int.dfy`, `wrappers.dfy` | (Java library behaviour) | `String.split(",")`, `trim()`, `Integer.parseInt` and decimal printing, 32-bit `int` arithmetic, `Option` and small sequence lemmas |

Files are sequences of lines held in a store object; console input arrives as method
parameters. An exception that escapes an operation is modelled as a failure result (`None`, an
`ok == false` flag, or an error value), together with what had been written before it was
thrown.

Behaviours of the source that the model keeps as written, and proves:

- `Good.addStock` and `CartItem.addStock` only add when the quantity is at least the current
  stock (`AddedStock`). So `modifyGoodOfCart` raises a cart line only when the new quantity is
  at least twice the old one (`Shop.SingleEntryModify`). Even then the good's stock is lowered
  by the difference whenever it suffices. `addStock` of a large quantity wraps the stock to a
  negative value (`Catalog.AddStockOverflows`).
- `modifyGoodOfCart` edits the first cart item for the identifier. It compares the new quantity
  with the quantity of the last item for the identifier (`Shop.Plan`). Setting 0 removes the
  item without returning its units to the store.
- `addGoodToCart` never merges: a second add of the same good makes a second item.
- `readGoodsFromTxt` sorts by price, so `updateGoodInTxt` and `deleteGoodFromTxt` write the
  goods back in price order, not file order (`TxtFormat.GoodsFileRoundTrip`).
- `split(",")` drops trailing empty fields. So a good with an empty category is written as a
  line that the goods reader refuses (`TxtFormat.EmptyCategoryUnreadable`), and
  `validateGoodData` does not prevent it (`GoodServices.ValidGoodMayBreakTheFile`). A user with
  an empty phone is silently not read back (`Users.EmptyPhoneIsDropped`).
- The administrator reader does not skip a header, yet the delete writes one. After a delete,
  an administrator `username` with password `password` is read first
  (`Admins.DeleteThenRead`).
- `deleteGood` reports success even for an identifier that is not stored.
- `loadGoods` runs inside the writer's `try` block, so it runs before the writer is closed and
  its text is flushed. `addGoodToTxt` therefore reloads the cache from the file as it was,
  without the new good (`Catalog.TxtUtil.AddGoodToTxt`). The writers of `updateGoodInTxt` and
  `deleteGoodFromTxt` empty the file when they open, so those methods leave the cache empty
  (`Catalog.TxtUtil.UpdateGoodInTxt`). Every stock change then empties the cache too, and so
  do a modify and a delete. After any of these, `getGoodById` finds nothing until the next
  `loadGoods`.

Where the cart methods need the cached good `getGoodById` returns, or the first and last cart
items for an identifier, they use the functions `Lookup`, `FirstEntry` and `LastQuantity`.
The loops of the source are modelled as separate methods proved equal to those functions:
`TxtUtil.GetGoodById`, `UserService.GetGoodCtId` and `HeldQuantity`.

## Model

| member | source | states |
|---|---|---|
| Catalog.Good.constructor | Console-Based_E-Commerce-_Javase_1.0-master-1/src/main/com/model/Good.java:39-46 | the six fields hold the arguments as given |
| Catalog.Good.SetId | Console-Based_E-Commerce-_Javase_1.0-master-1/src/main/com/model/Good.java:60-62 | the identifier becomes the argument; every other field is as before |
| Catalog.Good.SetName | Console-Based_E-Commerce-_Javase_1.0-master-1/src/main/com/model/Good.java:76-78 | the name becomes the argument; every other field is as before |
| Catalog.Good.SetDescription | Console-Based_E-Commerce-_Javase_1.0-master-1/src/main/com/model/Good.java:92-94 | the description becomes the argument; every other field is as before |
| Catalog.Good.SetPrice | Console-Based_E-Commerce-_Javase_1.0-master-1/src/main/com/model/Good.java:108-110 | the price becomes the argument; every other field is as before |
| Catalog.Good.SetStock | Console-Based_E-Commerce-_Javase_1.0-master-1/src/main/com/model/Good.java:124-126 | the stock becomes the argument; every other field is as before |
| Catalog.Good.SetCategory | Console-Based_E-Commerce-_Javase_1.0-master-1/src/main/com/model/Good.java:140-142 | the category becomes the argument; every other field is as before |
| Catalog.Good.ReduceStock | Console-Based_E-Commerce-_Javase_1.0-master-1/src/main/com/model/Good.java:149-156 | with `quantity <= stock` the stock drops by `quantity` (32-bit) and the goods file is rewritten with this good as `updateGoodInTxt` does, leaving the cache empty; otherwise stock and store are untouched; no other field changes |
| Catalog.Good.AddStock | Console-Based_E-Commerce-_Javase_1.0-master-1/src/main/com/model/Good.java:163-168 | only when `quantity >= stock` (the guard as written) the stock rises by `quantity` (32-bit) and the goods file is rewritten, leaving the cache empty; otherwise stock and store are untouched; no other field changes |
| Catalog.StockStaysNonNegative | Console-Based_E-Commerce-_Javase_1.0-master-1/src/main/com/model/Good.java:149-168 | from a non-negative stock, both updates leave a non-negative stock whenever the exact result fits in an `int` |
| Catalog.AddStockOverflows | Console-Based_E-Commerce-_Javase_1.0-master-1/src/main/com/model/Good.java:163-165 | `addStock(Integer.MAX_VALUE)` on a stock of 1 wraps the stock to `Integer.MIN_VALUE` |
| Catalog.ReducedStockExact | Console-Based_E-Commerce-_Javase_1.0-master-1/src/main/com/model/Good.java:150-154 | a non-negative quantity up to the stock lowers it by exactly that quantity; a larger one leaves it unchanged |
| UserModel.User.constructor | Console-Based_E-Commerce-_Javase_1.0-master-1/src/main/com/model/User.java:31-36 | the four fields hold the arguments as given |
| UserModel.User.SetUsername | Console-Based_E-Commerce-_Javase_1.0-master-1/src/main/com/model/User.java:50-52 | only the user name changes |
| UserModel.User.SetPassword | Console-Based_E-Commerce-_Javase_1.0-master-1/src/main/com/model/User.java:66-68 | only the password changes |
| UserModel.User.SetEmail | Console-Based_E-Commerce-_Javase_1.0-master-1/src/main/com/model/User.java:82-84 | only the email changes |
| UserModel.User.SetPhone | Console-Based_E-Commerce-_Javase_1.0-master-1/src/main/com/model/User.java:98-100 | only the phone changes |
| UserModel.User.Login | Console-Based_E-Commerce-_Javase_1.0-master-1/src/main/com/model/User.java:108-110 | true exactly when the stored password equals the input |
| UserModel.Unsigned | Console-Based_E-Commerce-_Javase_1.0-master-1/src/main/com/model/User.java:153-157 | a byte's value as used for the digits: in 0..255 and congruent to the byte modulo 256 (a negative byte `b` gives `256 + b`) |
| UserModel.Hex | Console-Based_E-Commerce-_Javase_1.0-master-1/src/main/com/model/User.java:147-162 | the encoding is twice as long as the input and uses only `0123456789abcdef` |
| UserModel.HexAt | Console-Based_E-Commerce-_Javase_1.0-master-1/src/main/com/model/User.java:152-159 | position `2i` holds the high digit and `2i+1` the low digit of byte `i` |
| UserModel.BytesToHex | Console-Based_E-Commerce-_Javase_1.0-master-1/src/main/com/model/User.java:147-162 | the loop filling the character buffer returns exactly the encoding |
| UserModel.HexFromDigits | Console-Based_E-Commerce-_Javase_1.0-master-1/src/main/com/model/User.java:152-160 | any string of the right length with the right two digits per byte is the encoding |
| UserModel.HighLowValue | Console-Based_E-Commerce-_Javase_1.0-master-1/src/main/com/model/User.java:158-159 | the two digits of a byte read back as its unsigned value |
| UserModel.HexInjective | Console-Based_E-Commerce-_Javase_1.0-master-1/src/main/com/model/User.java:147-162 | two byte strings with the same encoding are equal: the encoding loses nothing |
| TxtFormat.ParseGoodLine | Console-Based_E-Commerce-_Javase_1.0-master-1/src/main/com/util/TxtUtil.java:47-53 | a good that parses has an `int` stock, and is writable back whenever its category is non-empty |
| TxtFormat.GoodLineRoundTrip | Console-Based_E-Commerce-_Javase_1.0-master-1/src/main/com/util/TxtUtil.java:86 | the line written for a good without commas and with a category parses back to the same good |
| TxtFormat.EmptyCategoryUnreadable | Console-Based_E-Commerce-_Javase_1.0-master-1/src/main/com/util/TxtUtil.java:86 | a good with an empty category is written as a line that cannot be read back (the trailing empty field is dropped by the split) |
| TxtFormat.ParseGoodLines | Console-Based_E-Commerce-_Javase_1.0-master-1/src/main/com/util/TxtUtil.java:46-57 | a successful parse gives one good per line, each the parse of its own line |
| TxtFormat.ParseGoodLinesFails | Console-Based_E-Commerce-_Javase_1.0-master-1/src/main/com/util/TxtUtil.java:46-57 | a failed parse has a line that does not parse |
| TxtFormat.InsertByPrice | Console-Based_E-Commerce-_Javase_1.0-master-1/src/main/com/util/TxtUtil.java:58 | one insertion step of the sort keeps the goods as a multiset |
| TxtFormat.InsertKeepsSorted | Console-Based_E-Commerce-_Javase_1.0-master-1/src/main/com/util/TxtUtil.java:58 | inserting into a price-sorted list keeps it sorted |
| TxtFormat.SortByPrice | Console-Based_E-Commerce-_Javase_1.0-master-1/src/main/com/util/TxtUtil.java:58 | the result is sorted by ascending price and is a permutation of the input |
| TxtFormat.SortIsStable | Console-Based_E-Commerce-_Javase_1.0-master-1/src/main/com/util/TxtUtil.java:58 | goods of equal price keep their relative order, as the list sort does |
| TxtFormat.ReadGoodsShape | Console-Based_E-Commerce-_Javase_1.0-master-1/src/main/com/util/TxtUtil.java:41-63 | a successful read skips exactly the first line, gives one good per remaining line, sorted by price, a permutation of the parsed lines |
| TxtFormat.FindById | Console-Based_E-Commerce-_Javase_1.0-master-1/src/main/com/util/TxtUtil.java:70-77 | the index of the first good with that identifier; none exactly when no good has it |
| TxtFormat.GoodsLines | Console-Based_E-Commerce-_Javase_1.0-master-1/src/main/com/util/TxtUtil.java:104-111 | one line per good, each the good's own line |
| TxtFormat.ReplaceById | Console-Based_E-Commerce-_Javase_1.0-master-1/src/main/com/util/TxtUtil.java:104-111 | same length and order; every good with the updated identifier is replaced, every other good is kept |
| TxtFormat.RemoveById | Console-Based_E-Commerce-_Javase_1.0-master-1/src/main/com/util/TxtUtil.java:128-133 | exactly the goods with another identifier remain |
| TxtFormat.RemoveByIdAppend | Console-Based_E-Commerce-_Javase_1.0-master-1/src/main/com/util/TxtUtil.java:128-133 | the filter works line by line: it distributes over concatenation |
| TxtFormat.RemoveAbsentId | Console-Based_E-Commerce-_Javase_1.0-master-1/src/main/com/util/TxtUtil.java:128-133 | deleting an identifier no good has keeps the list as it is |
| TxtFormat.ParseGoodsLines | Console-Based_E-Commerce-_Javase_1.0-master-1/src/main/com/util/TxtUtil.java:104-111 | the lines written for writable goods parse back to those goods |
| TxtFormat.GoodsFileRoundTrip | Console-Based_E-Commerce-_Javase_1.0-master-1/src/main/com/util/TxtUtil.java:102-111 | a rewritten goods file (header then goods) reads back as those goods sorted by price |
| TxtFormat.AppendedGoodIsRead | Console-Based_E-Commerce-_Javase_1.0-master-1/src/main/com/util/TxtUtil.java:84-88 | after appending a writable good's line, the read gives the old goods plus that good, sorted |
| TxtFormat.FirstLineIsNeverAGood | Console-Based_E-Commerce-_Javase_1.0-master-1/src/main/com/util/TxtUtil.java:45 | the first line is skipped even when it is a good's line |
| TxtFormat.AddThenFind | Console-Based_E-Commerce-_Javase_1.0-master-1/src/main/com/util/TxtUtil.java:84-88 | after adding a writable good with a new identifier, the lookup by that identifier finds exactly that good |
| TxtFormat.SortKeepsMembers | Console-Based_E-Commerce-_Javase_1.0-master-1/src/main/com/util/TxtUtil.java:58 | sorting keeps the length and the members |
| TxtFormat.ReplaceThenSortFinds | Console-Based_E-Commerce-_Javase_1.0-master-1/src/main/com/util/TxtUtil.java:104-112 | after replacing and sorting, the lookup by the identifier finds the updated good |
| TxtFormat.UpdateThenRead | Console-Based_E-Commerce-_Javase_1.0-master-1/src/main/com/util/TxtUtil.java:99-116 | after an update, the goods read back are as many as before, and the updated identifier finds the updated good when it was there |
| TxtFormat.DeleteThenRead | Console-Based_E-Commerce-_Javase_1.0-master-1/src/main/com/util/TxtUtil.java:123-138 | after a delete, the goods read back are exactly the old ones with another identifier; none has the deleted one |
| TxtFormat.PurchasesOf | Console-Based_E-Commerce-_Javase_1.0-master-1/src/main/com/util/TxtUtil.java:162-178 | fails exactly when one of the user's lines has a quantity that does not parse; otherwise at most one purchase per line, each the purchase of one of the user's lines |
| TxtFormat.PurchasesOfAppend | Console-Based_E-Commerce-_Javase_1.0-master-1/src/main/com/util/TxtUtil.java:162-178 | the read works line by line: the purchases of a concatenation are those of each part, in order |
| TxtFormat.PurchaseLineRoundTrip | Console-Based_E-Commerce-_Javase_1.0-master-1/src/main/com/util/TxtUtil.java:147-150 | an appended purchase line is read as the user's last purchase and is invisible to any other user |
| Catalog.Values | Console-Based_E-Commerce-_Javase_1.0-master-1/src/main/com/util/TxtUtil.java:26 | the field values of a list of goods, item by item |
| Catalog.ParseGoodsFrom | Console-Based_E-Commerce-_Javase_1.0-master-1/src/main/com/util/TxtUtil.java:46-57 | the loop over the lines computes the parse of all of them, and fails exactly when some line fails |
| Catalog.PrefixFails | Console-Based_E-Commerce-_Javase_1.0-master-1/src/main/com/util/TxtUtil.java:46-57 | a line that does not parse makes the whole read fail |
| Catalog.NewGoods | Console-Based_E-Commerce-_Javase_1.0-master-1/src/main/com/util/TxtUtil.java:55-56 | one fresh `Good` per record, with that record's fields, in order |
| Catalog.ReplacedLines | Console-Based_E-Commerce-_Javase_1.0-master-1/src/main/com/util/TxtUtil.java:102-111 | the update loop writes the header and then each good read, replaced when its identifier matches |
| Catalog.RemainingLines | Console-Based_E-Commerce-_Javase_1.0-master-1/src/main/com/util/TxtUtil.java:126-133 | the delete loop writes the header and then each good read whose identifier differs |
| Catalog.TxtUtil.constructor | Console-Based_E-Commerce-_Javase_1.0-master-1/src/main/com/util/TxtUtil.java:26 | the store starts with the given files and an empty cache |
| Catalog.TxtUtil.ReadGoodsFromTxt | Console-Based_E-Commerce-_Javase_1.0-master-1/src/main/com/util/TxtUtil.java:41-63 | succeeds exactly when the goods file reads; then fresh goods holding the read records, sorted by price |
| Catalog.TxtUtil.LoadGoods | Console-Based_E-Commerce-_Javase_1.0-master-1/src/main/com/util/TxtUtil.java:32-34 | succeeds exactly when the goods file reads; then the cache is fresh goods holding exactly the goods of the file; on a failed read the cache is kept |
| Catalog.TxtUtil.GetGoodById | Console-Based_E-Commerce-_Javase_1.0-master-1/src/main/com/util/TxtUtil.java:70-77 | the first cached good with that identifier, or `null` |
| Catalog.TxtUtil.AddGoodToTxt | Console-Based_E-Commerce-_Javase_1.0-master-1/src/main/com/util/TxtUtil.java:84-92 | the goods file gains the good's line at the end, also when the reload fails; the reload runs before the writer flushes, so the cache holds the goods of the file as it was, without the new good |
| Catalog.TxtUtil.UpdateGoodInTxt | Console-Based_E-Commerce-_Javase_1.0-master-1/src/main/com/util/TxtUtil.java:99-116 | a failed read writes nothing; otherwise the goods file becomes the header plus the goods read with the updated one in place, and the cache, reloaded from the file the writer has just emptied, is empty |
| Catalog.TxtUtil.DeleteGoodFromTxt | Console-Based_E-Commerce-_Javase_1.0-master-1/src/main/com/util/TxtUtil.java:123-138 | a failed read writes nothing; otherwise the goods file becomes the header plus the goods read with another identifier, and the cache, reloaded from the file the writer has just emptied, is empty |
| Catalog.TxtUtil.AddPurchasedGoodForUser | Console-Based_E-Commerce-_Javase_1.0-master-1/src/main/com/util/TxtUtil.java:147-154 | the purchases file gains exactly the line `username,goodId,quantity`; nothing else changes |
| Catalog.TxtUtil.GetPurchasedGoodsByUser | Console-Based_E-Commerce-_Javase_1.0-master-1/src/main/com/util/TxtUtil.java:162-178 | the loop returns the user's purchases in file order, failing where a quantity does not parse |
| Catalog.TxtUtil.GetGoodsList | Console-Based_E-Commerce-_Javase_1.0-master-1/src/main/com/util/TxtUtil.java:193-195 | a new list holding the same cached goods in the same order |
| Catalog.PurchasesStep | Console-Based_E-Commerce-_Javase_1.0-master-1/src/main/com/util/TxtUtil.java:166-172 | reading one more line adds exactly what that line contributes |
| Catalog.PurchasesFailLater | Console-Based_E-Commerce-_Javase_1.0-master-1/src/main/com/util/TxtUtil.java:166-172 | once a prefix of the file fails to read, the whole file does |
| Catalog.ReplaceByIdAppend | Console-Based_E-Commerce-_Javase_1.0-master-1/src/main/com/util/TxtUtil.java:104-111 | the replacement works good by good |
| Catalog.GoodsLinesAppend | Console-Based_E-Commerce-_Javase_1.0-master-1/src/main/com/util/TxtUtil.java:104-111 | one more good writes one more line at the end |
| Users.UserLineRoundTrip | Console-Based_E-Commerce-_Javase_1.0-master-1/src/main/com/util/UserUtil.java:32 | the line of a storable user reads back as that user |
| Users.EmptyPhoneIsDropped | Console-Based_E-Commerce-_Javase_1.0-master-1/src/main/com/util/UserUtil.java:32 | a user stored with an empty phone is not read back (the line has only three fields after the split) |
| Users.ParsedUserIsStorable | Console-Based_E-Commerce-_Javase_1.0-master-1/src/main/com/util/UserUtil.java:67-77 | every user read can be written back unchanged |
| Users.ReadUsers | Console-Based_E-Commerce-_Javase_1.0-master-1/src/main/com/util/UserUtil.java:62-84 | at most one user per line, and every user read can be written back unchanged |
| Users.UsersLines | Console-Based_E-Commerce-_Javase_1.0-master-1/src/main/com/util/UserUtil.java:113-128 | one line per user, each the user's own line, in order |
| Users.ReadWrittenUsers | Console-Based_E-Commerce-_Javase_1.0-master-1/src/main/com/util/UserUtil.java:113-128 | a rewritten users file of storable users reads back as exactly those users |
| Users.AppendedUserIsRead | Console-Based_E-Commerce-_Javase_1.0-master-1/src/main/com/util/UserUtil.java:30-37 | an appended storable user is read as one more user at the end |
| Users.FindUser | Console-Based_E-Commerce-_Javase_1.0-master-1/src/main/com/util/UserUtil.java:91-99 | the index of the first user with that name; none exactly when no user has it |
| Users.ReplaceUser | Console-Based_E-Commerce-_Javase_1.0-master-1/src/main/com/util/UserUtil.java:113-128 | same length and order; every user of that name is replaced, every other kept |
| Users.RemoveUser | Console-Based_E-Commerce-_Javase_1.0-master-1/src/main/com/util/UserUtil.java:152-164 | at most as many users as before; exactly the users with another name remain |
| Users.UpdatedPasswordLogsIn | Console-Based_E-Commerce-_Javase_1.0-master-1/src/main/com/util/UserUtil.java:107-133 | after an update the users read back are the old ones with the replacement in place, and the new password logs in exactly when the name was stored |
| Users.DeletedUserIsGone | Console-Based_E-Commerce-_Javase_1.0-master-1/src/main/com/util/UserUtil.java:142-170 | after a delete no user of that name is read back, and every other user is |
| Users.LastIndexOf | Console-Based_E-Commerce-_Javase_1.0-master-1/src/main/com/util/UserUtil.java:193 | the last position of a character, or none exactly when it is absent |
| Users.IndexOf | Console-Based_E-Commerce-_Javase_1.0-master-1/src/main/com/util/UserUtil.java:193 | the first position of a character, or none exactly when it is absent |
| Users.ValidateUserInput | Console-Based_E-Commerce-_Javase_1.0-master-1/src/main/com/util/UserUtil.java:177-205 | the first failing check, in the order user name (trimmed 3..20), password (trimmed 6..20), email pattern, eleven-digit phone; none exactly when all pass |
| Users.EmailShape | Console-Based_E-Commerce-_Javase_1.0-master-1/src/main/com/util/UserUtil.java:193-197 | an email with a single `@` split off matches exactly when its parts match the local and the domain patterns |
| Users.ValidUserIsStorable | Console-Based_E-Commerce-_Javase_1.0-master-1/src/main/com/util/UserUtil.java:177-205 | a user that passes the checks, with no comma in its name and password, is written and read back unchanged |
| Users.PhoneHasNoComma | Console-Based_E-Commerce-_Javase_1.0-master-1/src/main/com/util/UserUtil.java:200-204 | a valid phone is non-empty and has no comma |
| Users.EmailHasNoComma | Console-Based_E-Commerce-_Javase_1.0-master-1/src/main/com/util/UserUtil.java:193-197 | a valid email has no comma |
| Users.UserValues | Console-Based_E-Commerce-_Javase_1.0-master-1/src/main/com/util/UserUtil.java:62-84 | the field values of a list of users, item by item |
| Users.ReplacedUserLines | Console-Based_E-Commerce-_Javase_1.0-master-1/src/main/com/util/UserUtil.java:113-128 | the update loop writes one line per user read, the matching ones replaced |
| Users.RemainingUserLines | Console-Based_E-Commerce-_Javase_1.0-master-1/src/main/com/util/UserUtil.java:149-164 | the delete loop writes the users with another name, and its flag says whether some user matched |
| Users.AnyLogin | Console-Based_E-Commerce-_Javase_1.0-master-1/src/main/com/util/UserUtil.java:48-53 | the scan returns true exactly when some user has both the name and the password |
| Users.FirstNamed | Console-Based_E-Commerce-_Javase_1.0-master-1/src/main/com/util/UserUtil.java:93-98 | the scan returns the first user with that name, or `null` |
| Users.UserUtil.constructor | Console-Based_E-Commerce-_Javase_1.0-master-1/src/main/com/util/UserUtil.java:30-37 | the store starts with the given users file |
| Users.UserUtil.AddUserToTxt | Console-Based_E-Commerce-_Javase_1.0-master-1/src/main/com/util/UserUtil.java:30-37 | the users file gains exactly the user's line at the end |
| Users.UserUtil.ReadUsersFromTxt | Console-Based_E-Commerce-_Javase_1.0-master-1/src/main/com/util/UserUtil.java:62-84 | fresh users for the lines with exactly four fields, in file order |
| Users.UserUtil.ValidateUser | Console-Based_E-Commerce-_Javase_1.0-master-1/src/main/com/util/UserUtil.java:46-54 | true exactly when a stored user has both the name and the password |
| Users.UserUtil.GetUserByUsername | Console-Based_E-Commerce-_Javase_1.0-master-1/src/main/com/util/UserUtil.java:91-99 | the first stored user with that name, or `null` |
| Users.UserUtil.UpdateUserPassword | Console-Based_E-Commerce-_Javase_1.0-master-1/src/main/com/util/UserUtil.java:107-133 | succeeds exactly when the checks pass; then the file holds every user read with those of that name replaced; otherwise it is not written |
| Users.UserUtil.DeleteUserByUsername | Console-Based_E-Commerce-_Javase_1.0-master-1/src/main/com/util/UserUtil.java:142-170 | a blank name gives false and writes nothing; otherwise the file holds the users with another name, and the result says whether one matched |
| Admins.ParseAdminLine | Console-Based_E-Commerce-_Javase_1.0-master-1/src/main/com/util/AdminUtil.java:34-36 | an administrator read has no comma in its name or password |
| Admins.AdminLineRoundTrip | Console-Based_E-Commerce-_Javase_1.0-master-1/src/main/com/util/AdminUtil.java:83 | the line of a storable administrator reads back as that administrator |
| Admins.HeaderIsAnAdmin | Console-Based_E-Commerce-_Javase_1.0-master-1/src/main/com/util/AdminUtil.java:77 | the header line reads as an administrator `username` with password `password` |
| Admins.ReadAdmins | Console-Based_E-Commerce-_Javase_1.0-master-1/src/main/com/util/AdminUtil.java:28-46 | a successful read gives one administrator per line, header lines included |
| Admins.ReadAdminsFailsLater | Console-Based_E-Commerce-_Javase_1.0-master-1/src/main/com/util/AdminUtil.java:33-40 | once a prefix of the file fails to read, the whole file does |
| Admins.KeepOthers | Console-Based_E-Commerce-_Javase_1.0-master-1/src/main/com/util/AdminUtil.java:80-88 | at most as many administrators as before; exactly the administrators with another name are kept |
| Admins.AdminLines | Console-Based_E-Commerce-_Javase_1.0-master-1/src/main/com/util/AdminUtil.java:83 | one line per administrator, in order |
| Admins.ReadWrittenAdmins | Console-Based_E-Commerce-_Javase_1.0-master-1/src/main/com/util/AdminUtil.java:80-88 | the lines of storable administrators read back as those administrators after whatever came before |
| Admins.HeaderAloneRead | Console-Based_E-Commerce-_Javase_1.0-master-1/src/main/com/util/AdminUtil.java:77-78 | a file holding only the header reads as one administrator |
| Admins.ReadAfterHeader | Console-Based_E-Commerce-_Javase_1.0-master-1/src/main/com/util/AdminUtil.java:77-88 | the header followed by storable administrators reads back as the header's administrator and then those |
| Admins.DeleteThenRead | Console-Based_E-Commerce-_Javase_1.0-master-1/src/main/com/util/AdminUtil.java:71-94 | after a delete, reading again gives the header's administrator first and then the others; `username`/`password` logs in; the deleted name is gone unless it is `username` |
| Admins.AnyAdminLogin | Console-Based_E-Commerce-_Javase_1.0-master-1/src/main/com/util/AdminUtil.java:57-62 | the scan returns true exactly when some administrator has both the name and the password |
| Admins.KeptAdminLines | Console-Based_E-Commerce-_Javase_1.0-master-1/src/main/com/util/AdminUtil.java:76-88 | the delete loop writes the header and every administrator with another name, and its flag says whether one matched |
| Admins.AdminUtil.constructor | Console-Based_E-Commerce-_Javase_1.0-master-1/src/main/com/util/AdminUtil.java:21 | the store starts with the given administrators file |
| Admins.AdminUtil.ReadAdminsFromTxt | Console-Based_E-Commerce-_Javase_1.0-master-1/src/main/com/util/AdminUtil.java:28-46 | the administrators of the file, or failure where a line has fewer than two fields |
| Admins.AdminUtil.ValidateAdmin | Console-Based_E-Commerce-_Javase_1.0-master-1/src/main/com/util/AdminUtil.java:55-63 | fails exactly when the read fails; otherwise true exactly when an administrator has both the name and the password |
| Admins.AdminUtil.DeleteAdminByUsername | Console-Based_E-Commerce-_Javase_1.0-master-1/src/main/com/util/AdminUtil.java:71-94 | on a failed read nothing is written; otherwise the file becomes the header plus the administrators with another name, and the result says whether one matched |
| GoodServices.ValidateGoodData | Console-Based_E-Commerce-_Javase_1.0-master-1/src/main/com/service/GoodService.java:128-141 | the first failing check, in the order identifier not blank, name not blank, price not negative, stock not negative; none exactly when all pass |
| GoodServices.ValidGoodMayBreakTheFile | Console-Based_E-Commerce-_Javase_1.0-master-1/src/main/com/service/GoodService.java:128-141 | the checks accept an empty category, whose line the goods reader then refuses |
| GoodServices.ValidGoodIsStored | Console-Based_E-Commerce-_Javase_1.0-master-1/src/main/com/service/GoodService.java:63-66 | a good that passes the checks, has a category and no comma in its text reads back as itself |
| GoodServices.AddGood | Console-Based_E-Commerce-_Javase_1.0-master-1/src/main/com/service/GoodService.java:47-71 | a stock that does not parse or a failed check writes nothing; otherwise the good's line is appended, and the reloaded cache lacks the new good |
| GoodServices.Add | Console-Based_E-Commerce-_Javase_1.0-master-1/src/main/com/service/GoodService.java:65-66 | the good built from the record is appended to the goods file; the cache holds the goods read before it |
| GoodServices.ReplaceGood | Console-Based_E-Commerce-_Javase_1.0-master-1/src/main/com/service/GoodService.java:85-100 | after the lookup succeeded: a stock that does not parse or a failed check writes nothing; otherwise the good replaces the stored one and the cache is left empty |
| GoodServices.Replace | Console-Based_E-Commerce-_Javase_1.0-master-1/src/main/com/service/GoodService.java:98-99 | the good built from the record replaces the stored good of that identifier, and the cache is left empty |
| GoodServices.ModifyGood | Console-Based_E-Commerce-_Javase_1.0-master-1/src/main/com/service/GoodService.java:78-107 | an identifier not in the cache writes nothing; otherwise as `ReplaceGood` |
| GoodServices.DeleteGood | Console-Based_E-Commerce-_Javase_1.0-master-1/src/main/com/service/GoodService.java:113-118 | the delete always runs; success is reported whenever the goods file reads, even for an absent identifier; then the file holds the other goods and the cache is left empty |
| Shop.CartItem.constructor | Console-Based_E-Commerce-_Javase_1.0-master-1/src/main/com/service/UserService.java:288-291 | the item holds the good and the quantity given |
| Shop.CartItem.ReduceStock | Console-Based_E-Commerce-_Javase_1.0-master-1/src/main/com/service/UserService.java:330-336 | the quantity drops by the argument only when the argument is at most the quantity |
| Shop.CartItem.AddStock | Console-Based_E-Commerce-_Javase_1.0-master-1/src/main/com/service/UserService.java:343-347 | the quantity rises by the argument only when the argument is at least the quantity (the guard as written) |
| Shop.Entries | Console-Based_E-Commerce-_Javase_1.0-master-1/src/main/com/service/UserService.java:157-160 | one entry per cart item: its good's identifier and its quantity |
| Shop.FirstEntry | Console-Based_E-Commerce-_Javase_1.0-master-1/src/main/com/service/UserService.java:43-50 | the index of the first item for the identifier; none exactly when no item has it |
| Shop.Plan | Console-Based_E-Commerce-_Javase_1.0-master-1/src/main/com/service/UserService.java:151-180 | the only item ever edited is the first one for the identifier, and only for a non-negative quantity; removal happens exactly for quantity 0 on an identifier in the cart |
| Shop.OnlyEntryIsLast | Console-Based_E-Commerce-_Javase_1.0-master-1/src/main/com/service/UserService.java:156-161 | when one item alone has the identifier, `cartQuantity` is that item's quantity |
| Shop.SingleEntryModify | Console-Based_E-Commerce-_Javase_1.0-master-1/src/main/com/service/UserService.java:162-173 | with one item for the identifier: a smaller positive quantity is set exactly, a larger one only when it is at least twice the old one, an equal or negative one changes nothing |
| Shop.Receipt | Console-Based_E-Commerce-_Javase_1.0-master-1/src/main/com/service/UserService.java:231-233 | one purchase line per cart item |
| Shop.Bought | Console-Based_E-Commerce-_Javase_1.0-master-1/src/main/com/service/UserService.java:231-233 | one purchase per cart item |
| Shop.CheckoutThenRead | Console-Based_E-Commerce-_Javase_1.0-master-1/src/main/com/service/UserService.java:230-235 | after a checkout, the user's purchase history ends with the cart, item by item, and no other user's history changes |
| Shop.Lookup | Console-Based_E-Commerce-_Javase_1.0-master-1/src/main/com/service/UserService.java:125 | the cached good `getGoodById` returns: a cached good with that identifier, `null` exactly when none has it |
| Shop.HeldQuantity | Console-Based_E-Commerce-_Javase_1.0-master-1/src/main/com/service/UserService.java:156-161 | the loop computes the quantity of the last item for the identifier, 0 when there is none |
| Shop.UserService.constructor | Console-Based_E-Commerce-_Javase_1.0-master-1/src/main/com/service/UserService.java:34-36 | nobody is logged in and the cart is empty |
| Shop.UserService.GetGoodCtId | Console-Based_E-Commerce-_Javase_1.0-master-1/src/main/com/service/UserService.java:43-50 | the first cart item for the identifier, or `null` |
| Shop.UserService.Login | Console-Based_E-Commerce-_Javase_1.0-master-1/src/main/com/service/UserService.java:80-91 | succeeds exactly when a stored user has the name and the password; then that name is remembered, otherwise the session is as before |
| Shop.UserService.Append | Console-Based_E-Commerce-_Javase_1.0-master-1/src/main/com/service/UserService.java:131 | the cart gains one fresh item with the good and quantity at the end |
| Shop.UserService.AddGoodToCart | Console-Based_E-Commerce-_Javase_1.0-master-1/src/main/com/service/UserService.java:124-143 | adds exactly when the good is cached, the quantity positive and the stock enough; then one new item at the end (never merged), the good's stock lowered by the quantity, the goods file rewritten and the cache left empty; otherwise cart and store unchanged |
| Shop.UserService.Remove | Console-Based_E-Commerce-_Javase_1.0-master-1/src/main/com/service/UserService.java:163 | the item is taken out where it stands; the rest keep their order |
| Shop.UserService.ModifyGoodOfCart | Console-Based_E-Commerce-_Javase_1.0-master-1/src/main/com/service/UserService.java:151-180 | per `Plan`: nothing changes; or the first item is removed without restocking; or it gives back, or takes, the difference from the last item's quantity, through both stock updates with their guards, every other item and good unchanged |
| Shop.UserService.Checkout | Console-Based_E-Commerce-_Javase_1.0-master-1/src/main/com/service/UserService.java:202-239 | checks out exactly when the cart is non-empty and the answer is `y` in either case; then one purchase line per item in cart order for the logged-in user, and an empty cart; otherwise nothing changes |
| Shop.UserService.GiveBack | Console-Based_E-Commerce-_Javase_1.0-master-1/src/main/com/service/UserService.java:165-167 | the item's `reduceStock` then the good's `addStock` by the difference, which rewrites the file and empties the cache when it applies; nothing else changed |
| Shop.UserService.TakeMore | Console-Based_E-Commerce-_Javase_1.0-master-1/src/main/com/service/UserService.java:168-170 | the item's `addStock` then the good's `reduceStock` by the difference, which rewrites the file and empties the cache when it applies; nothing else changed |
| JavaInt.Add | Console-Based_E-Commerce-_Javase_1.0-master-1/src/main/com/model/Good.java:165 | Java `int` addition: exact when it fits, wrapping past `Integer.MAX_VALUE` to a negative value |
| JavaInt.Sub | Console-Based_E-Commerce-_Javase_1.0-master-1/src/main/com/model/Good.java:151 | Java `int` subtraction: exact when it fits |
| Strings.Split | Console-Based_E-Commerce-_Javase_1.0-master-1/src/main/com/util/TxtUtil.java:47 | `split(",")`: pieces without commas, a comma-free string gives itself, and of two or more pieces the last is non-empty |
| Strings.SplitJoin | Console-Based_E-Commerce-_Javase_1.0-master-1/src/main/com/util/TxtUtil.java:86 | `split` undoes the comma join when the last field is non-empty |
| Strings.SplitJoinEmptyLast | Console-Based_E-Commerce-_Javase_1.0-master-1/src/main/com/util/TxtUtil.java:86 | `split` of a join whose last field is empty loses that field |
| Strings.BlankIffAllSpace | Console-Based_E-Commerce-_Javase_1.0-master-1/src/main/com/service/GoodService.java:129-134 | `trim().isEmpty()` holds exactly when every character is at most a space |
| Strings.ParseInt | Console-Based_E-Commerce-_Javase_1.0-master-1/src/main/com/util/TxtUtil.java:52 | `Integer.parseInt`: a parsed value is a Java `int` |
| Strings.DecimalRoundTrip | Console-Based_E-Commerce-_Javase_1.0-master-1/src/main/com/util/TxtUtil.java:86 | the decimal text of an integer is comma-free and parses back to it, through `parseInt` when it is an `int` |
| Strings.NegativeRoundTrip | Console-Based_E-Commerce-_Javase_1.0-master-1/src/main/com/util/TxtUtil.java:86 | a negative integer's text is comma-free and parses back to it |

## Left out

- Console interaction is left out: the `Scanner` prompts, the printed messages and the menus of `Main.java`. Inputs are parameters. `viewGoods`, `viewCart`, `viewPurchasedGoods`, `register`, `forgotPassword` and the getters are display or prompt flows over the modelled operations.
- `AdminService.java` and `model/Admin.java` are not part of this model. They only prompt and call the modelled `TxtUtil`/`AdminUtil` operations; an administrator is the record `AdminRecord`.
- File I/O is not modelled: the fixed Windows paths, opening and closing files, and the swallowed `IOException`. Each file is a sequence of lines that always exists and can be written.
- `User.encryptToMD5` is not modelled, because it is a foreign `MessageDigest` call; `register`, its only user, is left out with it. Its hexadecimal step, `bytesToHex`, is modelled.
- Checkout pricing (the totals, the discount and `Math.random`) is left out: it is floating point and random, and is only printed.
- Prices are integers. They are formatted and parsed as decimals, in place of `Double.toString`/`Double.parseDouble`, and sorted by integer comparison. A price that does not parse in `addGood`/`modifyGood` is therefore not modelled; an unparsable stock is.
- `Pattern.matches` is not modelled as a regex engine. The email and phone patterns are written out as recognisers (`Users.IsEmail`, `Users.IsPhone`).
- `null` strings are not modelled, except for the logged-in user name, which is written as `null` in the purchases file before anyone logs in (`Shop.NameText`). Every other string comes from console lines or files and is never `null`.
- Strings are sequences of characters. Line breaks inside a field, and UTF-16 details, are not modelled.
- `TxtUtil.initialize` is the same as `loadGoods` (`Catalog.TxtUtil.LoadGoods`).
- Shop.UserService.AddGoodToCart: looks the good up with the function `Lookup`, which `Catalog.TxtUtil.GetGoodById` is proved to compute, instead of calling that method.
- Shop.UserService.ModifyGoodOfCart: finds the edited item and the compared quantity with the functions `FirstEntry` and `LastQuantity`, which `Shop.UserService.GetGoodCtId` and `Shop.HeldQuantity` are proved to compute, instead of calling those methods.
- Shop.UserService.Checkout: the confirmation is the answer string tested with `IsYes`; the prices printed before it are left out.
- Strings.ParseInt: accepts a sign and ASCII decimal digits only; the non-ASCII digits that `Integer.parseInt` also accepts are not modelled.
- Catalog.TxtUtil.AddGoodToTxt, UpdateGoodInTxt and DeleteGoodFromTxt: assume that the written text fits in the writer's 8192-character buffer, so nothing reaches the file before the reload. With a longer text, part of it is already on disk when the reload reads the file; that case is not modelled.
