# Storefront backend: carts, orders, reviews, address book and uploads

This project models the Express/Mongoose backend of a small storefront. It covers the
handlers behind the shopping cart, order placement, the administrator's product and order
screens, product reviews, the customer's address book and wishlist, and the upload
middleware that names and filters product images.

The database is one `Store.Db` object. It holds one field per collection:
- products and users are maps from id to document;
- carts are a map from the owner's clerkId, the field the cart schema declares unique;
- orders and reviews are sequences in insertion order.

Each handler is a method over that object. It reads, checks and then writes, as the
JavaScript handler does. Its `modifies` clause names only the collections it writes.
It answers with a `Result`: the error cases carry the handler's own message
(`BadRequest`, `Forbidden`, `NotFound`), and `Internal` stands for the schema
validation failure that makes `save()` or `create()` throw, which the handlers turn into a 500.

Each schema becomes a datatype with a validity predicate (quantity at least 1, stock,
rating 1..5, the status enum, the required fields). The store's invariant
`Store.Db.Valid()` is the conjunction of one predicate per collection:
- `ProductsValid`, `CartsValid` and `OrdersValid`;
- `ReviewsValid`: one review per (product, user) and distinct ids;
- `UsersValid`: at most one default address and no repeats in a wishlist.

Each handler requires and ensures the predicates of the collections it writes. Its frame
leaves the others untouched, so every handler keeps `Valid()`.

Where the handler's rule is a chain of checks, a pure function states the outcome of the
chain: `CartController.AddOutcome`, `OrderController.OrderOutcome`,
`ReviewController.OrderGate` and `AdminController.CreateProductCheck`. The method is then
proved to return exactly that outcome and to make exactly the matching write. The lemmas
next to each function state what the rule promises.

The model reproduces the code's quirks instead of repairing them:
- order placement checks every line against the stock as it was before the order, so two
  lines for one product can drive its stock below zero (`OrderController.RepeatedLineOversells`);
- the rollback after a vanished product deletes the review the upsert wrote, including a
  review that existed before and was only overwritten (`ReviewController.RollbackLosesOverwritten`);
- an image URL without `/products/` gives the public id `products/undefined`
  (`AdminController.PublicIdWithoutFolder`);
- the upload filter's pattern is unanchored, so a `.jpgx` file is accepted and then stored
  without an extension (`Upload.UnanchoredExtensionAccepted`).

Some of the handlers' effects are not all-or-nothing. An order is inserted before the stock
loop runs. A review is upserted before its product is looked up. The model follows the code
in both places and does not adopt a transactional reading.

## Model

| member | source | states |
|---|---|---|
| Common.OrElse | backend/src/controllers/user.controller.js:103-109 | `field \|\| fallback`: the field when it is a non-empty string, the fallback otherwise |
| Common.SumAppend | backend/src/controllers/review.controller.js:54 | the left-to-right sum of a concatenation is the sum of the parts |
| Common.SumBounds | backend/src/controllers/review.controller.js:54 | a sum of n terms each within [lo, hi] lies within [n·lo, n·hi] |
| Strings.IndexOf | backend/src/controllers/admin.controller.js:242 | the first occurrence of the pattern, and that no earlier index holds one; None only when there is none |
| Strings.SplitHead | backend/src/controllers/admin.controller.js:242 | `split(sep)[0]` is the longest prefix before the first occurrence of the separator |
| Strings.LastIndexOf | backend/src/middleware/multer.middleware.js:9 | the last index holding the character, none after it; None only when the character is absent |
| Strings.ToLowerAt | backend/src/middleware/multer.middleware.js:9 | lower-casing maps each character on its own, keeping the length |
| Strings.ToLowerIdempotent | backend/src/middleware/multer.middleware.js:9 | lower-casing twice equals lower-casing once |
| Strings.ContainsIff | backend/src/middleware/multer.middleware.js:19-22 | the unanchored test succeeds exactly when the pattern occurs at some index |
| CartModel.EmptyCart | backend/src/controllers/cart.controller.js:16-20 | the lazily created cart belongs to the principal and has no lines |
| CartModel.EmptyCartValid | backend/src/models/cart.model.js:21-36 | the lazily created cart meets the schema and has one line per product |
| CartModel.FindItem | backend/src/controllers/cart.controller.js:99-101 | `findIndex`: the first line for the product, or None exactly when no line has it |
| CartModel.RemoveProductMembers | backend/src/controllers/cart.controller.js:138-140 | the filter keeps exactly the lines of other products |
| CartModel.RemoveAbsentIsIdentity | backend/src/controllers/cart.controller.js:138-140 | removing a product with no line leaves the lines unchanged |
| CartModel.RemoveProductAppend | backend/src/controllers/cart.controller.js:138-140 | the filter distributes over concatenation, so surviving lines keep their order |
| CartModel.RemoveProductKeepsDistinct | backend/src/controllers/cart.controller.js:138-140 | the filter keeps one line per product and every quantity at least 1 |
| CartModel.AddItemKeepsLines | backend/src/controllers/cart.controller.js:59-73 | an add keeps one line per product and leaves other lines alone; the product's line ends at old quantity + 1 or at the requested quantity; lines stay valid exactly when the product was present or the quantity is at least 1 |
| CartController.CurrentCart | backend/src/controllers/cart.controller.js:7-21 | the stored cart of the principal, or a fresh empty one owned by the principal |
| CartController.StoreCart | backend/src/models/cart.model.js:30-34 | storing a valid cart under its clerkId keeps one valid cart per clerkId |
| CartController.GetCart | backend/src/controllers/cart.controller.js:4-28 | returns the existing cart, or creates and stores an empty one; never fails |
| CartController.AddOutcome | backend/src/controllers/cart.controller.js:33-73 | unknown product: not found; stock below the requested quantity: insufficient stock, checked before the cart lookup; an existing line goes up by exactly 1 and the add is refused with "Insufficient stock" exactly when stock < old + 1; a new line of at least 1 within stock always succeeds and appends the requested quantity (default 1); a new line below 1 fails the schema |
| CartController.AddToCart | backend/src/controllers/cart.controller.js:30-83 | returns `AddOutcome`; on success the principal's cart is the new cart, on a schema failure only the lazily created cart is stored, on any other error nothing changes |
| CartController.UpdateCartItem | backend/src/controllers/cart.controller.js:85-126 | refuses, in order: quantity < 1, no cart, no line, unknown product, stock < quantity, without change; otherwise only that line's quantity changes |
| CartController.RemoveFromCart | backend/src/controllers/cart.controller.js:128-148 | no cart: not found; otherwise every line of the product goes and the rest stay in order |
| CartController.ClearCart | backend/src/controllers/cart.controller.js:150-167 | no cart: not found; otherwise the cart's lines become empty |
| OrderModel.ParseStatus | backend/src/models/order.model.js:104-108 | a status string parses exactly when it is one of pending, shipped, delivered |
| OrderModel.ParseStatusRoundTrip | backend/src/models/order.model.js:104-108 | parsing and the stored spelling are inverse on the enum |
| OrderModel.NewOrder | backend/src/models/order.model.js:72-119 | a created order keeps the client's items, address, payment and total, is tagged with the principal, is pending and has no timestamps |
| OrderModel.FindOrder | backend/src/controllers/review.controller.js:18-21 | `findById`: an index holding the id, or None exactly when no order has it |
| OrderController.FirstLineError | backend/src/controllers/order.controller.js:18-33 | None exactly when every line's product exists with enough stock; otherwise the error of the first failing line, every earlier line passing |
| OrderController.CheckLines | backend/src/controllers/order.controller.js:18-33 | the validation loop stops at the first failing line and returns `FirstLineError` |
| OrderController.Decremented | backend/src/controllers/order.controller.js:46-50 | the stock decrement touches no product key |
| OrderController.DecrementedStock | backend/src/controllers/order.controller.js:46-50 | each product's stock drops by the total quantity of its lines; its other fields stay |
| OrderController.QuantityOfAbsent | backend/src/controllers/order.controller.js:46-50 | a product on no line keeps its stock |
| OrderController.QuantityOfSingle | backend/src/controllers/order.controller.js:46-50 | a product on exactly one line loses exactly that line's quantity |
| OrderController.DistinctLinesKeepStock | backend/src/controllers/order.controller.js:18-50 | with one line per product and all lines passing the check, no stock goes below 0 |
| OrderController.RepeatedLineOversells | backend/src/controllers/order.controller.js:18-50 | two lines of 1 for a product with stock 1 both pass the check and leave stock -1 |
| OrderController.OrderOutcome | backend/src/controllers/order.controller.js:13-43 | missing or empty items: "No order items" before any lookup; then the first failing line's error; a schema failure exactly when the new order is invalid; success exactly when items are present, every line passes and the new order is valid; on success the stored order holds the client's data unchanged, tagged with the principal |
| OrderController.CreateOrder | backend/src/controllers/order.controller.js:5-57 | returns `OrderOutcome`; on any error neither stock nor orders change; on success the order is appended and the stocks are `Decremented` by its lines |
| OrderController.StoreOrder | backend/src/models/order.model.js:72-119 | appending a valid order with a fresh id keeps the order store valid |
| OrderController.DecrementStock | backend/src/controllers/order.controller.js:46-50 | the decrement loop leaves exactly `Decremented` and keeps every product's schema fields |
| OrderController.DecrementedFieldsValid | backend/src/controllers/order.controller.js:46-50 | the `$inc` update changes only stock, so every other schema constraint still holds |
| OrderController.OwnedOrders | backend/src/controllers/order.controller.js:62 | the owner filter never adds orders |
| OrderController.OwnedOrdersMembers | backend/src/controllers/order.controller.js:62 | the filter keeps exactly the orders whose clerkId is the principal's |
| OrderController.ReviewedOrderIds | backend/src/controllers/order.controller.js:67-71 | the set holds exactly the order ids some review names |
| OrderController.NewestFirst | backend/src/controllers/order.controller.js:62-81 | one view per owned order, newest first, flagged exactly when its id is in the reviewed set |
| OrderController.UserOrders | backend/src/controllers/order.controller.js:59-88 | the principal's orders newest first, each with hasReviewed true exactly when some review names its id |
| OrderController.UserOrdersExactlyOwned | backend/src/controllers/order.controller.js:62-64 | an order is listed exactly when it is stored and belongs to the principal |
| ProductModel.NewProductValid | backend/src/models/product.model.js:3-48 | a created product meets the schema exactly when name, description and category are non-empty, price and stock at least 0 and every image non-empty; its rating and review count start at 0 |
| ReviewModel.SchemaAllowsDuplicatePair | backend/src/models/review.model.js:3-32 | the schema admits two reviews of one product by one user; only the handler prevents it |
| UserModel.SchemaAllowsTwoDefaults | backend/src/models/user.model.js:5-46 | the schema admits two default addresses; only the handlers prevent it |
| AdminController.CreateProductCheck | backend/src/controllers/admin.controller.js:11-25 | passes exactly when every field is truthy and there are 1 to 3 images; otherwise the first failing check's message |
| AdminController.CreateProduct | backend/src/controllers/admin.controller.js:6-56 | refuses per `CreateProductCheck` or on a schema failure without change; otherwise stores the new product under the fresh id |
| AdminController.EditedProductKeeps | backend/src/controllers/admin.controller.js:83-107 | text fields change only when truthy, price and stock only when given, images only when files are sent; the rating fields never change |
| AdminController.UpdateProduct | backend/src/controllers/admin.controller.js:69-117 | unknown id: not found; more than 3 files: refused with nothing saved; otherwise the edited product is saved if it meets the schema |
| AdminController.TimestampsSetOnce | backend/src/controllers/admin.controller.js:158-166 | once set, shippedAt and deliveredAt never change, whatever statuses follow |
| AdminController.TimestampSetIff | backend/src/controllers/admin.controller.js:158-166 | shippedAt ends set exactly when it was set or some change was to shipped; likewise deliveredAt and delivered |
| AdminController.TransitionKeepsContents | backend/src/controllers/admin.controller.js:154-166 | status changes touch only the status and the two timestamps, and the last status wins |
| AdminController.UpdateOrderStatus | backend/src/controllers/admin.controller.js:134-178 | a status outside the enum, then an unknown order, are refused without change; otherwise only that order takes the transition |
| AdminController.RevenueOfAppend | backend/src/controllers/admin.controller.js:198-208 | placing an order adds exactly its total to the revenue |
| AdminController.RevenueNonNegative | backend/src/controllers/admin.controller.js:198-208 | the revenue is never negative, and 0 with no orders |
| AdminController.GetDashboardStats | backend/src/controllers/admin.controller.js:192-224 | the three counts and the revenue sum, which is at least 0 |
| AdminController.PublicIdWithoutFolder | backend/src/controllers/admin.controller.js:241-242 | a URL without "/products/" gives "products/undefined" |
| AdminController.SplitHeadAt | backend/src/controllers/admin.controller.js:242 | `split(sep)[0]` ends at the first occurrence of the separator |
| AdminController.NoOccurrenceBefore | backend/src/controllers/admin.controller.js:242 | no occurrence can start where the separator's first character is absent |
| AdminController.PublicIdOfUploadUrl | backend/src/controllers/admin.controller.js:240-242 | for `<prefix>/products/<name><ext>` the public id is "products/" + name |
| AdminController.FolderAfterPrefix | backend/src/controllers/admin.controller.js:242 | the first "/products/" of such a URL is the one after the prefix |
| AdminController.NameBeforeExtension | backend/src/controllers/admin.controller.js:242 | the text up to the first "." after the folder is the file's name |
| AdminController.DeleteProduct | backend/src/controllers/admin.controller.js:226-254 | unknown id: not found without change; otherwise the product is removed and one public id per image is derived |
| ReviewController.RatingCheck | backend/src/controllers/review.controller.js:11-13 | passes exactly when a rating is given and lies in 1..5, non-integers included |
| ReviewController.OrderGate | backend/src/controllers/review.controller.js:17-43 | in order: unknown order 404, another's order 403, not delivered 400, product not on the order 400; passes exactly when none applies |
| ReviewController.RatingsOf | backend/src/controllers/review.controller.js:53 | `Review.find({ productId })` returns at most all reviews |
| ReviewController.RatingsOfMembers | backend/src/controllers/review.controller.js:53 | a rating is found for the product exactly when some review of that product carries it |
| ReviewController.RatingsOfCount | backend/src/controllers/review.controller.js:53 | one rating per review of the product: the count is the number of indices whose review is of it |
| ReviewController.RatingsInRange | backend/src/models/review.model.js:24-29 | every rating of a valid store lies in 1..5 |
| ReviewController.RatingsOfNonEmpty | backend/src/controllers/review.controller.js:53 | a product with a review has at least one rating |
| ReviewController.AverageInRange | backend/src/controllers/review.controller.js:103-106 | the mean of ratings in 1..5 lies in 1..5, and is 0 with no ratings, so the product's 0..5 bound holds |
| ReviewController.QuotientBounds | backend/src/controllers/review.controller.js:58 | a total between n·lo and n·hi divided by n lies in [lo, hi] |
| ReviewController.AverageExample | backend/src/controllers/review.controller.js:54-58 | ratings 4, 5, 3 average 4; without the 3 they average 4.5 |
| ReviewController.FindReview | backend/src/controllers/review.controller.js:46-47 | the upsert's filter: a review of this product by this user, or None when there is none |
| ReviewController.UpsertReplaces | backend/src/controllers/review.controller.js:46-50 | after the upsert the pair has exactly one review, with the new rating and order; an existing review keeps its id and index, a new one takes the fresh id and goes last; every other review is unchanged; the store stays one-per-pair with distinct ids |
| ReviewController.RatingsCountAppend | backend/src/controllers/review.controller.js:53 | a new review adds its rating to its own product's ratings only |
| ReviewController.RatingsCountUpdate | backend/src/controllers/review.controller.js:46-50 | overwriting a review's rating and order keeps every product's review count |
| ReviewController.RemoveById | backend/src/controllers/review.controller.js:99 | deleting by id never adds reviews |
| ReviewController.RemoveByIdMembers | backend/src/controllers/review.controller.js:99 | deleting by id removes exactly the reviews with that id and keeps the store's invariant |
| ReviewController.RollbackLosesOverwritten | backend/src/controllers/review.controller.js:46-68 | after the rollback the pair has no review at all, even when one existed before the upsert |
| ReviewController.RemoveByIdCount | backend/src/controllers/review.controller.js:99 | deleting a stored id removes exactly one review |
| ReviewController.RemoveAbsentId | backend/src/controllers/review.controller.js:66 | deleting an unknown id changes nothing |
| ReviewController.RemoveFreshAppended | backend/src/controllers/review.controller.js:66 | deleting a review just appended restores the previous store |
| ReviewController.WithAggregateValid | backend/src/controllers/review.controller.js:53-62 | recomputing the average over valid reviews keeps the product within its schema |
| ReviewController.StoreAggregate | backend/src/controllers/review.controller.js:55-62 | recomputing one product's aggregate keeps every product valid |
| ReviewController.UpsertCountsReview | backend/src/controllers/review.controller.js:46-58 | after a submission the product has at least one rating, so the division is by a positive count |
| ReviewController.CreateReview | backend/src/controllers/review.controller.js:5-75 | rating check, then the order gate, with no write on failure; then the upsert; the product's average and count recomputed over all its reviews; a vanished product rolls the upserted review back and answers not found |
| ReviewController.FindReviewById | backend/src/controllers/review.controller.js:86-89 | `findById`: an index holding the id, or None exactly when no review has it |
| ReviewController.DeleteReview | backend/src/controllers/review.controller.js:77-114 | unknown id 404, another user's review 403, both without change; otherwise the review goes and its product's aggregate is recomputed, 0 when none remain |
| UserController.ClearDefaults | backend/src/controllers/user.controller.js:26-30 | the loop clears every address's default flag and changes nothing else |
| UserController.NoDefaultsThenOne | backend/src/controllers/user.controller.js:26-42 | after clearing, any one new address keeps at most one default |
| UserController.AppendNonDefault | backend/src/controllers/user.controller.js:33-42 | appending a non-default address keeps at most one default |
| UserController.NewAddress | backend/src/controllers/user.controller.js:33-42 | the pushed address is default exactly when isDefault is true; it meets the schema exactly when label and phone number are also given |
| UserController.AddressBookUpdate | backend/src/models/user.model.js:74 | saving one user's valid address book keeps every user valid |
| UserController.AddAddress | backend/src/controllers/user.controller.js:3-55 | missing required fields: refused without change; a schema failure on label or phone changes nothing; otherwise exactly one address is appended, and a default one clears the others' flag |
| UserController.FindAddress | backend/src/controllers/user.controller.js:89 | `addresses.id(addressId)`: an index holding the id, or None exactly when no address has it |
| UserController.EditedAddressKeeps | backend/src/controllers/user.controller.js:103-113 | each of the seven text fields takes a truthy new value and otherwise keeps the old one (an empty string included); isDefault takes a given value and otherwise stays; a valid address stays valid |
| UserController.EditKeepsOneDefault | backend/src/controllers/user.controller.js:96-113 | editing one address after the flags are cleared, or without setting the flag, keeps at most one default |
| UserController.UpdateAddress | backend/src/controllers/user.controller.js:68-126 | unknown id: not found without change; otherwise a truthy isDefault clears every flag first and only that address is edited |
| UserController.RemoveAddress | backend/src/controllers/user.controller.js:143 | `pull` never adds addresses |
| UserController.RemoveAddressAt | backend/src/controllers/user.controller.js:143 | with distinct ids, pulling an id removes exactly the address at its index |
| UserController.RemoveAbsentAddress | backend/src/controllers/user.controller.js:143 | pulling an absent id changes nothing |
| UserController.DeleteAtKeeps | backend/src/controllers/user.controller.js:143 | removing one address keeps distinct ids, valid addresses and at most one default |
| UserController.DeleteDefaultLeavesNone | backend/src/controllers/user.controller.js:137-143 | deleting the default address leaves no default |
| UserController.DeleteAddress | backend/src/controllers/user.controller.js:128-156 | unknown id: not found without change; otherwise exactly that address is removed |
| UserController.WishlistUpdate | backend/src/models/user.model.js:76-81 | saving one user's repeat-free wishlist keeps every user valid |
| UserController.AddToWishlist | backend/src/controllers/user.controller.js:159-185 | a listed product is refused without change; otherwise it is appended and the wishlist stays free of repeats |
| UserController.RemoveAll | backend/src/controllers/user.controller.js:202 | `pull` never adds entries |
| UserController.RemoveAllMembers | backend/src/controllers/user.controller.js:202 | pulling keeps exactly the other products and keeps the list free of repeats |
| UserController.RemoveFromWishlist | backend/src/controllers/user.controller.js:188-215 | an unlisted product is refused without change; otherwise it is removed |
| Upload.StripTrailingSlashes | backend/src/middleware/multer.middleware.js:9 | the name without its trailing slashes: a prefix, ending in no slash, followed only by slashes |
| Upload.BasenameNoSlash | backend/src/middleware/multer.middleware.js:9 | the last path segment holds no slash |
| Upload.ExtnameShape | backend/src/middleware/multer.middleware.js:9 | an extension is empty, or a dot followed by text with no dot and no slash |
| Upload.SafeExt | backend/src/middleware/multer.middleware.js:9-10 | the kept extension is empty or whitelisted, and when non-empty it is the lower-cased extension |
| Upload.Filename | backend/src/middleware/multer.middleware.js:8-13 | the stored name is the unique prefix followed by an empty or whitelisted extension |
| Upload.FilenameKeepsAllowed | backend/src/middleware/multer.middleware.js:9-12 | a whitelisted extension survives, lower-cased |
| Upload.FilenameDropsOthers | backend/src/middleware/multer.middleware.js:10-12 | any other extension is dropped, and the file is still named |
| Upload.LowerCharKeepsSeparators | backend/src/middleware/multer.middleware.js:9 | lower-casing creates and removes no dot and no slash |
| Upload.LowerSuffix | backend/src/middleware/multer.middleware.js:9 | lower-casing commutes with taking a suffix |
| Upload.LastIndexOfLower | backend/src/middleware/multer.middleware.js:9 | lower-casing moves no dot and no slash |
| Upload.StripLower | backend/src/middleware/multer.middleware.js:9 | lower-casing commutes with dropping trailing slashes |
| Upload.BasenameLower | backend/src/middleware/multer.middleware.js:9 | lower-casing commutes with taking the last segment |
| Upload.DotDotLower | backend/src/middleware/multer.middleware.js:9 | only ".." lower-cases to ".." |
| Upload.ExtnameLower | backend/src/middleware/multer.middleware.js:9-21 | `path.extname` commutes with lower-casing |
| Upload.ExtnameLowerSlice | backend/src/middleware/multer.middleware.js:9-21 | the same, when the extension is a real suffix of the last segment |
| Upload.FilenameCaseInsensitive | backend/src/middleware/multer.middleware.js:9-12 | names equal up to case get the same stored name |
| Upload.FileFilter | backend/src/middleware/multer.middleware.js:17-29 | a rejection always carries "Only image files are allowed (jpeg,jpg,png,webp)" |
| Upload.AllowedExtensionMatches | backend/src/middleware/multer.middleware.js:10-21 | every whitelisted extension passes the filter's extension test |
| Upload.FilterAcceptsKeptExtension | backend/src/middleware/multer.middleware.js:9-25 | a file whose extension is kept passes the filter on any image mimetype |
| Upload.FileFilterCaseInsensitive | backend/src/middleware/multer.middleware.js:21 | the filter's decision ignores the case of the file name |
| Upload.AbsentFirstChar | backend/src/middleware/multer.middleware.js:19-22 | a pattern whose first character never appears is not found |
| Upload.ExtnameOfSuffix | backend/src/middleware/multer.middleware.js:9-21 | the extension of a plain name followed by a dotted suffix is that suffix |
| Upload.UnanchoredExtensionAccepted | backend/src/middleware/multer.middleware.js:9-25 | a ".jpgx" file with an image mimetype is accepted, then stored without an extension |
| Upload.LowerJpgx | backend/src/middleware/multer.middleware.js:10-19 | ".jpgx" is already lower case, is not whitelisted, and matches the pattern |
| Upload.UpperCaseMimeTypeRejected | backend/src/middleware/multer.middleware.js:22-28 | the mimetype is not lower-cased, so one without lower-case letters is rejected |
| Upload.UploadFile | backend/src/middleware/multer.middleware.js:31-35 | a file is stored exactly when the filter accepts it and it is at most 5 MiB, under `Filename`; a larger file is refused |

## Left out

- Network, Cloudinary and disk I/O: uploads are the URLs they return, passed in as a parameter. Cloudinary `destroy` calls are not modelled; `DeleteProduct` returns the public ids it would pass.
- Fresh ids, `new Date()`, `Date.now()` and `Math.random()` are parameters (`newId`, `freshId`, `now`, `unique`).
- Number parsing (`parseFloat`, `parseInt`) of form fields: prices and stocks arrive already parsed. A field that is absent or empty is `None`.
- Number parsing, one case per handler: updateProduct with `price` or `stock` sent as "" assigns `parseFloat("")` or `parseInt("")`, which is NaN, so `save()` fails and answers 500. The model reads "" as absent, keeps the old value and succeeds.
- Number parsing in createProduct: a non-empty `price` or `stock` that does not parse passes the `!price` test and then fails `Product.create` with 500. The model has no value for it and answers 400 "All fields are required".
- Cart and order quantities are integers. The source takes a JavaScript number, so a fractional quantity such as 1.5 passes `quantity < 1`. updateCartItem with `quantity` absent fails the required-field validator at `save()` and answers 500. The model cannot express either case.
- Floating point: prices, totals and ratings are `real`, so the average is exact.
- Concurrency: each handler is one atomic method. The interleavings between createOrder's two loops, and between the review upsert and the recomputation, are not modelled.
- HTTP status codes and response bodies become the `Error` datatype. The `catch` branches that answer 500 are modelled only for schema validation failures (`Internal`). Database and network errors are left out.
- Mongoose mechanics (`populate`, `countDocuments`, the `$group` pipeline, ObjectId-to-string comparisons) are left out. Ids are opaque strings compared for equality, and "newest first" is reverse insertion order.
- Read-only listings with no rule are left out: getAllProducts, getAllOrders, getAllCustomers, getAddresses, getWishlist and the product lookup by id.
- The authentication middleware that attaches `req.user` is left out. Handlers receive the principal and, for the address book and wishlist, a user id that is in the store.
- Strings.ToLower: folds only the ASCII letters, where JavaScript's `toLowerCase` and `toLocaleLowerCase` fold all of Unicode.
- Upload.FileFilter: takes the original name as a string; the source calls `path.extname` on `file.originalname` without the `|| ""` fallback the filename function uses, and an absent name would throw.
- Upload.Extname: follows Node's posix `path.extname` for names with `/` separators; Windows separators are left out.
- AdminController.DeleteProduct: the `if (publicId)` test is always true, since the id starts with "products/", so every image is passed to `destroy`. The model returns every derived id and does not model the filter.
- ProductsValid: holds every schema constraint except `stock >= 0`. The order's `$inc` decrement runs no validators, so a stored stock can fall below 0; `save()` and `create()` still check the bound.
