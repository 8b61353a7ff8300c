# MARINA back end — a verified model of its controllers

MARINA is an Express and Mongoose back end for a jewellery workshop. It
keeps articles, catalogs, colours, suppliers, purchases (`Achat`), stock,
sales with embedded payments, clients, users, permissions, ensembles and
ensemble categories. This project models the controllers that hold real
rules:

- the payment bookkeeping of a sale;
- the sequential reference allocators for sales and purchases;
- the purchase and stock bookkeeping of a new article;
- moving an article between catalogs and suppliers;
- the list aggregations and filters;
- the uniqueness and presence checks of the create and update operations;
- the upload destination and file-name rules.

Each collection is a `Store.Collection<T>`, a class that holds
`docs: map<Id, T>` and the next id to hand out. Ids grow with insertion,
so ascending id order is the store's natural order. Each controller action
is a method:

- it takes the collections it reads and `modifies` the ones it writes;
- it returns a `Common.Status`, the HTTP answer;
- its `ensures` state the new contents of every collection it writes, for
  every answer.

Request fields are `Option`s, and JavaScript truthiness is written out:

- `Given` means a present, non-empty string;
- `GivenNum` means a present, non-zero number.

Money, weights and counts are integers. Where a controller depends on
something outside the store, the model takes it as a parameter:

- the current time;
- a password check;
- a bcrypt hash;
- whether an image file exists on disk;
- which stock record the bar-code lookup found.

Where the code and its intent part ways, the model follows the code. Each
such case is noted in the member's doc comment and in the table below:

- `createCatalog` answers 200, not 201.
- The names in `updateClient` never reach the database.
- `editPayment` and `deletePayment` leave `paid` and `notPaid` stale.
- A `category` in `updateArticle` ends in a 500 after the catalog and
  supplier lists were already rewritten.
- `deleteArticle` answers 404 after deleting when the image file is missing.
- `getColors` never answers 404.

## Model

| member | source | states |
|---|---|---|
| Common.Without | controllers/articles/ArticleController.js:316-318 | `filter(e => e != x)` never lengthens the list and leaves no occurrence of `x` |
| Common.WithoutMembers | controllers/articles/ArticleController.js:316-318 | filtering an id out of a list keeps exactly the other members |
| Common.WithoutAbsent | controllers/articles/ArticleController.js:441-443 | filtering out an id that is not in the list leaves the list as it was |
| Common.RemoveAt | controllers/sales/SalesController.js:232 | `splice(i, 1)` shortens the list by one, keeps the elements before `i` and shifts the rest down by one |
| Store.SortedKeys | controllers/Suppliers/SupplierController.js:83-85 | the natural order of a collection lists only stored ids, below the next id |
| Store.SortedKeysMembers | controllers/Suppliers/SupplierController.js:83-85 | the natural order lists every stored id and nothing else |
| Store.SortedKeysIncreasing | controllers/Suppliers/SupplierController.js:83-85 | the natural order is strictly ascending, i.e. oldest first |
| Store.Reverse | controllers/catalogs/CatalogController.js:17 | sorting by creation date descending reverses the natural order, position by position |
| Store.ReverseMembers | controllers/catalogs/CatalogController.js:17 | reversing keeps exactly the same members |
| Store.ReverseDecreasing | controllers/Suppliers/SupplierController.js:85 | an oldest-first list reversed is strictly newest-first |
| Store.Collection.Insert | controllers/sales/SalesController.js:94 | `save()` of a new document: a fresh id above every stored one, the document stored under it, and the id appended to the natural order |
| Store.Collection.Put | controllers/sales/SalesController.js:195 | `save()` of a loaded document: only that id changes, and the natural order is kept |
| Store.Collection.Delete | controllers/sales/SalesController.js:111 | `findByIdAndDelete`: only that id is removed |
| Store.Collection.Keys | controllers/Suppliers/SupplierController.js:83 | `find()` lists the stored ids in natural order |
| Store.FindOne | controllers/permissions/PermissionController.js:53 | `findOne(filter)`: `None` exactly when no document matches; otherwise the oldest match |
| Store.KeepExisting | controllers/ensemble/EnsembleController.js:63-70 | the verified ids are never more than the ids given, and each names a document |
| Store.KeepExistingConcat | controllers/ensembleCategories/EnsembleCategoryController.js:57-64 | the verified-id filter keeps the input order: the filter of a concatenation is the concatenation of the filters |
| Store.KeepExistingMembers | controllers/ensemble/EnsembleController.js:63-70 | the verified ids are exactly the input ids that name a document, never more than given |
| Store.KeepExistingAll | controllers/ensemble/EnsembleController.js:63-70 | when every id exists, the verified list is the input list |
| Store.VerifiedIds | controllers/ensembleCategories/EnsembleCategoryController.js:57-64 | the push loop over the ids computes exactly the existing ids, in input order |
| Store.FirstMissing | controllers/ensemble/EnsembleController.js:139-152 | the all-or-nothing loop: `None` iff every id exists; otherwise the first id that does not |
| SalesModel.PaymentsTotalBounds | models/sales/Sales.js:81-84 | with non-negative amounts the `reduce` sum is non-negative and at least every single amount |
| SalesModel.PaymentsTotalConcat | models/sales/Sales.js:81-84 | the `reduce` sum of payments is additive over concatenation |
| SalesModel.PaymentsTotalReplace | models/sales/Sales.js:81-84 | replacing one payment changes the sum by the difference of the two amounts |
| SalesModel.PaymentsTotalRemove | models/sales/Sales.js:81-84 | removing one payment lowers the sum by exactly its amount |
| SalesModel.Reconcile | models/sales/Sales.js:79-90 | after `updatePayments`, `paid` is the sum of the payments and `paid + notPaid == total`; total, payments and all other fields are kept; an already balanced sale is unchanged |
| SalesModel.ReconcileNoPayments | models/sales/Sales.js:81-87 | with no payments, `paid` is 0 and `notPaid` is the whole total |
| SalesModel.ReconcileIdempotent | models/sales/Sales.js:79-89 | a second `updatePayments` changes nothing |
| SalesModel.UpdatePayments | models/sales/Sales.js:79-90 | the method stores exactly the reconciled sale under its id |
| SalesModel.NewSale | models/sales/Sales.js:9-50 | a new sale has status "Pending", `paid = notPaid = 0` and no payments, plus the given ref, articles, client, total and weight |
| SalesModel.NewSaleReconciledIff | models/sales/Sales.js:36-50 | because `notPaid` defaults to 0, a new sale is balanced only when its total is 0 |
| Refs.NextRefUnique | controllers/sales/SalesRefsGenerator.js:15-31 | the allocator's answer is determined: at most one least free ref from `count + 1` on |
| Refs.ProbeFreeRef | controllers/sales/SalesRefsGenerator.js:21-29 | the do-while probe ends, returns a ref ≥ count + 1 that is unused, with every value between in use; `count + 1` itself when it is free |
| Refs.GenerateSalesReference | controllers/sales/SalesRefsGenerator.js:15-31 | the sale ref is the least unused ref from the number of sales + 1 on, so no stored sale has it |
| Refs.GenerateAchatReference | controllers/articles/AchatRefsGenerator.js:15-31 | the purchase ref is the least unused ref from the number of purchases + 1 on, so no stored purchase has it |
| Refs.SequentialRefsDistinct | controllers/sales/SalesRefsGenerator.js:21-31 | two allocations in a row, with the first one stored in between, give strictly increasing distinct refs |
| SalesController.SumOfBounds | controllers/sales/SalesController.js:61-71 | with non-negative prices the running total is non-negative and at least the price of every listed article |
| SalesController.SumOfConcat | controllers/sales/SalesController.js:61-71 | the running total is additive over concatenated article lists |
| SalesController.SumOfRepeated | controllers/sales/SalesController.js:61-71 | an article listed twice is charged twice |
| SalesController.SellPrices | controllers/sales/SalesController.js:69 | the price table covers exactly the stored articles |
| SalesController.Weights | controllers/sales/SalesController.js:70 | the weight table covers exactly the stored articles |
| SalesController.SelectArticles | controllers/sales/SalesController.js:58-71 | the lookup loop stops at the first unknown id; otherwise it selects every id and totals sell prices and weights, each occurrence counted |
| SalesController.CreateSale | controllers/sales/SalesController.js:46-105 | 400 and no write when articles are missing or empty; 404 and no write on an unknown article or client; an empty `date` string, cast to null, fails the required `date` with 500 and no write; otherwise 201 and exactly one new sale with the next free ref, the totals and the default balance |
| SalesController.DeleteSale | controllers/sales/SalesController.js:108-122 | 404 when absent; otherwise only that sale is removed |
| SalesController.FindPayment | controllers/sales/SalesController.js:181-183 | `findIndex`: -1 iff no payment has the id; otherwise the first index that does |
| SalesController.FreshPaymentId | controllers/sales/SalesController.js:145 | a pushed payment gets an id different from every payment already in the sale |
| SalesController.AddPayment | controllers/sales/SalesController.js:126-159 | 400 and no change without method, amount and date; 404 for an unknown sale; otherwise 200, one payment appended, then reconciled |
| SalesController.AddedPaymentBalance | controllers/sales/SalesController.js:145-148 | after adding, the list gains exactly that payment at the end, `paid` grows and `notPaid` shrinks by its amount, and the sale stays balanced |
| SalesController.OverpaymentAccepted | controllers/sales/SalesController.js:145-148 | there is no overpay check: paying more than is owed leaves `notPaid` negative |
| SalesController.WithPaymentEdited | controllers/sales/SalesController.js:185-192 | the index assignment: same length, the entry at `i` carries the new method, amount and date under its old id, every other entry and every other sale field is kept |
| SalesController.EditPayment | controllers/sales/SalesController.js:162-211 | 400 without all fields; 404 for an unknown sale or payment id, with no change; 200 exactly when all fields are given and the sale has a payment with the id, and then only the first matching entry is replaced and saved as is |
| SalesController.EditedPaymentBalance | controllers/sales/SalesController.js:185-195 | an edit keeps length, other entries and the payment id; `paid` and `notPaid` are not recomputed, so the sale stays balanced iff the amount is unchanged |
| SalesController.DeletePayment | controllers/sales/SalesController.js:214-251 | 404 for an unknown sale or payment id, with no change; 200 exactly when the sale has a payment with the id, and then exactly the first matching entry is spliced out |
| SalesController.DeletedPaymentBalance | controllers/sales/SalesController.js:230-235 | a delete keeps `paid` and `notPaid`, so the sale stays balanced iff the removed amount was 0 |
| Articles.CreateArticle | controllers/articles/ArticleController.js:109-255 | 400 and no write when a required field is missing; 404 and no write for an unknown catalog (looked up by `category`), colour or supplier; 400 for an incomplete image; otherwise 201; the article is appended to its supplier's and catalog's lists; one purchase with the next ref, `weight*count` and `buyPrice*count`; the stock incremented or created |
| Articles.AppendToSupplier | controllers/articles/ArticleController.js:213-214 | the new article is pushed at the end of its supplier's list; nothing else changes |
| Articles.AppendToCatalog | controllers/articles/ArticleController.js:215-216 | the new article is pushed at the end of its catalog's list; nothing else changes |
| Articles.RecordPurchase | controllers/articles/ArticleController.js:218-229 | exactly one purchase is added, with the next free ref and the count-scaled weight and total |
| Articles.RecordStock | controllers/articles/ArticleController.js:231-244 | a found stock record grows by the count; otherwise one new record holds the count |
| Articles.Patched | controllers/articles/ArticleController.js:287-382 | every field the body gives is written (strings and numbers only when truthy), every field it does not give is kept; status and bar code never change |
| Articles.MoveInCatalogs | controllers/articles/ArticleController.js:302-330 | catalog reassignment: the article leaves the old catalog (when it exists) and is appended to the new one; other catalogs are untouched |
| Articles.MoveInSuppliers | controllers/articles/ArticleController.js:331-353 | supplier reassignment: the same filter-then-append over suppliers |
| Articles.MoveToSameCatalogOnce | controllers/articles/ArticleController.js:313-326 | moving to the catalog it is in leaves exactly one entry, at the end |
| Articles.ReassignCatalog | controllers/articles/ArticleController.js:313-329 | the two saves compute exactly `MoveInCatalogs` |
| Articles.ReassignSupplier | controllers/articles/ArticleController.js:340-350 | the two saves compute exactly `MoveInSuppliers` |
| Articles.UpdateStatus | controllers/articles/ArticleController.js:291-373 | the update answers 200 iff every given colour, catalog, supplier (and the old supplier) and creator exists and no `category` is given; a `category` always fails |
| Articles.ListSteps | controllers/articles/ArticleController.js:291-353 | the colour, catalog and supplier steps: the answer so far is the first failing check, and each list is moved exactly when its step passes |
| Articles.UpdateArticle | controllers/articles/ArticleController.js:258-395 | 404 for an unknown article; the answer is `UpdateStatus`; the catalog and supplier lists are moved as soon as their step passes; the article is saved patched only on 200 |
| Articles.ToggleStatus | controllers/articles/ArticleController.js:398-424 | 404 for an unknown id; otherwise only `status` is negated |
| Articles.Stripped | controllers/articles/ArticleController.js:440-444 | a cleaned catalog keeps every other field and every other member of its list |
| Articles.CatalogsWithout | controllers/articles/ArticleController.js:437-445 | after cleaning, no catalog lists the article; catalogs, their other fields and their other members are kept |
| Articles.StripCatalogs | controllers/articles/ArticleController.js:437-445 | the loop over the catalogs computes exactly `CatalogsWithout` |
| Articles.DeleteArticle | controllers/articles/ArticleController.js:427-468 | 404 and no change for an unknown id; otherwise the catalogs are cleaned and the article deleted, and the answer is 200 if the image file exists, 404 if not |
| Suppliers.WithStatus | controllers/Suppliers/SupplierController.js:80-84 | the filtered list is never longer than the input |
| Suppliers.WithStatusNone | controllers/Suppliers/SupplierController.js:80-84 | without a status filter every supplier is listed, in the same order |
| Suppliers.WithStatusMembers | controllers/Suppliers/SupplierController.js:80-84 | the status filter keeps exactly the suppliers whose status matches, or all without a filter |
| Suppliers.WithStatusIncreasing | controllers/Suppliers/SupplierController.js:80-84 | the filter keeps the order |
| Suppliers.NewestFirst | controllers/Suppliers/SupplierController.js:83-85 | the answer lists exactly the matching suppliers, strictly newest first |
| Suppliers.GetSuppliers | controllers/Suppliers/SupplierController.js:80-90 | the list is the filtered suppliers newest first; 404 iff it is empty |
| Suppliers.SupplierTotalNone | controllers/Suppliers/SupplierController.js:110-117 | a supplier none of whose purchases is listed totals 0 |
| Suppliers.SupplierTotalNonNegative | controllers/Suppliers/SupplierController.js:114-117 | non-negative purchase totals, a missing one counting as 0, give a non-negative sum |
| Suppliers.PurchasesOf | controllers/Suppliers/SupplierController.js:110-112 | `Achat.find({supplier})` never lists more purchases than there are |
| Suppliers.PurchasesOfMembers | controllers/Suppliers/SupplierController.js:110-112 | it lists exactly the purchases made from that supplier |
| Suppliers.SupplierTotalFrame | controllers/Suppliers/SupplierController.js:110-117 | the total depends only on the purchases listed |
| Suppliers.SupplierTotalAfterPurchase | controllers/Suppliers/SupplierController.js:110-117 | one more purchase raises its own supplier's total by its amount and leaves the other suppliers' totals unchanged |
| Suppliers.GetOneSupplier | controllers/Suppliers/SupplierController.js:101-127 | 404 for an unknown supplier; otherwise `totalPayment` is set to the sum of the supplier's purchase totals and saved |
| Suppliers.CreateSupplier | controllers/Suppliers/SupplierController.js:150-181 | 409 exactly when the `$or` lookup finds a supplier, with no write: one with the same phone or email, or any supplier at all when the phone or the email is absent, since that branch of the filter is then empty; otherwise a missing last name or email fails validation with 500 and no write; otherwise 201 and exactly one new supplier, active by default |
| Suppliers.ApplyPatch | controllers/Suppliers/SupplierController.js:224-232 | `findByIdAndUpdate`: each of the eight fields is written when the body gives it and kept when it does not; an empty body changes nothing |
| Suppliers.ApplyPatchIdempotent | controllers/Suppliers/SupplierController.js:224-232 | sending the same update twice equals sending it once |
| Suppliers.UpdateSupplier | controllers/Suppliers/SupplierController.js:218-248 | 404 for an unknown id; otherwise the supplier is replaced by the patched one |
| Suppliers.DeleteSupplier | controllers/Suppliers/SupplierController.js:184-205 | 404 for an unknown id; otherwise only that supplier is removed |
| Suppliers.ToggleStatus | controllers/Suppliers/SupplierController.js:251-278 | 404 for an unknown id; otherwise only `status` is negated |
| Decimal.NatToString | helpers/multerConfig.js:15 | a number is written with digits only, without leading zeros |
| Decimal.NatToStringRoundTrip | helpers/multerConfig.js:15 | reading the written digits back gives the number |
| Decimal.NatToStringInjective | helpers/multerConfig.js:15 | different numbers are written differently |
| Decimal.DigitPrefix | controllers/catalogs/CatalogController.js:34 | the digits `parseInt` reads are the longest digit prefix |
| Decimal.TrimStart | controllers/catalogs/CatalogController.js:34 | `parseInt` skips leading white space (JavaScript's full set, Unicode spaces and line terminators included) and nothing else: everything dropped is white space, and what remains does not start with any |
| Decimal.DigitPrefixOfDigits | controllers/catalogs/CatalogController.js:34 | digits followed by a non-digit have exactly those digits as prefix |
| Decimal.ParseInt | controllers/catalogs/CatalogController.js:34 | a string of digits parses to its value; any number read needs at least one digit in the string |
| Decimal.ParseIntOfNat | controllers/catalogs/CatalogController.js:34 | `parseInt` of a written number followed by a non-digit gives the number |
| Decimal.ParseIntOfNegated | controllers/catalogs/CatalogController.js:34 | a leading minus sign gives the negated number |
| Decimal.ParseIntNaN | controllers/catalogs/CatalogController.js:34 | a string with neither sign nor digit after the leading white space gives NaN |
| Catalogs.WithCounts | controllers/catalogs/CatalogController.js:25-30 | each listed catalog carries `numberArticles` equal to the length of its list |
| Catalogs.KeepCount | controllers/catalogs/CatalogController.js:33-35 | the count filter keeps only listed catalogs with that count, never more than given |
| Catalogs.KeepCountMembers | controllers/catalogs/CatalogController.js:32-37 | the count filter keeps exactly the catalogs with that count |
| Catalogs.KeepCountConcat | controllers/catalogs/CatalogController.js:32-37 | the count filter keeps the original order |
| Catalogs.Listing | controllers/catalogs/CatalogController.js:25-37 | every listed entry is a stored catalog with `numberArticles` equal to the length of its list; no more entries than catalogs, and all of them without a filter |
| Catalogs.ListingFiltered | controllers/catalogs/CatalogController.js:32-37 | with `nombreArticles`, exactly the catalogs whose count equals its parsed value are listed; an unparsable value lists none |
| Catalogs.GetCatalogs | controllers/catalogs/CatalogController.js:8-46 | 404 iff there is no catalog at all; otherwise 200 with the counted, filtered list newest first, even when the filter leaves nothing |
| Catalogs.CreateCatalog | controllers/catalogs/CatalogController.js:71-100 | 400 for a missing name or description; 409 for a name in use; otherwise 200 (not 201) and exactly one new catalog |
| Catalogs.NameTaken | controllers/catalogs/CatalogController.js:81-86 | the lookup finds a catalog iff one has that name |
| Catalogs.UpdateCatalog | controllers/catalogs/CatalogController.js:103-135 | 404 for an unknown id; otherwise name, description and status are written when present and kept when absent |
| Catalogs.ToggleStatus | controllers/catalogs/CatalogController.js:138-165 | 404 for an unknown id; otherwise only `status` is negated |
| Catalogs.DeleteCatalog | controllers/catalogs/CatalogController.js:168-190 | 404 for an unknown id; otherwise only that catalog is removed |
| EnsembleCategories.FindByName | controllers/ensembleCategories/EnsembleCategoryController.js:47 | the lookup finds a category iff one has that name |
| EnsembleCategories.VerifyEnsembles | controllers/ensembleCategories/EnsembleCategoryController.js:54-64 | the verified ensembles are the given ids that exist, in order; none when no list is given |
| EnsembleCategories.CreateCategory | controllers/ensembleCategories/EnsembleCategoryController.js:43-85 | 409 exactly when the name is taken, or when the name is absent and any category is stored (`findOne({})`), with no write; unknown ensembles are dropped; otherwise a missing name or description fails validation with 500 and no write; otherwise 201 and exactly one new active category |
| EnsembleCategories.Merged | controllers/ensembleCategories/EnsembleCategoryController.js:123-126 | a missing name or description keeps the old value; ensembles are replaced only by a non-empty verified list |
| EnsembleCategories.MergedNeverClears | controllers/ensembleCategories/EnsembleCategoryController.js:125-126 | an update can never empty a category's ensemble list |
| EnsembleCategories.UpdateCategory | controllers/ensembleCategories/EnsembleCategoryController.js:87-142 | 404 for an unknown id; 409 and no write only when a new, different name is held by some category; otherwise 200 with the merged category |
| EnsembleCategories.DeleteCategory | controllers/ensembleCategories/EnsembleCategoryController.js:144-167 | 404 for an unknown id; otherwise only that category is removed |
| Ensembles.CreateEnsemble | controllers/ensemble/EnsembleController.js:47-100 | 400 without name, description, creator or article list; 404 and no write for an unknown creator; 400 and no write for an incomplete image; otherwise 201 with the existing article ids in order and status defaulting to active |
| Ensembles.Edited | controllers/ensemble/EnsembleController.js:118-152 | a missing name or description keeps the old one; a given creator or article list replaces the old one, an empty list included |
| Ensembles.EditedNothing | controllers/ensemble/EnsembleController.js:118-152 | a body with no field leaves the ensemble unchanged |
| Ensembles.EditedIdempotent | controllers/ensemble/EnsembleController.js:118-152 | applying the same update twice equals applying it once |
| Ensembles.UpdateEnsemble | controllers/ensemble/EnsembleController.js:103-167 | 200 iff the ensemble, the given creator and every given article exist; then exactly the edited ensemble is saved; any 404 leaves the store unchanged |
| Ensembles.DeleteEnsemble | controllers/ensemble/EnsembleController.js:170-194 | 404 for an unknown id; otherwise that ensemble is removed and the answer is 200 |
| Permissions.CreatePermission | controllers/permissions/PermissionController.js:42-75 | 400 for an empty name; 409 iff the name is in use; 201 iff the name is given and unused, with exactly one new permission; unique names stay unique |
| Permissions.RenameClashUnique | controllers/permissions/PermissionController.js:93-101 | with unique names, the update conflicts exactly when a different permission holds the name, so renaming to its own name never conflicts |
| Permissions.UpdatePermission | controllers/permissions/PermissionController.js:77-115 | 400 for an empty name, then 404 for an unknown id; 409 when the oldest holder of the name is another permission; otherwise only `permissionName` changes |
| Permissions.RenameKeepsUnique | controllers/permissions/PermissionController.js:93-104 | a rename that passes the conflict check keeps names unique |
| Permissions.DeletePermission | controllers/permissions/PermissionController.js:117-138 | 404 for an unknown id; otherwise only that permission is removed |
| Users.UpdateUserStatus | controllers/users/UserController.js:165-247 | 404 for an unknown user; 409 iff the user exists and a given user name, email or phone is held by another user; 200 iff the user exists, nothing clashes, a requested password change has the right old password, and a given role exists; 401 only for a wrong old password |
| Users.Edited | controllers/users/UserController.js:173-247 | every field absent from the body is kept; the password changes only with both passwords given; status never changes |
| Users.UpdateKeepsUnique | controllers/users/UserController.js:173-223 | a successful update keeps user names, emails and phones unique across users |
| Users.Clash | controllers/users/UserController.js:174-177 | the `$ne` lookup finds something iff another user holds the given value |
| Users.UpdateUser | controllers/users/UserController.js:151-260 | the answer is `UpdateUserStatus`; on 200 exactly the edited user is saved; any other answer leaves the store unchanged |
| Users.ToggleStatus | controllers/users/UserController.js:123-148 | 404 for an unknown id; otherwise only `status` is negated |
| Users.DeleteUser | controllers/users/UserController.js:263-282 | 404 for an unknown id; otherwise only that user is removed |
| Clients.AddClient | controllers/clients/ClientController.js:153-207 | 400 when one of the six fields is missing; 409 iff the email is in use; 201 iff all fields are given and the email is unused, with exactly one new client, active by default |
| Clients.AddKeepsUniqueEmails | controllers/clients/ClientController.js:174-182 | a client that passes the email check keeps emails unique |
| Clients.Edited | controllers/clients/ClientController.js:225-234 | first and last name never change; email, phone, type and address are overwritten only when given |
| Clients.EditNamesOnly | controllers/clients/ClientController.js:225-226 | an update that gives only names leaves the client unchanged |
| Clients.UpdateClient | controllers/clients/ClientController.js:210-248 | 404 for an unknown id; otherwise exactly the edited client is saved |
| Clients.ToggleStatus | controllers/clients/ClientController.js:125-150 | 404 for an unknown id; otherwise only `status` is negated |
| Clients.DeleteClient | controllers/clients/ClientController.js:251-271 | 404 for an unknown id; otherwise only that client is removed |
| Colors.GetColors | controllers/colors/ColorController.js:6-21 | always 200; at most 14 colours, the oldest ones, and all of them when there are fewer |
| Colors.CreateColor | controllers/colors/ColorController.js:43-80 | 400 for a missing name or hex; 409 iff some colour has the same name or the same hex; 201 iff both are given and neither is taken, with exactly one new colour |
| Colors.CreateKeepsDistinct | controllers/colors/ColorController.js:53-69 | a colour that passes the check keeps names and hex codes distinct |
| Colors.UpdateColor | controllers/colors/ColorController.js:83-110 | 404 for an unknown id; otherwise the given name and hex are written and absent ones kept |
| Colors.DeleteColor | controllers/colors/ColorController.js:113-134 | 404 for an unknown id; otherwise only that colour is removed |
| Uploads.Split | helpers/multerConfig.js:22 | `split('/')` gives at least one piece and no piece contains a slash |
| Uploads.JoinSplit | helpers/multerConfig.js:22 | joining the pieces with slashes gives the path back |
| Uploads.SplitConcat | helpers/multerConfig.js:22 | a slash between two parts splits into the pieces of each part |
| Uploads.NonEmpty | helpers/multerConfig.js:22 | `filter(Boolean)` keeps only non-empty pieces, all taken from the input |
| Uploads.NonEmptyConcat | helpers/multerConfig.js:22 | the filter keeps the order |
| Uploads.MainPath | helpers/multerConfig.js:22 | the main path, when there is one, is a non-empty segment without slashes |
| Uploads.DestinationPath | helpers/multerConfig.js:20-34 | "catalogs" goes to the catalogs directory and "articles" to the articles directory; anything else goes to the default one |
| Uploads.MainPathOfSegment | helpers/multerConfig.js:22-29 | the first segment decides, whatever follows it |
| Uploads.LeadingSlash | helpers/multerConfig.js:22 | a leading slash does not change the destination |
| Uploads.DoubledSlash | helpers/multerConfig.js:22 | a doubled slash anywhere does not change the destination |
| Uploads.OnlySlashes | helpers/multerConfig.js:30-32 | an empty path, or one made only of slashes, goes to the default directory |
| Uploads.StoredFileName | helpers/multerConfig.js:15 | the stored name is longer than the original name plus the separator |
| Uploads.StoredFileNameParts | helpers/multerConfig.js:15 | the stored name gives back both parts: `parseInt` reads the timestamp, and the original name follows the underscore |
| Uploads.StoredFileNameInjective | helpers/multerConfig.js:15 | two uploads share a stored name only if they have the same time and the same original name |
| Uploads.Described | helpers/multerConfig.js:11-15 | the file record holds the stored name and the original name, with `fileType` copied from the mimetype |
| Uploads.DescribedComplete | helpers/multerConfig.js:11-15 | the controllers' invalid-image check fails exactly when the original name or the mimetype is empty |

## Left out

- Authentication and passwords: JWT and bcrypt are foreign calls. `Users.UpdateUser` takes the result of `bcrypt.compare` and the new hash as parameters. The `password` that `updateClient` hashes is not a schema path, so it is not modelled.
- Search and date filters: the regular-expression name filters and the date-range filters of the list endpoints are not modelled. This covers the `name` search of `getCatalogs` and the other filters of `getSupplier`.
- Server wiring: routes, the server bootstrap and the database connection are not modelled.
- Other controllers: stock, repairs, technicians, article categories and roles are plain lookup-and-overwrite wrappers and are not modelled. The same goes for the single-document getters of every controller. `models/users/User.js` is not part of this model; the user fields come from `UserController.js`.
- File system: removing image files with `fs.unlinkSync` is not modelled. Whether the file exists is the parameter `imageExists` of `Articles.DeleteArticle`.
- Concurrency: each operation runs as one sequential step. This leaves out the check-then-insert race in the reference allocators and in every uniqueness check. It also leaves out the missing atomicity across multi-document writes and the unawaited `updatePayments()` in `addPayment`.
- Database failures: a failing store call, which becomes a 500 or, in the allocators, a rethrown error, is not modelled. Nor are malformed ids (cast errors) or JSON `null` values.
- Unique indexes and normalisation: the schemas' `unique`, `trim`, `lowercase` and `min` options are not modelled. So a duplicate that only an index would reject, such as a client's phone or a colour renamed by `updateColor`, is stored in the model. `required` validators are modelled where a controller can reach them: the last name and email of `createSupplier`, the name and description of `createCategory`, and the sale `date` of `createSale` when it is an empty string.
- Numbers: prices, weights, amounts and counts are integers, not IEEE doubles.
- Decimal.ParseInt: the `0x` hexadecimal prefix that `parseInt` accepts without a radix is not modelled.
- Partial updates: `Catalogs.UpdateCatalog`, `Colors.UpdateColor` and `Suppliers.ApplyPatch` assume that `findByIdAndUpdate` drops keys whose value is `undefined`, as Mongoose 6 and later do. Under Mongoose 5 with `omitUndefined` off, an absent field would be written as `null`.
- Sales: stock is not decremented on a sale and overpayment is not rejected, because the controller does neither.
- SalesController.CreateSale: takes `clientId` as a given id. An absent `clientId` would turn into an unconstrained `findOne`, and that is not modelled.
- SalesController.CreateSale: the sale `date` is kept as the string the client sent. Only the empty string is recognised as failing the `Date` cast. Any other string that does not parse as a date also ends in a cast error and a 500, but the model stores it and answers 201.
- SalesController.AddPayment: the payment's `amount` and `date` are taken as already cast. A non-empty `date` that fails the payment sub-schema's `Date` cast, or a non-numeric string `amount`, makes the save inside the unawaited `updatePayments()` fail after the 200 is sent, so the source stores nothing. The model stores the payment and answers 200.
- SalesController.EditPayment: for the same values, the awaited `sale.save()` fails, so the source answers 500 and stores nothing. The model replaces the payment and answers 200.
- SalesController.EditPayment: keeps the payment's id. The spread of a Mongoose sub-document may lose `_id`, which would give the entry a fresh id on save; the model does not follow that.
- Articles.CreateArticle / Articles.RecordStock: numeric body fields (`countArticle`, `weight`, `buyPrice`, `sellPrice`) are assumed to arrive as JSON numbers, since only `express.json()` parses bodies. A string value is not modelled. For a string count, the source's `!countArticle` guard lets `"0"` through, where the model answers 400. `existingStock.stock += countArticle` then concatenates: a stock of 10 and a count of `"3"` give `"103"`, saved as 103, where the model gives 13. `Number()` in the purchase totals reads such strings as numbers, which the integer model matches.
- Articles.CreateArticle: the stock lookup filters on a path the stock schema does not have, so which record it returns depends on the driver's query settings. The model takes that result as the parameter `stockHit`.
- Articles.UpdateArticle: the file replacement deletes the old image file, which is not modelled. The `number` field goes to a path the schema does not have, so it has no effect.
- Toggles and createEnsemble: where a controller sends 404 and then fails on a null document, the model answers 404 and writes nothing.
