# ionecenter marketplace: client state and request logic in Dafny

ionecenter is a demo business-to-business marketplace web application. Its
logic sits in a few browser-side stores and page handlers:

- a shopping cart kept in local storage;
- a demo authentication store;
- a spreadsheet bulk upload for sellers;
- display preferences: currency, locale and theme.

Two server routes also answer signup and login requests.

This project models that logic in Dafny and proves what the code promises
about it. The model covers:

- **Cart** (`Cart`, `CartPage`): a list of product/quantity lines with add,
  remove, update and clear, written back to storage after every change. The
  total is looked up against the bundled catalog. The cart page joins the
  lines with the catalog and clamps edited quantities.
- **Authentication** (`Auth`, `Admin`, `Account`, `SignupPage`): a credential
  table seeded with a built-in administrator, one optional session, and
  login, signup and logout. The admin dashboard deletes accounts and counts
  roles. The account page renames the signed-in account. The signup form
  runs its own checks.
- **Server routes** (`SignupRoute`, `LoginRoute`): early-return decision
  chains that map a request body to a status code and a reply.
- **Spreadsheet upload** (`Products`, `BulkUpload`, `Firebase`):
  - sheet rows are read into product records;
  - uploads are counted and their errors reported;
  - the image storage path is built from the file name;
  - the file type is checked;
  - the Firebase configuration is checked.
- **Preferences** (`Currency`, `Locale`, `I18n`, `Theme`):
  - currency hydration, conversion and formatting;
  - the locale cookie parse and the right-to-left flag;
  - the dark/light toggle.
- **Page predicates** (`Header`, `Sidebar`, `ConditionalLayout`, `Orders`,
  `SellerOrders`):
  - the header search;
  - the sidebar active-link rule;
  - header and footer hiding;
  - the buyer order filter and status colours;
  - the seller order fallback.

Browser storage, the document and the page reload are fields of one shared
`BrowserEnv.Browser` object. Each store's methods may modify only the fields
for the storage keys that store owns.

A stored JSON value is a `Slot`: `Absent`, `Unparseable` or `Stored(v)`.
`Unparseable` stands for text that makes `JSON.parse` throw. Every reader
tests the stored text for truthiness before parsing it, so an empty stored
text reads as `Absent`.

Catalog and cart prices are whole cents, so 89.99 is 8999. Currency
conversion and formatting use exact `real` numbers.

The following are parameters of the model:

- the clock (`now`, for `user-${Date.now()}` ids and image names);
- what each network call returns;
- the rows of a spreadsheet's first sheet;
- whether the Firebase configuration is valid.

## Model

| member | source | states |
|---|---|---|
| Domain.FindProduct | apps/web/components/CartContext.tsx:57-62 | The lookup finds a product iff some catalog entry has the id, and the product found carries that id. |
| Domain.FindProductIsFirst | apps/web/components/CartContext.tsx:59 | The product found is the first catalog entry with that id. |
| Domain.CatalogIdsDistinct | apps/web/data/products.ts:3-28 | The bundled catalog's ids are pairwise distinct. |
| Domain.WithoutPassword | apps/web/contexts/AuthContext.tsx:65-69 | The public record keeps the id, name, email and role of the credential; the user type has no password field. |
| Cart.Added | apps/web/components/CartContext.tsx:35-45 | For a product already in the cart, the list keeps its length and order, the matching lines gain `qty` and every other line is unchanged. For a new product, exactly one line `(id, qty)` is appended after the old list. |
| Cart.Removed | apps/web/components/CartContext.tsx:47-48 | No line for the id survives, and the length drops by exactly the number of lines for it. |
| Cart.RemovedKeepsOthers | apps/web/components/CartContext.tsx:47-48 | Every line for another product survives the removal, and nothing new appears. |
| Cart.RemovedAbsentUnchanged | apps/web/components/CartContext.tsx:47-48 | Removing an id the cart does not hold leaves the list as it was. |
| Cart.RemovedAppend | apps/web/components/CartContext.tsx:47-48 | Removal works run by run: removing from two runs put together is removing from each, so the surviving lines keep their order. |
| Cart.Requantified | apps/web/components/CartContext.tsx:50-53 | The length and the product ids are unchanged, every other line is unchanged, and the matching lines carry the new quantity, which is not checked. |
| Cart.TotalOfEmpty | apps/web/components/CartContext.tsx:55-62 | The total of the empty cart, which is what `clear` leaves, is 0. |
| Cart.UnknownLinesAddNothing | apps/web/components/CartContext.tsx:57-62 | Lines whose product is missing from the catalog contribute nothing to the total. |
| Cart.TotalAppend | apps/web/components/CartContext.tsx:57-62 | The total of two lists joined is the sum of their totals. |
| Cart.TotalPermutation | apps/web/components/CartContext.tsx:57-62 | Any two lists with the same lines in any order have the same total. |
| Cart.TotalWithout | apps/web/components/CartContext.tsx:57-62 | Taking out any one line takes exactly that line's value out of the total. |
| Cart.TotalBumped | apps/web/components/CartContext.tsx:37-41 | Raising each line of a product by `qty` raises the total by the unit price times `qty` for each such line. |
| Cart.CountUnique | apps/web/components/CartContext.tsx:36 | In a cart with unique ids, a product has at most one line, and exactly one iff it is present. |
| Cart.AddedKeepsUnique | apps/web/components/CartContext.tsx:35-45 | `addItem` keeps the product ids unique. |
| Cart.RemovedAndRequantifiedKeepUnique | apps/web/components/CartContext.tsx:47-53 | `removeItem` and `updateQty` keep the product ids unique. |
| Cart.RemovedKeepsUnique | apps/web/components/CartContext.tsx:47-48 | Filtering out one id keeps the ids unique. |
| Cart.AddedQuantity | apps/web/components/CartContext.tsx:35-45 | With unique ids, `addItem(p, qty)` raises p's quantity by exactly `qty` and leaves exactly one line for p. So repeated adds sum their quantities. |
| Cart.QtyOfBumped | apps/web/components/CartContext.tsx:37-41 | Bumping adds `qty` to the product's summed quantity once per matching line. |
| Cart.CountBumped | apps/web/components/CartContext.tsx:37-41 | Bumping does not change how many lines a product has. |
| Cart.QtyOfAppend | apps/web/components/CartContext.tsx:43 | A product's summed quantity over two joined lists is the sum over each list. |
| Cart.CountAppend | apps/web/components/CartContext.tsx:43 | A product's line count over two joined lists is the sum over each list. |
| Cart.TotalAfterAdd | apps/web/components/CartContext.tsx:35-62 | With unique ids, `addItem(p, qty)` raises the total by p's catalog price times `qty`. A product missing from the catalog adds 0. |
| Cart.RemoveThenAdd | apps/web/components/CartContext.tsx:35-48 | Removing a product and adding it again with `qty` leaves exactly one line for it, with quantity `qty`. |
| Cart.QtyOfNone | apps/web/components/CartContext.tsx:36 | A product the cart does not hold has no line and quantity 0. |
| Cart.LineValue | apps/web/components/CartContext.tsx:58-61 | One line's contribution to the total: price × quantity, or 0 when the catalogue has no such product; characterised by Cart.UnknownLinesAddNothing and Cart.TotalBumped. |
| Cart.Total | apps/web/components/CartContext.tsx:57-62 | The `total` reduce over the lines; characterised by Cart.TotalOfEmpty, Cart.TotalAppend (additive over joined lists), Cart.TotalPermutation (independent of line order) and Cart.TotalWithout. |
| Cart.CartStore.CartTotal | apps/web/components/CartContext.tsx:57-62 | The context's `total` is Cart.Total of the current lines; Cart.CartStore.Clear states it is 0 after `clear`, and Cart.TotalAfterAdd how `addItem` changes it. |
| Cart.CartStore.Mount | apps/web/components/CartContext.tsx:22-33 | A stored list that parses becomes the cart. A missing or unparseable value gives the empty cart. Storage then holds the current list. |
| Cart.CartStore.AddItem | apps/web/components/CartContext.tsx:35-45 | The cart becomes `Added(old cart, id, qty)`, and storage holds the new list. |
| Cart.CartStore.AddOne | apps/web/components/CartContext.tsx:35 | With the default quantity, the cart becomes `Added(old cart, id, 1)`. |
| Cart.CartStore.RemoveItem | apps/web/components/CartContext.tsx:47-48 | The cart becomes `Removed(old cart, id)`, and storage holds the new list. |
| Cart.CartStore.UpdateQty | apps/web/components/CartContext.tsx:50-53 | The cart becomes `Requantified(old cart, id, qty)`, and storage holds the new list. |
| Cart.CartStore.Clear | apps/web/components/CartContext.tsx:55 | The cart is empty, its total is 0, and storage holds the empty list. |
| Cart.Scenario | apps/web/components/CartContext.tsx:35-62 | Starting from an empty cart: add the headphones with quantity 1, then 2, then remove them. The stored cart ends empty. The proof passes through one line of quantity 3 worth 269.97 and a total of 0. |
| CartPage.Rows | apps/web/app/cart/page.tsx:10-16 | There is at most one row per line, and each row's product is in the catalog. |
| CartPage.RowsAppend | apps/web/app/cart/page.tsx:10-16 | The rows of two runs of lines come one run after the other, so the rows keep cart order. |
| CartPage.RowsOfOneLine | apps/web/app/cart/page.tsx:10-16 | A single line gives the row of its catalog product with the line's quantity when the catalog knows the product, and no row otherwise. |
| CartPage.RowsKeepKnownLines | apps/web/app/cart/page.tsx:10-16 | The number of rows is the number of lines minus those whose product is unknown. |
| CartPage.UnknownCount | apps/web/app/cart/page.tsx:12-14 | The count of unknown lines never exceeds the number of lines. |
| CartPage.TotalIsSumOfSubtotals | apps/web/app/cart/page.tsx:79-100 | The displayed store total equals the sum of the row subtotals `price × qty`. |
| CartPage.EmptyStateIffNoKnownLine | apps/web/app/cart/page.tsx:26 | The empty state shows iff no line names a catalog product, even when the cart holds stale ids. |
| CartPage.ClampQty | apps/web/app/cart/page.tsx:73-75 | The quantity sent is at least 1 and at least the entered value, and it is one of the two. |
| CartPage.EditedQuantityIsPositive | apps/web/app/cart/page.tsx:73-75 | After an edit through the page, every line for that product has a positive quantity. |
| Auth.TableOf | apps/web/contexts/AuthContext.tsx:59-60 | A missing table reads as empty, a stored table as itself, and unparseable text as a failure. |
| Auth.FindLogin | apps/web/contexts/AuthContext.tsx:61-64 | A record is found iff some record has exactly this email and password, and the record found matches both. |
| Auth.FindLoginIsFirst | apps/web/contexts/AuthContext.tsx:61-64 | The record found is the first matching one. |
| Auth.NewUserId | apps/web/contexts/AuthContext.tsx:93 | The new id is `user-` followed by at least one character. |
| Auth.NewUserIdInjective | apps/web/contexts/AuthContext.tsx:93 | Signups at different times get different ids. |
| Auth.SignupTable | apps/web/contexts/AuthContext.tsx:77-101 | Signup succeeds iff the table parses and no record has the email. On success the table is the old table plus exactly one record, with the given name, email, password and role and the time-based id. |
| Auth.SignupKeepsEmailsUnique | apps/web/contexts/AuthContext.tsx:88-101 | If emails were unique before a successful signup, they are unique after it. |
| Auth.SignupThenLogin | apps/web/contexts/AuthContext.tsx:61-101 | After a successful signup, logging in with the same email and password finds the new record. |
| Auth.AdminCanLogIn | apps/web/contexts/AuthContext.tsx:27-32 | The seeded table lets the built-in administrator log in, and the session is the default administrator without a password. |
| Auth.InitialTable | apps/web/contexts/AuthContext.tsx:38-55 | The table is seeded with the administrator record only when none is stored and reading the session did not throw. Otherwise the stored table is untouched. |
| Auth.RestoredSession | apps/web/contexts/AuthContext.tsx:40-43 | A stored session is restored iff it parses, and it is restored as it was stored. |
| Auth.AuthStore.Mount | apps/web/contexts/AuthContext.tsx:38-55 | The session is the restored one, and the stored session slot matches it. The table is `InitialTable` of what was stored, and loading is over. |
| Auth.AuthStore.Login | apps/web/contexts/AuthContext.tsx:57-75 | The call succeeds iff the table parses and some record matches. The session is then the first match without its password, and the stored session slot holds it. On failure the session and storage are unchanged. |
| Auth.AuthStore.Signup | apps/web/contexts/AuthContext.tsx:77-110 | The result and the new table follow `SignupTable`. On success the session is the new record without its password, and the stored session slot holds it. On failure nothing changes. |
| Auth.AuthStore.Logout | apps/web/contexts/AuthContext.tsx:112-115 | The session is cleared and its stored value removed; the credential table is not touched. |
| Auth.SignupLogoutLogin | apps/web/contexts/AuthContext.tsx:57-115 | On a fresh store, signing up, logging out and logging in with the same credentials leaves the new account's session, without password, in storage. The proof also shows that a wrong password is then refused. |
| SignupRoute.SignupPost | apps/web/app/api/auth/signup/route.ts:65-142 | Every refusal is 400, 409 or 500. Every accepted request gets the creation message. |
| SignupRoute.CheckOrder | apps/web/app/api/auth/signup/route.ts:71-103 | The checks apply in order: any missing field gives 400. Otherwise a role outside buyer/seller gives 400, then a password under 6 characters gives 400, then an email already in the bundled list gives 409. |
| SignupRoute.AcceptedIff | apps/web/app/api/auth/signup/route.ts:65-134 | A request is accepted iff the body parses, every field is set, the role is buyer or seller, the password has at least 6 characters and the email is new. |
| SignupRoute.CreatedAccount | apps/web/app/api/auth/signup/route.ts:106-118 | The reply's user has the request's name, email and role and the time-based id, and no password. The role is never administrator. The list handed to the save is the bundled list plus exactly that user. |
| SignupRoute.PersistedFlagIsTokenFlag | apps/web/app/api/auth/signup/route.ts:121-134 | `persistedToGitHub` equals "a token is configured", and a save is attempted iff a token is configured, whatever the save does. |
| SignupRoute.RepeatedSignupAccepted | apps/web/app/api/auth/signup/route.ts:95-118 | The bundled list never changes, so a request accepted once is accepted again at any later time. |
| LoginRoute.FindByEmail | apps/web/app/api/auth/login/route.ts:39-46 | An account is found iff some account has the email, and it has that email. |
| LoginRoute.FindByEmailIsFirst | apps/web/app/api/auth/login/route.ts:39 | The account found is the first one with the email. |
| LoginRoute.WrongDemoPassword | apps/web/app/api/auth/login/route.ts:50-56 | A demo password is listed for the email, is non-empty and differs from the one sent; characterised by LoginRoute.LoginSucceedsIff, LoginRoute.UnlistedEmailAcceptsAnyPassword and LoginRoute.AdminPasswordChecked. |
| LoginRoute.LoginPost | apps/web/app/api/auth/login/route.ts:26-75 | Every refusal is 400, 401 or 500. A login reply carries the request's email and the success message. |
| LoginRoute.LoginSucceedsIff | apps/web/app/api/auth/login/route.ts:31-67 | A login succeeds iff both fields are set, the email belongs to an account, and the demo table gives no different non-empty password for it. |
| LoginRoute.SameRefusalForUnknownAndWrong | apps/web/app/api/auth/login/route.ts:39-56 | An unknown email and a wrong demo password give the same 401 reply. |
| LoginRoute.UnlistedEmailAcceptsAnyPassword | apps/web/app/api/auth/login/route.ts:50-51 | An account the demo table does not list logs in with any non-empty password. |
| LoginRoute.ReplyIsFirstAccount | apps/web/app/api/auth/login/route.ts:59-67 | The reply carries only the id, name, email and role of the first account with the email. |
| LoginRoute.AdminPasswordChecked | apps/web/app/api/auth/login/route.ts:22-24 | The administrator's demo password is enforced: any other non-empty password is refused. |
| Admin.CountRole | apps/web/app/admin/page.tsx:33-34 | A role count never exceeds the number of accounts. |
| Admin.StatsOf | apps/web/app/admin/page.tsx:31-35 | The total is the number of accounts; buyers and sellers are the counts of those roles. |
| Admin.BuyersAndSellersWithinTotal | apps/web/app/admin/page.tsx:31-35 | Buyers, sellers and administrators add up to the total, so buyers plus sellers never exceed it. |
| Admin.WithoutId | apps/web/app/admin/page.tsx:51 | No account with the deleted id remains, every kept account comes from the input list, and the list does not grow. |
| Admin.WithoutIdOfOne | apps/web/app/admin/page.tsx:51 | A single account is kept exactly when its id differs from the deleted one; with WithoutIdAppend this fixes the result as the order-keeping filter. |
| Admin.WithoutIdAppend | apps/web/app/admin/page.tsx:51 | The deletion filters piece by piece, so the kept accounts stay in order. |
| Admin.WithoutIdKeepsOthers | apps/web/app/admin/page.tsx:51 | Every account with another id survives the deletion. |
| Admin.CanView | apps/web/app/admin/page.tsx:19-23 | The dashboard is shown once loading is over to an administrator's session only; Admin.ViewOrRedirect states it is exactly the complement of the redirect. |
| Admin.RedirectsToLogin | apps/web/app/admin/page.tsx:19-23 | The redirect fires once loading is over for no session or a non-administrator; Admin.ViewOrRedirect states it is exactly the complement of the view. |
| Admin.ViewOrRedirect | apps/web/app/admin/page.tsx:19-23 | Once loading is over, the page is either shown or sent to login, never both. It is shown iff the session is an administrator's. |
| Admin.AdminPage.Mount | apps/web/app/admin/page.tsx:25-41 | The page lists the stored accounts, or none when nothing parses, and the figures describe that list. |
| Admin.AdminPage.HandleDeleteUser | apps/web/app/admin/page.tsx:43-59 | Deleting one's own id is refused, and a declined confirmation changes nothing. Otherwise the accounts with that id are removed, the new list is stored and the figures are recomputed from it. |
| Account.Renamed | apps/web/app/account/page.tsx:34-36 | The table keeps its length. Records with the session's id get the new name and email and keep every other field. All other records are unchanged. |
| Account.SaveKeepsLogin | apps/web/app/account/page.tsx:34-37 | After a rename, the renamed record logs in with its new email and unchanged password. |
| Account.AccountPage.Mount | apps/web/app/account/page.tsx:11-26 | The form starts from the session's name and email, or empty without a session. |
| Account.AccountPage.Edit | apps/web/app/account/page.tsx:114-126 | Editing sets the form's name and email. |
| Account.AccountPage.HandleSave | apps/web/app/account/page.tsx:28-47 | Without a session, or with unparseable storage, nothing is stored. Otherwise the table becomes `Renamed` of the stored one. The stored session becomes the old session with the new name and email, while the in-memory session is left as it was. |
| SignupPage.FormError | apps/web/app/signup/page.tsx:23-31 | There is no form error iff the passwords match and have at least 6 characters. A mismatch gives the mismatch message; a short matching password gives the length message. |
| SignupPage.MismatchReportedFirst | apps/web/app/signup/page.tsx:23-31 | A mismatched password that is also short is reported as a mismatch. |
| SignupPage.SignupForm.constructor | apps/web/app/signup/page.tsx:9-15 | The form starts empty, with role buyer and no error. |
| SignupPage.SignupForm.ChooseRole | apps/web/app/signup/page.tsx:130-155 | The two buttons select seller or buyer; only those two roles are ever selected. |
| SignupPage.SignupForm.HandleSubmit | apps/web/app/signup/page.tsx:19-42 | The store's signup is called iff the form has no error; on a form error, that error is shown and nothing else changes. A successful signup navigates home with the new account, without its password, signed in and stored as the session. A failed signup shows "Email already exists" and leaves the session as it was. Loading is off at the end, and the role stays buyer or seller. |
| Products.StringOr | apps/web/lib/products.ts:148-152 | An undefined or null cell reads as the fallback. |
| Products.TakeDigits | apps/web/lib/products.ts:151 | The longest run of leading decimal digits: a prefix made only of digits and followed by a non-digit. |
| Products.Pow10 | apps/web/lib/products.ts:151 | A power of ten is at least 1. |
| Products.DecimalValue | apps/web/lib/products.ts:151 | The value of digits written as `whole.fraction` is non-negative. |
| Products.ParseUnsigned | apps/web/lib/products.ts:151 | An unsigned decimal prefix reads as a non-negative number, and it fails exactly when the text starts with neither a digit nor `.` followed by a digit. |
| Products.ParseFloat | apps/web/lib/products.ts:151 | `parseFloat` gives a number only for text with something after leading white space, and a negative one only after a `-`. |
| Products.ParseFloatOfNatString | apps/web/lib/products.ts:151 | The decimal digits of a whole number read back as that number. |
| Products.UnsignedTextParsesUnsigned | apps/web/lib/products.ts:151 | Text starting with a digit is read without sign handling. |
| Products.ParseUnsignedDigits | apps/web/lib/products.ts:151 | A run of digits reads as its value. |
| Products.AllDigitsTaken | apps/web/lib/products.ts:151 | Text made only of digits is taken whole. |
| Products.PriceOf | apps/web/lib/products.ts:151 | A numeric cell is the price as is. Any other cell is read as text, `"0"` when undefined or null: the value `parseFloat` reads from it is the price, and text it cannot read gives 0. |
| Products.TrimmedOr | apps/web/lib/products.ts:148-152 | The value is the trimmed text of the cell or its fallback, and it has no white space at either end. |
| Products.TrimKeepsTrimmed | apps/web/lib/products.ts:152 | A fallback with no outer white space is its own trim. |
| Products.OptionalText | apps/web/lib/products.ts:153 | The image path is absent iff the cell is falsy; otherwise it is the cell's text, trimmed. |
| Products.ReadRow | apps/web/lib/products.ts:147-154 | Each field is read from its own cell. The model number, name and description are the trimmed text of cells 0, 1 and 2, empty when the cell is undefined or null. The price is `PriceOf` of cell 3. The category is the trimmed text of cell 4, or "Uncategorized" when that cell is undefined or null. The image path is `OptionalText` of cell 5. The model number and name have no white space at either end. |
| Products.RowProduct | apps/web/lib/products.ts:141-159 | A row yields a product iff it is not skipped (missing, empty, falsy first cell) and its record has a model number, a name and a positive price. The product is then the row's record. |
| Products.RowResults | apps/web/lib/products.ts:141-159 | There is one result per row, and it is that row's product if any. |
| Products.RowResultsAppend | apps/web/lib/products.ts:141-159 | Reading two runs of rows one after the other gives the results of each run in turn. |
| Products.Collect | apps/web/lib/products.ts:158 | Collecting keeps at most one product per result. |
| Products.CollectAppend | apps/web/lib/products.ts:158 | Collecting two runs joined is collecting each run, in order. |
| Products.CollectFrom | apps/web/lib/products.ts:158 | Every collected product is present among the results. |
| Products.Kept | apps/web/lib/products.ts:141-160 | The products kept from a run of rows are at most one per row. |
| Products.ParseExcel | apps/web/lib/products.ts:137-163 | A sheet gives at most one product per data row, never one for the header. |
| Products.ParseExcelToProducts | apps/web/lib/products.ts:137-163 | The loop returns exactly `ParseExcel` of the sheet. |
| Products.ReadDataRow | apps/web/lib/products.ts:142-159 | One loop pass yields exactly that row's product, if any. |
| Products.NextRow | apps/web/lib/products.ts:141-159 | Each further row appends its product, if it has one, to what the earlier rows kept. |
| Products.AllRowsKept | apps/web/lib/products.ts:141 | Once every data row has been read, the products kept are those of the whole sheet. |
| Products.CollectSingle | apps/web/lib/products.ts:158 | One result contributes its product, if it has one. |
| Products.KeptAppend | apps/web/lib/products.ts:141-160 | Keeping distributes over consecutive runs of rows, so the output keeps row order. |
| Products.KeptFromRows | apps/web/lib/products.ts:147-159 | Every kept product comes from some row. It has a non-empty trimmed model number, a non-empty trimmed name and a positive price. |
| Products.HeaderIgnored | apps/web/lib/products.ts:140-141 | The header row is never read: any header gives the same products. |
| Products.SkippedRowsContributeNothing | apps/web/lib/products.ts:144-145 | Missing rows, empty rows and rows with a falsy first cell contribute nothing. |
| Products.Skipped | apps/web/lib/products.ts:144-145 | A missing row, an empty row or a falsy first cell is skipped; Products.RowProduct states such a row yields no product, and Products.SkippedRowsContributeNothing that it adds nothing to the result. |
| Products.UploadedCount | apps/web/lib/products.ts:77-86 | The count of successful uploads never exceeds the number of products. |
| Products.ErrorLines | apps/web/lib/products.ts:77-86 | Uploads added plus error lines equal the number of products. |
| Products.Summary | apps/web/lib/products.ts:88-97 | The result is a success iff every product was added, and it carries the count and the errors. |
| Products.BulkUploadProducts | apps/web/lib/products.ts:60-99 | Without a valid configuration, the result is the not-configured failure with nothing added and nothing attempted. Otherwise the result is the summary of the per-product outcomes, and added plus errors equals the number of products. |
| Products.SuccessIffAllUploaded | apps/web/lib/products.ts:88-97 | Success holds iff every upload went through, including for an empty list. |
| Products.ImageFileName | apps/web/lib/products.ts:118-119 | The storage name is exactly `sellerId/modelNumber_`, the timestamp's decimal digits, `.` and the last dot-separated piece of the file name. |
| Products.ImageNameTimestamp | apps/web/lib/products.ts:118-119 | The text between the `_` and the extension's dot reads back as the timestamp. |
| Products.ImageStoragePath | apps/web/lib/products.ts:120 | The storage path is `products/` followed by the storage name, so it lies under `products/sellerId/`. |
| Products.ExtensionAfterLastDot | apps/web/lib/products.ts:119 | The extension is the text after the last dot of the file name. |
| Products.LastPieceSkipsPrefix | apps/web/lib/products.ts:119 | Text before a dot does not change the last dot-separated piece. |
| Products.NoDotFileName | apps/web/lib/products.ts:119 | A name without a dot is used whole as the extension. |
| Products.ConcatEnds | apps/web/lib/products.ts:119 | A joined text starts with its first part and ends with its second. |
| BulkUpload.ExcelMimeAccepted | apps/web/components/BulkUploadComponent.tsx:38-43 | A file sent with either Excel MIME type is accepted, whatever its name. |
| BulkUpload.ExcelNameAccepted | apps/web/components/BulkUploadComponent.tsx:38-43 | A name ending in `.xlsx` or `.xls` is accepted, whatever the MIME type. |
| BulkUpload.UpperCaseExtensionRefused | apps/web/components/BulkUploadComponent.tsx:41-42 | The name test is case-sensitive: `REPORT.XLSX` sent as plain text is refused. |
| BulkUpload.FailureText | apps/web/components/BulkUploadComponent.tsx:92-97 | A failure shows the result's message and `. Errors: `, followed by the errors joined with `, `. |
| BulkUpload.UploadResult | apps/web/lib/products.ts:60-99 | The answer of `bulkUploadProducts` as a function: the not-configured failure without a valid configuration; otherwise success exactly when every product was uploaded, with the uploaded count as added and one error per failed product. |
| BulkUpload.UploadNotice | apps/web/components/BulkUploadComponent.tsx:60-103 | A read failure is reported iff the workbook cannot be read. "No valid products" is reported iff the sheet yields no product. A success reports as added every parsed product, and there is at least one. |
| BulkUpload.SucceededIffAllUploaded | apps/web/components/BulkUploadComponent.tsx:80-97 | With products to upload, success is shown iff the configuration is valid and every product's upload went through. A partial upload shows as a failure. |
| BulkUpload.HeaderOnlySheet | apps/web/components/BulkUploadComponent.tsx:69-75 | A sheet with nothing below its header never reaches the upload. |
| BulkUpload.UnconfiguredUploadFails | apps/web/components/BulkUploadComponent.tsx:80-97 | Without a configuration, a sheet with products shows the failure text of the not-configured result. |
| BulkUpload.NotConfiguredText | apps/web/lib/products.ts:71-75 | That text is "Firebase not configured. Errors: ". |
| BulkUpload.IsExcelFile | apps/web/components/BulkUploadComponent.tsx:38-43 | Either Excel MIME type or a case-sensitive `.xlsx`/`.xls` suffix; characterised by BulkUpload.ExcelMimeAccepted, BulkUpload.ExcelNameAccepted and BulkUpload.UpperCaseExtensionRefused. |
| BulkUpload.BulkUploadForm.constructor | apps/web/components/BulkUploadComponent.tsx:12-15 | The form starts with no file, no notice and no upload in progress. |
| BulkUpload.BulkUploadForm.HandleFileChange | apps/web/components/BulkUploadComponent.tsx:34-51 | With no file chosen, nothing changes. An Excel file becomes the file and clears the notice. Any other file clears the file and shows the invalid-file notice. |
| BulkUpload.BulkUploadForm.HandleUpload | apps/web/components/BulkUploadComponent.tsx:53-108 | Without a file or a user, nothing changes. Otherwise the notice is `UploadNotice` of the file's rows, the file is cleared iff the upload succeeded, and the form ends neither uploading nor showing progress. |
| Firebase.ConfigFromEnv | apps/web/lib/firebase.ts:16-23 | There is one entry per configuration field, in order, each holding its variable's value or "". |
| Firebase.IsConfigValid | apps/web/lib/firebase.ts:31-33 | Every configuration value is non-empty; Firebase.ValidIffAllSet states it holds exactly when all six variables are set. |
| Firebase.ValidIffAllSet | apps/web/lib/firebase.ts:31-33 | The configuration is valid iff all six variables are set to non-empty text. |
| Firebase.MissingKeys | apps/web/lib/firebase.ts:35-37 | At most one key is reported per entry. |
| Firebase.MissingIffInvalid | apps/web/lib/firebase.ts:31-39 | Some key is missing iff the configuration is invalid. |
| Firebase.MissingKeysAreEmpty | apps/web/lib/firebase.ts:35-37 | Every reported key belongs to an entry with an empty value. |
| Firebase.MissingKeysReportsEmpty | apps/web/lib/firebase.ts:35-37 | Every entry with an empty value has its key reported. |
| Firebase.MissingKeysAppend | apps/web/lib/firebase.ts:35-37 | The keys reported for two runs of entries come one run after the other, so the report keeps field order. |
| Firebase.Snake | apps/web/lib/firebase.ts:38 | A key that does not start with a capital keeps its first character. |
| Firebase.SnakeAppend | apps/web/lib/firebase.ts:38 | The rewrite distributes over concatenation, because it works character by character. |
| Firebase.SnakeOfChar | apps/web/lib/firebase.ts:38 | A capital letter becomes an underscore followed by itself; any other character stays as it is. |
| Firebase.SnakeWithoutCapitals | apps/web/lib/firebase.ts:38 | A key without capitals is left unchanged. |
| Firebase.SnakeCapitalWord | apps/web/lib/firebase.ts:38 | A capitalised word with no other capitals gets one underscore, in front. |
| Firebase.SnakeTwoWords | apps/web/lib/firebase.ts:38 | A two-word camel-case key gets one underscore between the words. |
| Firebase.EnvNameAsWritten | apps/web/lib/firebase.ts:36-38 | The derived name is exactly `NEXT_PUBLIC_` followed by the upper-cased snake form of the key. When the key starts with a character that is not a capital, that character upper-cased comes right after the prefix. |
| Firebase.TwoWordName | apps/web/lib/firebase.ts:36-38 | For a two-word camel-case key such as `apiKey`, the name is `NEXT_PUBLIC_`, the first word upper-cased, `_`, and the second word upper-cased (`NEXT_PUBLIC_API_KEY`). |
| Firebase.ThreeWordName | apps/web/lib/firebase.ts:36-38 | For a three-word key such as `messagingSenderId`, the name joins the three upper-cased words with `_` after `NEXT_PUBLIC_` (`NEXT_PUBLIC_MESSAGING_SENDER_ID`). |
| Firebase.AsWrittenNamesWrongVariable | apps/web/lib/firebase.ts:36-38 | For every field, the derived name differs from the variable the field is read from. |
| Firebase.MissingVarNames | apps/web/lib/firebase.ts:17-22 | The corrected warning names at most the six variables read. |
| Firebase.UnsetAmong | apps/web/lib/firebase.ts:35-38 | The unset variables among a list number at most the list's length. |
| Firebase.UnsetAmongIff | apps/web/lib/firebase.ts:35-38 | A variable is listed iff it is in the list and unset or empty. |
| Firebase.UnsetAmongAppend | apps/web/lib/firebase.ts:35-38 | The unset variables of two lists come one list after the other, so the corrected report keeps field order. |
| Firebase.MissingVarNamesExact | apps/web/lib/firebase.ts:35-39 | The corrected warning names a variable iff it is one of the six read and is unset or empty. |
| Firebase.MissingVarNamesEmptyIffValid | apps/web/lib/firebase.ts:31-39 | The corrected warning is empty iff the configuration is valid. |
| Firebase.MissingVars | apps/web/lib/firebase.ts:35-39 | The corrected warning text: the names of Firebase.MissingVarNames joined by `, `; which names appear is stated by Firebase.MissingVarNamesExact. |
| Currency.Symbol | apps/web/contexts/CurrencyContext.tsx:9-13 | Every symbol is non-empty and does not start with a digit or `-`. |
| Currency.Rate | apps/web/contexts/CurrencyContext.tsx:16-20 | Every rate is at least 1 (USD 1, SAR 3.75, CNY 7.24). |
| Currency.ParseCurrency | apps/web/contexts/CurrencyContext.tsx:36-41 | A stored string is recognised iff it is a currency's code, and the currency is listed. |
| Currency.Hydrated | apps/web/contexts/CurrencyContext.tsx:34-41 | The active currency is USD unless a recognised code is stored, in which case it is that currency. |
| Currency.HydrateAfterSet | apps/web/contexts/CurrencyContext.tsx:36-46 | What `setCurrency` stores is read back as the same currency. |
| Currency.ConvertPrice | apps/web/contexts/CurrencyContext.tsx:48-50 | Conversion divided by the rate gives back the dollar price. USD conversion is the identity, and a non-negative price never shrinks. |
| Currency.Hundredths | apps/web/contexts/CurrencyContext.tsx:58-62 | The number of hundredths is the nearest one to the amount. |
| Currency.Abs | apps/web/contexts/CurrencyContext.tsx:58-62 | The absolute value is non-negative and is the value or its negation. |
| Currency.TwoDigits | apps/web/contexts/CurrencyContext.tsx:58-62 | Two decimal digits that read back as the number. |
| Currency.ToFixed2 | apps/web/contexts/CurrencyContext.tsx:58-62 | The text is digits, a point and exactly two decimals, with a leading `-` iff the amount is negative. |
| Currency.ToFixed2ReadsBack | apps/web/contexts/CurrencyContext.tsx:58-62 | The digits of the text, read as hundredths, are the amount rounded to the nearest hundredth. |
| Currency.FormatPrice | apps/web/contexts/CurrencyContext.tsx:52-63 | SAR puts the two-decimal amount first, then a space and the symbol. USD and CNY put the symbol directly before the amount. |
| Currency.AmountText | apps/web/contexts/CurrencyContext.tsx:52-63 | The amount taken out of a formatted text is never longer than the text. |
| Currency.AmountTextOfFormatPrice | apps/web/contexts/CurrencyContext.tsx:52-63 | Taking the symbol off a formatted price leaves exactly the two-decimal converted amount. |
| Currency.FormatPriceShowsCurrency | apps/web/contexts/CurrencyContext.tsx:52-63 | Different currencies never format alike. |
| Currency.CurrencyStore.Mount | apps/web/contexts/CurrencyContext.tsx:34-41 | The store starts with `Hydrated` of the stored value. |
| Currency.CurrencyStore.SetCurrency | apps/web/contexts/CurrencyContext.tsx:43-46 | The currency becomes active and its code is stored. |
| Currency.CurrencyStore.Convert | apps/web/contexts/CurrencyContext.tsx:48-50 | The converted price divided by the active currency's rate gives the dollar price back. |
| Currency.CurrencyStore.Format | apps/web/contexts/CurrencyContext.tsx:52-63 | Taking the active currency's symbol off the text leaves the converted amount written with two decimals. |
| Currency.ChooseThenReload | apps/web/contexts/CurrencyContext.tsx:34-46 | A chosen currency is active again after the next page load. |
| I18n.LocaleName | apps/web/i18n/request.ts:6-10 | Every locale has a non-empty name. |
| I18n.IsRTL | apps/web/i18n/request.ts:15-19 | A locale is right-to-left iff it is Arabic. |
| I18n.ParseLocale | apps/web/contexts/LocaleContext.tsx:37-39 | A string is a supported locale iff it is one of the codes, and the locale is listed. |
| I18n.CodesRoundTrip | apps/web/i18n/request.ts:3 | Every locale is listed, and its code reads back as itself. |
| I18n.TablesConsistent | apps/web/i18n/request.ts:3-15 | The default locale is supported and is not right-to-left, and every right-to-left locale is supported. |
| I18n.RequestLocale | apps/web/i18n/request.ts:21-29 | The request configuration always uses the default locale, which is supported. |
| Locale.FindEntry | apps/web/contexts/LocaleContext.tsx:32-35 | The entry found is the first one starting with the prefix; none is found iff no entry starts with it. |
| Locale.EntrySplits | apps/web/contexts/LocaleContext.tsx:33-35 | An entry with the cookie prefix splits at `=` into at least two pieces, and the second piece is the text after the prefix up to the next `=`. |
| Locale.CookieLocale | apps/web/contexts/LocaleContext.tsx:32-35 | A value is read iff some `; `-separated entry starts with `NEXT_LOCALE=`. |
| Locale.CookieValueBetweenEquals | apps/web/contexts/LocaleContext.tsx:32-35 | The value is the text of the first such entry between its first and second `=`. |
| Locale.Hydrated | apps/web/contexts/LocaleContext.tsx:28-39 | The locale is English unless the cookie's value is a supported code, in which case it is that locale. |
| Locale.LocaleCookie | apps/web/contexts/LocaleContext.tsx:44 | The cookie written starts with `NEXT_LOCALE=`, the code and `; `. |
| Locale.EntryOfLocale | apps/web/contexts/LocaleContext.tsx:33-35 | The entry written carries exactly the code as its value. |
| Locale.EntryHasNoSemicolon | apps/web/contexts/LocaleContext.tsx:32 | The entry written has no `;`, so the split never cuts it. |
| Locale.HydrateFirstEntry | apps/web/contexts/LocaleContext.tsx:32-39 | A cookie whose first entry names a locale hydrates to that locale. |
| Locale.HydrateReadsLocaleCookie | apps/web/contexts/LocaleContext.tsx:32-45 | Reading back the cookie that `setLocale` writes gives the chosen locale. |
| Locale.LocaleStore.Mount | apps/web/contexts/LocaleContext.tsx:28-39 | The store starts with `Hydrated` of the cookie. |
| Locale.LocaleStore.SetLocale | apps/web/contexts/LocaleContext.tsx:42-48 | The locale becomes active, exactly its cookie is written, and a reload is requested. |
| Locale.LocaleStore.IsRTLNow | apps/web/contexts/LocaleContext.tsx:50 | The context is right-to-left iff the active locale is Arabic. |
| Theme.DarkFromStored | apps/web/components/ThemeToggle.tsx:8-12 | The theme is dark iff the stored text is exactly `dark`; nothing stored means light. |
| Theme.StoredValue | apps/web/components/ThemeToggle.tsx:18 | The stored text is `dark` or `light`. |
| Theme.StoredValueRoundTrip | apps/web/components/ThemeToggle.tsx:8-18 | The stored text reads back as the state it was written for. |
| Theme.ThemeToggle.Mount | apps/web/components/ThemeToggle.tsx:8-13 | The state is dark iff `dark` is stored, and the document class follows. |
| Theme.ThemeToggle.Toggle | apps/web/components/ThemeToggle.tsx:15-20 | The state flips, its text is stored, and the document class follows. |
| Theme.ToggleTwice | apps/web/components/ThemeToggle.tsx:15-20 | Two toggles restore the state and, when storage matched the state, the stored value. |
| Header.Matching | apps/web/components/Header.tsx:15-20 | The filter keeps no more products than the catalog holds. |
| Header.Needle | apps/web/components/Header.tsx:13 | The query as compared, trimmed and lower-cased; Header.BlankQueryNoResults states that a query trimming to nothing gives no results. |
| Header.MatchingOnlyMatches | apps/web/components/Header.tsx:15-20 | Every kept product's lower-cased name or description contains the query, and it is in the catalog. |
| Header.MatchingKeepsAll | apps/web/components/Header.tsx:15-20 | Every matching catalog product is kept. |
| Header.MatchingAppend | apps/web/components/Header.tsx:15-20 | The filter works piece by piece, so it keeps catalog order. |
| Header.Results | apps/web/components/Header.tsx:12-22 | A blank query gives nothing. Otherwise the results are the first (at most 8) matches for the trimmed, lower-cased query, in catalog order. |
| Header.BlankQueryNoResults | apps/web/components/Header.tsx:13-14 | A query of white space only gives no result. |
| Header.OpenIffResults | apps/web/components/Header.tsx:24-26 | The list is open iff there is a result, since results need a non-empty query. |
| Header.OpenFor | apps/web/components/Header.tsx:24-26 | The effect's open condition; Header.OpenIffResults states the list is open exactly when there is a result. |
| Header.SearchBox.constructor | apps/web/components/Header.tsx:9-10 | The box starts with an empty query and a closed list. |
| Header.SearchBox.Type | apps/web/components/Header.tsx:39 | After typing, the query is the typed text, and the list is open iff it has a result over the bundled catalog. |
| Header.SearchBox.ChooseResult | apps/web/components/Header.tsx:49 | Following a result closes the list. |
| Header.SearchBox.Close | apps/web/components/Header.tsx:68 | The Close button closes the list. |
| Strings.TrimEmptyIffAllSpace | apps/web/components/Header.tsx:13-14 | A text trims to nothing iff it is white space only. |
| Strings.LastPieceIsSuffix | apps/web/lib/products.ts:119 | The last dot-separated piece of a name is a suffix of it. |
| Strings.NatToStringInjective | apps/web/contexts/AuthContext.tsx:93 | Different times are written as different digit strings. |
| Sidebar.ActiveIffSegmentPrefix | apps/web/components/Sidebar.tsx:36 | An item is active iff the path equals its link or continues it after a `/`. |
| Sidebar.TextualPrefixNotActive | apps/web/components/Sidebar.tsx:36 | A path that only shares text with the link, such as `/sellerx` for `/seller`, is not active. |
| Sidebar.AncestorActive | apps/web/components/Sidebar.tsx:36 | An item is active on every page below it, so an ancestor and its child can both be lit. |
| Sidebar.ShownLabel | apps/web/components/Sidebar.tsx:48-50 | The label is the translation when a non-empty key is set, and the plain label otherwise. |
| Sidebar.IsActive | apps/web/components/Sidebar.tsx:36 | The highlight test; Sidebar.ActiveIffSegmentPrefix states it as a path-segment prefix, Sidebar.TextualPrefixNotActive and Sidebar.AncestorActive its two consequences. |
| ConditionalLayout.Render | apps/web/components/ConditionalLayout.tsx:7-43 | The children are always drawn. The header shows iff the path starts with neither `/account` nor `/seller`, and so does the footer. |
| ConditionalLayout.HeaderFooterAgree | apps/web/components/ConditionalLayout.tsx:11-28 | Header and footer are shown or hidden together on every path. |
| ConditionalLayout.DashboardPagesBare | apps/web/components/ConditionalLayout.tsx:11-28 | Every path under `/account` or `/seller` has neither a header nor a footer. |
| ConditionalLayout.PrefixesAreTextual | apps/web/components/ConditionalLayout.tsx:11-28 | The prefixes have no trailing slash, so `/sellers` and `/accounting` are bare too. |
| ConditionalLayout.PublicPagesDressed | apps/web/components/ConditionalLayout.tsx:11-28 | The home page and the catalog keep their header and footer. |
| ConditionalLayout.HideHeader | apps/web/components/ConditionalLayout.tsx:11 | The header is hidden under `/account` or `/seller`; characterised by ConditionalLayout.Render, ConditionalLayout.DashboardPagesBare and ConditionalLayout.PrefixesAreTextual. |
| ConditionalLayout.HideFooter | apps/web/components/ConditionalLayout.tsx:28 | The footer uses the same test; ConditionalLayout.HeaderFooterAgree states the two always agree. |
| Orders.UserOrders | apps/web/app/account/orders/page.tsx:46 | The filter keeps no more orders than there are. |
| Orders.UserOrdersExact | apps/web/app/account/orders/page.tsx:46 | An order is listed iff it is the user's by buyer id or buyer email. |
| Orders.UserOrdersAppend | apps/web/app/account/orders/page.tsx:46 | The filter keeps source order. |
| Orders.EmptyStateIffNoOrders | apps/web/app/account/orders/page.tsx:73 | The empty state shows iff no order belongs to the user. |
| Orders.StatusColor | apps/web/app/account/orders/page.tsx:48-63 | Each known status gets its class. `pending` and every unknown status get the neutral class. The seller orders page uses the same table (apps/web/app/seller/orders/page.tsx:65-80). |
| Orders.StatusColorsDistinct | apps/web/app/account/orders/page.tsx:48-63 | The four named statuses and the neutral class are five distinct classes. An unknown status looks like `pending`. |
| Orders.PageView | apps/web/app/account/orders/page.tsx:26-46 | The loading screen is shown iff loading is in progress, whatever the session. Nothing is shown iff loading is over with no session. The history shows the session user's orders. |
| Orders.RedirectIffNothing | apps/web/app/account/orders/page.tsx:20-36 | The redirect to login fires iff nothing is shown. |
| Orders.RedirectsToLogin | apps/web/app/account/orders/page.tsx:20-24 | The redirect fires once loading is over without a session; Orders.RedirectIffNothing states it fires exactly when nothing is shown. |
| SellerOrders.LoadedOrders | apps/web/app/seller/orders/page.tsx:23-53 | The orders shown are the sample orders, unless a seller's fetch under a valid configuration returned some. They are never empty when the samples are not. |
| SellerOrders.LoadedError | apps/web/app/seller/orders/page.tsx:45-49 | Only a failed fetch for a seller under a valid configuration sets the error, to "Failed to load orders". Otherwise the error is left as it was. |
| SellerOrders.FetchedShownIff | apps/web/app/seller/orders/page.tsx:31-44 | Fetched orders are shown iff a seller's fetch under a valid configuration returned a non-empty list. |
| SellerOrders.SellerOrdersPage.constructor | apps/web/app/seller/orders/page.tsx:19-21 | The page starts with the sample orders, loading, and no error. |
| SellerOrders.SellerOrdersPage.LoadOrders | apps/web/app/seller/orders/page.tsx:23-53 | The page settles on `LoadedOrders` and `LoadedError`, and loading is off on every path. |
| BrowserEnv.Browser.constructor | apps/web/constants/storage.ts:2-7 | A browser starts from the given value of each storage key and the given cookie text. Nothing has been written to the cookie yet, the dark class is off and no reload is pending. |

## Left out

- Writes to storage are assumed to succeed. This affects Auth.AuthStore.Signup, Auth.AuthStore.Login, the Cart.CartStore methods (through `Persisted()`) and Account.AccountPage.HandleSave. A `setItem` that throws (storage full or disabled) is not modelled. The model therefore misses the half-written signup: the table is written at apps/web/contexts/AuthContext.tsx:101 and `setUser` runs at line 104, so if the session write at line 105 throws, signup returns false with the account saved and the user signed in on this page.
- Storage holds JSON text. The model keeps each key's decoded value or a marker that the text does not parse. JSON encoding, and a stored value of the wrong shape, are not modelled.
- The browser cookie jar is not modelled: the cookie text read at mount is an input, and each assignment to `document.cookie` is recorded. The page reload is a flag.
- Number formatting uses exact real arithmetic:
  - IEEE-754 doubles are not modelled;
  - `toFixed(2)` rounds the exact amount half away from zero, so binary rounding effects such as `1.005` are not reproduced. This is the `toFixed` rule: a tie takes the larger magnitude;
  - catalog and cart prices are whole cents.
- `parseFloat` reads a sign, digits and an optional fraction; exponents, `Infinity` and `NaN` text are not modelled.
- Strings are sequences of characters, not UTF-16 code units. `toLowerCase` and `toUpperCase` map ASCII letters only.
- Spreadsheet cells are modelled as text, number, boolean, null or undefined. A numeric cell carries its `String()` rendering.
- Reading a workbook (the XLSX library) is not modelled: the rows of the first sheet, or a read failure, are the input. `downloadTemplate` writes a workbook and is not modelled.
- Firestore, Storage and the GitHub save are network I/O. Their outcomes are parameters: per-product upload outcomes, the seller-orders fetch result, and whether a GitHub token is set. `uploadProduct` and the byte upload itself are not modelled, only the image path they use.
- The module-level Firebase initialisation (apps/web/lib/firebase.ts:43-58) is I/O; only the validity of the configuration enters the model.
- Request bodies: a body that is not JSON is `None`. Fields that are not strings are not modelled.
- A `DEMO_PASSWORDS` lookup of an inherited object key such as `constructor` is not modelled.
- React scheduling and effects are not modelled: each handler and each mount effect is one atomic step. Router redirects are predicates on the page state, and `alert`/`confirm` answers are parameters.
- The translated texts of notices, progress lines and page labels are not modelled; notices are a datatype, and a sidebar translation is a function parameter.
- The account page's `saved` flag reset after two seconds is a timer and is not modelled.
- The exception message caught by the upload handler is not kept: the read-failure notice stands for it.
- Invoices, order details, product and category pages, seller product forms, the locale/currency menu, `middleware.ts` and `next.config.ts` are presentation or configuration and are not modelled. The users API route is a field projection and is not modelled.
- Domain.CartItem, CartPage.ClampQty and the Cart operations (Cart.Added, Cart.Requantified, Cart.Total and the Cart.CartStore methods): quantities are whole numbers. The quantity input stores `Math.max(1, Number(value))`, so text such as `2.5` stores a fractional quantity that then scales the total, and `1e2` stores 100; fractional and exponent input is not modelled.
- Products.Summary: the contract states the success flag, the count and the errors; the three message texts are fixed only by its definition.
- Products.ErrorLines: the contract states how many error lines there are; that each reads `Row i+1: message` in input order is fixed only by its definition.
- Firebase.MissingVarsAsWritten: the warning text as written has no contract of its own; its names are those of `Firebase.EnvNameAsWritten`.

## Findings

| source | as written | input that shows it | evidently intended | confidence | as-written member | corrected member |
|---|---|---|---|---|---|---|
| apps/web/lib/firebase.ts:36-38 | The missing-variable warning derives each name from the configuration key (`apiKey` becomes `NEXT_PUBLIC_API_KEY`), but lines 17-22 read variables with a `FIREBASE_` infix. | An environment without `NEXT_PUBLIC_FIREBASE_API_KEY`: the warning names `NEXT_PUBLIC_API_KEY`, a variable the code never reads. | The warning names the variables actually read, such as `NEXT_PUBLIC_FIREBASE_API_KEY`. | not executed | Firebase.AsWrittenNamesWrongVariable | Firebase.MissingVarNamesExact |
