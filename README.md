# Assosa shop file server — a Dafny model

The server stores uploaded files on the local disk and serves two endpoints under `/api`:

- `POST /upload` takes a multipart file and an upload token. The token comes from the `x-upload-token` header, or else from the body's `token` field. The file is written into the upload directory under `<timestamp>-<original name>`, and the response returns its URL.
- `POST /generate-invoice` takes the invoice data as JSON and checks four required fields. It lays the invoice out on A4 pages: a masthead, the party blocks, an item table that breaks across pages, totals, payment information and a footer. It renders the PDF and stores it through the same storage adapter with the server's own token.

The model has these modules:

- `InvoiceLayout` (layout.dfy) is the layout routine. It places the table and the closing blocks as a sequence of placements, each with a page and a y coordinate. `DrawTable` is the item loop, an imperative method. It is proved against the recursive definition `TableAfter` and the layout predicate `IsInvoiceLayout`. The lemmas about that predicate cover the reserve bounds, the row pitch, the header count, the closed form of each row's page and y, shading, and the closing blocks.
- `Uploader` (uploader.dfy) is the storage adapter:
  - configuration from the environment;
  - the token check;
  - object names and their inverse;
  - paths and URLs;
  - the class `LocalStore`, whose `files` map (object name to bytes) and `dirExists` flag stand for the upload directory. The flag is false only when the directory has been removed after the module loaded (`RemoveUploadDir`): the ensure step runs once, at load time, so later writes then fail with ENOENT.
- `Generator` (generator.dfy) is the invoice pipeline: the required-field guard, the synthesized file record, and the call into the adapter.
- `UploadRoute` (route.dfy) holds the two handlers' decisions: the token choice, the check order and the mapping of errors to status codes.
- `Js` (js.dfy) holds JavaScript truthiness, `||` and `typeof`. `Http` (http.dfy) holds the status codes and response bodies. `Wrappers` (wrappers.dfy) holds `Option` and `Result`.

Things the model takes as parameters:

- the page height of the layout routine, which the handler fixes to A4 (841.89 points);
- the millisecond clock (`now`);
- the environment variables;
- the PDF renderer, as a function from the invoice data and the placements to bytes.

Three points about the code that its names alone do not tell:

- The totals box has no page-break check (src/utils/generator.ts:177-180). It can start inside the bottom reserve; see `InvoiceLayout.A4TotalsEnterReserve`.
- src/index.ts mounts only the `/api` router. No route serves the stored files, so the URL `uploadToLocal` returns (`SERVER_URL/files/<name>`) is only a name here.
- The required-field check is done inside `generateInvoice` itself (src/utils/generator.ts:43-45). A failed check is therefore a normal 400 response from `/generate-invoice`, not a 500.

## Model

| member | source | states |
|---|---|---|
| InvoiceLayout.DrawTable | src/utils/generator.ts:163-175 | The loop returns a table satisfying `IsTableLayout` for the items. Its shape: the first header at 230, each later header on the next page at 40 and followed by a row, and the first row 25 below every header. It has one row per item, in order, each placed from the previous row's cursor by the bottom-reserve test, and as many headers as breaks plus one. The returned page and rowY are the last row's page and y + 15, or page 0 and 255 (25 below the first header) when there are no items. |
| InvoiceLayout.TableAfter | src/utils/generator.ts:163-175 | The loop's state (table so far, page, rowY) after n items, as a recursion: the start state below the first header, then per item either a break (header at 40 on the next page, row at 65) or a row at the cursor, the cursor advancing by 15. `DrawTable`'s loop invariant equates the loop's variables with it, and `TableAfterState` proves the table rule of every such state. |
| InvoiceLayout.Overflows | src/utils/generator.ts:167-209 | The page-break test used at lines 167, 198 and 209: content of the given height placed at y would reach into the bottom 100 points of the page. |
| InvoiceLayout.LayoutInvoice | src/utils/generator.ts:112-212 | The whole layout satisfies `IsInvoiceLayout`: the table followed by the totals box, the payment box and the footer. These are placed from the loop's final cursor with their own page-break tests. |
| InvoiceLayout.TableAfterState | src/utils/generator.ts:163-175 | Every state of the item loop, after any number of items, satisfies the loop's shape, order, chain and header-count promises. |
| InvoiceLayout.LoopStep | src/utils/generator.ts:166-175 | One iteration, with or without a page break, keeps those promises for one more item. |
| InvoiceLayout.ShapeAfterRow | src/utils/generator.ts:173 | Drawing a row on the current page keeps the table's shape. |
| InvoiceLayout.ShapeAfterBreak | src/utils/generator.ts:167-173 | A break (a header at y = 40 on the next page, then the row 25 below it) keeps the table's shape. |
| InvoiceLayout.ChainAfterRow | src/utils/generator.ts:167-174 | A row placed from the current cursor extends the chain. The break count grows exactly when the row changed page, and the cursor moves to the row's page at y + 15. |
| InvoiceLayout.FollowAfterRow | src/utils/generator.ts:166-173 | The row for item i, carrying index i and shaded iff i is even, keeps the rows in item order. |
| InvoiceLayout.ClosingViews | src/utils/generator.ts:177-212 | Adding the closing blocks to a valid table gives a valid invoice layout. They add no rows and no headers. |
| InvoiceLayout.ClosingBlocks | src/utils/generator.ts:177-212 | Exactly three closing blocks: totals, then payment, then footer. |
| InvoiceLayout.BreakCountIsTablePage | src/utils/generator.ts:166-172 | The page the loop ends on equals the number of page breaks it took. |
| InvoiceLayout.HeadersMatchPages | src/utils/generator.ts:163-171 | The number of table headers is one plus the index of the table's last page. |
| InvoiceLayout.RowsClearReserve | src/utils/generator.ts:167-172 | On any page at least 180 high, every row ends above the bottom reserve: y + 15 <= H - 100. |
| InvoiceLayout.RowSpacing | src/utils/generator.ts:167-174 | Consecutive rows on one page are exactly 15 apart. A row on a different page is on the next page at y = 65. The page changes exactly when the previous cursor failed the reserve test. |
| InvoiceLayout.RowSpacingMonotone | src/utils/generator.ts:166-175 | Row pages never decrease along the items: every row up to row k is on a page no later than row k's. |
| InvoiceLayout.HeaderBeforeEveryRow | src/utils/generator.ts:163-170 | Every page that holds a table row also holds a table header drawn before it. |
| InvoiceLayout.HeaderThenRow | src/utils/generator.ts:168-173 | A repeated header is directly followed on its page by a row at 40 + 25. |
| InvoiceLayout.ShortPageSkipsFirstPage | src/utils/generator.ts:164-171 | When not even one row fits below the first header, the first row goes to page 1 at y = 65, and a second header is drawn. |
| InvoiceLayout.RowSlots | src/utils/generator.ts:164-174 | Closed form: with f rows fitting on the first page and l on each later page, row k is on page 0 at 255 + 15k when k < f. Otherwise it is on page 1 + (k - f) div l at 65 + 15((k - f) mod l). |
| InvoiceLayout.DivModStep | src/utils/generator.ts:174 | Counting one row further either advances the position within a page or wraps to the next page. |
| InvoiceLayout.A4Capacity | src/utils/generator.ts:164-171 | On A4 the first page holds 32 rows and every later page 45. |
| InvoiceLayout.A4RowSlots | src/utils/generator.ts:164-174 | The closed form instantiated for A4, with 32 and 45. |
| InvoiceLayout.A4LongTableRepeatsHeader | src/utils/generator.ts:167-171 | On A4, more than 32 items spill onto a second page, and the header is drawn at least twice. |
| InvoiceLayout.A4ShadingIgnoresPages | src/utils/generator.ts:137-175 | Shading follows the global item index, not the position on the page. On A4 the second page opens with a shaded row (item 32) and the third with an unshaded one (item 77). |
| InvoiceLayout.ClosingOrder | src/utils/generator.ts:177-212 | The totals box is at rowY + 10 on the current page. The payment box is 80 below the totals box, or at 40 on the next page exactly when 80 + 40 below would enter the reserve. The footer is 50 below the payment box, or at 40 on the next page exactly when 50 + 20 below would enter the reserve. |
| InvoiceLayout.ClosingClearsReserve | src/utils/generator.ts:197-212 | On any page at least 180 high, neither the payment box nor the footer reaches into the reserve. |
| InvoiceLayout.ClosingAddsAtMostOnePage | src/utils/generator.ts:197-212 | On any page at least 210 high, the payment box and footer add at most one page after the table. |
| InvoiceLayout.TotalsStayOnPage | src/utils/generator.ts:178-180 | Although unchecked, the totals box ends at least 20 above the page's bottom edge whenever the loop's cursor was above the reserve. |
| InvoiceLayout.A4TotalsEnterReserve | src/utils/generator.ts:178-180 | On A4 with exactly 32 items, the totals box starts on page 0 inside the bottom reserve. |
| InvoiceLayout.LayoutEnds | src/utils/generator.ts:177-212 | For a whole layout: the totals box is at the loop's cursor + 10, the payment box and footer clear the reserve when H >= 180, the layout has at most one page beyond the table when H >= 210, and with no items the totals box is at 265 on page 0. |
| InvoiceLayout.ColumnLayout | src/utils/generator.ts:115-159 | Header and row cell i share x = 40 + sum of the earlier widths + 5, width = colWidths[i] - 10, and the alignment. Header labels sit at tableTop + 5 and row cells at the row's y. Adjacent cells are 10 apart. |
| InvoiceLayout.SumSnoc | src/utils/generator.ts:125-127 | The column-offset reduce grows by each column's width in turn. |
| InvoiceLayout.ColumnPositions | src/utils/generator.ts:115-127 | The columns start at 45, 265, 325 and 405; the last cell ends at 475. |
| InvoiceLayout.CellsInsideTable | src/utils/generator.ts:114-115 | All cells, with their padding, lie inside the table band whenever the table is at least 440 wide. |
| InvoiceLayout.A4TableIsWideEnough | src/utils/generator.ts:114 | The A4 table band is at least 440 wide. |
| InvoiceLayout.BandsTile | src/utils/generator.ts:120-164 | The header band ends where the first row's band begins, and consecutive row bands meet without overlap. |
| InvoiceLayout.ClosingBandsAlign | src/utils/generator.ts:178-202 | The totals box is flush with the table's right edge, and the payment box spans exactly the table's width. |
| InvoiceLayout.Rows | src/utils/generator.ts:173 | Definition: the subsequence of a document's Row placements, in drawing order; `Snoc` gives its step and `RowsExactly` its membership. |
| InvoiceLayout.RowsExactly | src/utils/generator.ts:173 | A placement is among a document's rows exactly when it is a Row placement of that document. |
| Generator.RequiredDataMeaning | src/utils/generator.ts:43 | The guard accepts exactly a non-empty invoice number and shop name, any items array (empty included) and a non-zero total. |
| Generator.HasRequiredData | src/utils/generator.ts:43 | The guard itself, as JavaScript truthiness of the four fields; when it passes, all four are present. |
| Generator.ItemFault | src/utils/generator.ts:142-147 | No item's row throws exactly when every item has its quantity, price and total; otherwise, for the first item that cannot be drawn, its quantity's `toString` when the quantity is absent and `toFixed` when only the price or total is. |
| Generator.EarlierRowFaultsFirst | src/utils/generator.ts:142-147 | With a price missing on the first row and a quantity missing on the second, the error is the first row's `toFixed`, not the second's `toString`. |
| Generator.DrawFault | src/utils/generator.ts:101-187 | Drawing throws nothing exactly when both party blocks, every item's numbers, the subtotal and the shipping charge are present. Otherwise it names the first property read on undefined, in drawing order: `name` when either party block is absent; with both present, the items' fault when there is one; with all items drawable, `toFixed` for an absent subtotal or shipping charge. |
| Generator.GenerateInvoice | src/utils/generator.ts:40-252 | Missing data gives 400 "Missing required invoice data", with nothing laid out or stored. An absent field that drawing reads (a party block, an item's quantity, price or total, the subtotal or the shipping charge) gives the TypeError `DrawFault` names, nothing stored. Otherwise the A4 layout satisfies `IsInvoiceLayout`. The rendered file is stored under `<now>-invoice-<number>.pdf` with the server's token. A rejected token or a missing directory gives the thrown error and an unchanged store. A successful upload gives 200 with the adapter's result, and the store holds the rendered bytes under the key, every other key unchanged. |
| Generator.InvoiceFile | src/utils/generator.ts:226-238 | The file record: the size is the buffer's length, originalname equals filename and carries the invoice number, the fieldname is the number, and the mimetype is application/pdf with encoding 7bit. |
| Generator.InvoiceFileName | src/utils/generator.ts:229-234 | `invoice-` followed by the number followed by `.pdf`, as prefix, middle and suffix. |
| Generator.InvoiceFileNameRoundTrip | src/utils/generator.ts:229 | The invoice number can be read back from the file name. |
| Generator.InvoiceFileNameInjective | src/utils/generator.ts:229 | Different invoice numbers give different file names. |
| Generator.InvoiceUrlNamesInvoice | src/utils/generator.ts:226-243 | The stored invoice's URL leads back to its object name, its upload time and its invoice number. |
| Generator.InvoiceKeysCollide | src/utils/generator.ts:226-243 | Two invoices stored in the same millisecond get the same object name, and so the same store key, exactly when their numbers are equal. |
| Uploader.EnvOr | src/utils/uploader.ts:7-9 | The fallback is JavaScript `||` on the variable's value (undefined when unset) and the default, and it is never empty when the default is not. |
| Uploader.LoadConfig | src/utils/uploader.ts:7-9 | The directory and server URL are never empty, and the token has no default. |
| Uploader.TokenAccepted | src/utils/uploader.ts:21 | The strict comparison `token !== UPLOAD_TOKEN` passes exactly when both are undefined or both are the same string. |
| Uploader.UnsetSecretRejectsEveryString | src/utils/uploader.ts:8-23 | While UPLOAD_TOKEN is unset, no string token is accepted. |
| Uploader.DecimalString | src/utils/uploader.ts:25 | The timestamp's decimal rendering is non-empty and all digits. |
| Uploader.DecimalRoundTrip | src/utils/uploader.ts:25 | The rendering reads back as the timestamp. |
| Uploader.ObjectName | src/utils/uploader.ts:25 | The object name is the timestamp's digits, then '-', then the original name, which it ends with. |
| Uploader.FirstDash | src/utils/uploader.ts:25 | The first '-' of a string, or its length when there is none. |
| Uploader.ObjectNameRoundTrip | src/utils/uploader.ts:25 | Splitting an object name at its first '-' gives back the timestamp and the original name. |
| Uploader.ObjectNameCollision | src/utils/uploader.ts:25-29 | Two uploads share a key exactly when they have the same timestamp and the same original name. |
| Uploader.FilePath | src/utils/uploader.ts:26 | The path is the upload directory, '/', and then the object name. |
| Uploader.FileUrl | src/utils/uploader.ts:31 | The URL starts with SERVER_URL and ends with the object name, with `/files/` between them. |
| Uploader.UrlRoundTrip | src/utils/uploader.ts:31 | The object name can be read back from the URL. |
| Uploader.MissingDirectoryMessage | src/utils/uploader.ts:29 | The ENOENT error writeFileSync throws for a missing directory names the path it tried to open, which reads back from the message. |
| Uploader.UploadOutcome | src/utils/uploader.ts:21-36 | One upload's effect: it succeeds exactly when the token is accepted and the directory exists. A failure leaves the files as they were. A success returns an object name that splits back into the timestamp and original name, and a URL that reads back as that name. The stored bytes under the name are `file.buffer`, every other file keeps its bytes, and no other name appears. |
| Uploader.LocalStore.constructor | src/utils/uploader.ts:7-14 | After loading, the directory exists and the files found there are kept. |
| Uploader.LocalStore.RemoveUploadDir | src/utils/uploader.ts:12-14 | The directory deleted after load: it no longer exists and holds no files. The ensure step is not run again, so later uploads take the ENOENT branch. |
| Uploader.LocalStore.EnsureUploadDir | src/utils/uploader.ts:12-14 | The directory exists afterwards; it was created only if it was absent; no file changes. |
| Uploader.LocalStore.UploadToLocal | src/utils/uploader.ts:16-37 | The result and the new files are exactly `UploadOutcome` of the old files: a wrong token gives "Invalid upload token", a missing directory the ENOENT error, each with the files unchanged; otherwise the bytes are stored under the object name and the result is exactly (url, objectName, filePath). The directory flag is untouched. |
| Uploader.LocalStore.UploadToMinio | src/utils/uploader.ts:40 | The same effect, `UploadOutcome`, as UploadToLocal, which it calls. |
| Uploader.EnsureUploadDirTwice | src/utils/uploader.ts:12-14 | Running the ensure step again creates nothing and changes nothing. |
| Uploader.UploadTwiceSameKey | src/utils/uploader.ts:25-29 | Two uploads with the same name in the same millisecond: both succeed with the same result, the second write wins, and the directory stays. |
| Js.Or | src/upload.route.ts:12 | `a || b` is a when a is truthy, else b. The result is truthy iff either operand is. |
| Js.NonEmptyStringTest | src/upload.route.ts:16 | The token test rejects everything except a non-empty string. |
| UploadRoute.CheckUpload | src/upload.route.ts:12-18 | No file gives NoFile whatever the token. With a file, an unusable effective token gives BadToken. Otherwise it proceeds with exactly the effective token, a non-empty string. |
| UploadRoute.EffectiveToken | src/upload.route.ts:12 | The token is the header or the body's token, the body's whenever the header is falsy, and it is truthy exactly when either is. |
| UploadRoute.TokenUsable | src/upload.route.ts:16 | The test passes exactly the non-empty strings. |
| UploadRoute.RejectReply | src/upload.route.ts:13-18 | The status is 400 exactly for a missing file and 401 exactly for a bad token, and the body is the matching error message. |
| UploadRoute.UploadReply | src/upload.route.ts:19-24 | 200 with the result and `success: true` exactly when the adapter succeeded; otherwise 401 with the thrown message. |
| UploadRoute.UploadResponse | src/upload.route.ts:12-24 | The status is 400 iff there is no file. It is 401 iff there is a file and either the token is unusable or the adapter failed. It is 200 iff there is a file, the token is usable and the adapter succeeded. |
| UploadRoute.RejectedIgnoresOutcome | src/upload.route.ts:13-18 | A rejected request's response does not depend on the adapter. |
| UploadRoute.FileCheckedFirst | src/upload.route.ts:13-15 | Without a file the answer is 400, whatever the token. |
| UploadRoute.HeaderTakesPrecedence | src/upload.route.ts:12-16 | A truthy header is the token; a non-empty string header lets the upload proceed with that token whatever the body carries. |
| UploadRoute.EmptyHeaderFallsBack | src/upload.route.ts:12-18 | An absent or empty header falls back to the body's token. |
| UploadRoute.UnsetSecretLocksUploads | src/upload.route.ts:16-20 | While UPLOAD_TOKEN is unset, every upload that reaches the adapter is refused. |
| UploadRoute.HandleUpload | src/upload.route.ts:8-26 | The checks in order: the file, then the token, then the adapter. Each outcome's response and the store afterwards are as UploadToMinio states. |
| UploadRoute.GenerateInvoiceReply | src/upload.route.ts:28-35 | The status is 500 exactly when the pipeline threw or itself answered 500, and 200 exactly when it answered 200; its own response passes through, and a thrown error's message becomes the body. |
| UploadRoute.PipelineErrorsBecomeServerErrors | src/upload.route.ts:22-33 | The pipeline's 400 stays 400. A token refusal is 500 on /generate-invoice but 401 on /upload. |
| UploadRoute.HandleGenerateInvoice | src/upload.route.ts:28-35 | Missing data gives 400. A TypeError while drawing, a rejected server token or a missing directory each give 500 with the thrown message and an unchanged store. Otherwise 200 with the adapter's result, and the store is the old one with the rendered bytes of a valid A4 layout under the invoice's key. |

## Left out

- PDF rendering (fonts, colours, text measurement, the bytes themselves) is a parameter of the pipeline. The masthead and party blocks (src/utils/generator.ts:59-109) are drawn at fixed coordinates above the table and are not placements here.
- The labelled statement at src/utils/generator.ts:89 does not affect any placement.
- The PassThrough stream, its events and the Promise around the upload are not modelled. The upload's thrown error is a `Failure` result.
- `toFixed(2)` formatting and JavaScript floating point are not modelled. Quantities and prices are reals, and `!data.total` treats only 0 as falsy (NaN is not modelled).
- The required fields, the party blocks, the subtotal, the shipping charge and each item's quantity, price and total are modelled as absent or present with their declared types. A present value of another JSON type (an invoice number given as a number, `items` given as a string, say) is not modelled. An absent text field inside a present block (a billing name, an item's product) is passed to the text call, not dereferenced, and is not modelled.
- Generator.GenerateInvoice: when drawing throws, the returned placements are empty; the model does not keep the part of the page drawn before the throw, which is never rendered or stored. The TypeError message follows the wording of current V8 releases.
- Generator.GenerateInvoice: the object name embeds the caller's invoice number, and `path.join` resolves `/` and `..` in it. A number such as `a/b` makes the write target a subdirectory that does not exist (ENOENT, a 500), and `a/../../x` writes outside the upload directory, at `x.pdf`. The model stores every invoice in the upload directory under its object name and answers 200 in both cases.
- Generator.InvoiceKeysCollide: holds of object names, not of the files written. Through the `..` resolution above, `a/../../x` and `b/../../x` write the same file.
- InvoiceLayout.A4TotalsEnterReserve: PDFKit's own page break, when text passes the bottom margin (H - 40), is not modelled. With 32 items on A4 the 12-point "Total:" line at y = 790 probably crosses 801.89, which would move the later text to further pages.
- `Date.now()` is the parameter `now`. The environment variables are parameters of `LoadConfig` and `GenerateInvoice`.
- Uploader.FilePath: `path.join` normalisation (`./`, duplicate separators, `/` and `..` inside the object name) is not modelled; the path is a plain concatenation.
- Uploader.LocalStore.UploadToLocal: the only write failure modelled is the missing directory. Other I/O errors (permissions, disk full) are not.
- The directory is a single flag. Nested directories and `recursive: true` are not modelled.
- Express, multer, the middleware and `app.listen` in src/index.ts are not modelled. The route takes the parsed file, the header value and the body's token as inputs.
- Generator.GenerateInvoice: the server token is read from the environment at request time, while the adapter reads its configured token at load time. They are separate parameters, and the pipeline succeeds only when the two agree.
