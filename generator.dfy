/** The invoice pipeline: check the request body for the four required fields, lay the invoice
    out on an A4 page, wrap the rendered bytes in the file record multer would have produced,
    and store it through the storage adapter with the server's own upload token. Rendering the
    placements into PDF bytes is a parameter of the pipeline. */
module Generator {
  import opened Wrappers
  import Js
  import opened Http
  import opened Uploader
  import opened InvoiceLayout

  datatype Billing = Billing(name: string, email: string, phone: string, address: string)
  datatype Shipping = Shipping(name: string, phone: string, address: string, country: string)

  /** The JSON request body. The four fields the handler checks may be absent (None), and so may
      the fields whose properties drawing reads (the two party blocks, the subtotal and the
      shipping charge); the plain text fields only appear in the rendered text. */
  datatype InvoiceData = InvoiceData(
    invoiceNumber: Option<string>,
    shopName: Option<string>,
    shopAddress: string,
    shopEmail: string,
    shopPhone: string,
    billingDetails: Option<Billing>,
    shippingDetails: Option<Shipping>,
    items: Option<seq<Item>>,
    subtotal: Option<real>,
    shipping: Option<real>,
    total: Option<real>,
    paymentMethod: string,
    transactionId: string,
    footerNote: string)

  const MISSING_DATA_MESSAGE: string := "Missing required invoice data"
  const PDF_MIME: string := "application/pdf"
  const PDF_ENCODING: string := "7bit"
  const FILE_PREFIX: string := "invoice-"
  const FILE_SUFFIX: string := ".pdf"

  /** The JavaScript values the handler sees for the checked fields. */
  function StringField(s: Option<string>): Js.Value
  {
    if s.None? then Js.Undefined else Js.Str(s.value)
  }

  function NumberField(x: Option<real>): Js.Value
  {
    if x.None? then Js.Undefined else Js.Num(x.value)
  }

  function ItemsField(items: Option<seq<Item>>): Js.Value
  {
    if items.None? then Js.Undefined else Js.Arr(|items.value|)
  }

  /** The guard: the invoice number, the shop name, the items and the total must all be truthy. */
  predicate HasRequiredData(data: InvoiceData)
    ensures HasRequiredData(data) ==>
              data.invoiceNumber.Some? && data.shopName.Some? && data.items.Some? && data.total.Some?
  {
    && Js.Truthy(StringField(data.invoiceNumber))
    && Js.Truthy(StringField(data.shopName))
    && Js.Truthy(ItemsField(data.items))
    && Js.Truthy(NumberField(data.total))
  }

  /** What the guard accepts: a non-empty invoice number and shop name, any items array (an empty
      one included), and a total other than zero. */
  lemma RequiredDataMeaning(data: InvoiceData)
    ensures HasRequiredData(data) <==>
      && data.invoiceNumber.Some? && data.invoiceNumber.value != ""
      && data.shopName.Some? && data.shopName.value != ""
      && data.items.Some?
      && data.total.Some? && data.total.value != 0.0
  {
  }

  // ---------------------------------------------------------------------------------------
  // Drawing reads properties of fields the guard does not check

  /** The message of the TypeError thrown when a property is read on undefined. */
  function UndefinedReadMessage(property: string): string
  {
    "Cannot read properties of undefined (reading '" + property + "')"
  }

  /** A row can be drawn: its quantity, price and total are all present. */
  predicate ItemDrawable(item: Item)
  {
    item.quantity.Some? && item.price.Some? && item.total.Some?
  }

  /** Every field whose properties drawing reads is present. */
  predicate Drawable(data: InvoiceData)
    requires data.items.Some?
  {
    && data.billingDetails.Some? && data.shippingDetails.Some?
    && (forall i :: 0 <= i < |data.items.value| ==> ItemDrawable(data.items.value[i]))
    && data.subtotal.Some? && data.shipping.Some?
  }

  /** Item i is the first item whose row cannot be drawn. */
  predicate FirstFaulty(items: seq<Item>, i: nat)
  {
    i < |items| && !ItemDrawable(items[i]) && forall j :: 0 <= j < i ==> ItemDrawable(items[j])
  }

  /** The property read that throws on an item that cannot be drawn: the quantity's `toString`
      comes before the price's and the total's `toFixed`. */
  function ItemReadName(item: Item): string
  {
    if item.quantity.None? then "toString" else "toFixed"
  }

  /** The property whose read throws first while the rows are drawn, in item order: `toString` of
      a missing quantity, then `toFixed` of a missing price or total. */
  function ItemFault(items: seq<Item>): (fault: Option<string>)
    ensures fault.None? <==> forall i :: 0 <= i < |items| ==> ItemDrawable(items[i])
    ensures forall i: nat :: FirstFaulty(items, i) ==> fault == Some(ItemReadName(items[i]))
    ensures fault.Some? ==> fault.value == "toString" || fault.value == "toFixed"
  {
    if items == [] then None
    else if items[0].quantity.None? then Some("toString")
    else if items[0].price.None? || items[0].total.None? then Some("toFixed")
    else
      var rest := ItemFault(items[1..]);
      assert forall i :: 1 <= i < |items| ==> items[i] == items[1..][i - 1];
      assert forall i: nat :: 1 <= i && FirstFaulty(items, i) ==> FirstFaulty(items[1..], i - 1);
      rest
  }

  /** A missing price on an earlier row is reported before a missing quantity on a later one. */
  lemma EarlierRowFaultsFirst(p1: string, p2: string, x: real)
    ensures ItemFault([Item(p1, Some(x), None, Some(x)), Item(p2, None, Some(x), Some(x))]) == Some("toFixed")
  {
    var items := [Item(p1, Some(x), None, Some(x)), Item(p2, None, Some(x), Some(x))];
    assert FirstFaulty(items, 0);
  }

  /** The property whose read throws first while the invoice is drawn, if any: the billing block,
      then the shipping block, then the rows, then the subtotal and the shipping charge. */
  function DrawFault(data: InvoiceData): (fault: Option<string>)
    requires data.items.Some?
    ensures fault.None? <==> Drawable(data)
    ensures data.billingDetails.None? || data.shippingDetails.None? ==> fault == Some("name")
    ensures data.billingDetails.Some? && data.shippingDetails.Some? && ItemFault(data.items.value).Some? ==>
              fault == ItemFault(data.items.value)
    ensures && data.billingDetails.Some? && data.shippingDetails.Some? && ItemFault(data.items.value).None?
            && (data.subtotal.None? || data.shipping.None?)
            ==> fault == Some("toFixed")
    ensures fault.Some? ==> fault.value in {"name", "toString", "toFixed"}
  {
    if data.billingDetails.None? || data.shippingDetails.None? then Some("name")
    else if ItemFault(data.items.value).Some? then ItemFault(data.items.value)
    else if data.subtotal.None? || data.shipping.None? then Some("toFixed")
    else None
  }

  /** `invoice-<number>.pdf`, the original name and the file name of the synthesized upload. */
  function InvoiceFileName(invoiceNumber: string): (name: string)
    ensures |name| == |FILE_PREFIX| + |invoiceNumber| + |FILE_SUFFIX|
    ensures name[..|FILE_PREFIX|] == FILE_PREFIX
    ensures name[|FILE_PREFIX|..|FILE_PREFIX| + |invoiceNumber|] == invoiceNumber
    ensures name[|name| - |FILE_SUFFIX|..] == FILE_SUFFIX
  {
    FILE_PREFIX + invoiceNumber + FILE_SUFFIX
  }

  /** The invoice number an invoice file name carries, if it has that form. */
  function InvoiceNumberOf(name: string): Option<string>
  {
    if |name| >= |FILE_PREFIX| + |FILE_SUFFIX|
       && name[..|FILE_PREFIX|] == FILE_PREFIX
       && name[|name| - |FILE_SUFFIX|..] == FILE_SUFFIX
    then Some(name[|FILE_PREFIX|..|name| - |FILE_SUFFIX|])
    else None
  }

  lemma InvoiceFileNameRoundTrip(invoiceNumber: string)
    ensures InvoiceNumberOf(InvoiceFileName(invoiceNumber)) == Some(invoiceNumber)
  {
  }

  /** Different invoice numbers never share a file name. */
  lemma InvoiceFileNameInjective(n1: string, n2: string)
    ensures InvoiceFileName(n1) == InvoiceFileName(n2) <==> n1 == n2
  {
    if InvoiceFileName(n1) == InvoiceFileName(n2) {
      InvoiceFileNameRoundTrip(n1);
      InvoiceFileNameRoundTrip(n2);
    }
  }

  /** The file record built around the rendered bytes. */
  function InvoiceFile(invoiceNumber: string, pdf: Bytes): (f: File)
    ensures f.size == |f.buffer| && f.buffer == pdf
    ensures f.originalname == f.filename && InvoiceNumberOf(f.originalname) == Some(invoiceNumber)
    ensures f.fieldname == invoiceNumber
    ensures f.mimetype == PDF_MIME && f.encoding == PDF_ENCODING
    ensures f.destination == "" && f.path == ""
  {
    InvoiceFileNameRoundTrip(invoiceNumber);
    File(invoiceNumber, InvoiceFileName(invoiceNumber), PDF_ENCODING, PDF_MIME, |pdf|, "",
         InvoiceFileName(invoiceNumber), "", pdf)
  }

  /** The URL of a stored invoice leads back through the object name and the file name to the
      upload time and the invoice number. */
  lemma InvoiceUrlNamesInvoice(serverUrl: string, now: nat, invoiceNumber: string)
    ensures var key := ObjectName(now, InvoiceFileName(invoiceNumber));
      && UrlObjectName(serverUrl, FileUrl(serverUrl, key)) == Some(key)
      && SplitObjectName(key) == Some((now, InvoiceFileName(invoiceNumber)))
      && InvoiceNumberOf(SplitObjectName(key).value.1) == Some(invoiceNumber)
  {
    var key := ObjectName(now, InvoiceFileName(invoiceNumber));
    UrlRoundTrip(serverUrl, key);
    ObjectNameRoundTrip(now, InvoiceFileName(invoiceNumber));
    InvoiceFileNameRoundTrip(invoiceNumber);
  }

  /** Two invoices stored in the same millisecond get the same object name exactly when they have
      the same invoice number. */
  lemma InvoiceKeysCollide(now: nat, n1: string, n2: string)
    ensures ObjectName(now, InvoiceFileName(n1)) == ObjectName(now, InvoiceFileName(n2)) <==> n1 == n2
  {
    ObjectNameCollision(now, InvoiceFileName(n1), now, InvoiceFileName(n2));
    InvoiceFileNameInjective(n1, n2);
  }

  /** generateInvoice. On missing data: a 400 response and nothing drawn or stored. A field that
      drawing reads but the guard does not check, when absent, throws a TypeError: the promise
      rejects before the upload, and nothing is kept of the drawing. Otherwise the A4 layout of
      the items, rendered and stored under the server's upload token; a rejected upload comes back
      as a Failure (the error the handler's promise rejects with), a stored one as a 200 response
      carrying the adapter's result. */
  method GenerateInvoice(store: LocalStore, data: InvoiceData, render: (InvoiceData, seq<Placement>) -> Bytes,
                         envUploadToken: Option<string>, now: nat)
    returns (outcome: Result<Response, string>, doc: seq<Placement>)
    requires store.Valid()
    modifies store`files
    ensures store.Valid()
    ensures !HasRequiredData(data) ==>
              && outcome == Success(Response(BAD_REQUEST, ErrorBody(MISSING_DATA_MESSAGE)))
              && doc == [] && store.files == old(store.files)
    ensures HasRequiredData(data) && DrawFault(data).Some? ==>
              && outcome == Failure(UndefinedReadMessage(DrawFault(data).value))
              && doc == [] && store.files == old(store.files)
    ensures HasRequiredData(data) && DrawFault(data).None? ==> IsInvoiceLayout(A4_HEIGHT, data.items.value, doc)
    ensures HasRequiredData(data) && DrawFault(data).None? && !TokenAccepted(envUploadToken, store.config.uploadToken) ==>
              outcome == Failure(INVALID_TOKEN_MESSAGE) && store.files == old(store.files)
    ensures HasRequiredData(data) && DrawFault(data).None? && TokenAccepted(envUploadToken, store.config.uploadToken) && !store.dirExists ==>
              && outcome == Failure(MissingDirectoryMessage(FilePath(store.config.uploadDir,
                                      ObjectName(now, InvoiceFileName(data.invoiceNumber.value)))))
              && store.files == old(store.files)
    ensures HasRequiredData(data) && DrawFault(data).None? && TokenAccepted(envUploadToken, store.config.uploadToken) && store.dirExists ==>
              var key := ObjectName(now, InvoiceFileName(data.invoiceNumber.value));
              && outcome == Success(Response(OK, StoredBody(
                   UploadResult(FileUrl(store.config.serverUrl, key), key, FilePath(store.config.uploadDir, key)))))
              && store.files == old(store.files)[key := render(data, doc)]
  {
    if !HasRequiredData(data) {
      return Success(Response(BAD_REQUEST, ErrorBody(MISSING_DATA_MESSAGE))), [];
    }
    var fault := DrawFault(data);
    if fault.Some? {
      return Failure(UndefinedReadMessage(fault.value)), [];
    }
    doc := LayoutInvoice(A4_HEIGHT, data.items.value);
    var pdf := render(data, doc);
    var file := InvoiceFile(data.invoiceNumber.value, pdf);
    var r := store.UploadToMinio(file, envUploadToken, now);
    if r.Failure? {
      return Failure(r.error), doc;
    }
    outcome := Success(Response(OK, StoredBody(r.value)));
  }
}
