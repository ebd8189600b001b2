/** The product back-office of `src/pages/admin/AdminProducts.tsx`: the text form a product is edited in,
    the record written back from it, the image upload path, the delete gate, and the page's dialog state. */
module AdminProducts {
  import opened Nullable
  import opened Text
  import opened Tables

  /** `formData`: every field is the text of an input, except the Active switch. */
  datatype FormData = FormData(
    name: string,
    description: string,
    price: string,
    category: string,
    stockQuantity: string,
    isActive: bool,
    imageUrl: string)

  /** The form a new product starts from: empty texts, switched on. */
  const INITIAL_FORM := FormData("", "", "", "", "", true, "")

  /** `openEditDialog`: the form filled from a product. */
  function FormOf(p: Product): (f: FormData)
    ensures f.name == p.name
    ensures f.description == OrEmpty(p.description) && f.category == OrEmpty(p.category) && f.imageUrl == OrEmpty(p.imageUrl)
    ensures f.isActive <==> p.isActive != Some(false)
    ensures f.price == IntToString(p.price)
    ensures p.stockQuantity.Some? ==> f.stockQuantity == IntToString(p.stockQuantity.value)
    ensures p.stockQuantity == None ==> f.stockQuantity == "0"
  {
    FormData(
      p.name,
      OrEmpty(p.description),
      IntToString(p.price),
      OrEmpty(p.category),
      IntToString(match p.stockQuantity case None => 0 case Some(n) => n),
      match p.isActive case None => true case Some(b) => b,
      OrEmpty(p.imageUrl))
  }

  /** `productData`, the columns `handleSubmit` writes. A `None` price is `NaN`. */
  datatype ProductData = ProductData(
    name: string,
    description: Option<string>,
    price: Option<int>,
    category: Option<string>,
    stockQuantity: int,
    isActive: bool,
    imageUrl: Option<string>)

  /** `productData` built from the form: empty texts become null, the stock is `parseInt(text) || 0`. */
  function RecordOf(f: FormData): (d: ProductData)
    ensures d.name == f.name && d.isActive == f.isActive
    ensures d.description == None <==> f.description == ""
    ensures d.category == None <==> f.category == ""
    ensures d.imageUrl == None <==> f.imageUrl == ""
    ensures f.description != "" ==> d.description == Some(f.description)
    ensures f.category != "" ==> d.category == Some(f.category)
    ensures f.imageUrl != "" ==> d.imageUrl == Some(f.imageUrl)
  {
    ProductData(
      f.name,
      NullIfEmpty(f.description),
      ParseFloat(f.price),
      NullIfEmpty(f.category),
      ParseIntOrZero(f.stockQuantity),
      f.isActive,
      NullIfEmpty(f.imageUrl))
  }

  /** The numbers written are what `parseFloat` reads from the price text and what `parseInt(...) || 0`
      reads from the stock text; `ParseFloatRoundTrip`, `ParseIntRoundTrip` and `NoDigitsParsesToZero`
      say what those are. */
  lemma RecordOfNumbers(f: FormData)
    ensures RecordOf(f).price == ParseFloat(f.price)
    ensures RecordOf(f).stockQuantity == ParseIntOrZero(f.stockQuantity)
  {
  }

  /** A stock field left empty, or holding no digit at all, writes a stock of 0. */
  lemma BlankStockIsZero(f: FormData)
    requires forall i :: 0 <= i < |f.stockQuantity| ==> !('0' <= f.stockQuantity[i] <= '9')
    ensures RecordOf(f).stockQuantity == 0
  {
    NoDigitsParsesToZero(f.stockQuantity);
  }

  /** A product opened for editing and saved without changes is written back as it was, except that an
      empty text becomes null, a null stock becomes 0 and a null Active flag becomes true. */
  lemma EditRoundTrip(p: Product)
    ensures RecordOf(FormOf(p)).name == p.name
    ensures RecordOf(FormOf(p)).description == (if Truthy(p.description) then p.description else None)
    ensures RecordOf(FormOf(p)).category == (if Truthy(p.category) then p.category else None)
    ensures RecordOf(FormOf(p)).imageUrl == (if Truthy(p.imageUrl) then p.imageUrl else None)
    ensures RecordOf(FormOf(p)).price == Some(p.price)
    ensures RecordOf(FormOf(p)).stockQuantity == (if p.stockQuantity.Some? then p.stockQuantity.value else 0)
    ensures RecordOf(FormOf(p)).isActive == (p.isActive != Some(false))
  {
    ParseFloatRoundTrip(p.price);
    ParseIntRoundTrip(match p.stockQuantity case None => 0 case Some(n) => n);
    NullEmptyRoundTrip(p.description);
    NullEmptyRoundTrip(p.category);
    NullEmptyRoundTrip(p.imageUrl);
  }

  /** `row` is what the `products` row with id `id` holds after an update with `d`. */
  predicate Stores(row: Product, id: string, d: ProductData) {
    && row.id == id
    && row.name == d.name
    && row.description == d.description
    && d.price == Some(row.price)
    && row.category == d.category
    && row.stockQuantity == Some(d.stockQuantity)
    && row.isActive == Some(d.isActive)
    && row.imageUrl == d.imageUrl
  }

  /** Saving is stable: once an unchanged edit has been stored, opening the product again and saving
      writes exactly the same columns. */
  lemma SecondSaveWritesTheSame(p: Product, stored: Product)
    requires Stores(stored, p.id, RecordOf(FormOf(p)))
    ensures RecordOf(FormOf(stored)) == RecordOf(FormOf(p))
  {
    EditRoundTrip(p);
    EditRoundTrip(stored);
  }

  /** A fresh form writes a product that is active, with stock 0, no description, category or image,
      and a `NaN` price until one is typed. */
  lemma InitialFormRecord()
    ensures RecordOf(INITIAL_FORM) == ProductData("", None, None, None, 0, true, None)
  {
    NoDigitsParsesToZero("");
  }

  /** `handleImageUpload`'s storage path: the millisecond clock and the text after the last dot of the
      file name (all of it when there is no dot). */
  function UploadPath(fileName: string, now: nat): (path: string)
    ensures "products/" <= path
  {
    "products/" + IntToString(now) + "." + AfterLast(fileName, '.')
  }

  /** The path keeps the file's extension: the text after its last dot is the text after the file
      name's last dot, and what stands between "products/" and that dot is the clock in decimal. */
  lemma UploadPathSpec(fileName: string, now: nat)
    ensures AfterLast(UploadPath(fileName, now), '.') == AfterLast(fileName, '.')
    ensures UploadPath(fileName, now) == "products/" + IntToString(now) + "." + AfterLast(UploadPath(fileName, now), '.')
    ensures '.' !in AfterLast(fileName, '.')
    ensures '.' !in fileName ==> AfterLast(fileName, '.') == fileName
  {
    var ext := AfterLast(fileName, '.');
    assert UploadPath(fileName, now) == ("products/" + IntToString(now)) + ['.'] + ext;
    AfterLastOfJoin("products/" + IntToString(now), '.', ext);
  }

  /** A write the page sends to the `products` table. */
  datatype ProductWrite = Insert(data: ProductData) | Update(id: string, data: ProductData) | Delete(id: string)

  /** What `handleSubmit` sends: an update of the product being edited, otherwise an insert. */
  function SubmitRequest(editing: Option<Product>, f: FormData): (w: ProductWrite)
    ensures w.Update? <==> editing.Some?
    ensures w.Update? ==> w.id == editing.value.id
    ensures !w.Delete? && w.data == RecordOf(f)
  {
    match editing
    case Some(p) => Update(p.id, RecordOf(f))
    case None => Insert(RecordOf(f))
  }

  /** `handleDelete`: the write sent, if any, and the notice shown. `confirmed` is the answer to the
      browser's confirmation prompt, `failure` the backend's error message. */
  function HandleDelete(productId: string, confirmed: bool, failure: Option<string>): (r: (Option<ProductWrite>, Option<string>))
    ensures r.0.Some? <==> confirmed
    ensures r.0.Some? ==> r.0.value == Delete(productId)
    ensures !confirmed ==> r.1 == None
    ensures confirmed && failure == None ==> r.1 == Some("Product deleted successfully!")
    ensures confirmed && failure.Some? ==> r.1 == Some(MessageOr(failure.value, "Failed to delete product"))
  {
    if !confirmed then (None, None)
    else
      (Some(Delete(productId)),
       match failure
       case None => Some("Product deleted successfully!")
       case Some(message) => Some(MessageOr(message, "Failed to delete product")))
  }

  /** The page's component state. */
  class ProductsPage {
    var formData: FormData
    var editingProduct: Option<Product>
    var isDialogOpen: bool
    var isSubmitting: bool
    var isUploading: bool

    constructor ()
      ensures formData == INITIAL_FORM && editingProduct == None
      ensures !isDialogOpen && !isSubmitting && !isUploading
    {
      formData := INITIAL_FORM;
      editingProduct := None;
      isDialogOpen := false;
      isSubmitting := false;
      isUploading := false;
    }

    /** `resetForm`: back to the initial form, editing nothing. */
    method ResetForm()
      modifies this
      ensures formData == INITIAL_FORM && editingProduct == None
      ensures isDialogOpen == old(isDialogOpen) && isSubmitting == old(isSubmitting) && isUploading == old(isUploading)
    {
      formData := INITIAL_FORM;
      editingProduct := None;
    }

    /** `openEditDialog`: edit `p` in a form filled from it. */
    method OpenEditDialog(p: Product)
      modifies this
      ensures editingProduct == Some(p) && formData == FormOf(p) && isDialogOpen
      ensures isSubmitting == old(isSubmitting) && isUploading == old(isUploading)
    {
      editingProduct := Some(p);
      formData := FormOf(p);
      isDialogOpen := true;
    }

    /** The dialog's `onOpenChange`: closing it discards the form and whatever was being edited. */
    method OnOpenChange(open: bool)
      modifies this
      ensures isDialogOpen == open
      ensures !open ==> formData == INITIAL_FORM && editingProduct == None
      ensures open ==> formData == old(formData) && editingProduct == old(editingProduct)
      ensures isSubmitting == old(isSubmitting) && isUploading == old(isUploading)
    {
      isDialogOpen := open;
      if !open {
        ResetForm();
      }
    }

    /** `handleSubmit`, with `failure` the backend's error message, if it reports one. A success closes
        the dialog and resets the form; a failure keeps both, so the admin can correct and retry. */
    method HandleSubmit(failure: Option<string>) returns (sent: ProductWrite, notice: string)
      requires !isSubmitting   // the submit button is disabled while a save runs
      requires formData.name != "" && formData.price != ""   // the browser blocks a form whose required inputs are empty
      modifies this
      ensures sent == SubmitRequest(old(editingProduct), old(formData))
      ensures !isSubmitting && isUploading == old(isUploading)
      ensures failure == None ==> !isDialogOpen && formData == INITIAL_FORM && editingProduct == None
      ensures failure == None ==>
        notice == (if old(editingProduct).Some? then "Product updated successfully!" else "Product created successfully!")
      ensures failure.Some? ==>
        && isDialogOpen == old(isDialogOpen) && formData == old(formData) && editingProduct == old(editingProduct)
        && notice == MessageOr(failure.value, "Failed to save product")
    {
      var editing, form := editingProduct, formData;
      isSubmitting := true;
      sent := SubmitRequest(editing, form);
      match failure {
        case Some(message) =>
          notice := MessageOr(message, "Failed to save product");
        case None =>
          notice := if editing.Some? then "Product updated successfully!" else "Product created successfully!";
          isDialogOpen := false;
          ResetForm();
      }
      isSubmitting := false;
    }

    /** An input's `onChange`: `setFormData({ ...formData, field: value })`, the whole new form given. */
    method EditForm(f: FormData)
      modifies this
      ensures formData == f
      ensures editingProduct == old(editingProduct) && isDialogOpen == old(isDialogOpen)
      ensures isSubmitting == old(isSubmitting) && isUploading == old(isUploading)
    {
      formData := f;
    }

    /** `handleImageUpload` up to the storage call, for the chosen file's name, if one was chosen. `now` is
        `Date.now()`. The handler's closure holds the form as it is at this moment: that is `captured`. */
    method StartUpload(fileName: Option<string>, now: nat) returns (path: Option<string>, captured: FormData)
      requires !isUploading   // the file input is disabled while an upload runs
      modifies this
      ensures fileName == None ==> path == None && !isUploading
      ensures fileName.Some? ==> path == Some(UploadPath(fileName.value, now)) && isUploading
      ensures captured == formData == old(formData)
      ensures editingProduct == old(editingProduct) && isDialogOpen == old(isDialogOpen) && isSubmitting == old(isSubmitting)
    {
      captured := formData;
      if fileName == None {
        return None, captured;
      }
      isUploading := true;
      path := Some(UploadPath(fileName.value, now));
    }

    /** `handleImageUpload` after the storage call answered: `failure` is the storage error, if any, and
        `publicUrl` the address of the uploaded file. A success writes the captured form with the new image
        back, whatever the form became meanwhile. */
    method FinishUpload(captured: FormData, failure: Option<string>, publicUrl: string) returns (notice: string)
      requires isUploading
      modifies this
      ensures failure == None ==> formData == captured.(imageUrl := publicUrl) && notice == "Image uploaded successfully!"
      ensures failure.Some? ==> formData == old(formData) && notice == MessageOr(failure.value, "Failed to upload image")
      ensures !isUploading
      ensures editingProduct == old(editingProduct) && isDialogOpen == old(isDialogOpen) && isSubmitting == old(isSubmitting)
    {
      match failure {
        case Some(message) =>
          notice := MessageOr(message, "Failed to upload image");
        case None =>
          formData := captured.(imageUrl := publicUrl);
          notice := "Image uploaded successfully!";
      }
      isUploading := false;
    }

    /** `handleImageUpload` run to its end with nothing else happening meanwhile: only the image field of
        the form changes, and only after a successful upload. */
    method HandleImageUpload(fileName: Option<string>, now: nat, failure: Option<string>, publicUrl: string)
      returns (uploadedTo: Option<string>, notice: Option<string>)
      requires !isUploading
      modifies this
      ensures fileName == None ==> uploadedTo == None && notice == None && formData == old(formData)
      ensures fileName.Some? ==> uploadedTo == Some(UploadPath(fileName.value, now))
      ensures fileName.Some? && failure == None ==>
        formData == old(formData).(imageUrl := publicUrl) && notice == Some("Image uploaded successfully!")
      ensures fileName.Some? && failure.Some? ==>
        formData == old(formData) && notice == Some(MessageOr(failure.value, "Failed to upload image"))
      ensures !isUploading
      ensures editingProduct == old(editingProduct) && isDialogOpen == old(isDialogOpen) && isSubmitting == old(isSubmitting)
    {
      var captured;
      uploadedTo, captured := StartUpload(fileName, now);
      if fileName == None {
        return uploadedTo, None;
      }
      var message := FinishUpload(captured, failure, publicUrl);
      notice := Some(message);
    }
  }

  /** An edit made while an upload runs is lost: the successful upload writes back the form captured when
      it started, so the form ends as it was before the upload, with the new image, whatever was typed. */
  method EditDuringUpload(page: ProductsPage, fileName: string, now: nat, edited: FormData, publicUrl: string)
    requires !page.isUploading
    modifies page
    ensures page.formData == old(page.formData).(imageUrl := publicUrl)
    ensures !page.isUploading
  {
    var path, captured := page.StartUpload(Some(fileName), now);
    page.EditForm(edited);
    var notice := page.FinishUpload(captured, None, publicUrl);
  }

  /** A save that succeeds while an upload runs is overridden by the upload: the save closed the dialog and
      reset the form, yet the upload writes the form it captured back, so the next "Add Product", which
      opens the dialog without resetting, shows the saved product's fields as a new product. */
  method SaveDuringUpload(page: ProductsPage, fileName: string, now: nat, publicUrl: string)
    requires !page.isUploading && !page.isSubmitting
    requires page.formData.name != "" && page.formData.price != ""
    modifies page
    ensures page.formData == old(page.formData).(imageUrl := publicUrl)
    ensures page.isDialogOpen && page.editingProduct == None
  {
    var path, captured := page.StartUpload(Some(fileName), now);
    var sent, saved := page.HandleSubmit(None);
    var notice := page.FinishUpload(captured, None, publicUrl);
    page.OnOpenChange(true);
  }
}
