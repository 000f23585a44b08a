/**
 * The admin page's logic: the stock badge, reading the product form, choosing
 * between create and update, and the page's editing and deleting state.
 * Requests to the backend and page reloads are parameters: their success, and
 * the product list a reload fetched, are given to the handlers.
 */
module Admin {
  import opened Wrappers
  import opened Products
  import JsText
  import Storefront

  // ---------------------------------------------------------------- stock badge

  /** Out of stock, short of stock, in stock. */
  const OutOfStockText: string := "缺货"
  const LowStockText: string := "库存不足"
  const InStockText: string := "有货"

  datatype StockBadge = StockBadge(text: string, cssClass: string)

  /** The badge shown for a stock quantity: out of stock at 0, low below 10, otherwise in stock. */
  function GetStockBadge(quantity: int): (r: StockBadge)
    ensures r.cssClass == "out-of-stock" <==> quantity == 0
    ensures r.cssClass == "low-stock" <==> quantity != 0 && quantity < 10
    ensures r.cssClass == "in-stock" <==> quantity >= 10
  {
    if quantity == 0 then
      StockBadge(OutOfStockText, "out-of-stock")
    else if quantity < 10 then
      StockBadge(LowStockText + " (" + JsText.IntToDecimal(quantity) + ")", "low-stock")
    else
      StockBadge(InStockText + " (" + JsText.IntToDecimal(quantity) + ")", "in-stock")
  }

  /** The admin table and the storefront put every quantity in the same band. */
  lemma BadgeAgreesWithStorefront(quantity: int)
    ensures GetStockBadge(quantity).cssClass == Storefront.GetStockStatus(quantity).cssClass
  {
  }

  // ---------------------------------------------------------------- the product form

  /** The raw values of the form's inputs; price and stock as already parsed numbers. */
  datatype FormInput = FormInput(
    name: string,
    category: string,
    price: int,
    stockQuantity: int,
    imageUrl: string,
    description: string)

  /** `s || null` for a string: the empty string is falsy. */
  function OrNull(s: string): (r: Option<string>)
    ensures r.None? <==> s == ""
    ensures r.Some? ==> r.value == s
  {
    if s == "" then None else Some(s)
  }

  /** `value || ''`: a missing or empty value shows as an empty input. */
  function OrEmpty(v: Option<string>): string {
    v.GetOr("")
  }

  /** An optional field as the submit handler reads it: trimmed, and null when nothing is left. */
  function OptionalField(input: string): Option<string> {
    OrNull(JsText.Trim(input))
  }

  /** The JSON body the submit handler builds from the form. */
  function ProductData(form: FormInput): Fields {
    Fields(
      JsText.Trim(form.name),
      OptionalField(form.description),
      form.price,
      form.stockQuantity,
      OptionalField(form.category),
      OptionalField(form.imageUrl))
  }

  /** What the submit handler can send: each optional field is null or trimmed and non-empty. */
  predicate NormalisedOptional(v: Option<string>) {
    v.None? || (v.value != "" && JsText.Trimmed(v.value))
  }

  predicate Normalised(f: Fields) {
    && JsText.Trimmed(f.name)
    && NormalisedOptional(f.description)
    && NormalisedOptional(f.category)
    && NormalisedOptional(f.imageUrl)
  }

  /** An optional field is null exactly when its input is all white space, and is otherwise the trimmed input. */
  lemma OptionalFieldMeaning(input: string)
    ensures OptionalField(input).None? <==> JsText.AllWhiteSpace(input)
    ensures OptionalField(input).Some? ==>
      OptionalField(input).value == JsText.Trim(input) && NormalisedOptional(OptionalField(input))
  {
    JsText.TrimEmptyIff(input);
    var _, _ := JsText.TrimSlice(input);
  }

  /** The name is trimmed but never nulled: a blank name is sent as the empty string. */
  lemma NameTrimmedNotNulled(form: FormInput)
    ensures JsText.Trimmed(ProductData(form).name)
    ensures ProductData(form).name == "" <==> JsText.AllWhiteSpace(form.name)
  {
    JsText.TrimEmptyIff(form.name);
    var _, _ := JsText.TrimSlice(form.name);
  }

  /** Whatever is typed, the body the handler builds is already normalised. */
  lemma ProductDataNormalised(form: FormInput)
    ensures Normalised(ProductData(form))
  {
    NameTrimmedNotNulled(form);
    OptionalFieldMeaning(form.description);
    OptionalFieldMeaning(form.category);
    OptionalFieldMeaning(form.imageUrl);
  }

  /** The form `editProduct` fills in for a product. */
  function EditForm(p: Product): FormInput {
    FormInput(p.name, OrEmpty(p.category), p.price, p.stockQuantity, OrEmpty(p.imageUrl), OrEmpty(p.description))
  }

  lemma OptionalRoundTrip(v: Option<string>)
    ensures OptionalField(OrEmpty(v)) == v <==> NormalisedOptional(v)
  {
    OptionalFieldMeaning(OrEmpty(v));
    if NormalisedOptional(v) && v.Some? {
      JsText.TrimOfTrimmed(v.value);
    }
  }

  /** A missing, empty or all-white value shown in the form is read back as null. */
  lemma BlankOptionalIsNull(v: Option<string>)
    ensures JsText.AllWhiteSpace(OrEmpty(v)) ==> OptionalField(OrEmpty(v)) == None
    ensures v == Some("") ==> OptionalField(OrEmpty(v)) == None
  {
    OptionalFieldMeaning(OrEmpty(v));
  }

  lemma NameRoundTrip(name: string)
    ensures JsText.Trim(name) == name <==> JsText.Trimmed(name)
  {
    var _, _ := JsText.TrimSlice(name);
    if JsText.Trimmed(name) {
      JsText.TrimOfTrimmed(name);
    }
  }

  /**
   * Opening a product for editing and submitting the form untouched sends
   * back exactly its six fields, if and only if those fields are normalised.
   */
  lemma EditSubmitRoundTrip(p: Product)
    ensures ProductData(EditForm(p)) == p.MutableFields() <==> Normalised(p.MutableFields())
  {
    var f := p.MutableFields();
    var d := ProductData(EditForm(p));
    assert d.name == JsText.Trim(f.name);
    assert d.description == OptionalField(OrEmpty(f.description));
    assert d.category == OptionalField(OrEmpty(f.category));
    assert d.imageUrl == OptionalField(OrEmpty(f.imageUrl));
    NameRoundTrip(f.name);
    OptionalRoundTrip(f.description);
    OptionalRoundTrip(f.category);
    OptionalRoundTrip(f.imageUrl);
  }

  /** Editing a product whose description is missing, empty or all white space submits a null description. */
  lemma EditBlankDescriptionIsNull(p: Product)
    ensures p.description == Some("") ==> ProductData(EditForm(p)).description == None
    ensures JsText.AllWhiteSpace(OrEmpty(p.description)) ==> ProductData(EditForm(p)).description == None
  {
    BlankOptionalIsNull(p.description);
  }

  // ---------------------------------------------------------------- create or update

  datatype Request = CreateRequest(data: Fields) | UpdateRequest(id: nat, data: Fields)

  /** A JavaScript id value is truthy when it is present and not 0. */
  predicate Truthy(id: Option<nat>) {
    id.Some? && id.value != 0
  }

  /** The request the submit handler sends: an update of the product being edited, else a create. */
  function SubmitRequest(editing: Option<nat>, data: Fields): (r: Request)
    ensures r.data == data
    ensures r.UpdateRequest? <==> Truthy(editing)
    ensures r.UpdateRequest? ==> editing == Some(r.id)
  {
    if Truthy(editing) then UpdateRequest(editing.value, data) else CreateRequest(data)
  }

  /** The position of the first product with the given id (`Array.prototype.find`). */
  function FindIndex(products: seq<Product>, id: nat): (r: Option<nat>)
    ensures r.None? <==> forall i :: 0 <= i < |products| ==> products[i].id != Some(id)
    ensures r.Some? ==> r.value < |products| && products[r.value].id == Some(id)
    ensures r.Some? ==> forall i :: 0 <= i < r.value ==> products[i].id != Some(id)
  {
    if products == [] then None
    else if products[0].id == Some(id) then Some(0)
    else
      match FindIndex(products[1..], id)
      case None => None
      case Some(i) => Some(i + 1)
  }

  /** The product list after a reload: the fetched list, or the old one when the fetch failed. */
  function Reloaded(current: seq<Product>, fetched: Option<seq<Product>>): seq<Product> {
    fetched.GetOr(current)
  }

  // ---------------------------------------------------------------- page state

  /** The page's module-level variables. */
  class AdminPage {
    var currentProducts: seq<Product>
    var editingProductId: Option<nat>
    var deletingProductId: Option<nat>

    constructor ()
      ensures currentProducts == [] && editingProductId == None && deletingProductId == None
    {
      currentProducts := [];
      editingProductId := None;
      deletingProductId := None;
    }

    /** `loadProducts`: a failed fetch is reported on the page and leaves the list as it was. */
    method LoadProducts(fetched: Option<seq<Product>>)
      modifies this`currentProducts
      ensures currentProducts == Reloaded(old(currentProducts), fetched)
    {
      if fetched.Some? {
        currentProducts := fetched.value;
      }
    }

    /** `resetForm`, which `closeModal` calls. */
    method ResetForm()
      modifies this`editingProductId
      ensures editingProductId == None
    {
      editingProductId := None;
    }

    /** `showDeleteModal(productId, productName)`. */
    method ShowDeleteModal(productId: nat)
      modifies this`deletingProductId
      ensures deletingProductId == Some(productId)
    {
      deletingProductId := Some(productId);
    }

    /** `closeDeleteModal`. */
    method CloseDeleteModal()
      modifies this`deletingProductId
      ensures deletingProductId == None
    {
      deletingProductId := None;
    }

    /**
     * `editProduct(productId)`: when the list holds a product with that id, the
     * page starts editing it and fills the form from the first such product;
     * otherwise nothing changes.
     */
    method EditProduct(productId: nat) returns (form: Option<FormInput>)
      modifies this`editingProductId
      ensures form.Some? <==> exists i :: 0 <= i < |currentProducts| && currentProducts[i].id == Some(productId)
      ensures form.Some? ==>
        && editingProductId == Some(productId)
        && form.value == EditForm(currentProducts[FindIndex(currentProducts, productId).value])
      ensures form.None? ==> editingProductId == old(editingProductId)
    {
      var found := FindIndex(currentProducts, productId);
      if found.None? {
        form := None;
        return;
      }
      editingProductId := Some(productId);
      form := Some(EditForm(currentProducts[found.value]));
    }

    /**
     * The form's submit handler: sends an update when a product is being
     * edited and a create otherwise; after success the modal closes, which
     * ends editing, and the list reloads. After a failure nothing changes.
     */
    method Submit(input: FormInput, succeeded: bool, fetched: Option<seq<Product>>) returns (request: Request)
      modifies this`editingProductId, this`currentProducts
      ensures request == SubmitRequest(old(editingProductId), ProductData(input))
      ensures succeeded ==>
        editingProductId == None && currentProducts == Reloaded(old(currentProducts), fetched)
      ensures !succeeded ==>
        editingProductId == old(editingProductId) && currentProducts == old(currentProducts)
    {
      var data := ProductData(input);
      request := SubmitRequest(editingProductId, data);
      if succeeded {
        ResetForm();
        LoadProducts(fetched);
      }
    }

    /**
     * `confirmDelete`: with no product chosen for deletion, nothing is sent.
     * Otherwise the chosen id is deleted; on success the dialog closes, which
     * clears the choice, and the list reloads. On failure nothing changes.
     */
    method ConfirmDelete(succeeded: bool, fetched: Option<seq<Product>>) returns (sent: Option<nat>)
      modifies this`deletingProductId, this`currentProducts
      ensures sent == (if Truthy(old(deletingProductId)) then old(deletingProductId) else None)
      ensures sent.Some? && succeeded ==>
        deletingProductId == None && currentProducts == Reloaded(old(currentProducts), fetched)
      ensures sent.None? || !succeeded ==>
        deletingProductId == old(deletingProductId) && currentProducts == old(currentProducts)
    {
      if !Truthy(deletingProductId) {
        sent := None;
        return;
      }
      sent := deletingProductId;
      if succeeded {
        CloseDeleteModal();
        LoadProducts(fetched);
      }
    }
  }
}
