/**
 * The Product entity shared by the backend service and both web pages.
 * Prices are integer cents; ids are the store's numeric keys.
 */
module Products {
  import opened Wrappers

  /** A persistence timestamp; the service never reads or writes one, so it is opaque here. */
  type Timestamp = int

  /**
   * The six fields a client supplies: the argument of the six-argument Product
   * constructor, the JSON body the admin page sends, and exactly the fields that
   * updateProduct overwrites.
   */
  datatype Fields = Fields(
    name: string,
    description: Option<string>,
    price: int,
    stockQuantity: int,
    category: Option<string>,
    imageUrl: Option<string>)

  /** A product record; `id` is None until the store assigns one. */
  datatype Product = Product(
    id: Option<nat>,
    name: string,
    description: Option<string>,
    price: int,
    stockQuantity: int,
    category: Option<string>,
    imageUrl: Option<string>,
    createdAt: Option<Timestamp>,
    updatedAt: Option<Timestamp>)
  {
    /** The six client-supplied fields of this record. */
    function MutableFields(): Fields {
      Fields(name, description, price, stockQuantity, category, imageUrl)
    }
  }

  /** The six-argument constructor: no id and no timestamps yet. */
  function NewProduct(f: Fields): (p: Product)
    ensures p.id.None? && p.createdAt.None? && p.updatedAt.None?
    ensures p.MutableFields() == f
  {
    Product(None, f.name, f.description, f.price, f.stockQuantity, f.category, f.imageUrl, None, None)
  }
}
