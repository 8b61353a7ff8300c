/** The documents the controllers read and write, one datatype per schema.
    Money and weights are integers in minor units; dates are kept as the
    strings the request carried. Only the schema fields a controller reads or
    writes are kept. */
module Entities {
  import opened Common

  /** An uploaded image as the upload middleware describes it. */
  datatype Image = Image(filename: string, originalname: string, fileType: string)

  /** The upload check of the create operations: all three fields non-empty. */
  predicate ImageComplete(f: Image)
  {
    f.filename != "" && f.originalname != "" && f.fileType != ""
  }

  /** A payment embedded in a sale; `id` is its sub-document id. */
  datatype Payment = Payment(id: Id, paymentMethod: string, amount: int, date: string)

  datatype Sale = Sale(
    ref: int,
    status: string,
    description: string,
    articles: seq<Id>,
    client: Id,
    totalWeight: int,
    total: int,
    paid: int,
    notPaid: int,
    payment: seq<Payment>,
    date: string)

  datatype Article = Article(
    status: bool,
    name: string,
    description: string,
    weight: int,
    img: Option<Image>,
    color: Id,
    typeArticle: string,
    catalog: Id,
    supplier: Id,
    sellPrice: int,
    buyPrice: int,
    barCode: string,
    createdBy: Id)

  datatype Catalog = Catalog(status: bool, name: string, description: string, articles: seq<Id>)

  datatype Color = Color(name: string, hex: string)

  datatype Supplier = Supplier(
    firstName: Option<string>,
    lastName: string,
    email: string,
    phone: Option<string>,
    address: Option<string>,
    status: bool,
    articles: seq<Id>,
    totalPayment: int)

  /** A purchase ("achat") recorded when an article is created. `total` is
      optional because `getOneSupplier` reads it with `|| 0`. */
  datatype Achat = Achat(
    ref: int,
    article: Id,
    countArticle: int,
    supplier: Id,
    typeArticle: string,
    totalweight: int,
    total: Option<int>)

  datatype Stock = Stock(article: Id, stock: int)

  datatype Ensemble = Ensemble(
    status: bool,
    name: string,
    description: string,
    creator: Id,
    articles: seq<Id>,
    img: Option<Image>)

  datatype EnsembleCategory = EnsembleCategory(status: bool, name: string, description: string, ensembles: seq<Id>)

  datatype Permission = Permission(permissionName: string)

  datatype Role = Role(roleName: string, permission: seq<Id>)

  /** `password` holds the stored hash; hashing itself is not modelled. */
  datatype User = User(
    firstName: string,
    lastName: string,
    userName: string,
    email: string,
    phone: string,
    password: string,
    role: Id,
    status: bool)

  datatype Client = Client(
    firstName: string,
    lastName: string,
    typeClient: string,
    phone: string,
    status: bool,
    email: string,
    address: Option<string>)
}
