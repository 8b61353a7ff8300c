/** The article controller: creating an article together with its purchase
    record and stock entry, the partial update that can move an article
    between catalogs and suppliers, the status toggle, and deletion. */
module Articles {
  import opened Common
  import opened Entities
  import Store
  import Refs

  /** The fields `createArticle` reads from the request body. */
  datatype ArticleBody = ArticleBody(
    name: Option<string>,
    description: Option<string>,
    weight: Option<int>,
    color: Option<Id>,
    typeArticle: Option<string>,
    countArticle: Option<int>,
    supplier: Option<Id>,
    sellPrice: Option<int>,
    buyPrice: Option<int>,
    category: Option<Id>,
    barCode: Option<string>)

  /** All eleven required fields are present and truthy. */
  predicate Complete(b: ArticleBody)
  {
    Given(b.name) && Given(b.description) && GivenNum(b.weight) && b.color.Some? &&
    Given(b.typeArticle) && GivenNum(b.countArticle) && b.supplier.Some? &&
    GivenNum(b.sellPrice) && b.category.Some? && GivenNum(b.buyPrice) && Given(b.barCode)
  }

  /** The article `createArticle` stores: active, filed under the catalog
      named by `category`, created by the authenticated actor. */
  function NewArticle(b: ArticleBody, actor: Id, file: Option<Image>): (a: Article)
    requires Complete(b)
  {
    Article(true, b.name.value, b.description.value, b.weight.value, file, b.color.value,
            b.typeArticle.value, b.category.value, b.supplier.value, b.sellPrice.value,
            b.buyPrice.value, b.barCode.value, actor)
  }

  /** The purchase recorded for a new article: a fresh document carrying the
      next purchase reference and the count-scaled weight and price. */
  ghost predicate PurchaseRecorded(before: map<Id, Achat>, after: map<Id, Achat>, articleId: Id, b: ArticleBody)
    requires Complete(b)
  {
    exists achatId: Id, ref: int ::
      achatId !in before && Refs.IsNextRef(Refs.AchatRefs(before), |before|, ref) &&
      after == before[achatId := Achat(ref, articleId, b.countArticle.value, b.supplier.value,
        b.typeArticle.value, b.weight.value * b.countArticle.value,
        Some(b.buyPrice.value * b.countArticle.value))]
  }

  /** The stock upsert: the matched record grows by `count`, or a fresh
      record holding `count` units of the new article is added. */
  ghost predicate StockRecorded(before: map<Id, Stock>, after: map<Id, Stock>, hit: Option<Id>, articleId: Id, count: int)
  {
    if hit.Some? then
      hit.value in before && after == before[hit.value := before[hit.value].(stock := before[hit.value].stock + count)]
    else
      exists stockId: Id :: stockId !in before && after == before[stockId := Stock(articleId, count)]
  }

  /** `selectedSupplier.articles.push(newArticle)` and save. */
  method AppendToSupplier(suppliers: Store.Collection<Supplier>, supplierId: Id, articleId: Id)
    requires suppliers.Valid() && supplierId in suppliers.docs
    modifies suppliers
    ensures suppliers.Valid()
    ensures suppliers.docs == old(suppliers.docs)[supplierId := old(suppliers.docs)[supplierId].(
      articles := old(suppliers.docs)[supplierId].articles + [articleId])]
  {
    var selectedSupplier := suppliers.docs[supplierId];
    suppliers.Put(supplierId, selectedSupplier.(articles := selectedSupplier.articles + [articleId]));
  }

  /** `selectedCatalog.articles.push(newArticle)` and save. */
  method AppendToCatalog(catalogs: Store.Collection<Catalog>, catalogId: Id, articleId: Id)
    requires catalogs.Valid() && catalogId in catalogs.docs
    modifies catalogs
    ensures catalogs.Valid()
    ensures catalogs.docs == old(catalogs.docs)[catalogId := old(catalogs.docs)[catalogId].(
      articles := old(catalogs.docs)[catalogId].articles + [articleId])]
  {
    var selectedCatalog := catalogs.docs[catalogId];
    catalogs.Put(catalogId, selectedCatalog.(articles := selectedCatalog.articles + [articleId]));
  }

  /** The purchase record: the next reference, then `new Achat(...)` and save. */
  method RecordPurchase(achats: Store.Collection<Achat>, articleId: Id, b: ArticleBody)
    requires achats.Valid() && Complete(b)
    modifies achats
    ensures achats.Valid()
    ensures PurchaseRecorded(old(achats.docs), achats.docs, articleId, b)
  {
    var ref := Refs.GenerateAchatReference(achats);
    var count := b.countArticle.value;
    var purchase := Achat(ref, articleId, count, b.supplier.value, b.typeArticle.value,
                          b.weight.value * count, Some(b.buyPrice.value * count));
    var achatId := achats.Insert(purchase);
  }

  /** The stock upsert: `existingStock.stock += countArticle` and save, or a
      new stock record for the article. */
  method RecordStock(stocks: Store.Collection<Stock>, stockHit: Option<Id>, articleId: Id, count: int)
    requires stocks.Valid()
    requires stockHit.Some? ==> stockHit.value in stocks.docs
    modifies stocks
    ensures stocks.Valid()
    ensures StockRecorded(old(stocks.docs), stocks.docs, stockHit, articleId, count)
  {
    if stockHit.Some? {
      var existingStock := stocks.docs[stockHit.value];
      stocks.Put(stockHit.value, existingStock.(stock := existingStock.stock + count));
    } else {
      var stockId := stocks.Insert(Stock(articleId, count));
    }
  }

  /** `createArticle`. `stockHit` is what the stock lookup by bar code
      returned; `actor` is the authenticated user. */
  method CreateArticle(articles: Store.Collection<Article>, catalogs: Store.Collection<Catalog>,
                       colors: Store.Collection<Color>, suppliers: Store.Collection<Supplier>,
                       achats: Store.Collection<Achat>, stocks: Store.Collection<Stock>,
                       b: ArticleBody, file: Option<Image>, actor: Id, stockHit: Option<Id>)
    returns (st: Status)
    requires articles.Valid() && catalogs.Valid() && suppliers.Valid() && achats.Valid() && stocks.Valid()
    requires stockHit.Some? ==> stockHit.value in stocks.docs
    modifies articles, catalogs, suppliers, achats, stocks
    ensures articles.Valid() && catalogs.Valid() && suppliers.Valid() && achats.Valid() && stocks.Valid()
    ensures !Complete(b) ==> st == BadRequest && unchanged(articles, catalogs, suppliers, achats, stocks)
    ensures Complete(b) && (b.category.value !in old(catalogs.docs) || b.color.value !in colors.docs ||
                            b.supplier.value !in old(suppliers.docs)) ==>
      st == NotFound && unchanged(articles, catalogs, suppliers, achats, stocks)
    ensures (Complete(b) && b.category.value in old(catalogs.docs) && b.color.value in colors.docs &&
             b.supplier.value in old(suppliers.docs) && file.Some? && !ImageComplete(file.value)) ==>
      st == BadRequest && unchanged(articles, catalogs, suppliers, achats, stocks)
    ensures st == Created <==>
      Complete(b) && b.category.value in old(catalogs.docs) && b.color.value in colors.docs &&
      b.supplier.value in old(suppliers.docs) && (file.None? || ImageComplete(file.value))
    ensures st == Created ==> exists articleId: Id ::
      articleId !in old(articles.docs) &&
      articles.docs == old(articles.docs)[articleId := NewArticle(b, actor, file)] &&
      suppliers.docs == old(suppliers.docs)[b.supplier.value := old(suppliers.docs)[b.supplier.value].(
        articles := old(suppliers.docs)[b.supplier.value].articles + [articleId])] &&
      catalogs.docs == old(catalogs.docs)[b.category.value := old(catalogs.docs)[b.category.value].(
        articles := old(catalogs.docs)[b.category.value].articles + [articleId])] &&
      PurchaseRecorded(old(achats.docs), achats.docs, articleId, b) &&
      StockRecorded(old(stocks.docs), stocks.docs, stockHit, articleId, b.countArticle.value)
  {
    if !Complete(b) {
      return BadRequest;
    }
    var category, colorId, supplierId := b.category.value, b.color.value, b.supplier.value;
    if category !in catalogs.docs {
      return NotFound;
    }
    if colorId !in colors.docs {
      return NotFound;
    }
    if supplierId !in suppliers.docs {
      return NotFound;
    }
    if file.Some? && !ImageComplete(file.value) {
      return BadRequest;
    }
    var articleId := articles.Insert(NewArticle(b, actor, file));
    AppendToSupplier(suppliers, supplierId, articleId);
    AppendToCatalog(catalogs, category, articleId);
    RecordPurchase(achats, articleId, b);
    RecordStock(stocks, stockHit, articleId, b.countArticle.value);
    st := Created;
  }

  /** The fields `updateArticle` reads from the request body. */
  datatype ArticleEdit = ArticleEdit(
    name: Option<string>,
    description: Option<string>,
    weight: Option<int>,
    color: Option<Id>,
    typeArticle: Option<string>,
    number: Option<int>,
    catalog: Option<Id>,
    supplier: Option<Id>,
    sellPrice: Option<int>,
    buyPrice: Option<int>,
    category: Option<Id>,
    createdBy: Option<Id>)

  /** The article after every guarded assignment of `updateArticle` has run.
      `number` goes to a path the schema does not have, so it changes nothing. */
  function Patched(a: Article, e: ArticleEdit, file: Option<Image>): (r: Article)
    ensures r.status == a.status && r.barCode == a.barCode
    ensures Given(e.name) ==> r.name == e.name.value
    ensures !Given(e.name) ==> r.name == a.name
    ensures Given(e.description) ==> r.description == e.description.value
    ensures !Given(e.description) ==> r.description == a.description
    ensures GivenNum(e.weight) ==> r.weight == e.weight.value
    ensures !GivenNum(e.weight) ==> r.weight == a.weight
    ensures e.color.Some? ==> r.color == e.color.value
    ensures e.color.None? ==> r.color == a.color
    ensures Given(e.typeArticle) ==> r.typeArticle == e.typeArticle.value
    ensures !Given(e.typeArticle) ==> r.typeArticle == a.typeArticle
    ensures e.catalog.Some? ==> r.catalog == e.catalog.value
    ensures e.catalog.None? ==> r.catalog == a.catalog
    ensures e.supplier.Some? ==> r.supplier == e.supplier.value
    ensures e.supplier.None? ==> r.supplier == a.supplier
    ensures GivenNum(e.sellPrice) ==> r.sellPrice == e.sellPrice.value
    ensures !GivenNum(e.sellPrice) ==> r.sellPrice == a.sellPrice
    ensures GivenNum(e.buyPrice) ==> r.buyPrice == e.buyPrice.value
    ensures !GivenNum(e.buyPrice) ==> r.buyPrice == a.buyPrice
    ensures e.createdBy.Some? ==> r.createdBy == e.createdBy.value
    ensures e.createdBy.None? ==> r.createdBy == a.createdBy
    ensures file.Some? ==> r.img == file
    ensures file.None? ==> r.img == a.img
  {
    Article(a.status, OrElse(e.name, a.name), OrElse(e.description, a.description), NumOr(e.weight, a.weight),
            OptionOr(file, a.img), ValueOr(e.color, a.color), OrElse(e.typeArticle, a.typeArticle),
            ValueOr(e.catalog, a.catalog), ValueOr(e.supplier, a.supplier), NumOr(e.sellPrice, a.sellPrice),
            NumOr(e.buyPrice, a.buyPrice), a.barCode, ValueOr(e.createdBy, a.createdBy))
  }

  /** Catalog reassignment: the article is filtered out of its old catalog,
      when that still exists, and then appended to the selected one. */
  function MoveInCatalogs(cs: map<Id, Catalog>, articleId: Id, from: Id, to: Id): (r: map<Id, Catalog>)
    requires to in cs
    ensures r.Keys == cs.Keys
    ensures articleId in r[to].articles && r[to] == cs[to].(articles := r[to].articles)
    ensures from != to && from in cs ==>
      r[from] == cs[from].(articles := r[from].articles) &&
      forall x :: x in r[from].articles <==> x in cs[from].articles && x != articleId
    ensures from == to ==> r[to].articles == Without(cs[to].articles, articleId) + [articleId]
    ensures from != to ==> r[to].articles == cs[to].articles + [articleId]
    ensures forall k :: k in cs && k != from && k != to ==> r[k] == cs[k]
  {
    var afterFilter := if from in cs then cs[from := cs[from].(articles := Without(cs[from].articles, articleId))] else cs;
    WithoutMembers(cs[to].articles, articleId);
    if from in cs then WithoutMembers(cs[from].articles, articleId); afterFilter[to := afterFilter[to].(articles := afterFilter[to].articles + [articleId])]
    else afterFilter[to := afterFilter[to].(articles := afterFilter[to].articles + [articleId])]
  }

  /** Supplier reassignment, the same filter-then-append; here the old
      supplier must exist, since the source dereferences it unchecked. */
  function MoveInSuppliers(ss: map<Id, Supplier>, articleId: Id, from: Id, to: Id): (r: map<Id, Supplier>)
    requires from in ss && to in ss
    ensures r.Keys == ss.Keys
    ensures articleId in r[to].articles && r[to] == ss[to].(articles := r[to].articles)
    ensures from != to ==>
      r[from] == ss[from].(articles := r[from].articles) &&
      forall x :: x in r[from].articles <==> x in ss[from].articles && x != articleId
    ensures from == to ==> r[to].articles == Without(ss[to].articles, articleId) + [articleId]
    ensures from != to ==> r[to].articles == ss[to].articles + [articleId]
    ensures forall k :: k in ss && k != from && k != to ==> r[k] == ss[k]
  {
    var afterFilter := ss[from := ss[from].(articles := Without(ss[from].articles, articleId))];
    WithoutMembers(ss[from].articles, articleId);
    afterFilter[to := afterFilter[to].(articles := afterFilter[to].articles + [articleId])]
  }

  /** Moving an article to the catalog it is already in keeps exactly one
      entry for it, now at the end of the list. */
  lemma {:induction false} MoveToSameCatalogOnce(cs: map<Id, Catalog>, articleId: Id, c: Id)
    requires c in cs
    ensures var xs := MoveInCatalogs(cs, articleId, c, c)[c].articles;
      |xs| > 0 && xs[|xs| - 1] == articleId && forall i :: 0 <= i < |xs| - 1 ==> xs[i] != articleId
  {
    var kept := Without(cs[c].articles, articleId);
    WithoutMembers(cs[c].articles, articleId);
    var xs := kept + [articleId];
    forall i | 0 <= i < |xs| - 1
      ensures xs[i] != articleId
    {
      assert xs[i] == kept[i] && kept[i] in kept;
    }
  }

  /** The catalog step of `updateArticle`: filter the article out of the old
      catalog and save it, when it exists; then push onto the selected one. */
  method ReassignCatalog(catalogs: Store.Collection<Catalog>, articleId: Id, from: Id, to: Id)
    requires catalogs.Valid() && to in catalogs.docs
    modifies catalogs
    ensures catalogs.Valid()
    ensures catalogs.docs == MoveInCatalogs(old(catalogs.docs), articleId, from, to)
  {
    if from in catalogs.docs {
      var oldCatalog := catalogs.docs[from];
      catalogs.Put(from, oldCatalog.(articles := Without(oldCatalog.articles, articleId)));
    }
    var selectedCatalog := catalogs.docs[to];
    catalogs.Put(to, selectedCatalog.(articles := selectedCatalog.articles + [articleId]));
  }

  /** The supplier step of `updateArticle`, the same filter-then-push. */
  method ReassignSupplier(suppliers: Store.Collection<Supplier>, articleId: Id, from: Id, to: Id)
    requires suppliers.Valid() && from in suppliers.docs && to in suppliers.docs
    modifies suppliers
    ensures suppliers.Valid()
    ensures suppliers.docs == MoveInSuppliers(old(suppliers.docs), articleId, from, to)
  {
    var oldSupplier := suppliers.docs[from];
    suppliers.Put(from, oldSupplier.(articles := Without(oldSupplier.articles, articleId)));
    var selectedSupplier := suppliers.docs[to];
    suppliers.Put(to, selectedSupplier.(articles := selectedSupplier.articles + [articleId]));
  }

  /** The answer of `updateArticle` for an existing article `a0`: the first
      check that fails, in the order the source makes them, decides it. */
  function UpdateStatus(a0: Article, e: ArticleEdit, colorIds: set<Id>, catalogIds: set<Id>,
                        supplierIds: set<Id>, userIds: set<Id>): (st: Status)
    ensures st == Ok <==>
      (e.color.None? || e.color.value in colorIds) && (e.catalog.None? || e.catalog.value in catalogIds) &&
      (e.supplier.None? || (e.supplier.value in supplierIds && a0.supplier in supplierIds)) &&
      e.category.None? && (e.createdBy.None? || e.createdBy.value in userIds)
    ensures st == Ok || st == NotFound || st == InternalServerError
    ensures e.category.Some? ==> st != Ok
  {
    var early := ListStepsStatus(a0, e, colorIds, catalogIds, supplierIds);
    if early != Ok then early
    else if e.category.Some? then InternalServerError
    else if e.createdBy.Some? && e.createdBy.value !in userIds then NotFound
    else Ok
  }

  /** The answer of the checks up to and including the supplier step. */
  function ListStepsStatus(a0: Article, e: ArticleEdit, colorIds: set<Id>, catalogIds: set<Id>,
                           supplierIds: set<Id>): Status
  {
    if e.color.Some? && e.color.value !in colorIds then NotFound
    else if e.catalog.Some? && e.catalog.value !in catalogIds then NotFound
    else if e.supplier.Some? && e.supplier.value !in supplierIds then NotFound
    else if e.supplier.Some? && a0.supplier !in supplierIds then InternalServerError
    else Ok
  }

  /** The catalog lists are rewritten once the colour check has passed and
      the selected catalog exists. */
  predicate CatalogStepRuns(e: ArticleEdit, colorIds: set<Id>, catalogIds: set<Id>)
  {
    (e.color.None? || e.color.value in colorIds) && e.catalog.Some? && e.catalog.value in catalogIds
  }

  /** The supplier lists are rewritten once every earlier check has passed and
      both the selected and the current supplier exist. */
  predicate SupplierStepRuns(a0: Article, e: ArticleEdit, colorIds: set<Id>, catalogIds: set<Id>, supplierIds: set<Id>)
  {
    (e.color.None? || e.color.value in colorIds) && (e.catalog.None? || e.catalog.value in catalogIds) &&
    e.supplier.Some? && e.supplier.value in supplierIds && a0.supplier in supplierIds
  }

  /** The colour, catalog and supplier steps of `updateArticle`: each check
      in turn, with the catalog and supplier lists rewritten as soon as their
      step passes. */
  method ListSteps(catalogs: Store.Collection<Catalog>, colors: Store.Collection<Color>,
                   suppliers: Store.Collection<Supplier>, articleId: Id, article: Article, e: ArticleEdit)
    returns (st: Status)
    requires catalogs.Valid() && suppliers.Valid()
    modifies catalogs, suppliers
    ensures catalogs.Valid() && suppliers.Valid()
    ensures st == ListStepsStatus(article, e, colors.docs.Keys, old(catalogs.docs).Keys, old(suppliers.docs).Keys)
    ensures catalogs.docs == if CatalogStepRuns(e, colors.docs.Keys, old(catalogs.docs).Keys)
                             then MoveInCatalogs(old(catalogs.docs), articleId, article.catalog, e.catalog.value)
                             else old(catalogs.docs)
    ensures suppliers.docs == if SupplierStepRuns(article, e, colors.docs.Keys, old(catalogs.docs).Keys,
                                                  old(suppliers.docs).Keys)
                              then MoveInSuppliers(old(suppliers.docs), articleId, article.supplier, e.supplier.value)
                              else old(suppliers.docs)
  {
    if e.color.Some? && e.color.value !in colors.docs {
      return NotFound;
    }
    if e.catalog.Some? {
      var selected := e.catalog.value;
      if selected !in catalogs.docs {
        return NotFound;
      }
      ReassignCatalog(catalogs, articleId, article.catalog, selected);
    }
    if e.supplier.Some? {
      var selected := e.supplier.value;
      if selected !in suppliers.docs {
        return NotFound;
      }
      if article.supplier !in suppliers.docs {
        return InternalServerError;
      }
      ReassignSupplier(suppliers, articleId, article.supplier, selected);
    }
    st := Ok;
  }

  /** `updateArticle`. The optional fields are checked one after the other;
      the catalog and supplier lists are written as soon as their step
      succeeds, even when a later check then fails, while the article's own
      fields, assigned in memory, are saved only at the end. A given
      `category` reaches an undefined variable and fails with 500. */
  method UpdateArticle(articles: Store.Collection<Article>, catalogs: Store.Collection<Catalog>,
                       colors: Store.Collection<Color>, suppliers: Store.Collection<Supplier>,
                       users: Store.Collection<User>, articleId: Id, e: ArticleEdit, file: Option<Image>)
    returns (st: Status)
    requires articles.Valid() && catalogs.Valid() && suppliers.Valid()
    modifies articles, catalogs, suppliers
    ensures articles.Valid() && catalogs.Valid() && suppliers.Valid()
    ensures articleId !in old(articles.docs) ==> st == NotFound && unchanged(articles, catalogs, suppliers)
    ensures articleId in old(articles.docs) ==>
      st == UpdateStatus(old(articles.docs)[articleId], e, colors.docs.Keys, old(catalogs.docs).Keys,
                         old(suppliers.docs).Keys, users.docs.Keys)
    ensures articleId in old(articles.docs) ==>
      catalogs.docs == if CatalogStepRuns(e, colors.docs.Keys, old(catalogs.docs).Keys)
                       then MoveInCatalogs(old(catalogs.docs), articleId, old(articles.docs)[articleId].catalog, e.catalog.value)
                       else old(catalogs.docs)
    ensures articleId in old(articles.docs) ==>
      suppliers.docs == if SupplierStepRuns(old(articles.docs)[articleId], e, colors.docs.Keys,
                                            old(catalogs.docs).Keys, old(suppliers.docs).Keys)
                        then MoveInSuppliers(old(suppliers.docs), articleId, old(articles.docs)[articleId].supplier, e.supplier.value)
                        else old(suppliers.docs)
    ensures st == Ok ==>
      articleId in old(articles.docs) &&
      articles.docs == old(articles.docs)[articleId := Patched(old(articles.docs)[articleId], e, file)]
    ensures st != Ok ==> articles.docs == old(articles.docs)
  {
    if articleId !in articles.docs {
      return NotFound;
    }
    var article := articles.docs[articleId];
    st := ListSteps(catalogs, colors, suppliers, articleId, article, e);
    if st != Ok {
      return;
    }
    if e.category.Some? {
      return InternalServerError;
    }
    if e.createdBy.Some? && e.createdBy.value !in users.docs {
      return NotFound;
    }
    articles.Put(articleId, Patched(article, e, file));
    st := Ok;
  }

  /** `toggleStatus`: flips the article's `status`. */
  method ToggleStatus(articles: Store.Collection<Article>, articleId: Id) returns (st: Status)
    requires articles.Valid()
    modifies articles
    ensures articles.Valid()
    ensures articleId !in old(articles.docs) ==> st == NotFound && articles.docs == old(articles.docs)
    ensures articleId in old(articles.docs) ==>
      st == Ok && articles.docs == old(articles.docs)[articleId := old(articles.docs)[articleId].(
        status := !old(articles.docs)[articleId].status)]
  {
    if articleId !in articles.docs {
      return NotFound;
    }
    var article := articles.docs[articleId];
    articles.Put(articleId, article.(status := !article.status));
    st := Ok;
  }

  /** A catalog with every occurrence of `articleId` filtered out of its list,
      for the catalogs the lookup `{articles: articleId}` matches. */
  function Stripped(c: Catalog, articleId: Id): (r: Catalog)
    ensures r == c.(articles := r.articles)
    ensures forall x :: x in r.articles <==> x in c.articles && x != articleId
  {
    WithoutMembers(c.articles, articleId);
    if articleId in c.articles then c.(articles := Without(c.articles, articleId)) else c
  }

  /** Every catalog after `deleteArticle`'s clean-up. */
  function CatalogsWithout(cs: map<Id, Catalog>, articleId: Id): (r: map<Id, Catalog>)
    ensures r.Keys == cs.Keys
    ensures forall k :: k in r ==> articleId !in r[k].articles
    ensures forall k :: k in r ==> r[k] == cs[k].(articles := r[k].articles)
    ensures forall k, x :: k in r && x != articleId ==> (x in r[k].articles <==> x in cs[k].articles)
  {
    map k | k in cs :: Stripped(cs[k], articleId)
  }

  /** `Catalog.find({articles: articleId})` and, for each match, filter the
      id out of its list and save. */
  method StripCatalogs(catalogs: Store.Collection<Catalog>, articleId: Id)
    requires catalogs.Valid()
    modifies catalogs
    ensures catalogs.Valid()
    ensures catalogs.docs == CatalogsWithout(old(catalogs.docs), articleId)
  {
    ghost var before := catalogs.docs;
    var i := 0;
    while i < catalogs.nextId
      invariant i <= catalogs.nextId && catalogs.Valid()
      invariant catalogs.nextId == old(catalogs.nextId)
      invariant catalogs.docs.Keys == before.Keys
      invariant forall k :: k in catalogs.docs ==>
        catalogs.docs[k] == if k < i then Stripped(before[k], articleId) else before[k]
    {
      if i in catalogs.docs {
        var catalog := catalogs.docs[i];
        if articleId in catalog.articles {
          catalogs.Put(i, catalog.(articles := Without(catalog.articles, articleId)));
        }
      }
      i := i + 1;
    }
  }

  /** `deleteArticle`. The catalogs are cleaned and the article deleted
      before the image file is looked for, so a missing file still answers
      404 after the deletion. Supplier lists are not cleaned. */
  method DeleteArticle(articles: Store.Collection<Article>, catalogs: Store.Collection<Catalog>,
                       articleId: Id, imageExists: bool) returns (st: Status)
    requires articles.Valid() && catalogs.Valid()
    modifies articles, catalogs
    ensures articles.Valid() && catalogs.Valid()
    ensures articleId !in old(articles.docs) ==> st == NotFound && unchanged(articles, catalogs)
    ensures articleId in old(articles.docs) ==>
      articles.docs == old(articles.docs) - {articleId} &&
      catalogs.docs == CatalogsWithout(old(catalogs.docs), articleId) &&
      st == (if imageExists then Ok else NotFound)
  {
    if articleId !in articles.docs {
      return NotFound;
    }
    StripCatalogs(catalogs, articleId);
    articles.Delete(articleId);
    st := if imageExists then Ok else NotFound;
  }
}
