/** The ensemble-category controller: creation and update, both of which
    keep only the listed ensembles that exist, and deletion. */
module EnsembleCategories {
  import opened Common
  import opened Entities
  import Store

  /** Some category already carries `name`. */
  predicate NameUsed(docs: map<Id, EnsembleCategory>, name: string)
  {
    exists k :: k in docs && docs[k].name == name
  }

  /** `EnsembleCategory.findOne({name})`. */
  method FindByName(categories: Store.Collection<EnsembleCategory>, name: string) returns (found: bool)
    requires categories.Valid()
    ensures found <==> NameUsed(categories.docs, name)
  {
    var existing := Store.FindOne(categories, (_: Id, c: EnsembleCategory) => c.name == name);
    found := existing.Some?;
  }

  /** The "verify ensembles" step: the listed ids that name an ensemble, in
      the order given; nothing when the list is absent or empty. */
  method VerifyEnsembles(ensembles: Store.Collection<Ensemble>, ids: Option<seq<Id>>) returns (verified: seq<Id>)
    ensures verified == if ids.Some? then Store.KeepExisting(ids.value, ensembles.docs.Keys) else []
  {
    verified := [];
    if ids.Some? && |ids.value| > 0 {
      verified := Store.VerifiedIds(ids.value, ensembles.docs);
    }
  }

  /** `createCategory`: a taken name is a conflict, and so is any stored
      category when the name is absent, since `findOne({name})` then has an
      empty filter; unknown ensemble ids are dropped; the schema then
      requires a non-empty name and description. */
  method CreateCategory(categories: Store.Collection<EnsembleCategory>, ensembles: Store.Collection<Ensemble>,
                        name: Option<string>, description: Option<string>, ensembleIds: Option<seq<Id>>)
    returns (st: Status)
    requires categories.Valid()
    modifies categories
    ensures categories.Valid()
    ensures st == Conflict <==>
      (name.None? && old(categories.docs) != map[]) || (name.Some? && NameUsed(old(categories.docs), name.value))
    ensures !(name.None? && old(categories.docs) != map[]) && !(name.Some? && NameUsed(old(categories.docs), name.value)) &&
            !(Given(name) && Given(description)) ==>
      st == InternalServerError && categories.docs == old(categories.docs)
    ensures st == Created <==>
      Given(name) && Given(description) && !NameUsed(old(categories.docs), name.value)
    ensures st == Created ==>
      exists id: Id ::
        id !in old(categories.docs) &&
        categories.docs == old(categories.docs)[id := EnsembleCategory(true, name.value, description.value,
          if ensembleIds.Some? then Store.KeepExisting(ensembleIds.value, ensembles.docs.Keys) else [])]
    ensures st != Created ==> categories.docs == old(categories.docs)
    ensures st == Created || st == Conflict || st == InternalServerError
  {
    if name.Some? {
      var taken := FindByName(categories, name.value);
      if taken {
        return Conflict;
      }
    } else {
      var any := Store.FindOne(categories, (_: Id, _: EnsembleCategory) => true);
      if any.Some? {
        return Conflict;
      }
    }
    var verified := VerifyEnsembles(ensembles, ensembleIds);
    if !Given(name) || !Given(description) {
      return InternalServerError;
    }
    var id := categories.Insert(EnsembleCategory(true, name.value, description.value, verified));
    st := Created;
  }

  /** The category after `updateCategory`'s three fallback assignments. */
  function Merged(c: EnsembleCategory, name: Option<string>, description: Option<string>, verified: seq<Id>): (r: EnsembleCategory)
    ensures r.status == c.status
    ensures r.name == (if Given(name) then name.value else c.name)
    ensures r.description == (if Given(description) then description.value else c.description)
    ensures verified != [] ==> r.ensembles == verified
    ensures verified == [] ==> r.ensembles == c.ensembles
  {
    c.(name := OrElse(name, c.name), description := OrElse(description, c.description),
       ensembles := if |verified| > 0 then verified else c.ensembles)
  }

  /** An update never empties a category's ensemble list: an empty or
      all-unknown list keeps the old one. */
  lemma MergedNeverClears(c: EnsembleCategory, name: Option<string>, description: Option<string>, verified: seq<Id>)
    requires c.ensembles != []
    ensures Merged(c, name, description, verified).ensembles != []
  {
  }

  /** `updateCategory`. */
  method UpdateCategory(categories: Store.Collection<EnsembleCategory>, ensembles: Store.Collection<Ensemble>,
                        categoryId: Id, name: Option<string>, description: Option<string>, ensembleIds: Option<seq<Id>>)
    returns (st: Status)
    requires categories.Valid()
    modifies categories
    ensures categories.Valid()
    ensures categoryId !in old(categories.docs) ==> st == NotFound && categories.docs == old(categories.docs)
    ensures categoryId in old(categories.docs) ==>
      var c := old(categories.docs)[categoryId];
      var renameClash := Given(name) && name.value != c.name && NameUsed(old(categories.docs), name.value);
      (renameClash ==> st == Conflict && categories.docs == old(categories.docs)) &&
      (!renameClash ==> st == Ok && categories.docs == old(categories.docs)[categoryId := Merged(c, name, description,
        if ensembleIds.Some? then Store.KeepExisting(ensembleIds.value, ensembles.docs.Keys) else [])])
  {
    if categoryId !in categories.docs {
      return NotFound;
    }
    var category := categories.docs[categoryId];
    if Given(name) && name.value != category.name {
      var taken := FindByName(categories, name.value);
      if taken {
        return Conflict;
      }
    }
    var verified := VerifyEnsembles(ensembles, ensembleIds);
    categories.Put(categoryId, Merged(category, name, description, verified));
    st := Ok;
  }

  /** `deleteCategory`. */
  method DeleteCategory(categories: Store.Collection<EnsembleCategory>, categoryId: Id) returns (st: Status)
    requires categories.Valid()
    modifies categories
    ensures categories.Valid()
    ensures categoryId !in old(categories.docs) ==> st == NotFound && categories.docs == old(categories.docs)
    ensures categoryId in old(categories.docs) ==> st == Ok && categories.docs == old(categories.docs) - {categoryId}
  {
    if categoryId !in categories.docs {
      return NotFound;
    }
    categories.Delete(categoryId);
    st := Ok;
  }
}
