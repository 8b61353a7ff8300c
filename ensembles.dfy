/** The ensemble controller: creation, which silently drops unknown article
    ids, update, which refuses the whole edit at the first unknown one, and
    deletion. */
module Ensembles {
  import opened Common
  import opened Entities
  import Store

  /** `createEnsemble`. All four body fields must be present (an empty
      article list counts as present); an unknown creator answers 404 and
      stores nothing; an uploaded image must have all its fields. */
  method CreateEnsemble(ensembles: Store.Collection<Ensemble>, users: Store.Collection<User>,
                        articles: Store.Collection<Article>, name: Option<string>, description: Option<string>,
                        creator: Option<Id>, articleIds: Option<seq<Id>>, status: Option<bool>, file: Option<Image>)
    returns (st: Status)
    requires ensembles.Valid()
    modifies ensembles
    ensures ensembles.Valid()
    ensures !Given(name) || !Given(description) || creator.None? || articleIds.None? ==>
      st == BadRequest && ensembles.docs == old(ensembles.docs)
    ensures (Given(name) && Given(description) && creator.Some? && articleIds.Some? &&
             creator.value !in users.docs) ==>
      st == NotFound && ensembles.docs == old(ensembles.docs)
    ensures (Given(name) && Given(description) && creator.Some? && articleIds.Some? &&
             creator.value in users.docs && file.Some? && !ImageComplete(file.value)) ==>
      st == BadRequest && ensembles.docs == old(ensembles.docs)
    ensures st == Created <==>
      Given(name) && Given(description) && creator.Some? && articleIds.Some? &&
      creator.value in users.docs && (file.Some? ==> ImageComplete(file.value))
    ensures st == Created ==>
      exists id: Id ::
        id !in old(ensembles.docs) &&
        ensembles.docs == old(ensembles.docs)[id := Ensemble(
          if status.Some? then status.value else true, name.value, description.value,
          creator.value, Store.KeepExisting(articleIds.value, articles.docs.Keys), file)]
    ensures st != Created ==> ensembles.docs == old(ensembles.docs)
  {
    if !Given(name) || !Given(description) || creator.None? || articleIds.None? {
      return BadRequest;
    }
    if creator.value !in users.docs {
      return NotFound;
    }
    var verified := [];
    if |articleIds.value| > 0 {
      verified := Store.VerifiedIds(articleIds.value, articles.docs);
    }
    if file.Some? && !ImageComplete(file.value) {
      return BadRequest;
    }
    var id := ensembles.Insert(Ensemble(if status.Some? then status.value else true, name.value, description.value,
                                        creator.value, verified, file));
    st := Created;
  }

  /** The ensemble after `updateEnsemble`'s assignments, once every check
      has passed: a non-empty name or description replaces the old one, a
      given creator replaces the old one, a given article list replaces the
      old one wholesale, even when it is empty. */
  function Edited(e: Ensemble, name: Option<string>, description: Option<string>, creator: Option<Id>,
                  articleIds: Option<seq<Id>>): (r: Ensemble)
    ensures r.status == e.status && r.img == e.img
    ensures r.name == (if Given(name) then name.value else e.name)
    ensures r.description == (if Given(description) then description.value else e.description)
    ensures r.creator == (if creator.Some? then creator.value else e.creator)
    ensures r.articles == (if articleIds.Some? then articleIds.value else e.articles)
  {
    e.(name := OrElse(name, e.name), description := OrElse(description, e.description),
       creator := if creator.Some? then creator.value else e.creator,
       articles := if articleIds.Some? then articleIds.value else e.articles)
  }

  /** A body without any field leaves the ensemble as it was. */
  lemma EditedNothing(e: Ensemble, name: Option<string>, description: Option<string>)
    requires !Given(name) && !Given(description)
    ensures Edited(e, name, description, None, None) == e
  {
  }

  /** Applying the same edit twice is applying it once. */
  lemma EditedIdempotent(e: Ensemble, name: Option<string>, description: Option<string>, creator: Option<Id>,
                         articleIds: Option<seq<Id>>)
    ensures var once := Edited(e, name, description, creator, articleIds);
      Edited(once, name, description, creator, articleIds) == once
  {
  }

  /** `updateEnsemble`: every change is made on the loaded document and
      saved once at the end, so an unknown creator or an unknown article id
      answers 404 and leaves the stored ensemble untouched. */
  method UpdateEnsemble(ensembles: Store.Collection<Ensemble>, users: Store.Collection<User>,
                        articles: Store.Collection<Article>, ensembleId: Id, name: Option<string>,
                        description: Option<string>, creator: Option<Id>, articleIds: Option<seq<Id>>)
    returns (st: Status)
    requires ensembles.Valid()
    modifies ensembles
    ensures ensembles.Valid()
    ensures st == Ok || st == NotFound
    ensures st == Ok <==>
      ensembleId in old(ensembles.docs) &&
      (creator.Some? ==> creator.value in users.docs) &&
      (articleIds.Some? ==> forall i :: 0 <= i < |articleIds.value| ==> articleIds.value[i] in articles.docs)
    ensures st == Ok ==>
      ensembles.docs == old(ensembles.docs)[ensembleId := Edited(old(ensembles.docs)[ensembleId], name, description,
                                                                 creator, articleIds)]
    ensures st == NotFound ==> ensembles.docs == old(ensembles.docs)
  {
    if ensembleId !in ensembles.docs {
      return NotFound;
    }
    if creator.Some? && creator.value !in users.docs {
      return NotFound;
    }
    if articleIds.Some? {
      var missing := Store.FirstMissing(articleIds.value, articles.docs);
      if missing.Some? {
        return NotFound;
      }
    }
    ensembles.Put(ensembleId, Edited(ensembles.docs[ensembleId], name, description, creator, articleIds));
    st := Ok;
  }

  /** `deleteEnsemble`: the stored image file is removed from disk when there
      is one, which the model does not follow; the answer is 200 either way. */
  method DeleteEnsemble(ensembles: Store.Collection<Ensemble>, ensembleId: Id) returns (st: Status)
    requires ensembles.Valid()
    modifies ensembles
    ensures ensembles.Valid()
    ensures ensembleId !in old(ensembles.docs) ==> st == NotFound && ensembles.docs == old(ensembles.docs)
    ensures ensembleId in old(ensembles.docs) ==> st == Ok && ensembles.docs == old(ensembles.docs) - {ensembleId}
  {
    if ensembleId !in ensembles.docs {
      return NotFound;
    }
    ensembles.Delete(ensembleId);
    st := Ok;
  }
}
