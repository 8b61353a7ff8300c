/** The catalog controller: the catalog list with its per-catalog article
    count and count filter, creation with the duplicate-name rule, update,
    the status toggle and deletion. */
module Catalogs {
  import opened Common
  import opened Entities
  import Store
  import Decimal

  /** A catalog as `getCatalogs` answers it: the stored document plus the
      number of articles it lists. */
  datatype Listed = Listed(id: Id, catalog: Catalog, numberArticles: int)

  /** `catalogs.map(c => ({...c, numberArticles: c.articles.length}))`. */
  function WithCounts(docs: map<Id, Catalog>, ks: seq<Id>): (r: seq<Listed>)
    requires forall i :: 0 <= i < |ks| ==> ks[i] in docs
    ensures |r| == |ks|
    ensures forall i :: 0 <= i < |ks| ==>
      r[i].id == ks[i] && r[i].catalog == docs[ks[i]] && r[i].numberArticles == |docs[ks[i]].articles|
  {
    if ks == [] then []
    else [Listed(ks[0], docs[ks[0]], |docs[ks[0]].articles|)] + WithCounts(docs, ks[1..])
  }

  /** `catalogs.filter(c => c.numberArticles === n)`. */
  function KeepCount(xs: seq<Listed>, n: int): (r: seq<Listed>)
    ensures |r| <= |xs|
    ensures forall i :: 0 <= i < |r| ==> r[i] in xs && r[i].numberArticles == n
  {
    if xs == [] then []
    else (if xs[0].numberArticles == n then [xs[0]] else []) + KeepCount(xs[1..], n)
  }

  lemma {:induction false} KeepCountMembers(xs: seq<Listed>, n: int)
    ensures forall x :: x in KeepCount(xs, n) <==> x in xs && x.numberArticles == n
  {
    if xs != [] {
      KeepCountMembers(xs[1..], n);
      assert xs == [xs[0]] + xs[1..];
    }
  }

  /** The filter keeps the relative order: filtering a concatenation is
      concatenating the filtered parts. */
  lemma {:induction false} KeepCountConcat(xs: seq<Listed>, ys: seq<Listed>, n: int)
    ensures KeepCount(xs + ys, n) == KeepCount(xs, n) + KeepCount(ys, n)
  {
    if xs == [] {
      assert xs + ys == ys;
    } else {
      ConsConcat(xs, ys);
      KeepCountConcat(xs[1..], ys, n);
      var head := if xs[0].numberArticles == n then [xs[0]] else [];
      calc {
        KeepCount(xs + ys, n);
        head + KeepCount(xs[1..] + ys, n);
        head + (KeepCount(xs[1..], n) + KeepCount(ys, n));
        (head + KeepCount(xs[1..], n)) + KeepCount(ys, n);
        KeepCount(xs, n) + KeepCount(ys, n);
      }
    }
  }

  /** What `getCatalogs` answers for the stored catalogs `ks`, newest first:
      every catalog with its count, narrowed to one count when the query
      gives `nombreArticles`; a value that does not parse matches nothing. */
  function Listing(docs: map<Id, Catalog>, ks: seq<Id>, nombreArticles: Option<string>): (r: seq<Listed>)
    requires forall i :: 0 <= i < |ks| ==> ks[i] in docs
    ensures |r| <= |ks|
    ensures forall i :: 0 <= i < |r| ==>
      r[i].id in docs && r[i].catalog == docs[r[i].id] && r[i].numberArticles == |docs[r[i].id].articles|
    ensures nombreArticles.None? ==> |r| == |ks|
  {
    var counted := WithCounts(docs, ks);
    if nombreArticles.None? then counted
    else
      match Decimal.ParseInt(nombreArticles.value)
      case None => []
      case Some(n) => KeepCount(counted, n)
  }

  /** With a count filter, exactly the catalogs with that many articles are
      kept; an unparsable filter keeps none. */
  lemma ListingFiltered(docs: map<Id, Catalog>, ks: seq<Id>, nombreArticles: string)
    requires forall i :: 0 <= i < |ks| ==> ks[i] in docs
    ensures forall x :: x in Listing(docs, ks, Some(nombreArticles)) <==>
      x in WithCounts(docs, ks) && Decimal.ParseInt(nombreArticles).Some? &&
      x.numberArticles == Decimal.ParseInt(nombreArticles).value
  {
    KeepCountMembers(WithCounts(docs, ks), if Decimal.ParseInt(nombreArticles).Some? then Decimal.ParseInt(nombreArticles).value else 0);
  }

  /** `getCatalogs` without the name search: 404 only when there is no
      catalog at all; a filter that keeps nothing still answers 200. */
  method GetCatalogs(catalogs: Store.Collection<Catalog>, nombreArticles: Option<string>)
    returns (st: Status, listed: seq<Listed>)
    requires catalogs.Valid()
    ensures st == NotFound <==> catalogs.docs == map[]
    ensures st == NotFound || st == Ok
    ensures st == NotFound ==> listed == []
    ensures st == Ok ==>
      listed == Listing(catalogs.docs, Store.Reverse(Store.SortedKeys(catalogs.docs, catalogs.nextId)), nombreArticles)
  {
    var ks := catalogs.Keys();
    Store.SortedKeysMembers(catalogs.docs, catalogs.nextId);
    if ks == [] {
      assert forall k :: k !in catalogs.docs;
      return NotFound, [];
    }
    assert ks[0] in catalogs.docs;
    var newestFirst := Store.Reverse(ks);
    listed := WithCounts(catalogs.docs, newestFirst);
    if nombreArticles.Some? {
      var wanted := Decimal.ParseInt(nombreArticles.value);
      listed := if wanted.None? then [] else KeepCount(listed, wanted.value);
    }
    st := Ok;
  }

  /** `createCatalog`: a non-empty name and description are required, and a
      catalog with the same name is a conflict; success answers 200. */
  method CreateCatalog(catalogs: Store.Collection<Catalog>, status: Option<bool>, name: Option<string>,
                       description: Option<string>) returns (st: Status)
    requires catalogs.Valid()
    modifies catalogs
    ensures catalogs.Valid()
    ensures !Given(name) || !Given(description) ==> st == BadRequest && catalogs.docs == old(catalogs.docs)
    ensures (Given(name) && Given(description) && exists k :: k in old(catalogs.docs) && old(catalogs.docs)[k].name == name.value) ==>
      st == Conflict && catalogs.docs == old(catalogs.docs)
    ensures st == Ok <==>
      Given(name) && Given(description) && forall k :: k in old(catalogs.docs) ==> old(catalogs.docs)[k].name != name.value
    ensures st == Ok ==>
      exists id: Id ::
        id !in old(catalogs.docs) &&
        catalogs.docs == old(catalogs.docs)[id := Catalog(if status.Some? then status.value else true,
                                                          name.value, description.value, [])]
    ensures st != Ok ==> catalogs.docs == old(catalogs.docs)
  {
    if !Given(name) || !Given(description) {
      return BadRequest;
    }
    var taken := NameTaken(catalogs, name.value);
    if taken {
      return Conflict;
    }
    var id := catalogs.Insert(Catalog(if status.Some? then status.value else true, name.value, description.value, []));
    st := Ok;
  }

  /** `Catalog.findOne({name})`: is the name used by some catalog? */
  method NameTaken(catalogs: Store.Collection<Catalog>, name: string) returns (taken: bool)
    requires catalogs.Valid()
    ensures taken <==> exists k :: k in catalogs.docs && catalogs.docs[k].name == name
  {
    var existing := Store.FindOne(catalogs, (_: Id, c: Catalog) => c.name == name);
    taken := existing.Some?;
  }

  /** `updateCatalog`: `findByIdAndUpdate` with name, description and status,
      the ones absent from the body left as they are. */
  method UpdateCatalog(catalogs: Store.Collection<Catalog>, catalogId: Id, name: Option<string>,
                       description: Option<string>, status: Option<bool>) returns (st: Status)
    requires catalogs.Valid()
    modifies catalogs
    ensures catalogs.Valid()
    ensures catalogId !in old(catalogs.docs) ==> st == NotFound && catalogs.docs == old(catalogs.docs)
    ensures catalogId in old(catalogs.docs) ==>
      var c := old(catalogs.docs)[catalogId];
      st == Ok && catalogs.docs == old(catalogs.docs)[catalogId := c.(
        name := if name.Some? then name.value else c.name,
        description := if description.Some? then description.value else c.description,
        status := if status.Some? then status.value else c.status)]
  {
    if catalogId !in catalogs.docs {
      return NotFound;
    }
    var c := catalogs.docs[catalogId];
    catalogs.Put(catalogId, c.(name := if name.Some? then name.value else c.name,
                               description := if description.Some? then description.value else c.description,
                               status := if status.Some? then status.value else c.status));
    st := Ok;
  }

  /** `toggleStatus`: flips the catalog's `status`. */
  method ToggleStatus(catalogs: Store.Collection<Catalog>, catalogId: Id) returns (st: Status)
    requires catalogs.Valid()
    modifies catalogs
    ensures catalogs.Valid()
    ensures catalogId !in old(catalogs.docs) ==> st == NotFound && catalogs.docs == old(catalogs.docs)
    ensures catalogId in old(catalogs.docs) ==>
      st == Ok && catalogs.docs == old(catalogs.docs)[catalogId := old(catalogs.docs)[catalogId].(
        status := !old(catalogs.docs)[catalogId].status)]
  {
    if catalogId !in catalogs.docs {
      return NotFound;
    }
    var c := catalogs.docs[catalogId];
    catalogs.Put(catalogId, c.(status := !c.status));
    st := Ok;
  }

  /** `deleteCatalog`: the catalog goes; its articles keep pointing at it. */
  method DeleteCatalog(catalogs: Store.Collection<Catalog>, catalogId: Id) returns (st: Status)
    requires catalogs.Valid()
    modifies catalogs
    ensures catalogs.Valid()
    ensures catalogId !in old(catalogs.docs) ==> st == NotFound && catalogs.docs == old(catalogs.docs)
    ensures catalogId in old(catalogs.docs) ==> st == Ok && catalogs.docs == old(catalogs.docs) - {catalogId}
  {
    if catalogId !in catalogs.docs {
      return NotFound;
    }
    catalogs.Delete(catalogId);
    st := Ok;
  }
}
