/** The colour controller: the capped colour list, creation with the
    name-or-hex conflict rule, update and deletion. */
module Colors {
  import opened Common
  import opened Entities
  import Store

  /** The most colours `getColors` answers with. */
  const ListLimit: nat := 14

  /** `Color.find().limit(14)`: the oldest colours, at most fourteen of them.
      An empty result is still an array, so the not-found branch never runs
      and the answer is always 200. */
  method GetColors(colors: Store.Collection<Color>) returns (st: Status, listed: seq<Id>)
    requires colors.Valid()
    ensures st == Ok
    ensures |listed| <= ListLimit
    ensures listed <= Store.SortedKeys(colors.docs, colors.nextId)
    ensures |listed| < ListLimit ==> listed == Store.SortedKeys(colors.docs, colors.nextId)
    ensures forall i :: 0 <= i < |listed| ==> listed[i] in colors.docs
  {
    var ks := colors.Keys();
    listed := if |ks| <= ListLimit then ks else ks[..ListLimit];
    st := Ok;
  }

  /** The `$or` filter of `createColor`: some colour has this name or this hex. */
  predicate Taken(docs: map<Id, Color>, name: string, hex: string)
  {
    exists k :: k in docs && (docs[k].name == name || docs[k].hex == hex)
  }

  /** `createColor`. */
  method CreateColor(colors: Store.Collection<Color>, name: Option<string>, hex: Option<string>)
    returns (st: Status)
    requires colors.Valid()
    modifies colors
    ensures colors.Valid()
    ensures !Given(name) || !Given(hex) ==> st == BadRequest
    ensures st == Conflict <==> Given(name) && Given(hex) && Taken(old(colors.docs), name.value, hex.value)
    ensures st == Created <==> Given(name) && Given(hex) && !Taken(old(colors.docs), name.value, hex.value)
    ensures st == Created ==>
      exists id: Id :: id !in old(colors.docs) && colors.docs == old(colors.docs)[id := Color(name.value, hex.value)]
    ensures st != Created ==> colors.docs == old(colors.docs)
    ensures st == BadRequest || st == Conflict || st == Created
  {
    if !Given(name) || !Given(hex) {
      return BadRequest;
    }
    var n, h := name.value, hex.value;
    var existing := Store.FindOne(colors, (_: Id, c: Color) => c.name == n || c.hex == h);
    if existing.Some? {
      return Conflict;
    }
    var id := colors.Insert(Color(n, h));
    st := Created;
  }

  /** No two colours share a name, and no two share a hex code. */
  predicate Distinct(docs: map<Id, Color>)
  {
    forall a, b :: a in docs && b in docs && a != b ==> docs[a].name != docs[b].name && docs[a].hex != docs[b].hex
  }

  /** A colour that passes the conflict test keeps the store free of
      duplicate names and hex codes. */
  lemma CreateKeepsDistinct(docs: map<Id, Color>, id: Id, name: string, hex: string)
    requires Distinct(docs) && id !in docs
    requires !Taken(docs, name, hex)
    ensures Distinct(docs[id := Color(name, hex)])
  {
    var docs' := docs[id := Color(name, hex)];
    forall a, b | a in docs' && b in docs' && a != b
      ensures docs'[a].name != docs'[b].name && docs'[a].hex != docs'[b].hex
    {
      if a == id {
        assert b in docs;
      } else if b == id {
        assert a in docs;
      }
    }
  }

  /** `findByIdAndUpdate(colorId, {name, hex})`: fields left undefined are not
      written; no presence or conflict check is made. */
  method UpdateColor(colors: Store.Collection<Color>, colorId: Id, name: Option<string>, hex: Option<string>)
    returns (st: Status)
    requires colors.Valid()
    modifies colors
    ensures colors.Valid()
    ensures colorId !in old(colors.docs) ==> st == NotFound && colors.docs == old(colors.docs)
    ensures colorId in old(colors.docs) ==>
      var c := old(colors.docs)[colorId];
      st == Ok && colors.docs == old(colors.docs)[colorId := Color(
        if name.Some? then name.value else c.name, if hex.Some? then hex.value else c.hex)]
  {
    if colorId !in colors.docs {
      return NotFound;
    }
    var c := colors.docs[colorId];
    colors.Put(colorId, Color(if name.Some? then name.value else c.name, if hex.Some? then hex.value else c.hex));
    st := Ok;
  }

  /** `deleteColor`. */
  method DeleteColor(colors: Store.Collection<Color>, colorId: Id) returns (st: Status)
    requires colors.Valid()
    modifies colors
    ensures colors.Valid()
    ensures colorId !in old(colors.docs) ==> st == NotFound && colors.docs == old(colors.docs)
    ensures colorId in old(colors.docs) ==> st == Ok && colors.docs == old(colors.docs) - {colorId}
  {
    if colorId !in colors.docs {
      return NotFound;
    }
    colors.Delete(colorId);
    st := Ok;
  }
}
