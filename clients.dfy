/** The client controller: creation with its presence checks and the
    duplicate-email rule, the partial update, the status toggle and
    deletion. */
module Clients {
  import opened Common
  import opened Entities
  import Store

  /** The body of an `addClient` request. */
  datatype NewClientBody = NewClientBody(
    firstName: Option<string>,
    lastName: Option<string>,
    email: Option<string>,
    phone: Option<string>,
    typeClient: Option<string>,
    address: Option<string>,
    status: Option<bool>)

  predicate Complete(b: NewClientBody)
  {
    Given(b.firstName) && Given(b.lastName) && Given(b.email) && Given(b.phone) &&
    Given(b.typeClient) && Given(b.address)
  }

  predicate EmailUsed(docs: map<Id, Client>, email: string)
  {
    exists k :: k in docs && docs[k].email == email
  }

  /** `addClient`: six fields are required; a client with the same email is a
      conflict; the status defaults to active. */
  method AddClient(clients: Store.Collection<Client>, b: NewClientBody) returns (st: Status)
    requires clients.Valid()
    modifies clients
    ensures clients.Valid()
    ensures !Complete(b) ==> st == BadRequest
    ensures st == Conflict <==> Complete(b) && EmailUsed(old(clients.docs), b.email.value)
    ensures st == Created <==> Complete(b) && !EmailUsed(old(clients.docs), b.email.value)
    ensures st == Created ==>
      exists id: Id ::
        id !in old(clients.docs) &&
        clients.docs == old(clients.docs)[id := Client(b.firstName.value, b.lastName.value, b.typeClient.value,
          b.phone.value, if b.status.Some? then b.status.value else true, b.email.value, b.address)]
    ensures st != Created ==> clients.docs == old(clients.docs)
    ensures st == BadRequest || st == Conflict || st == Created
  {
    if !Complete(b) {
      return BadRequest;
    }
    var email := b.email.value;
    var existing := Store.FindOne(clients, (_: Id, c: Client) => c.email == email);
    if existing.Some? {
      return Conflict;
    }
    var id := clients.Insert(Client(b.firstName.value, b.lastName.value, b.typeClient.value, b.phone.value,
                                    if b.status.Some? then b.status.value else true, email, b.address));
    st := Created;
  }

  /** No two clients share an email. */
  predicate UniqueEmails(docs: map<Id, Client>)
  {
    forall a, b :: a in docs && b in docs && docs[a].email == docs[b].email ==> a == b
  }

  /** A client that passes the duplicate-email check keeps emails unique. */
  lemma AddKeepsUniqueEmails(docs: map<Id, Client>, id: Id, c: Client)
    requires UniqueEmails(docs) && id !in docs
    requires !EmailUsed(docs, c.email)
    ensures UniqueEmails(docs[id := c])
  {
    var docs' := docs[id := c];
    forall a, b | a in docs' && b in docs' && a != b
      ensures docs'[a].email != docs'[b].email
    {
      if a == id {
        assert docs[b].email != c.email;
      } else if b == id {
        assert docs[a].email != c.email;
      }
    }
  }

  /** The body of an `updateClient` request (its `password` field is left
      out: the schema has no such path, so the hash is never stored). */
  datatype ClientEdit = ClientEdit(
    firstName: Option<string>,
    lastName: Option<string>,
    email: Option<string>,
    phone: Option<string>,
    typeClient: Option<string>,
    address: Option<string>)

  /** The client after `updateClient`'s assignments. The given first and
      last names go to `client.name`, which the schema does not have, so
      they are dropped on save and the stored names never change. */
  function Edited(c: Client, e: ClientEdit): (r: Client)
    ensures r.firstName == c.firstName && r.lastName == c.lastName && r.status == c.status
    ensures r.email == OrElse(e.email, c.email) && r.phone == OrElse(e.phone, c.phone)
    ensures r.typeClient == OrElse(e.typeClient, c.typeClient)
    ensures r.address == (if Given(e.address) then e.address else c.address)
  {
    c.(email := OrElse(e.email, c.email), phone := OrElse(e.phone, c.phone),
       typeClient := OrElse(e.typeClient, c.typeClient),
       address := if Given(e.address) then e.address else c.address)
  }

  /** An edit that gives nothing but names leaves the client as it was. */
  lemma EditNamesOnly(c: Client, firstName: Option<string>, lastName: Option<string>)
    ensures Edited(c, ClientEdit(firstName, lastName, None, None, None, None)) == c
  {
  }

  /** `updateClient`. */
  method UpdateClient(clients: Store.Collection<Client>, clientId: Id, e: ClientEdit) returns (st: Status)
    requires clients.Valid()
    modifies clients
    ensures clients.Valid()
    ensures clientId !in old(clients.docs) ==> st == NotFound && clients.docs == old(clients.docs)
    ensures clientId in old(clients.docs) ==>
      st == Ok && clients.docs == old(clients.docs)[clientId := Edited(old(clients.docs)[clientId], e)]
  {
    if clientId !in clients.docs {
      return NotFound;
    }
    clients.Put(clientId, Edited(clients.docs[clientId], e));
    st := Ok;
  }

  /** `toggleStatus`. */
  method ToggleStatus(clients: Store.Collection<Client>, clientId: Id) returns (st: Status)
    requires clients.Valid()
    modifies clients
    ensures clients.Valid()
    ensures clientId !in old(clients.docs) ==> st == NotFound && clients.docs == old(clients.docs)
    ensures clientId in old(clients.docs) ==>
      st == Ok &&
      clients.docs == old(clients.docs)[clientId := old(clients.docs)[clientId].(status := !old(clients.docs)[clientId].status)]
  {
    if clientId !in clients.docs {
      return NotFound;
    }
    var c := clients.docs[clientId];
    clients.Put(clientId, c.(status := !c.status));
    st := Ok;
  }

  /** `deleteClient`. */
  method DeleteClient(clients: Store.Collection<Client>, clientId: Id) returns (st: Status)
    requires clients.Valid()
    modifies clients
    ensures clients.Valid()
    ensures clientId !in old(clients.docs) ==> st == NotFound && clients.docs == old(clients.docs)
    ensures clientId in old(clients.docs) ==> st == Ok && clients.docs == old(clients.docs) - {clientId}
  {
    if clientId !in clients.docs {
      return NotFound;
    }
    clients.Delete(clientId);
    st := Ok;
  }
}
