/** The customer store behind `CustomerService`: customers keyed by a
    store-assigned id, with no two customers sharing an email. */
module CustomerService {
  import opened Errors
  import opened Entities

  ghost predicate EmailsUnique(customers: map<CustomerId, Customer>)
  {
    forall a, b :: a in customers && b in customers && a != b ==> customers[a].email != customers[b].email
  }

  /** `customerRepository.existsByEmail(email)`. */
  predicate EmailTaken(customers: map<CustomerId, Customer>, email: string): (b: bool)
    ensures b <==> email in (set id | id in customers :: customers[id].email)
  {
    exists id :: id in customers && customers[id].email == email
  }

  class CustomerStore {
    var customers: map<CustomerId, Customer>
    /** The next identity value the database hands out. */
    var nextId: CustomerId

    ghost predicate Valid()
      reads this
    {
      && nextId > 0
      && (forall id :: id in customers ==> 0 < id < nextId && customers[id].customerId == id)
      && EmailsUnique(customers)
    }

    constructor ()
      ensures Valid() && customers == map[] && nextId == 1
    {
      customers := map[];
      nextId := 1;
    }

    /** `createCustomer`: the email must be present and non-blank and not yet
        used; the incoming id is discarded and the store assigns a fresh one. */
    method CreateCustomer(incoming: CustomerInput) returns (r: Result<Customer>)
      requires Valid()
      modifies this
      ensures Valid()
      ensures NullOrBlank(incoming.email) ==> r == Err(EmailRequired)
      ensures !NullOrBlank(incoming.email) && EmailTaken(old(customers), incoming.email.value)
              ==> r == Err(DuplicateResource(EmailInUse(incoming.email.value)))
      ensures r.Ok? <==> !NullOrBlank(incoming.email) && !EmailTaken(old(customers), incoming.email.value)
      ensures r.Err? ==> customers == old(customers) && nextId == old(nextId)
      ensures r.Ok? ==>
                && r.value == Customer(old(nextId), incoming.name, incoming.email.value)
                && old(nextId) !in old(customers)
                && customers == old(customers)[old(nextId) := r.value]
                && nextId == old(nextId) + 1
    {
      if NullOrBlank(incoming.email) {
        return Err(EmailRequired);
      }
      var email := incoming.email.value;
      if EmailTaken(customers, email) {
        return Err(DuplicateResource(EmailInUse(email)));
      }
      // the incoming id is cleared; the identity column supplies the key
      var c := Customer(nextId, incoming.name, email);
      customers := customers[nextId := c];
      nextId := nextId + 1;
      r := Ok(c);
    }

    /** `getById`. */
    method GetById(id: CustomerId) returns (r: Result<Customer>)
      ensures id in customers ==> r == Ok(customers[id])
      ensures id !in customers ==> r == Err(NotFound(CustomerResource, id))
    {
      if id in customers {
        r := Ok(customers[id]);
      } else {
        r := Err(NotFound(CustomerResource, id));
      }
    }

    /** `findByEmail`: the one customer holding that email, if any. */
    method FindByEmail(email: string) returns (r: Option<Customer>)
      requires Valid()
      ensures r.Some? <==> EmailTaken(customers, email)
      ensures r.Some? ==> r.value.customerId in customers && customers[r.value.customerId] == r.value && r.value.email == email
      ensures r.Some? ==> forall id :: id in customers && customers[id].email == email ==> id == r.value.customerId
    {
      if EmailTaken(customers, email) {
        var id :| id in customers && customers[id].email == email;
        r := Some(customers[id]);
      } else {
        r := None;
      }
    }

    /** `updateCustomer`: a present name replaces the old one; a present email
        different from the current one must not be held by anyone. Any error
        rolls the whole update back. */
    method UpdateCustomer(id: CustomerId, incoming: CustomerInput) returns (r: Result<Customer>)
      requires Valid()
      modifies this
      ensures Valid()
      ensures nextId == old(nextId)
      ensures id !in old(customers) ==> r == Err(NotFound(CustomerResource, id))
      ensures r.Err? ==> customers == old(customers)
      ensures id in old(customers) && incoming.email.Some? && incoming.email.value != old(customers)[id].email
              && EmailTaken(old(customers), incoming.email.value)
              ==> r == Err(DuplicateResource(EmailInUse(incoming.email.value)))
      ensures r.Ok? <==> id in old(customers) &&
                         (incoming.email.None? || incoming.email.value == old(customers)[id].email
                          || !EmailTaken(old(customers), incoming.email.value))
      ensures r.Ok? ==>
                && r.value == Customer(id,
                                       if incoming.name.Some? then incoming.name else old(customers)[id].name,
                                       if incoming.email.Some? then incoming.email.value else old(customers)[id].email)
                && customers == old(customers)[id := r.value]
    {
      var found := GetById(id);
      if found.Err? {
        return Err(found.error);
      }
      var existing := found.value;
      if incoming.name.Some? {
        existing := existing.(name := incoming.name);
      }
      if incoming.email.Some? && incoming.email.value != existing.email {
        if EmailTaken(customers, incoming.email.value) {
          return Err(DuplicateResource(EmailInUse(incoming.email.value)));
        }
        existing := existing.(email := incoming.email.value);
      }
      customers := customers[id := existing];
      r := Ok(existing);
    }

    /** `deleteCustomer`: removes exactly the named customer. */
    method DeleteCustomer(id: CustomerId) returns (r: Result<()>)
      requires Valid()
      modifies this
      ensures Valid()
      ensures nextId == old(nextId)
      ensures id !in old(customers) ==> r == Err(NotFound(CustomerResource, id)) && customers == old(customers)
      ensures id in old(customers) ==> r == Ok(()) && customers == old(customers) - {id}
    {
      var found := GetById(id);
      if found.Err? {
        return Err(found.error);
      }
      customers := customers - {id};
      r := Ok(());
    }
  }

  /** An update that keeps or frees the email never breaks uniqueness: the
      only emails an update can install are the customer's own or unused ones. */
  lemma UpdateKeepsEmailsUnique(customers: map<CustomerId, Customer>, id: CustomerId, c: Customer)
    requires EmailsUnique(customers) && id in customers
    requires c.email == customers[id].email || !EmailTaken(customers, c.email)
    ensures EmailsUnique(customers[id := c])
  {
  }
}
