/**
 * `Customer`, the Customers module's entity: its fields and the two status
 * transitions.
 */
module CustomersDomain {
  import opened Values

  /** `CustomerStatus`: a new customer is pending until activated. */
  datatype CustomerStatus = Pending | Active | Inactive

  /** The fields of a customer at one moment, as the read side and the mappings see them. */
  datatype CustomerRecord = CustomerRecord(id: Guid, name: string, email: string, status: CustomerStatus, createdAt: DateTime)

  class Customer {
    var id: Guid
    var name: string
    var email: string
    var status: CustomerStatus
    var createdAt: DateTime

    function Record(): CustomerRecord
      reads this
    {
      CustomerRecord(id, name, email, status, createdAt)
    }

    /** `new Customer(id, name, email, status)`, created at the instant `createdAt` (the source reads the clock). */
    constructor (id: Guid, name: string, email: string, status: CustomerStatus, createdAt: DateTime)
      ensures Record() == CustomerRecord(id, name, email, status, createdAt)
    {
      this.id := id;
      this.name := name;
      this.email := email;
      this.status := status;
      this.createdAt := createdAt;
    }

    /** From any status to `Active`; nothing else changes, so a second call changes nothing. */
    method Activate()
      modifies this
      ensures status == Active
      ensures id == old(id) && name == old(name) && email == old(email) && createdAt == old(createdAt)
    {
      status := Active;
    }

    /** From any status to `Inactive`; nothing else changes, so a second call changes nothing. */
    method Deactivate()
      modifies this
      ensures status == Inactive
      ensures id == old(id) && name == old(name) && email == old(email) && createdAt == old(createdAt)
    {
      status := Inactive;
    }
  }
}
