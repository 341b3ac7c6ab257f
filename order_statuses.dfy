/**
 * The order-status values and the user roles of the client's constants file
 * (`SD_Status`, `SD_Roles`). The server stores the status as free text; the
 * client knows exactly these six values.
 */
module OrderStatuses {
  import opened Wrappers

  datatype Status = Pending | Confirmed | Packed | OutForDelivery | Delivered | Cancelled

  /** The string value of each `SD_Status` member. */
  function Name(s: Status): string {
    match s
    case Pending => "Pending"
    case Confirmed => "Confirmed"
    case Packed => "Packed"
    case OutForDelivery => "Out for Delivery"
    case Delivered => "Delivered"
    case Cancelled => "Cancelled"
  }

  /** The status whose string value is `t`, if any. */
  function Parse(t: string): Option<Status> {
    if t == "Pending" then Some(Pending)
    else if t == "Confirmed" then Some(Confirmed)
    else if t == "Packed" then Some(Packed)
    else if t == "Out for Delivery" then Some(OutForDelivery)
    else if t == "Delivered" then Some(Delivered)
    else if t == "Cancelled" then Some(Cancelled)
    else None
  }

  /** `Parse` and `Name` are inverse: every value is named by exactly one string. */
  lemma ParseName(s: Status, t: string)
    ensures Parse(Name(s)) == Some(s)
    ensures Parse(t) == Some(s) <==> t == Name(s)
  {
  }

  /** Delivered and Cancelled are the states nothing may leave. */
  predicate IsTerminal(s: Status) {
    s == Delivered || s == Cancelled
  }

  const AdminRole: string := "admin"
  const CustomerRole: string := "customer"
}
