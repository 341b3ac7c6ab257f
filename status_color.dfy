/**
 * The badge colour of an order status on the client. The helper is a chain
 * of comparisons whose last arm yields `false` for any other value; `None`
 * stands for that `false`.
 */
module StatusColor {
  import opened Wrappers
  import opened OrderStatuses

  function GetStatusColor(status: string): Option<string> {
    if status == Name(Confirmed) then Some("primary")
    else if status == Name(Pending) then Some("secondary")
    else if status == Name(Cancelled) then Some("danger")
    else if status == Name(Delivered) then Some("success")
    else if status == Name(Packed) then Some("info")
    else if status == Name(OutForDelivery) then Some("warning")
    else None
  }

  /** The colour of each of the six statuses. */
  lemma StatusColors()
    ensures GetStatusColor("Confirmed") == Some("primary") && GetStatusColor("Pending") == Some("secondary")
    ensures GetStatusColor("Cancelled") == Some("danger") && GetStatusColor("Delivered") == Some("success")
    ensures GetStatusColor("Packed") == Some("info") && GetStatusColor("Out for Delivery") == Some("warning")
  {
  }

  /** Exactly the six status values get a colour, and no two of them share one. */
  lemma StatusColorSpec(t: string, s1: Status, s2: Status)
    ensures GetStatusColor(t).Some? <==> Parse(t).Some?
    ensures GetStatusColor(Name(s1)) == GetStatusColor(Name(s2)) ==> s1 == s2
  {
  }
}
