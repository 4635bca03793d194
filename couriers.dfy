/** Courier assignment: the scan of a restaurant's roster for the first
    courier tagged "Assigned" (the tag the restaurant service writes when it
    attaches a courier to a restaurant, meaning available), and the profile
    lookup that fills the order's courier columns. */
module Couriers {
  import opened Errors
  import opened Schema

  /** The first roster entry tagged "Assigned", if any. */
  function FirstAssigned(roster: seq<RosterEntry>): (c: Option<CourierId>)
    ensures c.None? <==> forall i :: 0 <= i < |roster| ==> roster[i].tag != AssignedTag
    ensures c.Some? ==> exists i :: 0 <= i < |roster| && roster[i].courier == c.value && roster[i].tag == AssignedTag
                                    && forall j :: 0 <= j < i ==> roster[j].tag != AssignedTag
  {
    if roster == [] then None
    else if roster[0].tag == AssignedTag then Some(roster[0].courier)
    else
      var c := FirstAssigned(roster[1..]);
      assert forall i :: 1 <= i < |roster| ==> roster[i] == roster[1..][i - 1];
      if c.Some? then
        ghost var k :| 0 <= k < |roster[1..]| && roster[1..][k].courier == c.value && roster[1..][k].tag == AssignedTag
                       && forall j :: 0 <= j < k ==> roster[1..][j].tag != AssignedTag;
        assert roster[k + 1] == roster[1..][k];
        c
      else c
  }

  /** The scan loop of order creation: entries are visited in roster order
      and the loop breaks at the first one tagged "Assigned". */
  method PickCourier(roster: seq<RosterEntry>) returns (c: Option<CourierId>)
    ensures c == FirstAssigned(roster)
  {
    c := None;
    var i := 0;
    while i < |roster|
      invariant 0 <= i <= |roster|
      invariant FirstAssigned(roster[i..]) == FirstAssigned(roster)
    {
      if roster[i].tag == AssignedTag {
        c := Some(roster[i].courier);
        break;
      }
      assert roster[i..][1..] == roster[i + 1..];
      i := i + 1;
    }
    if i == |roster| {
      assert roster[i..] == [];
    }
  }

  /** The courier columns of a new order: the chosen courier's id, name and
      phone when a profile exists, and all three null when it does not (a
      missing profile is not an error). */
  function CourierDetails(couriers: map<CourierId, Courier>, courier: CourierId): (f: CourierFields)
    ensures f.id.Some? <==> courier in couriers
    ensures f.id.Some? ==> f.id.value == courier && f.name.Some? && f.phone.Some?
    ensures courier !in couriers ==> f.name.None? && f.phone.None?
    ensures courier in couriers ==> f == CourierFields(Some(courier), Some(couriers[courier].name), Some(couriers[courier].phone))
  {
    if courier in couriers then CourierFields(Some(courier), Some(couriers[courier].name), Some(couriers[courier].phone))
    else CourierFields(None, None, None)
  }
}
