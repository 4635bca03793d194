/** Role checks on the caller.  The caller's identity (decoded from a bearer
    token elsewhere) is an input; the customers table supplies the integer
    `worker` and `admin` flags, and only the value 1 grants the role. */
module Access {
  import opened Errors
  import opened Schema

  predicate IsWorker(customers: map<CustomerId, Customer>, caller: CustomerId) {
    caller in customers && customers[caller].worker == 1
  }

  predicate IsAdmin(customers: map<CustomerId, Customer>, caller: CustomerId) {
    caller in customers && customers[caller].admin == 1
  }

  /** The worker dependency of the privileged order endpoints: the caller
      passes through unchanged, or is refused with 403 when their record is
      missing or their flag is anything but 1. */
  function VerifyWorker(customers: map<CustomerId, Customer>, caller: CustomerId): (r: Result<CustomerId>)
    ensures r.Ok? <==> caller in customers && customers[caller].worker == 1
    ensures r.Ok? ==> r.value == caller
    ensures r.Fail? ==> r.error == Error(WorkerRequired, 403)
  {
    if IsWorker(customers, caller) then Ok(caller) else Fail(Error(WorkerRequired, 403))
  }
}
