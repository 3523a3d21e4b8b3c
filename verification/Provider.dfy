/** What the DNS adapters share: records have ids, calls can fail in two ways, and runs end in three. */
module Provider {

  type Id = nat

  // A call that takes effect and says so, one that takes effect and is reported as failed, and
  // one that fails without effect.
  datatype Fate = Done | Unreported | Refused

  datatype Outcome = Synced | NothingWanted | Failed
}
