/** The statuses of a dataset. */
module DatasetStatus {

  datatype Status = Building | Validated | Active | Retired | Failed

  /** The transitions that the status trigger lets through. */
  predicate MayFollow(old_status: Status, new_status: Status) {
    || old_status == new_status
    || (old_status == Building && new_status in {Validated, Failed})
    || (old_status == Validated && new_status in {Active, Failed})
    || (old_status == Active && new_status == Retired)
  }
}
