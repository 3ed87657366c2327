/** The optional value shared by the hub, the reconciler and the report: a
 * missing dictionary key, an absent id or a lookup that found nothing. */
module Wrappers {
  datatype Option<+T> = None | Some(value: T)
}
