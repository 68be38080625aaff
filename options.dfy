/** A value that may be absent: a field missing from a JSON body, or a search that found nothing. */
module Options {

  datatype Option<+T> = None | Some(value: T)

}
