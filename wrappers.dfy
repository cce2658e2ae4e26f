/** The optional value the scraper returns where Python returns `None`. */
module Wrappers {

  datatype Option<+T> = None | Some(value: T)
}
