/** Optional values, used wherever the crawler's source tests an object for
    `None` (a page that could not be downloaded, an element `find` did not
    locate, an attribute a tag does not carry, an article that could not be
    parsed). */
module Options {

  datatype Option<+T> = None | Some(value: T)
}
