/** The result of looking something up in a list. */
module Search {
  datatype Found<+T> = Missing | At(item: T)
}
