/** Option, standing in for the C# null reference wherever the importer tests `!= null`. */
module Wrappers {
  datatype Option<+T> = None | Some(value: T)
}
