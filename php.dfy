/**
  The PHP scalars that the article code hands to the view helpers: a
  column value is either NULL, a string or an integer.
 */
module Php {
  import opened Wrappers

  datatype Value = Null | Str(s: string) | Int(i: int)

  /** A nullable string column as a PHP value. */
  function OfString(o: Option<string>): Value {
    match o
    case None => Null
    case Some(s) => Str(s)
  }

  /** A nullable integer column as a PHP value. */
  function OfInt(o: Option<int>): Value {
    match o
    case None => Null
    case Some(n) => Int(n)
  }

  /** PHP's string conversion of a nullable string: NULL becomes "". */
  function AsString(o: Option<string>): string {
    o.GetOr("")
  }
}
