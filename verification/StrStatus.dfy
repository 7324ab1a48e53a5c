// The public result codes of the string library.
module StrStatus {
  datatype Status = Ok | ErrArg | ErrAlloc | ErrRange | ErrOverflow
}
