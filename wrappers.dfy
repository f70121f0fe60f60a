/** The optional value that stands for JavaScript's `undefined` results
    (`Array.prototype.find` with no match, an absent `receiptImage`). */
module Wrappers {

  datatype Option<+T> = None | Some(value: T)
}
