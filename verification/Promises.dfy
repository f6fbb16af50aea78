/** Promises of something created elsewhere, as far as sharing them is concerned. */
module Promises {
  datatype Promise = Unsettled | Fulfilled | RejectedPromise
}
