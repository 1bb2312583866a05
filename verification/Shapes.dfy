/** Array shapes, and the views of array data that kernels receive. */
module Shapes {
  type Shape = seq<nat>

  /** An array as its strides address it. */
  datatype View = View(shape: Shape, strides: seq<int>)

  predicate ValidView(v: View) {
    |v.strides| == |v.shape|
  }
}
