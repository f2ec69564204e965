/** Values several parts of the pipeline share. */
module Contracts {

  datatype Shape = Shape(height: nat, width: nat, channels: nat)

  /** An image: its shape and its pixels, which nothing here interprets. */
  datatype Frame = Frame(shape: Shape, pixels: seq<nat>)

  datatype DropPolicy = DropOldest | DropNewest | Block
}
