/** Pointers into a sequence of cells. */
module Pointers {
  datatype Ptr = Null | At(addr: nat)

  function First(links: seq<nat>): Ptr {
    if |links| == 0 then Null else At(links[0])
  }
}
